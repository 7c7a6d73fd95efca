/** utils/entities.py: the two score schemas the judge model must answer
    in, as pydantic validates them, and the quantitative result record.
    The JSON text itself is decoded elsewhere; here a decoded object is
    a record of fields, each missing, null or given. */
module Entities {
  import opened Wrappers

  /** A JSON object member: absent, `null`, or a value. */
  datatype Field<T> = Missing | Null | Given(value: T)

  /** `Field(ge=1, le=5)` */
  predicate InScale(v: int) {
    1 <= v <= 5
  }

  /** An `int` field with bounds: present, not null, in [1, 5]. */
  predicate ValidMark(f: Field<int>) {
    f.Given? && InScale(f.value)
  }

  /** The four marks both schemas share. */
  datatype Marks = Marks(accuracy: int, completeness: int, usefulness: int, readability: int)

  predicate ValidMarks(m: Marks) {
    InScale(m.accuracy) && InScale(m.completeness) && InScale(m.usefulness) && InScale(m.readability)
  }

  // ---------------------------------------------------------------------------
  // DetailedRq1Score

  /** A decoded JSON object, as far as `DetailedRq1Score` reads it. */
  datatype Rq1Json = Rq1Json(
    accuracy: Field<int>, completeness: Field<int>, usefulness: Field<int>, readability: Field<int>,
    technicalDepth: Field<int>, justification: Field<string>)

  datatype Rq1Score = Rq1Score(marks: Marks, technicalDepth: Option<int>, justification: Option<string>)

  predicate ValidRq1(s: Rq1Score) {
    ValidMarks(s.marks) && (s.technicalDepth.Some? ==> InScale(s.technicalDepth.value))
  }

  /** `DetailedRq1Score.model_validate`: the four marks are required ints
      in [1, 5]; `technical_depth` defaults to None and, when given, is in
      [1, 5]; `justification` may be null but, having no default, must be
      present. */
  function ValidateRq1(j: Rq1Json): (r: Option<Rq1Score>)
    ensures r.Some? <==>
      (&& ValidMark(j.accuracy) && ValidMark(j.completeness) && ValidMark(j.usefulness) && ValidMark(j.readability)
       && (j.technicalDepth.Given? ==> InScale(j.technicalDepth.value))
       && !j.justification.Missing?)
    ensures r.Some? ==> ValidRq1(r.value)
    ensures r.Some? ==> (r.value.technicalDepth.None? <==> !j.technicalDepth.Given?)
  {
    if && ValidMark(j.accuracy) && ValidMark(j.completeness) && ValidMark(j.usefulness) && ValidMark(j.readability)
       && (j.technicalDepth.Given? ==> InScale(j.technicalDepth.value))
       && !j.justification.Missing?
    then
      Some(Rq1Score(
        Marks(j.accuracy.value, j.completeness.value, j.usefulness.value, j.readability.value),
        if j.technicalDepth.Given? then Some(j.technicalDepth.value) else None,
        if j.justification.Given? then Some(j.justification.value) else None))
    else None
  }

  /** `model_dump()`: every field written out, None as null. A valid score
      survives a dump and a validation unchanged; an invalid one is
      refused. */
  function DumpRq1(s: Rq1Score): (r: Rq1Json)
    ensures ValidateRq1(r) == (if ValidRq1(s) then Some(s) else None)
  {
    Rq1Json(
      Given(s.marks.accuracy), Given(s.marks.completeness), Given(s.marks.usefulness), Given(s.marks.readability),
      if s.technicalDepth.Some? then Given(s.technicalDepth.value) else Null,
      if s.justification.Some? then Given(s.justification.value) else Null)
  }

  /** Leaving `justification` out is an error for this schema, though
      leaving `technical_depth` out is not. */
  lemma Rq1JustificationRequired(m: Marks, depth: Field<int>)
    requires ValidMarks(m)
    ensures ValidateRq1(Rq1Json(Given(m.accuracy), Given(m.completeness), Given(m.usefulness), Given(m.readability),
                                depth, Missing)).None?
    ensures ValidateRq1(Rq1Json(Given(m.accuracy), Given(m.completeness), Given(m.usefulness), Given(m.readability),
                                Missing, Null)) == Some(Rq1Score(m, None, None))
  {
  }

  // ---------------------------------------------------------------------------
  // DetailedRq2Score

  /** A decoded JSON object, as far as `DetailedRq2Score` reads it. */
  datatype Rq2Json = Rq2Json(
    accuracy: Field<int>, completeness: Field<int>, usefulness: Field<int>, readability: Field<int>,
    isHallucinated: Field<string>, justification: Field<string>)

  datatype Rq2Score = Rq2Score(marks: Marks, isHallucinated: string, justification: Option<string>)

  /** `pattern=r'^(YES|NO|PARTIALLY)$'` */
  predicate HallucinationVerdict(s: string) {
    s == "YES" || s == "NO" || s == "PARTIALLY"
  }

  predicate ValidRq2(s: Rq2Score) {
    ValidMarks(s.marks) && HallucinationVerdict(s.isHallucinated)
  }

  /** `DetailedRq2Score.model_validate`: the same four marks, a required
      `is_hallucinated` among YES, NO and PARTIALLY, and a `justification`
      that defaults to None. */
  function ValidateRq2(j: Rq2Json): (r: Option<Rq2Score>)
    ensures r.Some? <==>
      (&& ValidMark(j.accuracy) && ValidMark(j.completeness) && ValidMark(j.usefulness) && ValidMark(j.readability)
       && j.isHallucinated.Given? && HallucinationVerdict(j.isHallucinated.value))
    ensures r.Some? ==> ValidRq2(r.value)
    ensures r.Some? ==> (r.value.justification.None? <==> !j.justification.Given?)
  {
    if && ValidMark(j.accuracy) && ValidMark(j.completeness) && ValidMark(j.usefulness) && ValidMark(j.readability)
       && j.isHallucinated.Given? && HallucinationVerdict(j.isHallucinated.value)
    then
      Some(Rq2Score(
        Marks(j.accuracy.value, j.completeness.value, j.usefulness.value, j.readability.value),
        j.isHallucinated.value,
        if j.justification.Given? then Some(j.justification.value) else None))
    else None
  }

  /** `model_dump()`, with the same round trip. */
  function DumpRq2(s: Rq2Score): (r: Rq2Json)
    ensures ValidateRq2(r) == (if ValidRq2(s) then Some(s) else None)
  {
    Rq2Json(
      Given(s.marks.accuracy), Given(s.marks.completeness), Given(s.marks.usefulness), Given(s.marks.readability),
      Given(s.isHallucinated),
      if s.justification.Some? then Given(s.justification.value) else Null)
  }

  /** Only the three verdicts pass, compared exactly: a lower-case or
      padded answer is refused. */
  lemma Rq2VerdictExact(m: Marks, verdict: string)
    requires ValidMarks(m)
    ensures ValidateRq2(Rq2Json(Given(m.accuracy), Given(m.completeness), Given(m.usefulness), Given(m.readability),
                                Given(verdict), Missing)).Some?
      <==> verdict in ["YES", "NO", "PARTIALLY"]
  {
  }

  // ---------------------------------------------------------------------------
  // The judge's reply

  /** A response of the judge model: its raw text and, when that text is a
      JSON object, the object decoded. */
  datatype Reply<J> = Reply(text: string, decoded: Option<J>)

  /** `DetailedRq1Score.model_validate_json(response.text)`: text that is
      not a JSON object fails like an object that does not validate. */
  function ParseRq1(reply: Reply<Rq1Json>): Option<Rq1Score> {
    if reply.decoded.Some? then ValidateRq1(reply.decoded.value) else None
  }

  function ParseRq2(reply: Reply<Rq2Json>): Option<Rq2Score> {
    if reply.decoded.Some? then ValidateRq2(reply.decoded.value) else None
  }

  // ---------------------------------------------------------------------------
  // The stored records the evaluations read

  /** `Summary`, as far as the evaluation reads it. */
  datatype Summary = Summary(id: int, commitId: int, summary: string, techSummary: string)

  /** `Commit`, the stored commit (distinct from the enrichment record). */
  datatype StoredCommit = StoredCommit(id: int, hash: string, message: string, diffs: string)

  /** `QuestionAnswer`, one answer of a chat pipeline to a benchmark
      question. */
  datatype QuestionAnswer = QuestionAnswer(questionId: int, question: string, answerId: int, answer: string)

  // ---------------------------------------------------------------------------
  // DetailedRq1QuantitativeResults

  /** The record built at lines 7-17; the constructor's `rouge_l` argument
      is the `rougeL` field (the source's attribute `rouge_L`). */
  datatype Rq1Quantitative = Rq1Quantitative(
    commitId: int, summaryType: string, rouge1: real, rouge2: real, rougeL: real,
    bleu: real, meteor: real, bertPrecision: real, bertRecall: real, bertF1: real)
}
