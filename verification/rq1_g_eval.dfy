/** validation/rq1_g_eval.py: the judge model grades every generated
    summary, general and technical, and each grade becomes one stored
    evaluation. The judge is a parameter. */
module Rq1GEval {
  import opened Wrappers
  import opened Entities
  import opened ChromaUtils

  /** The error text of an evaluation whose reply did not validate. */
  const InvalidResponse: string := "Invalid response format"

  /** One stored evaluation: the graded dimensions, their mean and the
      justification, or the error and the raw reply. */
  datatype Entry =
    | Scored(commitId: int, summaryType: SummaryType, dims: seq<(string, int)>, overall: real, justification: Option<string>)
    | Failed(commitId: int, summaryType: SummaryType, error: string, rawResponse: string)

  function Sum(vals: seq<int>): int {
    if |vals| == 0 then 0 else Sum(vals[..|vals| - 1]) + vals[|vals| - 1]
  }

  /** A sum of values within [lo, hi] lies within [n * lo, n * hi]. */
  lemma {:induction false} SumBounds(vals: seq<int>, lo: int, hi: int)
    requires forall i :: 0 <= i < |vals| ==> lo <= vals[i] <= hi
    ensures lo * |vals| <= Sum(vals) <= hi * |vals|
  {
    if |vals| > 0 {
      var n := |vals| - 1;
      SumBounds(vals[..n], lo, hi);
      assert lo * |vals| == lo * n + lo;
      assert hi * |vals| == hi * n + hi;
    }
  }

  /** `statistics.mean` over integers, taken exactly. */
  function Mean(vals: seq<int>): (m: real)
    requires |vals| > 0
    ensures m * |vals| as real == Sum(vals) as real
  {
    Sum(vals) as real / |vals| as real
  }

  /** The mean lies between any bounds of the values, in particular
      between their minimum and their maximum. */
  lemma MeanBetween(vals: seq<int>, lo: int, hi: int)
    requires |vals| > 0
    requires forall i :: 0 <= i < |vals| ==> lo <= vals[i] <= hi
    ensures lo as real <= Mean(vals) <= hi as real
  {
    SumBounds(vals, lo, hi);
    QuotientBetween(Sum(vals), |vals|, lo, hi);
  }

  /** The arithmetic step of `MeanBetween`. */
  lemma QuotientBetween(s: int, n: int, lo: int, hi: int)
    requires n > 0 && lo * n <= s <= hi * n
    ensures lo as real <= s as real / n as real <= hi as real
  {
    var q := s as real / n as real;
    assert q * n as real == s as real;
    assert (lo * n) as real == lo as real * n as real;
    assert (hi * n) as real == hi as real * n as real;
  }

  function Values(dims: seq<(string, int)>): (vals: seq<int>)
    ensures |vals| == |dims|
    ensures forall i :: 0 <= i < |dims| ==> vals[i] == dims[i].1
  {
    seq(|dims|, i requires 0 <= i < |dims| => dims[i].1)
  }

  /** Lines 130-137: the four base marks, and `technical_depth` after them
      exactly when a technical summary was graded on it. */
  function Dims(score: Rq1Score, t: SummaryType): (dims: seq<(string, int)>)
    ensures |dims| == (if t == Technical && score.technicalDepth.Some? then 5 else 4)
    ensures dims[0] == ("accuracy", score.marks.accuracy)
    ensures dims[3] == ("readability", score.marks.readability)
    ensures |dims| == 5 ==> dims[4] == ("technical_depth", score.technicalDepth.value)
    ensures ValidRq1(score) ==> forall i :: 0 <= i < |dims| ==> InScale(dims[i].1)
  {
    var base := [("accuracy", score.marks.accuracy), ("completeness", score.marks.completeness),
                 ("usefulness", score.marks.usefulness), ("readability", score.marks.readability)];
    if t == Technical && score.technicalDepth.Some? then base + [("technical_depth", score.technicalDepth.value)]
    else base
  }

  /** Lines 126-164 for one reply: a reply that validates is stored with
      its dimensions and their mean, anything else as a failure carrying
      the raw text. */
  function Evaluate(commitId: int, reply: Reply<Rq1Json>, t: SummaryType): (e: Entry)
    ensures e.commitId == commitId && e.summaryType == t
    ensures e.Scored? <==> ParseRq1(reply).Some?
    ensures e.Failed? ==> e.error == InvalidResponse && e.rawResponse == reply.text
    ensures e.Scored? ==> e.dims == Dims(ParseRq1(reply).value, t)
    ensures e.Scored? ==> e.justification == ParseRq1(reply).value.justification
  {
    match ParseRq1(reply)
    case None => Failed(commitId, t, InvalidResponse, reply.text)
    case Some(score) =>
      var dims := Dims(score, t);
      Scored(commitId, t, dims, Mean(Values(dims)), score.justification)
  }

  /** The overall score of a stored evaluation is the mean of its four or
      five dimensions, so it lies in [1, 5]. */
  lemma EvaluateOverall(commitId: int, reply: Reply<Rq1Json>, t: SummaryType)
    ensures var e := Evaluate(commitId, reply, t);
      e.Scored? ==> 4 <= |e.dims| <= 5 && e.overall * |e.dims| as real == Sum(Values(e.dims)) as real
    ensures var e := Evaluate(commitId, reply, t);
      e.Scored? ==> 1.0 <= e.overall <= 5.0
  {
    var e := Evaluate(commitId, reply, t);
    if e.Scored? {
      MeanBetween(Values(e.dims), 1, 5);
    }
  }

  /** `append_evaluation`: exactly one entry is added, on either path, and
      the earlier ones are kept. */
  function AppendEvaluation(commitId: int, evaluations: seq<Entry>, reply: Reply<Rq1Json>, t: SummaryType): (r: seq<Entry>)
    ensures |r| == |evaluations| + 1
    ensures forall k :: 0 <= k < |evaluations| ==> r[k] == evaluations[k]
    ensures r[|evaluations|] == Evaluate(commitId, reply, t)
  {
    evaluations + [Evaluate(commitId, reply, t)]
  }

  /** The judge, given the summary, the commit it is compared with and
      the kind of summary graded. */
  type Judge = (Summary, StoredCommit, SummaryType) -> Reply<Rq1Json>

  /** The evaluation of summary `s` of kind `t` against commit `c`. */
  function Graded(s: Summary, c: StoredCommit, t: SummaryType, judge: Judge): Entry {
    Evaluate(s.commitId, judge(s, c, t), t)
  }

  /** The loop of lines 21-30 for any grading: summary `i` is graded
      against `commits[i]`, by position and whatever the ids say, first as
      a general and then as a technical summary; a commit list shorter than
      the summaries raises `IndexError`. */
  method GradeAll<E>(summaries: seq<Summary>, commits: seq<StoredCommit>, grade: (Summary, StoredCommit, SummaryType) -> E)
    returns (r: Result<(seq<E>, seq<E>)>)
    ensures r.Err? <==> |commits| < |summaries|
    ensures r.Err? ==> r.error == IndexError
    ensures r.Ok? ==> |r.value.0| == |summaries| && |r.value.1| == |summaries|
    ensures r.Ok? ==> forall i :: 0 <= i < |summaries| ==> r.value.0[i] == grade(summaries[i], commits[i], General)
    ensures r.Ok? ==> forall i :: 0 <= i < |summaries| ==> r.value.1[i] == grade(summaries[i], commits[i], Technical)
  {
    var general: seq<E> := [];
    var technical: seq<E> := [];
    var i := 0;
    while i < |summaries|
      invariant 0 <= i <= |summaries| && i <= |commits|
      invariant |general| == i && |technical| == i
      invariant forall k :: 0 <= k < i ==> general[k] == grade(summaries[k], commits[k], General)
      invariant forall k :: 0 <= k < i ==> technical[k] == grade(summaries[k], commits[k], Technical)
    {
      if i >= |commits| {
        return Err(IndexError);
      }
      general := general + [grade(summaries[i], commits[i], General)];
      technical := technical + [grade(summaries[i], commits[i], Technical)];
      i := i + 1;
    }
    r := Ok((general, technical));
  }

  /** `calculate_save_rq1_g_eval`: every summary is graded twice through
      `append_evaluation`, and the saved list holds the general
      evaluations, then the technical ones, each in summary order. */
  method CalculateSaveRq1GEval(summaries: seq<Summary>, commits: seq<StoredCommit>, judge: Judge)
    returns (r: Result<seq<Entry>>)
    ensures r.Err? <==> |commits| < |summaries|
    ensures r.Err? ==> r.error == IndexError
    ensures r.Ok? ==> |r.value| == 2 * |summaries|
    ensures r.Ok? ==> forall i :: 0 <= i < |summaries| ==>
      r.value[i] == Graded(summaries[i], commits[i], General, judge)
    ensures r.Ok? ==> forall i :: |summaries| <= i < 2 * |summaries| ==>
      r.value[i] == Graded(summaries[i - |summaries|], commits[i - |summaries|], Technical, judge)
  {
    var graded := GradeAll(summaries, commits, (s, c, t) => Graded(s, c, t, judge));
    match graded
    case Err(e) => r := Err(e);
    case Ok((general, technical)) => r := Ok(general + technical);
  }
}
