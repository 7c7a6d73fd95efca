/** validation/rq2_g_eval.py: the judge model grades every chat answer to a
    benchmark question, and each grade becomes one stored evaluation. The
    judge is a parameter. */
module Rq2GEval {
  import opened Wrappers
  import opened Entities

  /** The `evaluation_type` every entry of this module carries. */
  const GEval: string := "g_eval"

  /** The justification stored when the reply did not validate. */
  const InvalidResponse: string := "Invalid response format"

  /** One stored evaluation. A failed one has every score field None, which
      is the absence of the score fields here. */
  datatype Entry =
    | Scored(questionId: int, answerId: int, evaluationType: string, marks: Marks, overall: int,
             justification: Option<string>, isHallucinated: string)
    | Failed(questionId: int, answerId: int, evaluationType: string, justification: Option<string>)

  function Abs(x: int): nat {
    if x < 0 then -x else x
  }

  /** Python's `round(n / d)` on an exact quotient: the nearest integer,
      ties going to the even one. */
  function RoundHalfEven(n: int, d: int): (r: int)
    requires d > 0
    ensures 2 * Abs(n - r * d) <= d
    ensures 2 * Abs(n - r * d) == d ==> r % 2 == 0
  {
    var q := n / d;
    var rem := n % d;
    assert n - q * d == rem;
    assert n - (q + 1) * d == rem - d;
    if 2 * rem < d then q
    else if 2 * rem > d then q + 1
    else if q % 2 == 0 then q
    else q + 1
  }

  /** The two properties pin the rounding down: no other integer is as
      near with ties to even. */
  lemma RoundHalfEvenUnique(n: int, d: int, r: int)
    requires d > 0
    requires 2 * Abs(n - r * d) <= d
    requires 2 * Abs(n - r * d) == d ==> r % 2 == 0
    ensures r == RoundHalfEven(n, d)
  {
    var s := RoundHalfEven(n, d);
    WithinOne(n, d, r, s);
    // Neighbours would both be at distance d/2 from n / d, both even.
    if s == r + 1 {
      NeighboursTie(n, d, r, s);
    } else if s == r - 1 {
      NeighboursTie(n, d, s, r);
    }
  }

  /** Neighbours within d/2 of n / d are both exactly d/2 away. */
  lemma NeighboursTie(n: int, d: int, r: int, s: int)
    requires d > 0 && s == r + 1
    requires 2 * Abs(n - r * d) <= d && 2 * Abs(n - s * d) <= d
    ensures 2 * Abs(n - r * d) == d && 2 * Abs(n - s * d) == d
  {
    assert s * d == r * d + d;
  }

  /** Two integers within d/2 of n / d are at most one apart. */
  lemma WithinOne(n: int, d: int, r: int, s: int)
    requires d > 0
    requires 2 * Abs(n - r * d) <= d && 2 * Abs(n - s * d) <= d
    ensures -1 <= s - r <= 1
  {
    var k := s - r;
    assert (n - r * d) - (n - s * d) == k * d;
    if k >= 2 {
      TwiceAtLeast(k, d);
    } else if k <= -2 {
      TwiceAtLeast(-k, d);
    }
  }

  /** Two or more steps of `d` span at least `2 * d`. */
  lemma TwiceAtLeast(k: int, d: int)
    requires k >= 2 && d > 0
    ensures k * d >= 2 * d
  {
    var j := k - 2;
    assert k * d == j * d + 2 * d;
  }

  /** Lines 87-94: the overall score is the mean of the four marks rounded
      half to even; over valid marks it is itself in [1, 5]. */
  function Overall(m: Marks): (r: int)
    ensures 2 * Abs(m.accuracy + m.completeness + m.usefulness + m.readability - 4 * r) <= 4
    ensures ValidMarks(m) ==> InScale(r)
  {
    RoundHalfEven(m.accuracy + m.completeness + m.usefulness + m.readability, 4)
  }

  /** Lines 84-122 for one reply, with the ids as received: exactly one
      entry of type "g_eval", scored when the reply validates. */
  function Evaluate(questionId: int, answerId: int, reply: Reply<Rq2Json>): (e: Entry)
    ensures e.questionId == questionId && e.answerId == answerId
    ensures e.evaluationType == GEval
    ensures e.Scored? <==> ParseRq2(reply).Some?
    ensures e.Failed? ==> e.justification == Some(InvalidResponse)
    ensures e.Scored? ==> ValidMarks(e.marks) && InScale(e.overall) && HallucinationVerdict(e.isHallucinated)
    ensures e.Scored? ==> e.marks == ParseRq2(reply).value.marks
  {
    match ParseRq2(reply)
    case None => Failed(questionId, answerId, GEval, Some(InvalidResponse))
    case Some(score) =>
      Scored(questionId, answerId, GEval, score.marks, Overall(score.marks), score.justification, score.isHallucinated)
  }

  /** `append_evaluation(question_id, answer_id, evaluations, response)`:
      exactly one entry is added, and the earlier ones are kept. */
  function AppendEvaluation(questionId: int, answerId: int, evaluations: seq<Entry>, reply: Reply<Rq2Json>): (r: seq<Entry>)
    ensures |r| == |evaluations| + 1
    ensures forall k :: 0 <= k < |evaluations| ==> r[k] == evaluations[k]
    ensures r[|evaluations|] == Evaluate(questionId, answerId, reply)
  {
    evaluations + [Evaluate(questionId, answerId, reply)]
  }

  /** The judge, given the question and answer it grades. */
  type Judge = QuestionAnswer -> Reply<Rq2Json>

  /** `answer_evaluation` as written (line 80): the answer id is passed
      where the question id is expected and the other way round. */
  function AnswerEvaluationAsWritten(evaluations: seq<Entry>, qa: QuestionAnswer, judge: Judge): seq<Entry> {
    AppendEvaluation(qa.answerId, qa.questionId, evaluations, judge(qa))
  }

  /** As written, the stored entry files the answer under the answer's
      question id only when the two ids coincide. */
  lemma AnswerEvaluationSwapsIds(evaluations: seq<Entry>, qa: QuestionAnswer, judge: Judge)
    ensures var e := AnswerEvaluationAsWritten(evaluations, qa, judge)[|evaluations|];
      e.questionId == qa.answerId && e.answerId == qa.questionId
    ensures var e := AnswerEvaluationAsWritten(evaluations, qa, judge)[|evaluations|];
      e.questionId == qa.questionId <==> qa.answerId == qa.questionId
  {
  }

  /** `answer_evaluation` with each id in its own place. */
  function AnswerEvaluation(evaluations: seq<Entry>, qa: QuestionAnswer, judge: Judge): (r: seq<Entry>)
    ensures |r| == |evaluations| + 1
    ensures forall k :: 0 <= k < |evaluations| ==> r[k] == evaluations[k]
    ensures r[|evaluations|].questionId == qa.questionId && r[|evaluations|].answerId == qa.answerId
    ensures r[|evaluations|] == Evaluate(qa.questionId, qa.answerId, judge(qa))
  {
    AppendEvaluation(qa.questionId, qa.answerId, evaluations, judge(qa))
  }

  /** `calculate_save_rq2_g_eval`, which goes through `answer_evaluation`
      as written: one evaluation per question and answer, in input order,
      each filed with the two ids swapped. */
  method CalculateSaveRq2GEval(questionsAnswers: seq<QuestionAnswer>, judge: Judge) returns (r: seq<Entry>)
    ensures |r| == |questionsAnswers|
    ensures forall i :: 0 <= i < |r| ==>
      r[i].questionId == questionsAnswers[i].answerId && r[i].answerId == questionsAnswers[i].questionId
    ensures forall i :: 0 <= i < |r| ==>
      r[i] == Evaluate(questionsAnswers[i].answerId, questionsAnswers[i].questionId, judge(questionsAnswers[i]))
  {
    r := [];
    var i := 0;
    while i < |questionsAnswers|
      invariant 0 <= i <= |questionsAnswers| && |r| == i
      invariant forall k :: 0 <= k < i ==>
        r[k] == Evaluate(questionsAnswers[k].answerId, questionsAnswers[k].questionId, judge(questionsAnswers[k]))
    {
      r := AnswerEvaluationAsWritten(r, questionsAnswers[i], judge);
      i := i + 1;
    }
  }

  /** The driver over the corrected `answer_evaluation`: one evaluation per
      question and answer, in input order, each under its own ids. */
  method CalculateSaveRq2GEvalCorrected(questionsAnswers: seq<QuestionAnswer>, judge: Judge) returns (r: seq<Entry>)
    ensures |r| == |questionsAnswers|
    ensures forall i :: 0 <= i < |r| ==>
      r[i].questionId == questionsAnswers[i].questionId && r[i].answerId == questionsAnswers[i].answerId
    ensures forall i :: 0 <= i < |r| ==>
      r[i] == Evaluate(questionsAnswers[i].questionId, questionsAnswers[i].answerId, judge(questionsAnswers[i]))
  {
    r := [];
    var i := 0;
    while i < |questionsAnswers|
      invariant 0 <= i <= |questionsAnswers| && |r| == i
      invariant forall k :: 0 <= k < i ==>
        r[k] == Evaluate(questionsAnswers[k].questionId, questionsAnswers[k].answerId, judge(questionsAnswers[k]))
    {
      r := AnswerEvaluation(r, questionsAnswers[i], judge);
      i := i + 1;
    }
  }
}
