/** The confusion-matrix bookkeeping shared by the two categorization
    validators (validation/categorization.py and utils/validation_utils.py):
    each (predicted, actual) pair is one verdict, "Other" playing the
    negative class, and the counts give precision, recall and accuracy. */
module Confusion {
  import opened Wrappers

  /** The label that counts as the negative answer. */
  const Negative: string := "Other"

  datatype Verdict = TruePositive | TrueNegative | FalsePositive | FalseNegative

  /** The verdict on one commit. */
  function Classify(predicted: string, actual: string): (v: Verdict)
    ensures v == TruePositive <==> predicted == actual && predicted != Negative
    ensures v == TrueNegative <==> predicted == actual && predicted == Negative
    ensures v == FalsePositive <==> predicted != actual && predicted != Negative
    ensures v == FalseNegative <==> predicted != actual && predicted == Negative
  {
    if predicted == actual then
      if predicted == Negative then TrueNegative else TruePositive
    else
      if predicted == Negative then FalseNegative else FalsePositive
  }

  /** The four counters `tp`, `tn`, `fp`, `fn`. */
  datatype Tally = Tally(tp: nat, tn: nat, fp: nat, fn: nat)

  function Total(t: Tally): nat {
    t.tp + t.tn + t.fp + t.fn
  }

  /** One more verdict. */
  function Bump(t: Tally, v: Verdict): Tally {
    match v
    case TruePositive => t.(tp := t.tp + 1)
    case TrueNegative => t.(tn := t.tn + 1)
    case FalsePositive => t.(fp := t.fp + 1)
    case FalseNegative => t.(fn := t.fn + 1)
  }

  function Plus(a: Tally, b: Tally): Tally {
    Tally(a.tp + b.tp, a.tn + b.tn, a.fp + b.fp, a.fn + b.fn)
  }

  /** The verdicts on the evaluated commits, in order. */
  function Verdicts(pairs: seq<(string, string)>): (vs: seq<Verdict>)
    ensures |vs| == |pairs|
    ensures forall i :: 0 <= i < |pairs| ==> vs[i] == Classify(pairs[i].0, pairs[i].1)
  {
    seq(|pairs|, i requires 0 <= i < |pairs| => Classify(pairs[i].0, pairs[i].1))
  }

  /** The counters after the verdicts `vs`, counted in order. */
  function TallyOf(vs: seq<Verdict>): Tally {
    if |vs| == 0 then Tally(0, 0, 0, 0) else Bump(TallyOf(vs[..|vs| - 1]), vs[|vs| - 1])
  }

  /** The loop of lines 44-63 (validation/categorization.py) and 30-52
      (utils/validation_utils.py), counting verdicts in place. */
  method CountVerdicts(pairs: seq<(string, string)>) returns (t: Tally)
    ensures t == TallyOf(Verdicts(pairs))
    ensures Total(t) == |pairs|
  {
    ghost var vs := Verdicts(pairs);
    t := Tally(0, 0, 0, 0);
    var i := 0;
    while i < |pairs|
      invariant 0 <= i <= |pairs|
      invariant t == TallyOf(vs[..i])
    {
      assert vs[..i + 1][..i] == vs[..i];
      t := Bump(t, Classify(pairs[i].0, pairs[i].1));
      i := i + 1;
    }
    assert vs[..i] == vs;
    TallyTotal(vs);
  }

  /** Every verdict lands in exactly one counter. */
  lemma {:induction false} TallyTotal(vs: seq<Verdict>)
    ensures Total(TallyOf(vs)) == |vs|
  {
    if |vs| > 0 {
      TallyTotal(vs[..|vs| - 1]);
    }
  }

  /** Counting splits over concatenation, so the counters do not depend on
      how the evaluated commits are grouped. */
  lemma {:induction false} TallyAppend(a: seq<Verdict>, b: seq<Verdict>)
    ensures TallyOf(a + b) == Plus(TallyOf(a), TallyOf(b))
    decreases |b|
  {
    if |b| > 0 {
      var n := |b| - 1;
      assert (a + b)[..|a + b| - 1] == a + b[..n];
      TallyAppend(a, b[..n]);
    } else {
      assert a + b == a;
    }
  }

  /** `tp + tn` counts the agreements: when every prediction is right
      there are no false verdicts, and when every prediction is wrong
      there are no true ones. */
  lemma {:induction false} TallyAgreement(vs: seq<Verdict>)
    ensures (forall i :: 0 <= i < |vs| ==> vs[i].TruePositive? || vs[i].TrueNegative?)
      ==> TallyOf(vs).fp == 0 && TallyOf(vs).fn == 0
    ensures (forall i :: 0 <= i < |vs| ==> vs[i].FalsePositive? || vs[i].FalseNegative?)
      ==> TallyOf(vs).tp == 0 && TallyOf(vs).tn == 0
  {
    if |vs| > 0 {
      var init := vs[..|vs| - 1];
      TallyAgreement(init);
      assert forall i :: 0 <= i < |init| ==> init[i] == vs[i];
    }
  }

  /** Precision, recall and accuracy as Python computes them. */
  datatype Scores = Scores(precision: real, recall: real, accuracy: real)

  /** Lines 65-67 (54-56): accuracy is computed first and divides by the
      total; precision and recall fall back to 0 on a zero denominator. */
  function Metrics(t: Tally): (r: Result<Scores>)
    ensures Total(t) == 0 <==> r == Err(ZeroDivisionError)
    ensures r.Ok? ==> r.value.accuracy == (t.tp + t.tn) as real / Total(t) as real
    ensures r.Ok? ==> 0.0 <= r.value.accuracy <= 1.0
    ensures r.Ok? ==> (r.value.accuracy == 1.0 <==> t.fp + t.fn == 0)
    ensures r.Ok? ==> 0.0 <= r.value.precision <= 1.0 && 0.0 <= r.value.recall <= 1.0
    ensures r.Ok? ==> (r.value.precision == 1.0 <==> t.tp > 0 && t.fp == 0)
    ensures r.Ok? ==> (r.value.recall == 1.0 <==> t.tp > 0 && t.fn == 0)
    ensures r.Ok? ==> (r.value.precision == 0.0 <==> t.tp == 0)
    ensures r.Ok? ==> (r.value.recall == 0.0 <==> t.tp == 0)
  {
    if Total(t) == 0 then Err(ZeroDivisionError)
    else
      var accuracy := (t.tp + t.tn) as real / Total(t) as real;
      var precision := if t.tp + t.fp > 0 then t.tp as real / (t.tp + t.fp) as real else 0.0;
      var recall := if t.tp + t.fn > 0 then t.tp as real / (t.tp + t.fn) as real else 0.0;
      Ratio(t.tp + t.tn, Total(t));
      Ratio(t.tp, t.tp + t.fp);
      Ratio(t.tp, t.tp + t.fn);
      Ok(Scores(precision, recall, accuracy))
  }

  /** A share of a positive whole lies in [0, 1], is 1 exactly when it is
      the whole and 0 exactly when it is nothing. */
  lemma Ratio(part: nat, whole: nat)
    requires part <= whole
    ensures whole > 0 ==> 0.0 <= part as real / whole as real <= 1.0
    ensures whole > 0 ==> (part as real / whole as real == 1.0 <==> part == whole)
    ensures whole > 0 ==> (part as real / whole as real == 0.0 <==> part == 0)
  {
  }

  /** One right prediction of a real label is enough for a positive
      `tp`. */
  lemma {:induction false} TallyPositive(vs: seq<Verdict>, i: int)
    requires 0 <= i < |vs| && vs[i].TruePositive?
    ensures TallyOf(vs).tp > 0
  {
    var n := |vs| - 1;
    if i < n {
      TallyPositive(vs[..n], i);
    }
  }

  /** Every commit predicted right gives perfect scores, provided some
      commit is not "Other". */
  lemma PerfectPredictions(pairs: seq<(string, string)>, i: int)
    requires forall j :: 0 <= j < |pairs| ==> pairs[j].0 == pairs[j].1
    requires 0 <= i < |pairs| && pairs[i].0 != Negative
    ensures Metrics(TallyOf(Verdicts(pairs))) == Ok(Scores(1.0, 1.0, 1.0))
  {
    var vs := Verdicts(pairs);
    TallyAgreement(vs);
    TallyPositive(vs, i);
    TallyTotal(vs);
  }
}
