/** utils/validation_utils.py: the earlier categorization validator, which
    evaluates the most recent commits against a ground truth of 102 labels.
    As written it skips every key up to and including `len(commits) - 102`,
    so it evaluates 101 commits and never compares `ground_truth[0]`; the
    corrected window starts one key earlier. */
module ValidationUtils {
  import opened Wrappers
  import opened Commits
  import opened Confusion
  import Seqs

  /** The size of the ground truth the window is named after. */
  const Recent: nat := 102

  /** The commits with key at least `first` are evaluated, the one with key
      `i` against `truth[i - offset]`; an index past the ground truth
      raises `IndexError`. Map order is kept. */
  function Picked(commits: CommitSet, first: int, offset: int, truth: seq<string>): (r: Result<seq<(string, string)>>)
    requires first >= offset
    ensures r.Err? ==> r.error == IndexError
    ensures r.Ok? ==> |r.value| <= |commits|
  {
    if |commits| == 0 then Ok([])
    else
      var last := commits[|commits| - 1];
      match Picked(commits[..|commits| - 1], first, offset, truth)
      case Err(e) => Err(e)
      case Ok(pairs) =>
        if last.0 < first then Ok(pairs)
        else if last.0 - offset >= |truth| then Err(IndexError)
        else Ok(pairs + [(last.1.llamaCategory, truth[last.0 - offset])])
  }

  /** Lines 26-37 as written: keys `i <= len(commits) - 102` are skipped. */
  function RecentPairsAsWritten(commits: CommitSet, truth: seq<string>): Result<seq<(string, string)>> {
    var cut := |commits| - Recent;
    Picked(commits, cut + 1, cut, truth)
  }

  /** The window the name promises: the last 102 keys, matched with the
      102 labels from the first. */
  function RecentPairs(commits: CommitSet, truth: seq<string>): Result<seq<(string, string)>> {
    var cut := |commits| - Recent;
    Picked(commits, cut, cut, truth)
  }

  /** The scores of lines 54-56 over a window's pairs: `IndexError` from
      the window, `ZeroDivisionError` when the window is empty, and
      otherwise the metrics of the pairs' verdicts. */
  function ScoresOf(window: Result<seq<(string, string)>>): (r: Result<Scores>)
    ensures window.Err? ==> r == Err(window.error)
    ensures window.Ok? ==> r == Metrics(TallyOf(Verdicts(window.value)))
    ensures window.Ok? ==> (r == Err(ZeroDivisionError) <==> |window.value| == 0)
  {
    match window
    case Err(e) => Err(e)
    case Ok(pairs) => TallyTotal(Verdicts(pairs)); Metrics(TallyOf(Verdicts(pairs)))
  }

  /** `calculate_precision_recall_categorization` (lines 14-58) as written:
      the metrics over the window of lines 26-37. */
  function RecentScoresAsWritten(commits: CommitSet, truth: seq<string>): (r: Result<Scores>)
    ensures RecentPairsAsWritten(commits, truth).Ok? ==>
      (r == Err(ZeroDivisionError) <==> |RecentPairsAsWritten(commits, truth).value| == 0)
    ensures RecentPairsAsWritten(commits, truth).Ok? ==>
      r == Metrics(TallyOf(Verdicts(RecentPairsAsWritten(commits, truth).value)))
    ensures RecentPairsAsWritten(commits, truth).Err? ==> r == Err(IndexError)
  {
    ScoresOf(RecentPairsAsWritten(commits, truth))
  }

  /** The same metrics over the corrected window. */
  function RecentScores(commits: CommitSet, truth: seq<string>): (r: Result<Scores>)
    ensures RecentPairs(commits, truth).Ok? ==>
      (r == Err(ZeroDivisionError) <==> |RecentPairs(commits, truth).value| == 0)
    ensures RecentPairs(commits, truth).Ok? ==>
      r == Metrics(TallyOf(Verdicts(RecentPairs(commits, truth).value)))
    ensures RecentPairs(commits, truth).Err? ==> r == Err(IndexError)
  {
    ScoresOf(RecentPairs(commits, truth))
  }

  /** On keys 0..n-1, the commits from position `first` on are evaluated,
      in order, each against the label `offset` places before it. */
  lemma {:induction false} PickedDense(commits: CommitSet, first: int, offset: int, truth: seq<string>)
    requires DenseKeys(commits)
    requires 0 <= first <= |commits| && offset <= first
    requires |commits| - offset <= |truth|
    ensures Picked(commits, first, offset, truth).Ok?
    ensures var pairs := Picked(commits, first, offset, truth).value;
      && |pairs| == |commits| - first
      && forall j :: 0 <= j < |pairs| ==>
        pairs[j] == (commits[first + j].1.llamaCategory, truth[first + j - offset])
  {
    if |commits| > first {
      var init := commits[..|commits| - 1];
      assert DenseKeys(init) by {
        forall i | 0 <= i < |init| ensures init[i].0 == i {
          assert init[i] == commits[i];
        }
      }
      PickedDense(init, first, offset, truth);
    } else if |commits| > 0 {
      PickedNone(commits, first, offset, truth);
    }
  }

  /** A densely keyed set with no key at or past `first` yields nothing. */
  lemma {:induction false} PickedNone(commits: CommitSet, first: int, offset: int, truth: seq<string>)
    requires DenseKeys(commits)
    requires |commits| <= first && offset <= first
    ensures Picked(commits, first, offset, truth) == Ok([])
  {
    if |commits| > 0 {
      var init := commits[..|commits| - 1];
      assert DenseKeys(init) by {
        forall i | 0 <= i < |init| ensures init[i].0 == i {
          assert init[i] == commits[i];
        }
      }
      PickedNone(init, first, offset, truth);
    }
  }

  /** As written, a densely keyed set of at least 102 commits is evaluated
      on its last 101 commits only, matched with labels 1..101: the label
      at index 0 is never compared. */
  lemma RecentAsWrittenSkipsFirstLabel(commits: CommitSet, truth: seq<string>)
    requires DenseKeys(commits) && |commits| >= Recent && |truth| == Recent
    ensures RecentPairsAsWritten(commits, truth).Ok?
    ensures var pairs := RecentPairsAsWritten(commits, truth).value;
      && |pairs| == Recent - 1
      && forall j :: 0 <= j < |pairs| ==>
        pairs[j] == (commits[|commits| - Recent + 1 + j].1.llamaCategory, truth[j + 1])
  {
    var cut := |commits| - Recent;
    PickedDense(commits, cut + 1, cut, truth);
  }

  /** The corrected window evaluates the last 102 commits, the `j`-th of
      them against `truth[j]`. */
  lemma RecentPairsComplete(commits: CommitSet, truth: seq<string>)
    requires DenseKeys(commits) && |commits| >= Recent && |truth| == Recent
    ensures RecentPairs(commits, truth).Ok?
    ensures var pairs := RecentPairs(commits, truth).value;
      && |pairs| == Recent
      && forall j :: 0 <= j < Recent ==>
        pairs[j] == (commits[|commits| - Recent + j].1.llamaCategory, truth[j])
  {
    var cut := |commits| - Recent;
    PickedDense(commits, cut, cut, truth);
  }

  /** With a ground truth written newest first and reversed, as
      `ground_truth_array` is (line 12), the newest commit is compared with
      the first listed label. */
  lemma RecentNewestFirst(commits: CommitSet, listed: seq<string>)
    requires DenseKeys(commits) && |commits| >= Recent && |listed| == Recent
    ensures RecentPairs(commits, Seqs.Reverse(listed)).Ok?
    ensures var pairs := RecentPairs(commits, Seqs.Reverse(listed)).value;
      |pairs| == Recent && pairs[Recent - 1] == (commits[|commits| - 1].1.llamaCategory, listed[0])
  {
    RecentPairsComplete(commits, Seqs.Reverse(listed));
  }
  /** As written, on a densely keyed set of at least 102 commits and a
      ground truth of 102 labels, the accuracy is taken over 101 verdicts. */
  lemma RecentScoresAsWrittenDense(commits: CommitSet, truth: seq<string>)
    requires DenseKeys(commits) && |commits| >= Recent && |truth| == Recent
    ensures RecentScoresAsWritten(commits, truth).Ok?
    ensures var t := TallyOf(Verdicts(RecentPairsAsWritten(commits, truth).value));
      RecentScoresAsWritten(commits, truth).value.accuracy == (t.tp + t.tn) as real / (Recent - 1) as real
  {
    RecentAsWrittenSkipsFirstLabel(commits, truth);
    TallyTotal(Verdicts(RecentPairsAsWritten(commits, truth).value));
  }

  /** With the corrected window, the accuracy is taken over all 102. */
  lemma RecentScoresDense(commits: CommitSet, truth: seq<string>)
    requires DenseKeys(commits) && |commits| >= Recent && |truth| == Recent
    ensures RecentScores(commits, truth).Ok?
    ensures var t := TallyOf(Verdicts(RecentPairs(commits, truth).value));
      RecentScores(commits, truth).value.accuracy == (t.tp + t.tn) as real / Recent as real
  {
    RecentPairsComplete(commits, truth);
    TallyTotal(Verdicts(RecentPairs(commits, truth).value));
  }
}
