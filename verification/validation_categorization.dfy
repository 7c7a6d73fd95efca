/** validation/categorization.py: precision, recall and accuracy of the
    stored categories against a hand-made ground truth, over the commits
    whose key lies in [480, 580). */
module CategorizationValidation {
  import opened Wrappers
  import opened Commits
  import opened Confusion
  import Seqs

  const Baseline: int := 480
  const Delta: int := 100

  predicate InWindow(key: int) {
    Baseline <= key < Baseline + Delta
  }

  /** Lines 37-38: the commits whose key lies in the window, in map order. */
  function EvalCommits(commits: CommitSet): (r: seq<Commit>)
    ensures |r| <= |commits|
  {
    if |commits| == 0 then []
    else
      var last := commits[|commits| - 1];
      EvalCommits(commits[..|commits| - 1]) + (if InWindow(last.0) then [last.1] else [])
  }

  /** Nothing is evaluated exactly when no key falls in the window. */
  lemma {:induction false} EvalCommitsEmpty(commits: CommitSet)
    ensures |EvalCommits(commits)| == 0 <==> forall k :: 0 <= k < |commits| ==> !InWindow(commits[k].0)
  {
    if |commits| > 0 {
      var init := commits[..|commits| - 1];
      EvalCommitsEmpty(init);
      assert forall k :: 0 <= k < |init| ==> init[k] == commits[k];
    }
  }

  /** The number of commits a densely keyed set of `n` commits puts in the
      window. */
  function WindowCount(n: nat): (r: nat)
    ensures r <= Delta
  {
    if n <= Baseline then 0 else if n >= Baseline + Delta then Delta else n - Baseline
  }

  /** With keys 0..n-1 the evaluated commits are those at positions 480 up
      to 580, or to the end when there are fewer. */
  lemma {:induction false} EvalCommitsDense(commits: CommitSet)
    requires DenseKeys(commits)
    ensures |EvalCommits(commits)| == WindowCount(|commits|)
    ensures forall j :: 0 <= j < WindowCount(|commits|) ==> EvalCommits(commits)[j] == commits[Baseline + j].1
  {
    if |commits| > 0 {
      var init := commits[..|commits| - 1];
      assert DenseKeys(init) by {
        forall i | 0 <= i < |init| ensures init[i].0 == i {
          assert init[i] == commits[i];
        }
      }
      EvalCommitsDense(init);
    }
  }

  /** Line 46: the i-th evaluated commit is compared with `ground_truth[i]`;
      a ground truth shorter than the evaluated list raises `IndexError`. */
  function Pairs(eval: seq<Commit>, truth: seq<string>): (r: Result<seq<(string, string)>>)
    ensures r.Ok? <==> |eval| <= |truth|
    ensures r.Err? ==> r.error == IndexError
    ensures r.Ok? ==> |r.value| == |eval|
    ensures r.Ok? ==> forall i :: 0 <= i < |eval| ==> r.value[i] == (eval[i].llamaCategory, truth[i])
  {
    if |eval| <= |truth| then
      Ok(seq(|eval|, i requires 0 <= i < |eval| => (eval[i].llamaCategory, truth[i])))
    else Err(IndexError)
  }

  /** `calculate_precision_recall_categorization(commits, ground_truth)`. */
  function PrecisionRecall(commits: CommitSet, truth: seq<string>): (r: Result<Scores>)
    ensures r == Err(ZeroDivisionError) <==> |EvalCommits(commits)| == 0
    ensures r == Err(IndexError) <==> |EvalCommits(commits)| > |truth|
  {
    match Pairs(EvalCommits(commits), truth)
    case Err(e) => Err(e)
    case Ok(pairs) => TallyTotal(Verdicts(pairs)); Metrics(TallyOf(Verdicts(pairs)))
  }

  /** `ground_truth_array` is its literal reversed (line 24), so on a
      densely keyed set of at least 580 commits the hundred commits at
      positions 480-579 are compared, oldest first, with the listed labels
      read from the end. */
  lemma DenseScores(commits: CommitSet, listed: seq<string>)
    requires DenseKeys(commits) && |commits| >= Baseline + Delta
    requires |listed| == Delta
    ensures PrecisionRecall(commits, Seqs.Reverse(listed)).Ok?
    ensures var pairs := Pairs(EvalCommits(commits), Seqs.Reverse(listed)).value;
      && |pairs| == Delta
      && forall j :: 0 <= j < Delta ==> pairs[j] == (commits[Baseline + j].1.llamaCategory, listed[Delta - 1 - j])
  {
    EvalCommitsDense(commits);
  }
}
