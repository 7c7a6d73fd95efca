/** utils/git_utils.py: the diff-line filter and the record-building part of
    the extractor. Walking the repository and computing patches is GitPython's
    work; here the history arrives as a parameter, newest commit first, the
    order in which `iter_commits` yields it. */
module GitUtils {
  import opened Wrappers
  import opened Text
  import opened Seqs
  import ODict
  import opened Commits

  // ---------------------------------------------------------------------------
  // filter_diff_lines

  /** A patch line that is an added or removed content line, as opposed to a
      `+++`/`---` file header. */
  predicate KeepDiffLine(line: string) {
    (StartsWith(line, "+") || StartsWith(line, "-"))
    && !StartsWith(line, "+++") && !StartsWith(line, "---")
  }

  /** The kept lines, in order. */
  function KeptLines(lines: seq<string>): (r: seq<string>)
    ensures forall k :: 0 <= k < |r| ==> KeepDiffLine(r[k]) && r[k] in lines
    ensures forall k :: 0 <= k < |lines| && KeepDiffLine(lines[k]) ==> lines[k] in r
    ensures IsSubsequence(r, lines)
    decreases |lines|
  {
    if |lines| == 0 then []
    else if KeepDiffLine(lines[0]) then [lines[0]] + KeptLines(lines[1..])
    else KeptLines(lines[1..])
  }

  /** The kept lines are the input lines at `idx`, which lists, in
      increasing order, exactly the positions of the content lines: each
      content line is kept once, and nothing else is. */
  lemma KeptLinesPositions(lines: seq<string>) returns (idx: seq<int>)
    ensures |idx| == |KeptLines(lines)| && PositionsOf(lines, KeepDiffLine, idx)
    ensures forall k :: 0 <= k < |idx| ==> 0 <= idx[k] < |lines| && KeptLines(lines)[k] == lines[idx[k]]
  {
    KeptLinesFilter(lines);
    idx := FilterPositions(lines, KeepDiffLine);
  }

  lemma {:induction false} KeptLinesFilter(lines: seq<string>)
    ensures KeptLines(lines) == Filter(lines, KeepDiffLine)
    decreases |lines|
  {
    if |lines| > 0 {
      KeptLinesFilter(lines[1..]);
    }
  }

  /** `filter_diff_lines(diff_text)` */
  function FilterDiffLines(diffText: string): string {
    Join(KeptLines(SplitLines(diffText)), "\n")
  }

  /** The lines of the filtered text are exactly the kept lines of the
      input, so they are all content lines, in input order. */
  lemma FilterDiffLinesLines(diffText: string)
    ensures SplitLines(FilterDiffLines(diffText)) == KeptLines(SplitLines(diffText))
  {
    var kept := KeptLines(SplitLines(diffText));
    forall k | 0 <= k < |kept| ensures |kept[k]| > 0 && NoLineBreak(kept[k]) {
      assert kept[k] in SplitLines(diffText);
    }
    SplitLinesJoin(kept);
  }

  lemma {:induction false} KeptLinesAllKept(lines: seq<string>)
    requires forall k :: 0 <= k < |lines| ==> KeepDiffLine(lines[k])
    ensures KeptLines(lines) == lines
    decreases |lines|
  {
    if |lines| > 0 {
      KeptLinesAllKept(lines[1..]);
      assert [lines[0]] + lines[1..] == lines;
    }
  }

  /** Filtering an already filtered diff changes nothing. */
  lemma FilterDiffLinesIdempotent(diffText: string)
    ensures FilterDiffLines(FilterDiffLines(diffText)) == FilterDiffLines(diffText)
  {
    var kept := KeptLines(SplitLines(diffText));
    FilterDiffLinesLines(diffText);
    KeptLinesAllKept(kept);
  }

  /** Text with no added or removed content line filters to the empty
      string; in particular the empty diff does. */
  lemma FilterDiffLinesNothingKept(diffText: string)
    requires forall k :: 0 <= k < |SplitLines(diffText)| ==> !KeepDiffLine(SplitLines(diffText)[k])
    ensures FilterDiffLines(diffText) == ""
  {
    var kept := KeptLines(SplitLines(diffText));
    if |kept| > 0 {
      assert false;
    }
  }

  /** A removed line whose content starts with `--` reads `---...` and is
      taken for a file header, and likewise an added line starting `++`. */
  lemma HeaderLookalikesDropped(content: string)
    ensures !KeepDiffLine("-" + "--" + content)
    ensures !KeepDiffLine("+" + "++" + content)
    ensures KeepDiffLine("-" + content) <==> !StartsWith(content, "--")
  {
    var removed := "-" + content;
    if StartsWith(content, "--") {
      assert removed[..3] == "-" + content[..2];
    }
    if StartsWith(removed, "---") {
      assert content[..2] == removed[1..3];
    }
    assert ("-" + "--" + content)[..3] == "---";
    assert ("+" + "++" + content)[..3] == "+++";
  }

  // ---------------------------------------------------------------------------
  // extract_git_commits: building the records

  /** One entry of `commit.diff(parent, create_patch=True)`. */
  datatype GitDiff = GitDiff(aPath: Option<string>, bPath: Option<string>, patch: string)

  /** The fields the extractor reads from a GitPython commit object. */
  datatype GitCommit = GitCommit(
    hexsha: string,
    authorName: string,
    authorEmail: string,
    authoredAt: Timestamp,
    message: string,
    statsFiles: seq<string>,
    diffs: seq<GitDiff>)

  /** An f-string rendering of an optional path. */
  function PathText(p: Option<string>): string {
    match p
    case Some(s) => s
    case None => "None"
  }

  /** The key a file's diff is stored under. */
  function DiffKey(d: GitDiff): string {
    if d.aPath != d.bPath then PathText(d.aPath) + " -> " + PathText(d.bPath) else PathText(d.aPath)
  }

  /** A renamed file's key names both paths; an unrenamed file's key is its
      path alone. When no path contains `" -> "`, the arrow appears exactly
      for renames. */
  lemma DiffKeyShape(d: GitDiff)
    ensures d.aPath == d.bPath ==> DiffKey(d) == PathText(d.aPath)
    ensures d.aPath != d.bPath ==> StartsWith(DiffKey(d), PathText(d.aPath) + " -> ")
    ensures !Contains(PathText(d.aPath), " -> ") && !Contains(PathText(d.bPath), " -> ") ==>
      (Contains(DiffKey(d), " -> ") <==> d.aPath != d.bPath)
  {
    var a, b := PathText(d.aPath), PathText(d.bPath);
    if d.aPath != d.bPath {
      assert (a + " -> " + b)[..|a| + 4] == a + " -> ";
      assert OccursAt(a + " -> " + b, " -> ", |a|);
    }
  }

  /** The `diffs` dict of one record: each patch filtered, stored under its
      key, a later diff with the same key replacing the earlier value. */
  function DiffsDict(diffs: seq<GitDiff>): ODict.Dict<string, string>
    decreases |diffs|
  {
    if |diffs| == 0 then []
    else ODict.Put(DiffsDict(diffs[..|diffs| - 1]), DiffKey(diffs[|diffs| - 1]),
                   FilterDiffLines(diffs[|diffs| - 1].patch))
  }

  /** The last diff with key `k` among `diffs`. */
  predicate LastWithKey(diffs: seq<GitDiff>, k: string, j: int) {
    0 <= j < |diffs| && DiffKey(diffs[j]) == k
    && forall j2 :: j < j2 < |diffs| ==> DiffKey(diffs[j2]) != k
  }

  /** The diff dict has distinct keys and holds a key exactly for the keys
      of the diffs. */
  lemma {:induction false} DiffsDictKeys(diffs: seq<GitDiff>)
    ensures ODict.DistinctKeys(DiffsDict(diffs))
    ensures forall k :: ODict.HasKey(DiffsDict(diffs), k) <==> HasDiffWithKey(diffs, k)
    decreases |diffs|
  {
    if |diffs| > 0 {
      var n := |diffs| - 1;
      var prev := diffs[..n];
      DiffsDictKeys(prev);
      var key := DiffKey(diffs[n]);
      ODict.PutDistinct(DiffsDict(prev), key, FilterDiffLines(diffs[n].patch));
      forall k
        ensures ODict.HasKey(DiffsDict(diffs), k) <==> HasDiffWithKey(diffs, k)
      {
        HasDiffWithKeyLast(diffs, k);
      }
    }
  }

  /** Some diff carries key `k`. */
  predicate HasDiffWithKey(diffs: seq<GitDiff>, k: string) {
    exists j :: 0 <= j < |diffs| && DiffKey(diffs[j]) == k
  }

  lemma HasDiffWithKeyLast(diffs: seq<GitDiff>, k: string)
    requires |diffs| > 0
    ensures HasDiffWithKey(diffs, k) <==>
      HasDiffWithKey(diffs[..|diffs| - 1], k) || DiffKey(diffs[|diffs| - 1]) == k
  {
    var n := |diffs| - 1;
    if HasDiffWithKey(diffs, k) && DiffKey(diffs[n]) != k {
      var j :| 0 <= j < |diffs| && DiffKey(diffs[j]) == k;
      assert diffs[..n][j] == diffs[j];
    }
    if HasDiffWithKey(diffs[..n], k) {
      var j :| 0 <= j < n && DiffKey(diffs[..n][j]) == k;
      assert diffs[j] == diffs[..n][j];
    }
  }

  /** Each key maps to the filtered patch of the last diff carrying it. */
  lemma {:induction false} DiffsDictLastWins(diffs: seq<GitDiff>, k: string, j: int)
    requires LastWithKey(diffs, k, j)
    ensures ODict.Get(DiffsDict(diffs), k) == Some(FilterDiffLines(diffs[j].patch))
    decreases |diffs|
  {
    var n := |diffs| - 1;
    var prev := diffs[..n];
    ODict.PutGet(DiffsDict(prev), DiffKey(diffs[n]), FilterDiffLines(diffs[n].patch), k);
    if j < n {
      assert LastWithKey(prev, k, j);
      DiffsDictLastWins(prev, k, j);
    }
  }

  /** The record built for one commit: the author as `name <email>`, the
      message stripped, `diffs` filled from the patches and the three
      enrichment fields empty. */
  function BuildRecord(c: GitCommit): (r: Commit)
    ensures r.llamaSummary == "" && r.llamaCategory == "" && r.llamaTechSummary == ""
    ensures r.hash == c.hexsha && r.date == c.authoredAt && r.files == c.statsFiles
    ensures r.author == c.authorName + " <" + c.authorEmail + ">"
    ensures IsStripped(r.message)
  {
    Commit(c.hexsha, c.authorName + " <" + c.authorEmail + ">", c.authoredAt,
           Strip(c.message), c.statsFiles, DiffsDict(c.diffs), "", "", "")
  }

  /** `extract_git_commits`: the history reversed to oldest first and keyed
      by position. */
  function ExtractGitCommits(newestFirst: seq<GitCommit>): (r: CommitSet)
    ensures |r| == |newestFirst|
    ensures forall i :: 0 <= i < |r| ==>
      r[i].0 == i && r[i].1 == BuildRecord(newestFirst[|newestFirst| - 1 - i])
  {
    var n := |newestFirst|;
    seq(n, i requires 0 <= i < n => (i, BuildRecord(newestFirst[n - 1 - i])))
  }

  /** Extracted records are keyed `0..n-1` and carry empty enrichment
      fields, the oldest commit first. */
  lemma ExtractedShape(newestFirst: seq<GitCommit>)
    ensures ODict.DistinctKeys(ExtractGitCommits(newestFirst))
    ensures forall i :: 0 <= i < |newestFirst| ==>
      var r := ExtractGitCommits(newestFirst)[i].1;
      r.llamaSummary == "" && r.llamaCategory == "" && r.llamaTechSummary == ""
    ensures |newestFirst| > 0 ==>
      ExtractGitCommits(newestFirst)[0].1.hash == newestFirst[|newestFirst| - 1].hexsha
  {
  }
}
