/** utils/commit_utils.py: dropping trivial commits and normalising commit
    messages. */
module CommitUtils {
  import opened Wrappers
  import opened Text
  import opened Seqs
  import opened Words
  import ODict
  import opened Commits

  // ---------------------------------------------------------------------------
  // filter_trivial_commits

  /** The default pattern list exactly as written: a missing comma makes
      Python concatenate `"release"` and `"cleanup"` into one pattern. */
  const WrittenTrivialPatterns: seq<string> :=
    ["merge branch", "fix typo", "readme", "minor", "releasecleanup"]

  /** The default pattern list with the two release/cleanup patterns
      separate, as the comments beside them describe. Only the corrected
      half of the fused-pattern discrepancy uses it. */
  const CorrectedTrivialPatterns: seq<string> :=
    ["merge branch", "fix typo", "readme", "minor", "release", "cleanup"]

  /** `trivial_patterns=None` selects the default list as written. */
  function PatternsOrDefault(trivialPatterns: Option<seq<string>>): seq<string> {
    match trivialPatterns
    case Some(ps) => ps
    case None => WrittenTrivialPatterns
  }

  /** Some pattern occurs in the message, ignoring case. Every pattern is
      taken as literal text. */
  predicate IsTrivialMessage(message: string, patterns: seq<string>) {
    exists j :: 0 <= j < |patterns| && ContainsIgnoreCase(message, patterns[j])
  }

  /** The number of lines over all of a record's file diffs. */
  function TotalDiffLines(diffs: ODict.Dict<string, string>): nat
    decreases |diffs|
  {
    if |diffs| == 0 then 0
    else TotalDiffLines(diffs[..|diffs| - 1]) + |SplitLines(diffs[|diffs| - 1].1)|
  }

  /** A record survives when no pattern matches its message and its diffs
      have at least `minDiffLines` lines. */
  predicate Keep(c: Commit, patterns: seq<string>, minDiffLines: int) {
    !IsTrivialMessage(c.message, patterns) && TotalDiffLines(c.diffs) >= minDiffLines
  }

  /** The surviving entries, in input order. */
  function KeptCommits(commits: CommitSet, patterns: seq<string>, minDiffLines: int): CommitSet
    decreases |commits|
  {
    if |commits| == 0 then []
    else
      var last := commits[|commits| - 1];
      KeptCommits(commits[..|commits| - 1], patterns, minDiffLines)
        + (if Keep(last.1, patterns, minDiffLines) then [last] else [])
  }

  /** `filter_trivial_commits(commits_dict, trivial_patterns, min_diff_lines)`,
      returning the kept records with the number filtered out. Each kept
      record is assigned under its own key, which the input holds once, so
      the assignment appends. */
  method FilterTrivialCommits(commits: CommitSet, trivialPatterns: Option<seq<string>>, minDiffLines: int)
    returns (kept: CommitSet, filteredNumber: nat)
    ensures kept == KeptCommits(commits, PatternsOrDefault(trivialPatterns), minDiffLines)
    ensures |kept| + filteredNumber == |commits|
  {
    var patterns := PatternsOrDefault(trivialPatterns);
    kept := [];
    filteredNumber := 0;
    var i := 0;
    while i < |commits|
      invariant 0 <= i <= |commits|
      invariant kept == KeptCommits(commits[..i], patterns, minDiffLines)
      invariant |kept| + filteredNumber == i
    {
      assert commits[..i + 1][..i] == commits[..i];
      var entry := commits[i];
      var trivial := false;
      var j := 0;
      while j < |patterns|
        invariant 0 <= j <= |patterns|
        invariant trivial <==> exists q :: 0 <= q < j && ContainsIgnoreCase(entry.1.message, patterns[q])
      {
        if ContainsIgnoreCase(entry.1.message, patterns[j]) {
          trivial := true;
        }
        j := j + 1;
      }
      if trivial {
        filteredNumber := filteredNumber + 1;
      } else if TotalDiffLines(entry.1.diffs) < minDiffLines {
        filteredNumber := filteredNumber + 1;
      } else {
        kept := kept + [entry];
      }
      i := i + 1;
    }
    assert commits[..i] == commits;
  }

  /** The filter keeps exactly the records that pass both tests, with their
      keys and values unchanged and in their original order: no renumbering
      happens here. */
  lemma {:induction false} KeptCommitsSpec(commits: CommitSet, patterns: seq<string>, minDiffLines: int)
    ensures IsSubsequence(KeptCommits(commits, patterns, minDiffLines), commits)
    ensures forall k :: 0 <= k < |KeptCommits(commits, patterns, minDiffLines)| ==>
      Keep(KeptCommits(commits, patterns, minDiffLines)[k].1, patterns, minDiffLines)
    ensures forall i :: 0 <= i < |commits| && Keep(commits[i].1, patterns, minDiffLines) ==>
      commits[i] in KeptCommits(commits, patterns, minDiffLines)
    decreases |commits|
  {
    if |commits| > 0 {
      var n := |commits| - 1;
      var prev := commits[..n];
      KeptCommitsSpec(prev, patterns, minDiffLines);
      var kp := KeptCommits(prev, patterns, minDiffLines);
      var tail := if Keep(commits[n].1, patterns, minDiffLines) then [commits[n]] else [];
      SubsequenceAppend(kp, prev, tail, [commits[n]]);
      assert prev + [commits[n]] == commits;
      forall i | 0 <= i < |commits| && Keep(commits[i].1, patterns, minDiffLines)
        ensures commits[i] in kp + tail
      {
        if i < n {
          assert commits[i] == prev[i];
          assert commits[i] in kp;
        }
      }
    }
  }

  /** Kept keys are input keys, so the output is a sub-dict of the input. */
  lemma KeptKeysSubset(commits: CommitSet, patterns: seq<string>, minDiffLines: int)
    ensures forall k :: ODict.HasKey(KeptCommits(commits, patterns, minDiffLines), k) ==> ODict.HasKey(commits, k)
  {
    var kept := KeptCommits(commits, patterns, minDiffLines);
    KeptCommitsSpec(commits, patterns, minDiffLines);
    SubsequenceMembers(kept, commits);
    forall k | ODict.HasKey(kept, k) ensures ODict.HasKey(commits, k) {
      var i :| 0 <= i < |kept| && ODict.Keys(kept)[i] == k;
      assert kept[i] in commits;
      var j :| 0 <= j < |commits| && commits[j] == kept[i];
      assert ODict.Keys(commits)[j] == k;
    }
  }

  /** A record whose diffs map is empty has no diff lines, so any positive
      minimum drops it. */
  lemma EmptyDiffsDropped(c: Commit, patterns: seq<string>, minDiffLines: int)
    requires |c.diffs| == 0 && minDiffLines > 0
    ensures !Keep(c, patterns, minDiffLines)
  {
  }

  /** A pattern holding a character the text lacks does not occur in it. */
  lemma AbsentCharNoOccurrence(s: string, p: string, k: int)
    requires 0 <= k < |p| && p[k] !in s
    ensures !Contains(s, p)
  {
  }

  /** A pattern with an `m`, `f`, `d` or `c` in it does not match
      "Release 1.2". */
  lemma ReleaseMisses(message: string, p: string, k: int)
    requires message == "Release 1.2"
    requires 0 <= k < |p| && LowerChar(p[k]) in "mfdc"
    ensures !ContainsIgnoreCase(message, p)
  {
    var m := Lower(message);
    assert m == "release 1.2";
    assert Lower(p)[k] == LowerChar(p[k]);
    AbsentCharNoOccurrence(m, Lower(p), k);
  }

  /** The patterns as written, which `trivial_patterns=None` selects, let a
      "Release 1.2" commit through when it has enough diff lines, */
  lemma ReleaseKeptAsWritten(c: Commit)
    requires c.message == "Release 1.2" && TotalDiffLines(c.diffs) >= 5
    ensures Keep(c, WrittenTrivialPatterns, 5)
    ensures Keep(c, PatternsOrDefault(None), 5)
  {
    var w := WrittenTrivialPatterns;
    ReleaseMisses(c.message, w[0], 0);
    ReleaseMisses(c.message, w[1], 0);
    ReleaseMisses(c.message, w[2], 3);
    ReleaseMisses(c.message, w[3], 0);
    ReleaseMisses(c.message, w[4], 7);
    forall j | 0 <= j < |w| ensures !ContainsIgnoreCase(c.message, w[j]) {
      if j == 0 {} else if j == 1 {} else if j == 2 {} else if j == 3 {} else {}
    }
  }

  /** while the corrected list, with "release" on its own, drops it. */
  lemma ReleaseDroppedCorrected(c: Commit)
    requires c.message == "Release 1.2"
    ensures !Keep(c, CorrectedTrivialPatterns, 5)
  {
    var m := Lower(c.message);
    assert m == "release 1.2";
    assert OccursAt(m, "release", 0);
    assert Lower("release") == "release";
    assert ContainsIgnoreCase(c.message, CorrectedTrivialPatterns[4]);
  }

  // ---------------------------------------------------------------------------
  // normalize_message

  /** `re.sub(r'\s+', ' ', s)`: every run of white space becomes one space. */
  function CollapseSpace(s: string): (r: string)
    ensures |r| <= |s|
    ensures |s| > 0 ==> |r| > 0 && r[0] == (if IsSpace(s[0]) then ' ' else s[0])
    ensures forall k :: 0 <= k < |r| && IsSpace(r[k]) ==> r[k] == ' '
    ensures forall k :: 0 <= k < |r| - 1 ==> !(r[k] == ' ' && r[k + 1] == ' ')
    decreases |s|
  {
    if |s| == 0 then ""
    else if IsSpace(s[0]) then
      var rest := LStrip(s);
      assert |rest| < |s| by {
        assert rest == LStrip(s[1..]);
      }
      var tail := CollapseSpace(rest);
      var r := " " + tail;
      assert forall k :: 1 <= k < |r| ==> r[k] == tail[k - 1];
      r
    else
      var tail := CollapseSpace(s[1..]);
      var r := [s[0]] + tail;
      assert forall k :: 1 <= k < |r| ==> r[k] == tail[k - 1];
      r
  }

  /** Text whose only white space is single spaces. */
  predicate SpacesCollapsed(s: string) {
    && (forall k :: 0 <= k < |s| && IsSpace(s[k]) ==> s[k] == ' ')
    && (forall k :: 0 <= k < |s| - 1 ==> !(s[k] == ' ' && s[k + 1] == ' '))
  }

  /** Collapsing leaves text alone exactly when its white space is already
      single spaces; so collapsing twice is collapsing once. */
  lemma {:induction false} CollapseSpaceFixed(s: string)
    ensures CollapseSpace(s) == s <==> SpacesCollapsed(s)
    decreases |s|
  {
    if |s| > 0 && SpacesCollapsed(s) {
      assert SpacesCollapsed(s[1..]) by {
        forall k | 0 <= k < |s[1..]| - 1 ensures !(s[1..][k] == ' ' && s[1..][k + 1] == ' ') {
          assert s[1..][k] == s[k + 1] && s[1..][k + 1] == s[k + 2];
        }
      }
      CollapseSpaceFixed(s[1..]);
      if IsSpace(s[0]) {
        assert s[0] == ' ';
        if |s| > 1 {
          assert !IsSpace(s[1]);
        }
        assert LStrip(s) == s[1..];
      }
      assert [s[0]] + s[1..] == s;
    }
  }

  lemma CollapseSpaceIdempotent(s: string)
    ensures CollapseSpace(CollapseSpace(s)) == CollapseSpace(s)
  {
    CollapseSpaceFixed(CollapseSpace(s));
  }

  predicate IsPunct(c: char) { c == '!' || c == '?' || c == '.' }

  /** Drops the run of `!`, `?` and `.` at the start of `s`. */
  function DropPunct(s: string): (r: string)
    ensures |r| <= |s|
    ensures |r| > 0 ==> !IsPunct(r[0])
    ensures forall i :: 0 <= i < |s| - |r| ==> IsPunct(s[i])
    decreases |s|
  {
    if |s| > 0 && IsPunct(s[0]) then DropPunct(s[1..]) else s
  }

  /** What is left is a suffix of the input. */
  lemma {:induction false} DropPunctSuffix(s: string)
    ensures DropPunct(s) == s[|s| - |DropPunct(s)|..]
    decreases |s|
  {
    if |s| > 0 && IsPunct(s[0]) {
      DropPunctSuffix(s[1..]);
      assert s[1..][|s| - 1 - |DropPunct(s)|..] == s[|s| - |DropPunct(s)|..];
    }
  }

  /** `re.sub(r'[!?.]{2,}', '.', s)`: a run of two or more of `!`, `?`, `.`
      becomes one full stop; a single one stays as it is. */
  function CollapsePunct(s: string): (r: string)
    ensures |r| <= |s|
    ensures |s| > 0 ==> |r| > 0 && IsPunct(r[0]) == IsPunct(s[0])
    ensures forall k :: 0 <= k < |r| - 1 ==> !(IsPunct(r[k]) && IsPunct(r[k + 1]))
    decreases |s|
  {
    if |s| == 0 then ""
    else if |s| >= 2 && IsPunct(s[0]) && IsPunct(s[1]) then
      var rest := DropPunct(s);
      assert rest == DropPunct(s[1..]);
      var tail := CollapsePunct(rest);
      var r := "." + tail;
      assert forall k :: 1 <= k < |r| ==> r[k] == tail[k - 1];
      r
    else
      var tail := CollapsePunct(s[1..]);
      var r := [s[0]] + tail;
      assert forall k :: 1 <= k < |r| ==> r[k] == tail[k - 1];
      r
  }

  predicate PunctCollapsed(s: string) {
    forall k :: 0 <= k < |s| - 1 ==> !(IsPunct(s[k]) && IsPunct(s[k + 1]))
  }

  /** Collapsing leaves text alone exactly when no two of `!?.` are
      adjacent in it. */
  lemma {:induction false} CollapsePunctFixed(s: string)
    ensures CollapsePunct(s) == s <==> PunctCollapsed(s)
    decreases |s|
  {
    if |s| > 0 && PunctCollapsed(s) {
      assert PunctCollapsed(s[1..]) by {
        forall k | 0 <= k < |s[1..]| - 1 ensures !(IsPunct(s[1..][k]) && IsPunct(s[1..][k + 1])) {
          assert s[1..][k] == s[k + 1] && s[1..][k + 1] == s[k + 2];
        }
      }
      CollapsePunctFixed(s[1..]);
      assert [s[0]] + s[1..] == s;
    }
  }

  /** The filler phrases removed from messages, in the order they are
      tried. */
  const RedundantPhrases: seq<string> :=
    ["this commit", "minor fix", "small update", "quick fix", "temporary change", "test commit"]

  /** Removes each phrase in turn as a whole word, stripping after each. */
  function RemovePhrases(s: string, phrases: seq<string>): (r: string)
    requires forall j :: 0 <= j < |phrases| ==> |phrases[j]| > 0
    ensures |phrases| > 0 ==> IsStripped(r)
    decreases |phrases|
  {
    if |phrases| == 0 then s
    else RemovePhrases(Strip(ReplaceWord(s, phrases[0], "")), phrases[1..])
  }

  /** The word substitutions, each a lower-case word and its replacement. */
  const WordSubstitutions: seq<(string, string)> :=
    [("added", "Add"), ("removed", "Remove"), ("fixed", "Fix"), ("bugfix", "Bug fix"), ("refactored", "Refactor")]

  predicate ValidSubstitutions(subs: seq<(string, string)>) {
    forall j :: 0 <= j < |subs| ==> |subs[j].0| > 0 && AllWordChars(subs[j].0)
  }

  /** Applies each whole-word substitution in turn. */
  function ApplySubstitutions(s: string, subs: seq<(string, string)>): string
    requires ValidSubstitutions(subs)
    decreases |subs|
  {
    if |subs| == 0 then s
    else ApplySubstitutions(ReplaceWord(s, subs[0].0, subs[0].1), subs[1..])
  }

  lemma RedundantPhrasesNonEmpty()
    ensures forall j :: 0 <= j < |RedundantPhrases| ==> |RedundantPhrases[j]| > 0
  {
  }

  /** The message up to the word substitutions: stripped and capitalised,
      white space and punctuation runs collapsed, filler phrases removed. */
  function Tidied(message: string): (r: string)
    ensures IsStripped(r)
  {
    RedundantPhrasesNonEmpty();
    RemovePhrases(CollapsePunct(CollapseSpace(Capitalize(Strip(message)))), RedundantPhrases)
  }

  /** A full stop is added unless the text already ends with one. */
  function EnsurePeriod(s: string): (r: string)
    ensures |r| > 0 && r[|r| - 1] == '.'
    ensures r == s || r == s + "."
    ensures |s| > 0 && s[|s| - 1] == '.' ==> r == s
  {
    if EndsWith(s, ".") then s else s + "."
  }

  /** `normalize_message(message)` */
  function NormalizeMessage(message: string): (r: string)
    ensures |r| > 0 && r[|r| - 1] == '.'
  {
    SubstitutionsValid();
    EnsurePeriod(ApplySubstitutions(Tidied(message), WordSubstitutions))
  }

  // ---------------------------------------------------------------------------
  // Normalising is not idempotent

  /** A word longer than the text cannot occur in it. */
  lemma ReplaceLongUnchanged(s: string, w: string, rep: string)
    requires |w| > |s|
    ensures ReplaceWord(s, w, rep) == s
  {
    ReplaceWordUnchanged(s, w, rep);
  }

  /** Phrases longer than a stripped text leave it alone. */
  lemma {:induction false} RemovePhrasesShort(s: string, phrases: seq<string>)
    requires IsStripped(s)
    requires forall j :: 0 <= j < |phrases| ==> |phrases[j]| > |s|
    ensures RemovePhrases(s, phrases) == s
    decreases |phrases|
  {
    if |phrases| > 0 {
      ReplaceLongUnchanged(s, phrases[0], "");
      StripStripped(s);
      RemovePhrasesShort(s, phrases[1..]);
    }
  }

  /** Targets longer than the text leave it alone. */
  lemma {:induction false} SubstitutionsShort(s: string, subs: seq<(string, string)>)
    requires ValidSubstitutions(subs)
    requires forall j :: 0 <= j < |subs| ==> |subs[j].0| > |s|
    ensures ApplySubstitutions(s, subs) == s
    decreases |subs|
  {
    if |subs| > 0 {
      ReplaceLongUnchanged(s, subs[0].0, subs[0].1);
      SubstitutionsShort(s, subs[1..]);
    }
  }

  /** A message of two characters or fewer, already tidy, only gets its
      first letter capitalised. */
  lemma NormalizeShort(s: string)
    requires |s| <= 2 && IsStripped(s)
    requires SpacesCollapsed(Capitalize(s)) && PunctCollapsed(Capitalize(s))
    ensures NormalizeMessage(s) == EnsurePeriod(Capitalize(s))
  {
    StripStripped(s);
    var c := Capitalize(s);
    CollapseSpaceFixed(c);
    CollapsePunctFixed(c);
    RedundantPhrasesNonEmpty();
    assert IsStripped(c) by { assert |c| > 0 ==> c[0] == UpperChar(s[0]); }
    RemovePhrasesShort(c, RedundantPhrases);
    SubstitutionsValid();
    SubstitutionsShort(c, WordSubstitutions);
  }

  /** The capitalised message. */
  lemma CapitalizeFiller()
    ensures Capitalize("this commit x") == "This commit x"
  {
    var s := "this commit x";
    LowerNoCapitals(s[1..]);
  }

  /** The filler phrase matches at the start. */
  lemma FillerAtStart()
    ensures WholeWordAt("This commit x", "this commit", 0)
  {
  }

  /** After the phrase the scan copies the rest. */
  lemma FillerTail()
    ensures ReplaceFrom("This commit x", "this commit", "", 11) == " x"
  {
    var c := "This commit x";
    var w := "this commit";
    assert ReplaceFrom(c, w, "", 13) == "";
    assert ReplaceFrom(c, w, "", 12) == "x";
  }

  /** The phrase goes, the text after it stays. */
  lemma FillerRemoved()
    ensures ReplaceWord("This commit x", "this commit", "") == " x"
  {
    FillerAtStart();
    FillerTail();
  }

  /** The space the phrase left behind is stripped. */
  lemma StripLeading()
    ensures Strip(" x") == "x"
  {
    assert LStrip(" x") == "x";
    assert RStrip("x") == "x";
  }

  /** Phrase removal turns the capitalised message into "x". */
  lemma RemoveFiller()
    ensures RemovePhrases("This commit x", RedundantPhrases) == "x"
  {
    RedundantPhrasesNonEmpty();
    FillerRemoved();
    StripLeading();
    RemovePhrasesShort("x", RedundantPhrases[1..]);
  }

  /** The tidying steps before phrase removal leave a stripped,
      capitalised message with collapsed runs unchanged. */
  lemma TidiedCollapsed(m: string, c: string)
    requires IsStripped(m) && Capitalize(m) == c
    requires SpacesCollapsed(c) && PunctCollapsed(c)
    ensures Tidied(m) == RemovePhrases(c, RedundantPhrases)
  {
    StripStripped(m);
    CollapseSpaceFixed(c);
    CollapsePunctFixed(c);
  }

  /** A tidied message shorter than every substitution target only gets
      its full stop. */
  lemma NormalizeTidiedShort(m: string, t: string)
    requires Tidied(m) == t && |t| < 5
    ensures NormalizeMessage(m) == EnsurePeriod(t)
  {
    SubstitutionsValid();
    TargetsLong();
    SubstitutionsShort(t, WordSubstitutions);
  }

  /** Every substitution target has at least five letters. */
  lemma TargetsLong()
    ensures forall j :: 0 <= j < |WordSubstitutions| ==> |WordSubstitutions[j].0| >= 5
  {
  }

  /** The capitalised message has no runs to collapse. */
  lemma FillerCollapsed()
    ensures SpacesCollapsed("This commit x") && PunctCollapsed("This commit x")
  {
  }

  /** The first pass: the filler goes and the remaining word keeps its
      lower case. */
  lemma FillerMessageNormalized(m: string)
    requires m == "this commit x"
    ensures NormalizeMessage(m) == "x."
  {
    FillerTidied(m);
    NormalizeTidiedShort(m, "x");
  }

  /** Tidying the filler message leaves "x". */
  lemma FillerTidied(m: string)
    requires m == "this commit x"
    ensures Tidied(m) == "x"
  {
    CapitalizeFiller();
    FillerCollapsed();
    FillerStripped(m);
    TidiedCollapsed(m, "This commit x");
    RemoveFiller();
  }

  /** The filler message has nothing to strip. */
  lemma FillerStripped(m: string)
    requires m == "this commit x"
    ensures IsStripped(m)
  {
  }

  /** The second pass capitalises the word. */
  lemma ShortMessageNormalized()
    ensures NormalizeMessage("x.") == "X."
  {
    NormalizeShort("x.");
  }

  /** Normalising twice is not normalising once: a message that starts with
      a filler phrase loses it after being capitalised, so the word that
      moves to the front is left in lower case until the next pass. */
  lemma NormalizeNotIdempotent()
    ensures NormalizeMessage("this commit x") == "x."
    ensures NormalizeMessage(NormalizeMessage("this commit x")) == "X."
    ensures NormalizeMessage(NormalizeMessage("this commit x")) != NormalizeMessage("this commit x")
  {
    FillerMessageNormalized("this commit x");
    ShortMessageNormalized();
  }

  // ---------------------------------------------------------------------------
  // No past-tense word survives normalisation

  /** The five substitution targets, as they are matched. */
  function SubstitutionTarget(j: int): string
    requires 0 <= j < |WordSubstitutions|
  {
    WordSubstitutions[j].0
  }

  /** A replacement made of word characters spells `v` only if it has the
      same length and, in lower case, the same first letter. */
  lemma SingleWordSafe(rep: string, v: string)
    requires |rep| > 0 && AllWordChars(rep) && |v| > 0
    requires |v| != |rep| || LowerChar(rep[0]) != v[0]
    ensures SafeReplacement(rep, v)
  {
    forall p | 0 <= p <= |rep| - |v| ensures !WholeWordAt(rep, v, p) {
      if p == 0 && |v| == |rep| {
        assert LowerChar(rep[0 + 0]) != v[0];
      } else if WholeWordAt(rep, v, p) {
        WholeInWordRun(rep, v, p);
      }
    }
  }

  /** "Bug fix" has no whole word of four or more letters. */
  lemma BugFixSafe(v: string)
    requires |v| >= 4 && AllWordChars(v)
    ensures SafeReplacement("Bug fix", v)
  {
    var rep := "Bug fix";
    assert !IsWordChar(rep[3]);
    forall p | 0 <= p <= |rep| - |v| ensures !WholeWordAt(rep, v, p) {
      if WholeWordAt(rep, v, p) {
        MatchWordChars(rep, v, p);
      }
    }
  }

  lemma SubstitutionsValid()
    ensures ValidSubstitutions(WordSubstitutions)
  {
    var subs := WordSubstitutions;
    forall j | 0 <= j < |subs| ensures |subs[j].0| > 0 && AllWordChars(subs[j].0) {
      var w := subs[j].0;
      assert forall k :: 0 <= k < |w| ==> 'a' <= w[k] <= 'z';
    }
  }

  /** Every replacement text is safe for the target `j`. */
  lemma SubstitutionsSafe(j: int)
    requires 0 <= j < |WordSubstitutions|
    ensures forall i :: 0 <= i < |WordSubstitutions| ==> SafeReplacement(WordSubstitutions[i].1, SubstitutionTarget(j))
  {
    SubstitutionsValid();
    var subs := WordSubstitutions;
    var v := subs[j].0;
    assert |v| > 0 && AllWordChars(v);
    forall i | 0 <= i < |subs| ensures SafeReplacement(subs[i].1, v) {
      var rep := subs[i].1;
      if i == 3 {
        BugFixSafe(v);
      } else {
        assert AllWordChars(rep) by {
          assert forall k :: 0 <= k < |rep| ==> 'a' <= rep[k] <= 'z' || 'A' <= rep[k] <= 'Z';
        }
        assert LowerChar(rep[0]) == (if i == 0 then 'a' else if i == 1 then 'r' else if i == 2 then 'f' else 'r');
        SingleWordSafe(rep, v);
      }
    }
  }

  /** After the substitutions, a target word is gone if some substitution
      removes it, and a target that was absent stays absent. */
  lemma {:induction false} ApplySubstitutionsNoWhole(s: string, subs: seq<(string, string)>, v: string)
    requires ValidSubstitutions(subs) && |v| > 0 && AllWordChars(v)
    requires forall i :: 0 <= i < |subs| ==> SafeReplacement(subs[i].1, v)
    requires NoWholeWord(s, v) || exists i :: 0 <= i < |subs| && subs[i].0 == v
    ensures NoWholeWord(ApplySubstitutions(s, subs), v)
    decreases |subs|
  {
    if |subs| > 0 {
      var next := ReplaceWord(s, subs[0].0, subs[0].1);
      if subs[0].0 == v || NoWholeWord(s, v) {
        ReplaceWordNoWhole(s, subs[0].0, subs[0].1, v);
      } else {
        var i :| 0 <= i < |subs| && subs[i].0 == v;
        assert subs[1..][i - 1].0 == v;
      }
      ApplySubstitutionsNoWhole(next, subs[1..], v);
    }
  }

  /** No whole-word "added", "removed", "fixed", "bugfix" or "refactored",
      in any case, is left in a normalised message. */
  lemma NormalizedNoPastTense(message: string, j: int)
    requires 0 <= j < |WordSubstitutions|
    ensures NoWholeWord(NormalizeMessage(message), SubstitutionTarget(j))
  {
    SubstitutionsValid();
    SubstitutionsSafe(j);
    var v := SubstitutionTarget(j);
    var e := ApplySubstitutions(Tidied(message), WordSubstitutions);
    ApplySubstitutionsNoWhole(Tidied(message), WordSubstitutions, v);
    if !EndsWith(e, ".") {
      AppendNonWordKeeps(e, '.', v);
    }
  }

  // ---------------------------------------------------------------------------
  // normalize_commit_data

  /** `normalize_commit_data(commit_data)`: every record's message is
      normalised; keys, order and every other field stay as they were. */
  function NormalizeCommitData(commits: CommitSet): (r: CommitSet)
    ensures ODict.Keys(r) == ODict.Keys(commits)
    ensures forall i :: 0 <= i < |r| ==>
      var c, n := commits[i].1, r[i].1;
      && n.message == NormalizeMessage(c.message)
      && n.hash == c.hash && n.author == c.author && n.date == c.date && n.files == c.files
      && n.diffs == c.diffs && n.llamaSummary == c.llamaSummary
      && n.llamaCategory == c.llamaCategory && n.llamaTechSummary == c.llamaTechSummary
    ensures forall i :: 0 <= i < |r| ==> EndsWith(r[i].1.message, ".")
  {
    seq(|commits|, i requires 0 <= i < |commits| =>
      (commits[i].0, commits[i].1.(message := NormalizeMessage(commits[i].1.message))))
  }
}
