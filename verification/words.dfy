/** `re.sub(r'\bword\b', rep, s, flags=re.IGNORECASE)` for a literal `word`
    that starts and ends with a word character, over ASCII. The scan is the
    one `re.sub` performs: left to right over the original string, a match
    consumed whole, no match ever overlapping an earlier one; `\b` looks at
    the characters of the original string. */
module Words {
  import opened Text

  /** Every character of `w` is a `\w` character. */
  predicate AllWordChars(w: string) {
    forall k :: 0 <= k < |w| ==> IsWordChar(w[k])
  }

  /** `w`, given in lower case, occurs in `t` at `p` ignoring case. */
  predicate MatchesAt(t: string, w: string, p: int) {
    0 <= p && p + |w| <= |t| && forall k :: 0 <= k < |w| ==> LowerChar(t[p + k]) == w[k]
  }

  /** `w` occurs case-insensitively in `t` at `p` with a word boundary on
      each side; `leftIsWord` says whether the character just before `t` is
      a word character, which matters when `p == 0`. */
  predicate WholeAtCtx(t: string, w: string, leftIsWord: bool, p: int) {
    && MatchesAt(t, w, p)
    && (if p == 0 then !leftIsWord else !IsWordChar(t[p - 1]))
    && (p + |w| == |t| || !IsWordChar(t[p + |w|]))
  }

  /** A match of `\bw\b` at `p` under `re.IGNORECASE`. */
  predicate WholeWordAt(s: string, w: string, p: int) {
    WholeAtCtx(s, w, false, p)
  }

  predicate NoWholeCtx(t: string, w: string, leftIsWord: bool) {
    forall p :: 0 <= p <= |t| - |w| ==> !WholeAtCtx(t, w, leftIsWord, p)
  }

  /** `re.search(r'\bw\b', s, re.IGNORECASE)` finds nothing. */
  predicate NoWholeWord(s: string, w: string) {
    forall p :: 0 <= p <= |s| - |w| ==> !WholeWordAt(s, w, p)
  }

  /** The output of `re.sub` for the part of `s` from index `i` on. */
  function ReplaceFrom(s: string, w: string, rep: string, i: int): string
    requires |w| > 0 && 0 <= i <= |s|
    decreases |s| - i
  {
    if i == |s| then ""
    else if WholeWordAt(s, w, i) then rep + ReplaceFrom(s, w, rep, i + |w|)
    else [s[i]] + ReplaceFrom(s, w, rep, i + 1)
  }

  /** `re.sub(r'\bw\b', rep, s, flags=re.IGNORECASE)` */
  function ReplaceWord(s: string, w: string, rep: string): string
    requires |w| > 0
  {
    ReplaceFrom(s, w, rep, 0)
  }

  // ---------------------------------------------------------------------------
  // With nothing to replace, the text comes back unchanged

  lemma {:induction false} ReplaceFromUnchanged(s: string, w: string, rep: string, i: int)
    requires |w| > 0 && 0 <= i <= |s| && NoWholeWord(s, w)
    ensures ReplaceFrom(s, w, rep, i) == s[i..]
    decreases |s| - i
  {
    if i < |s| {
      ReplaceFromUnchanged(s, w, rep, i + 1);
      assert [s[i]] + s[i + 1..] == s[i..];
    }
  }

  /** Substituting a word that does not occur changes nothing. */
  lemma ReplaceWordUnchanged(s: string, w: string, rep: string)
    requires |w| > 0 && NoWholeWord(s, w)
    ensures ReplaceWord(s, w, rep) == s
  {
    ReplaceFromUnchanged(s, w, rep, 0);
  }

  // ---------------------------------------------------------------------------
  // Word runs

  /** The end of the run of word characters that starts at `i`. */
  function RunEnd(s: string, i: int): (e: int)
    requires 0 <= i <= |s|
    ensures i <= e <= |s|
    ensures forall k :: i <= k < e ==> IsWordChar(s[k])
    ensures e == |s| || !IsWordChar(s[e])
    decreases |s| - i
  {
    if i == |s| || !IsWordChar(s[i]) then i else RunEnd(s, i + 1)
  }

  /** A match of a word made of word characters covers only word
      characters. */
  lemma MatchWordChars(t: string, w: string, p: int)
    requires AllWordChars(w) && MatchesAt(t, w, p)
    ensures forall k :: p <= k < p + |w| ==> IsWordChar(t[k])
  {
    forall k | p <= k < p + |w| ensures IsWordChar(t[k]) {
      assert LowerChar(t[p + (k - p)]) == w[k - p];
    }
  }

  /** Inside a run of word characters no match can start, so the scan
      copies the rest of the run. */
  lemma {:induction false} CopyRun(s: string, w: string, rep: string, i: int)
    requires |w| > 0 && 0 < i <= |s| && IsWordChar(s[i - 1])
    ensures ReplaceFrom(s, w, rep, i) == s[i..RunEnd(s, i)] + ReplaceFrom(s, w, rep, RunEnd(s, i))
    decreases |s| - i
  {
    if i < |s| && IsWordChar(s[i]) {
      assert !WholeWordAt(s, w, i);
      CopyRun(s, w, rep, i + 1);
      assert [s[i]] + s[i + 1..RunEnd(s, i)] == s[i..RunEnd(s, i)];
    }
  }

  /** At a character that is not a word character no match can start. */
  lemma StartsNonWord(s: string, w: string, rep: string, i: int)
    requires |w| > 0 && AllWordChars(w) && 0 <= i < |s| && !IsWordChar(s[i])
    ensures ReplaceFrom(s, w, rep, i) == [s[i]] + ReplaceFrom(s, w, rep, i + 1)
  {
    assert IsWordChar(w[0]) && !IsWordChar(LowerChar(s[i + 0]));
  }

  // ---------------------------------------------------------------------------
  // Nothing whole-word is left behind

  /** A replacement text that can stand in for a word: non-empty, starting
      and ending with a word character, and without `v` as a whole word. */
  predicate SafeReplacement(rep: string, v: string) {
    |rep| > 0 && IsWordChar(rep[0]) && IsWordChar(rep[|rep| - 1]) && NoWholeWord(rep, v)
  }

  /** A whole word lying in the second part of `a + b` is a whole word of
      `b`, read with the last character of `a` as its left context. */
  lemma ShiftWhole(a: string, b: string, v: string, ctx: bool, p: int)
    requires |a| > 0 && p >= |a| && WholeAtCtx(a + b, v, ctx, p)
    ensures WholeAtCtx(b, v, IsWordChar(a[|a| - 1]), p - |a|)
  {
    var t := a + b;
    forall k | 0 <= k < |v| ensures LowerChar(b[p - |a| + k]) == v[k] {
      assert t[p + k] == b[p - |a| + k];
    }
    assert t[p - 1] == (if p == |a| then a[|a| - 1] else b[p - |a| - 1]);
    if p + |v| < |t| {
      assert t[p + |v|] == b[p - |a| + |v|];
    }
  }

  /** A whole word lying in the first part of `a + b`, when `b` does not
      start with a word character, is a whole word of `a`. */
  lemma PrefixWhole(a: string, b: string, v: string, ctx: bool, p: int)
    requires p + |v| <= |a| && WholeAtCtx(a + b, v, ctx, p)
    requires |b| == 0 || !IsWordChar(b[0])
    ensures WholeAtCtx(a, v, ctx, p)
  {
    var t := a + b;
    forall k | 0 <= k < |v| ensures LowerChar(a[p + k]) == v[k] {
      assert t[p + k] == a[p + k];
    }
    if p > 0 {
      assert t[p - 1] == a[p - 1];
    }
    if p + |v| < |a| {
      assert t[p + |v|] == a[p + |v|];
    } else if p + |v| < |t| {
      assert t[p + |v|] == b[0];
    }
  }

  /** The step of the scan that replaces a match keeps whole-word `v` out. */
  lemma MatchStepNoWhole(s: string, w: string, rep: string, v: string, i: int)
    requires |w| > 0 && AllWordChars(w) && |v| > 0 && AllWordChars(v)
    requires 0 <= i < |s| && WholeWordAt(s, w, i)
    requires SafeReplacement(rep, v)
    requires NoWholeCtx(ReplaceFrom(s, w, rep, i + |w|), v, true)
    ensures NoWholeCtx(ReplaceFrom(s, w, rep, i), v, i > 0 && IsWordChar(s[i - 1]))
  {
    var t := ReplaceFrom(s, w, rep, i);
    var ctx := i > 0 && IsWordChar(s[i - 1]);
    var j := i + |w|;
    var t2 := ReplaceFrom(s, w, rep, j);
    assert t == rep + t2;
    if j < |s| {
      StartsNonWord(s, w, rep, j);
    }
    if |t2| > 0 {
      assert t[|rep|] == t2[0];
    }
    forall p | WholeAtCtx(t, v, ctx, p) ensures false {
      MatchWordChars(t, v, p);
      if p + |v| <= |rep| {
        PrefixWhole(rep, t2, v, ctx, p);
        assert WholeWordAt(rep, v, p);
      } else if p >= |rep| {
        ShiftWhole(rep, t2, v, ctx, p);
      }
    }
  }

  /** When no match starts at a word character, the scan copies its whole
      run. */
  lemma CopyWholeRun(s: string, w: string, rep: string, i: int)
    requires |w| > 0 && 0 <= i < |s| && IsWordChar(s[i]) && !WholeWordAt(s, w, i)
    ensures ReplaceFrom(s, w, rep, i) == s[i..RunEnd(s, i)] + ReplaceFrom(s, w, rep, RunEnd(s, i))
  {
    var e := RunEnd(s, i);
    var r := ReplaceFrom(s, w, rep, e);
    var t2 := ReplaceFrom(s, w, rep, i + 1);
    assert t2 == s[i + 1..e] + r by {
      assert e == RunEnd(s, i + 1);
      CopyRun(s, w, rep, i + 1);
    }
    assert ReplaceFrom(s, w, rep, i) == [s[i]] + t2;
    assert [s[i]] + (s[i + 1..e] + r) == s[i..e] + r by {
      assert [s[i]] + s[i + 1..e] == s[i..e];
    }
  }

  /** After a run the scan continues with a character that is not a word
      character, if any. */
  lemma AfterRunNonWord(s: string, w: string, rep: string, i: int)
    requires |w| > 0 && AllWordChars(w) && 0 <= i <= |s|
    ensures var r := ReplaceFrom(s, w, rep, RunEnd(s, i));
      |r| == 0 || !IsWordChar(r[0])
  {
    var e := RunEnd(s, i);
    if e < |s| {
      StartsNonWord(s, w, rep, e);
    }
  }

  /** A whole word at the start of `run + rest`, where `run` is all word
      characters and `rest` does not start with one, spans all of `run`. */
  lemma WholeIsRun(run: string, rest: string, v: string, ctx: bool)
    requires forall k :: 0 <= k < |run| ==> IsWordChar(run[k])
    requires AllWordChars(v)
    requires |rest| == 0 || !IsWordChar(rest[0])
    requires WholeAtCtx(run + rest, v, ctx, 0)
    ensures |v| == |run| && MatchesAt(run, v, 0)
  {
    var t := run + rest;
    MatchWordChars(t, v, 0);
    if |rest| > 0 {
      assert t[|run|] == rest[0];
    }
    assert forall k :: 0 <= k < |run| ==> t[k] == run[k];
  }

  /** A whole word starting at a copied character is a whole word of the
      input, since the scan copies the rest of its run unchanged. */
  lemma CopyStartNoWhole(s: string, w: string, rep: string, v: string, i: int)
    requires |w| > 0 && AllWordChars(w) && |v| > 0 && AllWordChars(v)
    requires 0 <= i < |s| && !WholeWordAt(s, w, i)
    requires v == w || NoWholeWord(s, v)
    ensures !WholeAtCtx(ReplaceFrom(s, w, rep, i), v, i > 0 && IsWordChar(s[i - 1]), 0)
  {
    var t := ReplaceFrom(s, w, rep, i);
    var ctx := i > 0 && IsWordChar(s[i - 1]);
    if WholeAtCtx(t, v, ctx, 0) {
      MatchWordChars(t, v, 0);
      assert t[0] == s[i];
      CopyWholeRun(s, w, rep, i);
      AfterRunNonWord(s, w, rep, i);
      var e := RunEnd(s, i);
      WholeIsRun(s[i..e], ReplaceFrom(s, w, rep, e), v, ctx);
      RunIsWhole(s, v, i);
    }
  }

  /** A maximal run that starts after a boundary and matches `v` is a
      whole-word `v`. */
  lemma RunIsWhole(s: string, v: string, i: int)
    requires 0 <= i <= |s| && (i == 0 || !IsWordChar(s[i - 1]))
    requires |v| == RunEnd(s, i) - i && MatchesAt(s[i..RunEnd(s, i)], v, 0)
    ensures WholeWordAt(s, v, i)
  {
    var run := s[i..RunEnd(s, i)];
    forall k | 0 <= k < |v| ensures LowerChar(s[i + k]) == v[k] {
      assert run[0 + k] == s[i + k];
    }
  }

  /** The step of the scan that copies a character keeps whole-word `v`
      out. */
  lemma CopyStepNoWhole(s: string, w: string, rep: string, v: string, i: int)
    requires |w| > 0 && AllWordChars(w) && |v| > 0 && AllWordChars(v)
    requires 0 <= i < |s| && !WholeWordAt(s, w, i)
    requires v == w || NoWholeWord(s, v)
    requires NoWholeCtx(ReplaceFrom(s, w, rep, i + 1), v, IsWordChar(s[i]))
    ensures NoWholeCtx(ReplaceFrom(s, w, rep, i), v, i > 0 && IsWordChar(s[i - 1]))
  {
    var t := ReplaceFrom(s, w, rep, i);
    var ctx := i > 0 && IsWordChar(s[i - 1]);
    var t2 := ReplaceFrom(s, w, rep, i + 1);
    assert t == [s[i]] + t2;
    CopyStartNoWhole(s, w, rep, v, i);
    forall p | 0 < p && WholeAtCtx(t, v, ctx, p) ensures false {
      ShiftWhole([s[i]], t2, v, ctx, p);
    }
  }

  /** A whole-word `v` in the output of the scan from `i` is a whole-word
      `v` of the input that was not replaced, or one inside a replacement. */
  lemma {:induction false} ReplaceFromNoWhole(s: string, w: string, rep: string, v: string, i: int)
    requires |w| > 0 && AllWordChars(w) && |v| > 0 && AllWordChars(v)
    requires 0 <= i <= |s|
    requires SafeReplacement(rep, v)
    requires v == w || NoWholeWord(s, v)
    ensures NoWholeCtx(ReplaceFrom(s, w, rep, i), v, i > 0 && IsWordChar(s[i - 1]))
    decreases |s| - i
  {
    if i < |s| {
      if WholeWordAt(s, w, i) {
        ReplaceFromNoWhole(s, w, rep, v, i + |w|);
        MatchWordChars(s, w, i);
        MatchStepNoWhole(s, w, rep, v, i);
      } else {
        ReplaceFromNoWhole(s, w, rep, v, i + 1);
        CopyStepNoWhole(s, w, rep, v, i);
      }
    }
  }

  /** After `re.sub(r'\bw\b', rep, ...)` no whole-word `w` remains, and a
      whole word that was absent stays absent, provided the replacement text
      does not itself spell it. */
  lemma ReplaceWordNoWhole(s: string, w: string, rep: string, v: string)
    requires |w| > 0 && AllWordChars(w) && |v| > 0 && AllWordChars(v)
    requires SafeReplacement(rep, v)
    requires v == w || NoWholeWord(s, v)
    ensures NoWholeWord(ReplaceWord(s, w, rep), v)
  {
    ReplaceFromNoWhole(s, w, rep, v, 0);
  }

  /** Appending a character that is not a word character creates no whole
      word. */
  lemma AppendNonWordKeeps(s: string, c: char, v: string)
    requires !IsWordChar(c) && |v| > 0 && AllWordChars(v) && NoWholeWord(s, v)
    ensures NoWholeWord(s + [c], v)
  {
    var t := s + [c];
    assert t[|s|] == c;
    forall p | WholeWordAt(t, v, p) ensures false {
      MatchWordChars(t, v, p);
      if p + |v| < |t| {
        PrefixWhole(s, [c], v, false, p);
        assert WholeWordAt(s, v, p);
      }
    }
  }

  /** In a text made only of word characters, `v` is a whole word only when
      it is the entire text. */
  lemma WholeInWordRun(t: string, v: string, p: int)
    requires AllWordChars(t) && WholeWordAt(t, v, p)
    ensures p == 0 && |v| == |t|
  {
  }
}
