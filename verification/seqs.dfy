/** Order-preservation vocabulary shared by the filtering stages. */
module Seqs {

  /** `sub` is `s` with some elements removed and the rest in order. */
  predicate IsSubsequence<T(==)>(sub: seq<T>, s: seq<T>)
    decreases |s|
  {
    if |sub| == 0 then true
    else if |s| == 0 then false
    else if sub[0] == s[0] then IsSubsequence(sub[1..], s[1..])
    else IsSubsequence(sub, s[1..])
  }

  /** `idx` lists, in increasing order, exactly the positions of `s` at
      which `keep` holds. */
  ghost predicate PositionsOf<T>(s: seq<T>, keep: T -> bool, idx: seq<int>) {
    && (forall a, b :: 0 <= a < b < |idx| ==> idx[a] < idx[b])
    && (forall k :: 0 <= k < |idx| ==> 0 <= idx[k] < |s|)
    && (forall j :: 0 <= j < |s| ==> (keep(s[j]) <==> j in idx))
  }

  /** Every position moved one place on. */
  function Shift(rest: seq<int>): (r: seq<int>)
    ensures |r| == |rest| && forall k :: 0 <= k < |rest| ==> r[k] == rest[k] + 1
  {
    seq(|rest|, k requires 0 <= k < |rest| => rest[k] + 1)
  }

  lemma ShiftMembers(rest: seq<int>)
    ensures forall j :: j in Shift(rest) <==> j - 1 in rest
  {
    var sh := Shift(rest);
    forall j ensures j in sh <==> j - 1 in rest {
      if j - 1 in rest {
        var k :| 0 <= k < |rest| && rest[k] == j - 1;
        assert sh[k] == j;
      }
    }
  }

  /** The positions in `s` follow from those in its tail: shift them by
      one, and put 0 in front when the head is kept. */
  lemma PositionsOfCons<T>(s: seq<T>, keep: T -> bool, rest: seq<int>) returns (idx: seq<int>)
    requires |s| > 0 && PositionsOf(s[1..], keep, rest)
    ensures PositionsOf(s, keep, idx)
    ensures keep(s[0]) ==> |idx| == |rest| + 1 && idx[0] == 0 && forall k :: 0 <= k < |rest| ==> idx[k + 1] == rest[k] + 1
    ensures !keep(s[0]) ==> |idx| == |rest| && forall k :: 0 <= k < |rest| ==> idx[k] == rest[k] + 1
  {
    var shifted := Shift(rest);
    ShiftMembers(rest);
    idx := if keep(s[0]) then [0] + shifted else shifted;
    assert 0 !in shifted;
    forall j | 1 <= j < |s| ensures keep(s[j]) <==> j in idx {
      assert s[1..][j - 1] == s[j];
    }
  }

  /** The elements of `s` at which `keep` holds, in order. */
  function Filter<T>(s: seq<T>, keep: T -> bool): (r: seq<T>)
    ensures |r| <= |s|
    decreases |s|
  {
    if |s| == 0 then []
    else if keep(s[0]) then [s[0]] + Filter(s[1..], keep)
    else Filter(s[1..], keep)
  }

  /** A filter's result is the elements at the kept positions, each once,
      in order. */
  lemma {:induction false} FilterPositions<T>(s: seq<T>, keep: T -> bool) returns (idx: seq<int>)
    ensures |idx| == |Filter(s, keep)| && PositionsOf(s, keep, idx)
    ensures forall k :: 0 <= k < |idx| ==> 0 <= idx[k] < |s| && Filter(s, keep)[k] == s[idx[k]]
    decreases |s|
  {
    if |s| == 0 {
      idx := [];
    } else {
      var rest := FilterPositions(s[1..], keep);
      idx := PositionsOfCons(s, keep, rest);
      SelectedCons(s, keep, x => x, Filter(s, keep), Filter(s[1..], keep), rest, idx);
    }
  }

  /** One step of a filter-and-map recursion: if the tail's result is `f`
      of the tail at `rest`, the whole result is `f` of `s` at `idx`, the
      positions `PositionsOfCons` builds from `rest`. */
  lemma SelectedCons<T, U>(s: seq<T>, keep: T -> bool, f: T -> U, r: seq<U>, rt: seq<U>, rest: seq<int>, idx: seq<int>)
    requires |s| > 0
    requires r == (if keep(s[0]) then [f(s[0])] else []) + rt
    requires |rest| == |rt| && forall k :: 0 <= k < |rest| ==> 0 <= rest[k] < |s| - 1 && rt[k] == f(s[1..][rest[k]])
    requires keep(s[0]) ==> |idx| == |rest| + 1 && idx[0] == 0 && forall k :: 0 <= k < |rest| ==> idx[k + 1] == rest[k] + 1
    requires !keep(s[0]) ==> |idx| == |rest| && forall k :: 0 <= k < |rest| ==> idx[k] == rest[k] + 1
    ensures |idx| == |r| && forall k :: 0 <= k < |idx| ==> 0 <= idx[k] < |s| && r[k] == f(s[idx[k]])
  {
    var off := if keep(s[0]) then 1 else 0;
    forall k | off <= k < |idx| ensures 0 <= idx[k] < |s| && r[k] == f(s[idx[k]]) {
      assert r[k] == rt[k - off] && s[1..][rest[k - off]] == s[idx[k]];
    }
  }

  /** Everything a subsequence holds comes from the sequence. */
  lemma {:induction false} SubsequenceMembers<T>(sub: seq<T>, s: seq<T>)
    requires IsSubsequence(sub, s)
    ensures forall x :: x in sub ==> x in s
    decreases |s|
  {
    if |sub| > 0 {
      if sub[0] == s[0] {
        SubsequenceMembers(sub[1..], s[1..]);
        assert sub == [sub[0]] + sub[1..];
      } else {
        SubsequenceMembers(sub, s[1..]);
      }
    }
  }

  /** A subsequence of the tail is a subsequence of the whole. */
  lemma {:induction false} SubsequenceCons<T>(sub: seq<T>, s: seq<T>)
    requires |s| > 0 && IsSubsequence(sub, s[1..])
    ensures IsSubsequence(sub, s)
    decreases |s|, 0
  {
    if |sub| > 0 && sub[0] == s[0] {
      SubsequenceTail(sub, s[1..]);
    }
  }

  /** Dropping the first element of a subsequence leaves a subsequence. */
  lemma {:induction false} SubsequenceTail<T>(sub: seq<T>, s: seq<T>)
    requires |sub| > 0 && IsSubsequence(sub, s)
    ensures IsSubsequence(sub[1..], s)
    decreases |s|, 1
  {
    if sub[0] == s[0] {
      SubsequenceCons(sub[1..], s);
    } else {
      SubsequenceTail(sub, s[1..]);
      SubsequenceCons(sub[1..], s);
    }
  }

  /** Subsequences of two sequences concatenate to a subsequence of their
      concatenation. */
  lemma {:induction false} SubsequenceAppend<T>(a: seq<T>, b: seq<T>, c: seq<T>, d: seq<T>)
    requires IsSubsequence(a, b) && IsSubsequence(c, d)
    ensures IsSubsequence(a + c, b + d)
    decreases |b|
  {
    if |b| == 0 {
      assert a + c == c && b + d == d;
    } else if |a| == 0 {
      SubsequenceAppend(a, b[1..], c, d);
      assert a + c == c && (b + d)[1..] == b[1..] + d;
      SubsequenceCons(c, b + d);
    } else if a[0] == b[0] {
      SubsequenceAppend(a[1..], b[1..], c, d);
      assert (a + c)[1..] == a[1..] + c && (b + d)[1..] == b[1..] + d;
    } else {
      SubsequenceAppend(a, b[1..], c, d);
      assert (b + d)[1..] == b[1..] + d;
    }
  }

  /** Python's `s[::-1]`. */
  function Reverse<T>(s: seq<T>): (r: seq<T>)
    ensures |r| == |s|
    ensures forall i :: 0 <= i < |s| ==> r[i] == s[|s| - 1 - i]
  {
    if |s| == 0 then [] else Reverse(s[1..]) + [s[0]]
  }

  /** Reversing twice gives the sequence back. */
  lemma ReverseInvolution<T>(s: seq<T>)
    ensures Reverse(Reverse(s)) == s
  {
  }
}
