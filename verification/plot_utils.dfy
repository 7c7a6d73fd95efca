/** utils/plot_utils.py without the drawing: the quarter label of a commit
    date, the per-category per-quarter counts behind the line chart and the
    per-category counts behind the pie chart. Both are `defaultdict`s, so
    they are ordered dicts here, keys in first-occurrence order. */
module PlotUtils {
  import opened Wrappers
  import opened Text
  import opened Commits
  import ODict

  // ---------------------------------------------------------------------------
  // Quarters

  /** `(month - 1) // 3 + 1` */
  function QuarterOf(month: int): (q: int)
    requires 1 <= month <= 12
    ensures 1 <= q <= 4
    ensures 3 * (q - 1) < month <= 3 * q
  {
    (month - 1) / 3 + 1
  }

  /** `get_quarter(date)`: `"{year}-Q{quarter}"`. */
  function GetQuarter(d: Timestamp): string {
    NatToString(d.year) + "-Q" + [DigitChar(QuarterOf(d.month))]
  }

  /** Two dates share a label exactly when they fall in the same quarter of
      the same year. */
  lemma GetQuarterInjective(a: Timestamp, b: Timestamp)
    ensures GetQuarter(a) == GetQuarter(b) <==> a.year == b.year && QuarterOf(a.month) == QuarterOf(b.month)
  {
    if GetQuarter(a) == GetQuarter(b) {
      var ya, yb := NatToString(a.year), NatToString(b.year);
      assert |ya| == |yb|;
      assert ya == GetQuarter(a)[..|ya|];
      assert yb == GetQuarter(b)[..|yb|];
      NatToStringValue(a.year);
      NatToStringValue(b.year);
      assert GetQuarter(a)[|ya| + 2] == DigitChar(QuarterOf(a.month));
    }
  }

  // ---------------------------------------------------------------------------
  // Counting into a defaultdict

  /** `d[k]` on a `defaultdict`: the stored value, or the default. */
  function GetOr<K(==), V>(d: ODict.Dict<K, V>, k: K, default: V): V {
    match ODict.Get(d, k)
    case None => default
    case Some(v) => v
  }

  /** The sum of `size` over the values. */
  function SumOf<K, V>(d: ODict.Dict<K, V>, size: V -> nat): nat
    decreases |d|
  {
    if |d| == 0 then 0 else size(d[0].1) + SumOf(d[1..], size)
  }

  /** Assigning to a key replaces that key's share of the sum. */
  lemma {:induction false} SumPut<K, V>(d: ODict.Dict<K, V>, k: K, v: V, default: V, size: V -> nat)
    requires ODict.DistinctKeys(d)
    requires size(default) == 0
    ensures SumOf(ODict.Put(d, k, v), size) + size(GetOr(d, k, default)) == SumOf(d, size) + size(v)
    decreases |d|
  {
    if |d| > 0 {
      if d[0].0 == k {
        assert !ODict.HasKey(d[1..], k) by {
          forall i | 0 <= i < |d[1..]| ensures d[1..][i].0 != k {
            assert d[1..][i] == d[i + 1];
          }
        }
        assert ODict.Get(d[1..], k).None?;
        assert ODict.Put(d, k, v)[1..] == d[1..];
      } else {
        assert ODict.DistinctKeys(d[1..]) by {
          forall i, j | 0 <= i < j < |d[1..]| ensures d[1..][i].0 != d[1..][j].0 {
            assert d[1..][i] == d[i + 1] && d[1..][j] == d[j + 1];
          }
        }
        SumPut(d[1..], k, v, default, size);
        assert ODict.Put(d, k, v)[1..] == ODict.Put(d[1..], k, v);
        assert ODict.Put(d, k, v)[0] == d[0];
      }
    }
  }

  function Count(n: nat): nat {
    n
  }

  /** `counts[k] += 1` on a `defaultdict(int)`. */
  function Increment(d: ODict.Dict<string, nat>, k: string): ODict.Dict<string, nat> {
    ODict.Put<string, nat>(d, k, GetOr(d, k, 0) + 1)
  }

  /** Incrementing adds one under its own key and nothing under any
      other. */
  lemma {:induction false} IncrementCount(d: ODict.Dict<string, nat>, k: string, k2: string)
    ensures GetOr(Increment(d, k), k2, 0) == GetOr(d, k2, 0) + (if k2 == k then 1 else 0)
  {
    PutGetOr(d, k, GetOr<string, nat>(d, k, 0) + 1, k2);
  }

  /** Incrementing adds the key if it was missing and no other. */
  lemma {:induction false} IncrementKeys(d: ODict.Dict<string, nat>, k: string, k2: string)
    ensures ODict.HasKey(Increment(d, k), k2) <==> k2 == k || ODict.HasKey(d, k2)
  {
    PutGetOr(d, k, GetOr<string, nat>(d, k, 0) + 1, k2);
  }

  lemma {:induction false} PutGetOr(d: ODict.Dict<string, nat>, k: string, v: nat, k2: string)
    ensures GetOr(ODict.Put(d, k, v), k2, 0) == if k2 == k then v else GetOr(d, k2, 0)
    ensures ODict.HasKey(ODict.Put(d, k, v), k2) <==> k2 == k || ODict.HasKey(d, k2)
  {
    ODict.PutGet(d, k, v, k2);
  }

  // ---------------------------------------------------------------------------
  // Reference counts

  /** The records with the given category. */
  function Occurrences(commits: CommitSet, category: string): (n: nat)
    ensures n <= |commits|
  {
    if |commits| == 0 then 0
    else Occurrences(commits[..|commits| - 1], category) + (if commits[|commits| - 1].1.llamaCategory == category then 1 else 0)
  }

  /** The records with the given category whose date falls in the given
      quarter. */
  function OccurrencesIn(commits: CommitSet, category: string, quarter: string): (n: nat)
    ensures n <= Occurrences(commits, category)
  {
    if |commits| == 0 then 0
    else
      var c := commits[|commits| - 1].1;
      OccurrencesIn(commits[..|commits| - 1], category, quarter)
        + (if c.llamaCategory == category && GetQuarter(c.date) == quarter then 1 else 0)
  }

  /** The number of records with a category. */
  function Categorised(commits: CommitSet): (n: nat)
    ensures n <= |commits|
  {
    if |commits| == 0 then 0
    else Categorised(commits[..|commits| - 1]) + (if commits[|commits| - 1].1.llamaCategory != "" then 1 else 0)
  }

  // ---------------------------------------------------------------------------
  // The pie chart

  /** Lines 42-48: count each non-empty category. */
  function PieCounts(commits: CommitSet): (r: ODict.Dict<string, nat>)
    ensures ODict.DistinctKeys(r)
  {
    if |commits| == 0 then []
    else
      var d := PieCounts(commits[..|commits| - 1]);
      var category := commits[|commits| - 1].1.llamaCategory;
      if category == "" then d
      else
        ODict.PutDistinct<string, nat>(d, category, GetOr(d, category, 0) + 1);
        Increment(d, category)
  }

  /** Each category's slice is the number of its records; the empty
      category never gets one, and every category that occurs does. */
  lemma {:induction false} PieCountsSpec(commits: CommitSet, category: string)
    ensures GetOr(PieCounts(commits), category, 0) == (if category == "" then 0 else Occurrences(commits, category))
    ensures ODict.HasKey(PieCounts(commits), category) <==> category != "" && Occurrences(commits, category) > 0
  {
    if |commits| > 0 {
      PieCountsSpec(commits[..|commits| - 1], category);
      IncrementCount(PieCounts(commits[..|commits| - 1]), commits[|commits| - 1].1.llamaCategory, category);
      IncrementKeys(PieCounts(commits[..|commits| - 1]), commits[|commits| - 1].1.llamaCategory, category);
    }
  }

  /** The slices add up to the number of categorised records. */
  lemma {:induction false} PieCountsTotal(commits: CommitSet)
    ensures SumOf(PieCounts(commits), Count) == Categorised(commits)
  {
    if |commits| > 0 {
      var d := PieCounts(commits[..|commits| - 1]);
      var category := commits[|commits| - 1].1.llamaCategory;
      PieCountsTotal(commits[..|commits| - 1]);
      if category != "" {
        assert PieCounts(commits) == Increment(d, category);
        IncrementTotal(d, category);
      } else {
        assert PieCounts(commits) == d;
      }
    }
  }

  // ---------------------------------------------------------------------------
  // The line chart

  type QuarterCounts = ODict.Dict<string, ODict.Dict<string, nat>>

  /** Lines 12-17: count each categorised record under its category and its
      quarter. */
  function CategoryQuarterCounts(commits: CommitSet): (r: QuarterCounts)
    ensures ODict.DistinctKeys(r)
  {
    if |commits| == 0 then []
    else
      var d := CategoryQuarterCounts(commits[..|commits| - 1]);
      var c := commits[|commits| - 1].1;
      if c.llamaCategory == "" then d
      else
        var inner := Increment(GetOr(d, c.llamaCategory, []), GetQuarter(c.date));
        ODict.PutDistinct(d, c.llamaCategory, inner);
        ODict.Put(d, c.llamaCategory, inner)
  }

  /** Line 24: the count plotted for a category and a quarter, 0 when the
      pair never occurred. */
  function Plotted(counts: QuarterCounts, category: string, quarter: string): nat {
    GetOr(GetOr(counts, category, []), quarter, 0)
  }

  /** Each plotted point is the number of records of that category in that
      quarter, and the empty category is never plotted. */
  lemma {:induction false} PlottedCount(commits: CommitSet, category: string, quarter: string)
    ensures Plotted(CategoryQuarterCounts(commits), category, quarter)
      == (if category == "" then 0 else OccurrencesIn(commits, category, quarter))
  {
    if |commits| > 0 {
      var init := commits[..|commits| - 1];
      var d := CategoryQuarterCounts(init);
      var c := commits[|commits| - 1].1;
      PlottedCount(init, category, quarter);
      if c.llamaCategory != "" {
        var old_inner := GetOr(d, c.llamaCategory, []);
        var inner := Increment(old_inner, GetQuarter(c.date));
        ODict.PutGet<string, ODict.Dict<string, nat>>(d, c.llamaCategory, inner, category);
        IncrementCount(old_inner, GetQuarter(c.date), quarter);
      }
    }
  }

  /** The chart has a line for a category exactly when some record has
      that non-empty category. */
  lemma {:induction false} QuarterCountsKeys(commits: CommitSet, category: string)
    ensures ODict.HasKey(CategoryQuarterCounts(commits), category) <==> category != "" && Occurrences(commits, category) > 0
  {
    if |commits| > 0 {
      var init := commits[..|commits| - 1];
      var d := CategoryQuarterCounts(init);
      var c := commits[|commits| - 1].1;
      QuarterCountsKeys(init, category);
      if c.llamaCategory != "" {
        var inner := Increment(GetOr(d, c.llamaCategory, []), GetQuarter(c.date));
        ODict.PutGet<string, ODict.Dict<string, nat>>(d, c.llamaCategory, inner, category);
      }
    }
  }

  /** The total of one category's quarters. */
  function CategoryTotal(inner: ODict.Dict<string, nat>): nat {
    SumOf(inner, Count)
  }

  /** Every categorised record is plotted exactly once. */
  lemma {:induction false} QuarterCountsTotal(commits: CommitSet)
    ensures SumOf(CategoryQuarterCounts(commits), CategoryTotal) == Categorised(commits)
  {
    if |commits| > 0 {
      var init := commits[..|commits| - 1];
      var d := CategoryQuarterCounts(init);
      var c := commits[|commits| - 1].1;
      QuarterCountsTotal(init);
      if c.llamaCategory != "" {
        var old_inner := GetOr(d, c.llamaCategory, []);
        var inner := Increment(old_inner, GetQuarter(c.date));
        assert CategoryQuarterCounts(commits) == ODict.Put(d, c.llamaCategory, inner);
        InnerDistinct(init, c.llamaCategory);
        IncrementTotal(old_inner, GetQuarter(c.date));
        assert CategoryTotal([]) == 0;
        SumPut(d, c.llamaCategory, inner, [], CategoryTotal);
      } else {
        assert CategoryQuarterCounts(commits) == d;
      }
    }
  }

  /** Incrementing a count adds one to the total. */
  lemma IncrementTotal(d: ODict.Dict<string, nat>, k: string)
    requires ODict.DistinctKeys(d)
    ensures CategoryTotal(Increment(d, k)) == CategoryTotal(d) + 1
  {
    SumPut<string, nat>(d, k, GetOr(d, k, 0) + 1, 0, Count);
  }

  /** Each category's quarter dict has distinct keys. */
  lemma {:induction false} InnerDistinct(commits: CommitSet, category: string)
    ensures ODict.DistinctKeys(GetOr(CategoryQuarterCounts(commits), category, []))
  {
    if |commits| > 0 {
      var init := commits[..|commits| - 1];
      var d := CategoryQuarterCounts(init);
      var c := commits[|commits| - 1].1;
      InnerDistinct(init, category);
      InnerDistinct(init, c.llamaCategory);
      if c.llamaCategory != "" {
        var old_inner := GetOr(d, c.llamaCategory, []);
        var inner := Increment(old_inner, GetQuarter(c.date));
        ODict.PutGet(d, c.llamaCategory, inner, category);
        ODict.PutDistinct<string, nat>(old_inner, GetQuarter(c.date), GetOr(old_inner, GetQuarter(c.date), 0) + 1);
      }
    }
  }

  /** Line 20: the quarters any category was counted in. */
  function QuarterAxis(counts: QuarterCounts): set<string> {
    set i, j | 0 <= i < |counts| && 0 <= j < |counts[i].1| :: counts[i].1[j].0
  }
}
