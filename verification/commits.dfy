/** The commit record every stage of the pipeline passes around, and the
    `'%Y-%m-%d %H:%M:%S'` rendering of its date used by both stores. */
module Commits {
  import opened Wrappers
  import opened Text
  import ODict

  /** A naive `datetime.datetime`, to the second. */
  datatype DateTime = DateTime(year: int, month: int, day: int, hour: int, minute: int, second: int)

  predicate ValidDateTime(d: DateTime) {
    && 1 <= d.year <= 9999
    && 1 <= d.month <= 12
    && 1 <= d.day <= 31
    && 0 <= d.hour < 24
    && 0 <= d.minute < 60
    && 0 <= d.second < 60
  }

  type Timestamp = d: DateTime | ValidDateTime(d) witness DateTime(1970, 1, 1, 0, 0, 0)

  /** The record built by the extractor: the nine keys of the source's
      commit dict, with the three `llama_*` enrichment fields. */
  datatype Commit = Commit(
    hash: string,
    author: string,
    date: Timestamp,
    message: string,
    files: seq<string>,
    diffs: ODict.Dict<string, string>,
    llamaSummary: string,
    llamaCategory: string,
    llamaTechSummary: string)

  /** A checkpoint set: commit dicts keyed by integer index, in insertion
      order. */
  type CommitSet = ODict.Dict<int, Commit>

  /** Keys 0, 1, ..., n-1 in order, as the driver renumbers them. */
  predicate DenseKeys(commits: CommitSet) {
    forall i :: 0 <= i < |commits| ==> commits[i].0 == i
  }

  // ---------------------------------------------------------------------------
  // Timestamp rendering

  function Pow10(w: nat): (p: nat)
    ensures p >= 1
  {
    if w == 0 then 1 else 10 * Pow10(w - 1)
  }

  /** The last `w` decimal digits of `n`, zero padded. */
  function Digits(n: nat, w: nat): (r: string)
    ensures |r| == w
    ensures forall i :: 0 <= i < w ==> '0' <= r[i] <= '9'
  {
    if w == 0 then "" else Digits(n / 10, w - 1) + [DigitChar(n % 10)]
  }

  /** The number a string of decimal digits denotes. */
  function DigitsValue(s: string): nat
    requires forall i :: 0 <= i < |s| ==> '0' <= s[i] <= '9'
  {
    if |s| == 0 then 0 else 10 * DigitsValue(s[..|s| - 1]) + (s[|s| - 1] as int - '0' as int)
  }

  /** Reading back `w` zero-padded digits gives the number, when it fits. */
  lemma {:induction false} DigitsRoundTrip(n: nat, w: nat)
    requires n < Pow10(w)
    ensures DigitsValue(Digits(n, w)) == n
  {
    if w > 0 {
      var d := Digits(n, w);
      assert d[..w - 1] == Digits(n / 10, w - 1);
      DigitsRoundTrip(n / 10, w - 1);
    }
  }

  /** `date.strftime('%Y-%m-%d %H:%M:%S')`, with the year written as four
      digits. */
  function FormatTimestamp(d: Timestamp): (r: string)
    ensures |r| == 19
  {
    Digits(d.year, 4) + "-" + Digits(d.month, 2) + "-" + Digits(d.day, 2) + " "
      + Digits(d.hour, 2) + ":" + Digits(d.minute, 2) + ":" + Digits(d.second, 2)
  }

  predicate AllDigits(s: string) {
    forall i :: 0 <= i < |s| ==> '0' <= s[i] <= '9'
  }

  /** The shape `'%Y-%m-%d %H:%M:%S'` accepts: digits, with the separators
      in their places. */
  predicate WellFormedTimestamp(s: string) {
    && |s| == 19 && s[4] == '-' && s[7] == '-' && s[10] == ' ' && s[13] == ':' && s[16] == ':'
    && AllDigits(s[0..4]) && AllDigits(s[5..7]) && AllDigits(s[8..10])
    && AllDigits(s[11..13]) && AllDigits(s[14..16]) && AllDigits(s[17..19])
  }

  /** Reads a `'%Y-%m-%d %H:%M:%S'` string back into a date. */
  function ParseTimestamp(s: string): Option<DateTime> {
    if WellFormedTimestamp(s)
    then Some(DateTime(DigitsValue(s[0..4]), DigitsValue(s[5..7]), DigitsValue(s[8..10]),
                       DigitsValue(s[11..13]), DigitsValue(s[14..16]), DigitsValue(s[17..19])))
    else None
  }

  /** A string with the fields in their places parses to their values. */
  lemma ParseFields(s: string, y: string, mo: string, da: string, h: string, mi: string, se: string)
    requires |s| == 19 && s[4] == '-' && s[7] == '-' && s[10] == ' ' && s[13] == ':' && s[16] == ':'
    requires s[0..4] == y && s[5..7] == mo && s[8..10] == da && s[11..13] == h && s[14..16] == mi && s[17..19] == se
    requires AllDigits(y) && AllDigits(mo) && AllDigits(da) && AllDigits(h) && AllDigits(mi) && AllDigits(se)
    ensures ParseTimestamp(s) == Some(DateTime(DigitsValue(y), DigitsValue(mo), DigitsValue(da),
                                               DigitsValue(h), DigitsValue(mi), DigitsValue(se)))
  {
    assert WellFormedTimestamp(s);
  }

  /** Where each field sits in the rendering. */
  lemma Layout(y: string, mo: string, da: string, h: string, mi: string, se: string)
    requires |y| == 4 && |mo| == 2 && |da| == 2 && |h| == 2 && |mi| == 2 && |se| == 2
    ensures var s := y + "-" + mo + "-" + da + " " + h + ":" + mi + ":" + se;
      && |s| == 19 && s[4] == '-' && s[7] == '-' && s[10] == ' ' && s[13] == ':' && s[16] == ':'
      && s[0..4] == y && s[5..7] == mo && s[8..10] == da
      && s[11..13] == h && s[14..16] == mi && s[17..19] == se
  {
    var time := h + ":" + mi + ":" + se;
    assert time[0..2] == h && time[3..5] == mi && time[6..8] == se;
    var date := y + "-" + mo + "-" + da;
    assert date[0..4] == y && date[5..7] == mo && date[8..10] == da;
    var s := y + "-" + mo + "-" + da + " " + h + ":" + mi + ":" + se;
    assert s == date + " " + time;
    assert s[0..10] == date && s[11..19] == time;
  }

  /** The rendering loses nothing: parsing it gives back the date. */
  lemma TimestampRoundTrip(d: Timestamp)
    ensures ParseTimestamp(FormatTimestamp(d)) == Some(d)
  {
    var y, mo, da := Digits(d.year, 4), Digits(d.month, 2), Digits(d.day, 2);
    var h, mi, se := Digits(d.hour, 2), Digits(d.minute, 2), Digits(d.second, 2);
    Layout(y, mo, da, h, mi, se);
    ParseFields(FormatTimestamp(d), y, mo, da, h, mi, se);
    assert Pow10(2) == 100 && Pow10(4) == 10000;
    DigitsRoundTrip(d.year, 4);
    DigitsRoundTrip(d.month, 2);
    DigitsRoundTrip(d.day, 2);
    DigitsRoundTrip(d.hour, 2);
    DigitsRoundTrip(d.minute, 2);
    DigitsRoundTrip(d.second, 2);
  }
}
