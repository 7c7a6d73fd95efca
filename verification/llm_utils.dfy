/** utils/llm_utils.py: the white-space clean-up every prompt goes through
    before it is sent to the model. */
module LlmUtils {
  import opened Text
  import opened Seqs

  /** A line that `strip` reduces to nothing. */
  predicate IsBlank(line: string) {
    |Strip(line)| == 0
  }

  /** A line that survives the clean-up. */
  predicate NonBlank(line: string) {
    !IsBlank(line)
  }

  /** The stripped non-blank lines, in order. */
  function CleanLines(lines: seq<string>): (r: seq<string>)
    ensures |r| <= |lines|
    decreases |lines|
  {
    if |lines| == 0 then []
    else if IsBlank(lines[0]) then CleanLines(lines[1..])
    else [Strip(lines[0])] + CleanLines(lines[1..])
  }

  /** Each cleaned line is some non-blank input line, stripped. */
  lemma {:induction false} CleanLineSource(lines: seq<string>, k: int) returns (j: int)
    requires 0 <= k < |CleanLines(lines)|
    ensures 0 <= j < |lines| && !IsBlank(lines[j]) && CleanLines(lines)[k] == Strip(lines[j])
    decreases |lines|
  {
    var tail := lines[1..];
    var rest := CleanLines(tail);
    if IsBlank(lines[0]) {
      assert CleanLines(lines) == rest;
      var i := CleanLineSource(tail, k);
      assert tail[i] == lines[i + 1];
      j := i + 1;
    } else if k == 0 {
      assert CleanLines(lines) == [Strip(lines[0])] + rest;
      j := 0;
    } else {
      assert CleanLines(lines) == [Strip(lines[0])] + rest;
      assert CleanLines(lines)[k] == rest[k - 1];
      var i := CleanLineSource(tail, k - 1);
      assert tail[i] == lines[i + 1];
      j := i + 1;
    }
  }

  /** Every cleaned line is non-empty and stripped. */
  lemma CleanLinesShape(lines: seq<string>)
    ensures forall k :: 0 <= k < |CleanLines(lines)| ==> |CleanLines(lines)[k]| > 0 && IsStripped(CleanLines(lines)[k])
  {
    forall k | 0 <= k < |CleanLines(lines)| ensures |CleanLines(lines)[k]| > 0 && IsStripped(CleanLines(lines)[k]) {
      var j := CleanLineSource(lines, k);
    }
  }

  /** Every input line, stripped. */
  function StripEach(lines: seq<string>): (r: seq<string>)
    ensures |r| == |lines| && forall j :: 0 <= j < |lines| ==> r[j] == Strip(lines[j])
  {
    seq(|lines|, j requires 0 <= j < |lines| => Strip(lines[j]))
  }

  /** The cleaned lines are the stripped input lines with some taken out,
      in their original order. */
  lemma {:induction false} CleanLinesOrdered(lines: seq<string>)
    ensures IsSubsequence(CleanLines(lines), StripEach(lines))
    decreases |lines|
  {
    if |lines| > 0 {
      CleanLinesOrdered(lines[1..]);
      var se := StripEach(lines);
      assert se[1..] == StripEach(lines[1..]);
      var r := CleanLines(lines);
      if !IsBlank(lines[0]) {
        assert r == [se[0]] + CleanLines(lines[1..]);
        assert r[1..] == CleanLines(lines[1..]);
      } else {
        assert r == CleanLines(lines[1..]);
        SubsequenceCons(r, se);
      }
    }
  }

  /** No non-blank line is lost. */
  lemma {:induction false} CleanLinesComplete(lines: seq<string>)
    ensures forall j :: 0 <= j < |lines| && !IsBlank(lines[j]) ==> Strip(lines[j]) in CleanLines(lines)
    decreases |lines|
  {
    if |lines| > 0 {
      CleanLinesComplete(lines[1..]);
      var rest := CleanLines(lines[1..]);
      var r := CleanLines(lines);
      forall j | 0 <= j < |lines| && !IsBlank(lines[j]) ensures Strip(lines[j]) in r {
        if j == 0 {
          assert r[0] == Strip(lines[0]);
        } else {
          assert lines[1..][j - 1] == lines[j];
          var i :| 0 <= i < |rest| && rest[i] == Strip(lines[j]);
          if IsBlank(lines[0]) {
            assert r[i] == rest[i];
          } else {
            assert r[i + 1] == rest[i];
          }
        }
      }
    }
  }

  /** The cleaned lines are the input lines at `idx`, stripped, where
      `idx` lists, in increasing order, exactly the positions of the
      non-blank lines: each non-blank line comes through once, and nothing
      else does. */
  lemma CleanLinesCons(lines: seq<string>)
    requires |lines| > 0
    ensures CleanLines(lines) == (if NonBlank(lines[0]) then [Strip(lines[0])] else []) + CleanLines(lines[1..])
  {
  }

  lemma {:induction false} CleanLinesPositions(lines: seq<string>) returns (idx: seq<int>)
    ensures |idx| == |CleanLines(lines)| && PositionsOf(lines, NonBlank, idx)
    ensures forall k :: 0 <= k < |idx| ==> 0 <= idx[k] < |lines| && CleanLines(lines)[k] == Strip(lines[idx[k]])
    decreases |lines|
  {
    if |lines| > 0 {
      var rest := CleanLinesPositions(lines[1..]);
      idx := PositionsOfCons(lines, NonBlank, rest);
      CleanLinesCons(lines);
      SelectedCons(lines, NonBlank, Strip, CleanLines(lines), CleanLines(lines[1..]), rest, idx);
    } else {
      idx := [];
    }
  }

  /** Nothing is left exactly when every line is blank. */
  lemma {:induction false} CleanLinesEmpty(lines: seq<string>)
    ensures |CleanLines(lines)| == 0 <==> forall j :: 0 <= j < |lines| ==> IsBlank(lines[j])
    decreases |lines|
  {
    if |lines| > 0 {
      CleanLinesEmpty(lines[1..]);
      if !forall j :: 1 <= j < |lines| ==> IsBlank(lines[j]) {
        var j :| 1 <= j < |lines| && !IsBlank(lines[j]);
        assert lines[1..][j - 1] == lines[j];
      } else {
        forall j | 0 <= j < |lines[1..]| ensures IsBlank(lines[1..][j]) {
          assert lines[1..][j] == lines[j + 1];
        }
      }
    }
  }

  /** `clean_text_paragraph(text)` */
  function CleanTextParagraph(text: string): string {
    Join(CleanLines(SplitLines(text)), "\n")
  }

  lemma CleanLinesNoLineBreak(lines: seq<string>)
    requires forall j :: 0 <= j < |lines| ==> NoLineBreak(lines[j])
    ensures forall k :: 0 <= k < |CleanLines(lines)| ==> NoLineBreak(CleanLines(lines)[k])
  {
    forall k | 0 <= k < |CleanLines(lines)| ensures NoLineBreak(CleanLines(lines)[k]) {
      var j := CleanLineSource(lines, k);
      StripNoLineBreak(lines[j]);
    }
  }

  /** The lines of the cleaned text are exactly the stripped non-blank lines
      of the input, in their original order. */
  lemma CleanTextLines(text: string)
    ensures SplitLines(CleanTextParagraph(text)) == CleanLines(SplitLines(text))
  {
    var lines := SplitLines(text);
    CleanLinesNoLineBreak(lines);
    CleanLinesShape(lines);
    SplitLinesJoin(CleanLines(lines));
  }

  /** The cleaned text has no leading or trailing white space (so no
      leading or trailing newline), and no line of it is blank. */
  lemma CleanTextShape(text: string)
    ensures IsStripped(CleanTextParagraph(text))
    ensures forall k :: 0 <= k < |SplitLines(CleanTextParagraph(text))| ==>
      |SplitLines(CleanTextParagraph(text))[k]| > 0 && IsStripped(SplitLines(CleanTextParagraph(text))[k])
  {
    CleanTextLines(text);
    var cl := CleanLines(SplitLines(text));
    CleanLinesShape(SplitLines(text));
    if |cl| > 0 {
      JoinStartsWithFirst(cl, "\n");
      JoinEndsWithLast(cl, "\n");
      var r := CleanTextParagraph(text);
      assert r[0] == cl[0][0];
      var last := cl[|cl| - 1];
      assert r[|r| - 1] == last[|last| - 1];
    }
  }

  lemma {:induction false} CleanLinesFixed(lines: seq<string>)
    requires forall k :: 0 <= k < |lines| ==> |lines[k]| > 0 && IsStripped(lines[k])
    ensures CleanLines(lines) == lines
    decreases |lines|
  {
    if |lines| > 0 {
      var tail := lines[1..];
      assert forall k :: 0 <= k < |tail| ==> tail[k] == lines[k + 1];
      CleanLinesFixed(tail);
      StripStripped(lines[0]);
      assert !IsBlank(lines[0]);
      assert CleanLines(lines) == [lines[0]] + CleanLines(tail);
      assert [lines[0]] + tail == lines;
    }
  }

  /** Cleaning an already cleaned text changes nothing. */
  lemma CleanTextIdempotent(text: string)
    ensures CleanTextParagraph(CleanTextParagraph(text)) == CleanTextParagraph(text)
  {
    CleanTextLines(text);
    CleanLinesShape(SplitLines(text));
    CleanLinesFixed(CleanLines(SplitLines(text)));
  }

  lemma {:induction false} SplitLinesAllSpace(s: string)
    requires AllSpace(s)
    ensures forall k :: 0 <= k < |SplitLines(s)| ==> AllSpace(SplitLines(s)[k])
    decreases |s|
  {
    if |s| > 0 {
      if IsLineBreak(s[0]) {
        var skip := if s[0] == '\r' && |s| > 1 && s[1] == '\n' then 2 else 1;
        SplitLinesAllSpace(s[skip..]);
      } else {
        SplitLinesAllSpace(s[1..]);
      }
    }
  }

  /** A join whose first part is non-empty is non-empty. */
  lemma JoinNonEmpty(parts: seq<string>, sep: string)
    requires |parts| > 0 && |parts[0]| > 0
    ensures |Join(parts, sep)| > 0
  {
    JoinStartsWithFirst(parts, sep);
  }

  /** The cleaned text is empty exactly when every input line is blank. */
  lemma CleanTextEmpty(text: string)
    ensures CleanTextParagraph(text) == "" <==> forall j :: 0 <= j < |SplitLines(text)| ==> IsBlank(SplitLines(text)[j])
  {
    var cl := CleanLines(SplitLines(text));
    if |cl| > 0 {
      var j := CleanLineSource(SplitLines(text), 0);
      JoinNonEmpty(cl, "\n");
    }
    CleanLinesEmpty(SplitLines(text));
  }

  /** An all-white-space input cleans to the empty string. */
  lemma CleanTextAllSpace(text: string)
    requires AllSpace(text)
    ensures CleanTextParagraph(text) == ""
  {
    var lines := SplitLines(text);
    SplitLinesAllSpace(text);
    forall j | 0 <= j < |lines| ensures IsBlank(lines[j]) {
      StripSpec(lines[j]);
    }
    CleanTextEmpty(text);
  }
}
