/** The parts of the categorization and summarization prompts that depend on
    the commit (summary_categorization/categorization.py and
    general_summarization.py). The fixed instruction and example text around
    them is a parameter. */
module Prompts {
  import opened Text
  import opened LlmUtils
  import ODict
  import opened Commits

  /** The constant text before and after the commit block. */
  datatype PromptFrame = PromptFrame(before: string, after: string)

  /** At most this many characters of each diff reach a prompt. */
  const ExcerptLimit: nat := 1000

  /** `diff[:1000]` */
  function Excerpt(diff: string): (r: string)
    ensures |r| <= |diff| && |r| <= ExcerptLimit && r == diff[..|r|]
    ensures |diff| <= ExcerptLimit ==> r == diff
    ensures |diff| > ExcerptLimit ==> |r| == ExcerptLimit
  {
    if |diff| <= ExcerptLimit then diff else diff[..ExcerptLimit]
  }

  /** One `file_name: excerpt` entry per diff, in the diffs' order. */
  function DiffEntries(diffs: ODict.Dict<string, string>): (r: seq<string>)
    ensures |r| == |diffs|
    ensures forall i :: 0 <= i < |diffs| ==> r[i] == diffs[i].0 + ": " + Excerpt(diffs[i].1)
  {
    seq(|diffs|, i requires 0 <= i < |diffs| => diffs[i].0 + ": " + Excerpt(diffs[i].1))
  }

  /** `chr(10).join(...)` over the diff entries. */
  function DiffsSection(diffs: ODict.Dict<string, string>): string {
    Join(DiffEntries(diffs), "\n")
  }

  /** Each entry names its file and carries a prefix of at most 1000
      characters of that file's diff; short diffs are carried whole. */
  lemma DiffEntryShape(diffs: ODict.Dict<string, string>, i: int)
    requires 0 <= i < |diffs|
    ensures var e := DiffEntries(diffs)[i];
      var x := e[|diffs[i].0| + 2..];
      && StartsWith(e, diffs[i].0 + ": ")
      && |x| <= ExcerptLimit && StartsWith(diffs[i].1, x)
      && (|diffs[i].1| <= ExcerptLimit ==> x == diffs[i].1)
  {
    var e := DiffEntries(diffs)[i];
    var h := diffs[i].0 + ": ";
    assert e == h + Excerpt(diffs[i].1);
    assert e[..|h|] == h;
    assert e[|h|..] == Excerpt(diffs[i].1);
  }

  /** Whatever text goes in, a prompt that has been through
      `clean_text_paragraph` is left alone by it. */
  lemma CleanedPromptIsClean(raw: string)
    ensures CleanTextParagraph(CleanTextParagraph(raw)) == CleanTextParagraph(raw)
    ensures IsStripped(CleanTextParagraph(raw))
  {
    CleanTextIdempotent(raw);
    CleanTextShape(raw);
  }
}
