/** summary_categorization/categorization.py: the label set, the prompt's
    commit-dependent part, and turning the model's reply into a label. The
    model is the parameter `generate`, from prompt to reply text. */
module Categorization {
  import opened Text
  import opened LlmUtils
  import opened Commits
  import opened Prompts

  /** `CATEGORIES`, in order. */
  const Categories: seq<string> := [
    "Feature Update",
    "Bug Fix",
    "Documentation Update",
    "Refactoring",
    "Performance Improvement",
    "Test Addition/Update",
    "Dependency Update",
    "Build/CI Change",
    "Style Update",
    "Other"
  ]

  /** The `i`-th line of the numbered list. */
  function NumberedLine(i: nat, item: string): string {
    NatToString(i + 1) + ". " + item
  }

  function NumberedLines(labels: seq<string>): (r: seq<string>)
    ensures |r| == |labels|
    ensures forall i :: 0 <= i < |labels| ==> r[i] == NumberedLine(i, labels[i])
  {
    seq(|labels|, i requires 0 <= i < |labels| => NumberedLine(i, labels[i]))
  }

  /** `categories_text` */
  function CategoriesText(): string {
    Join(NumberedLines(Categories), "\n")
  }

  /** A label list without line breaks renders to one line per label, the
      `i`-th reading `i+1`, a full stop, a space and the label. */
  lemma NumberedListLines(labels: seq<string>)
    requires forall j :: 0 <= j < |labels| ==> NoLineBreak(labels[j])
    ensures SplitLines(Join(NumberedLines(labels), "\n")) == NumberedLines(labels)
    ensures forall i :: 0 <= i < |labels| ==>
      StartsWith(NumberedLines(labels)[i], NatToString(i + 1) + ". ")
      && EndsWith(NumberedLines(labels)[i], labels[i])
  {
    var lines := NumberedLines(labels);
    forall k | 0 <= k < |lines| ensures |lines[k]| > 0 && NoLineBreak(lines[k]) {
      var d := NatToString(k + 1);
      forall m | 0 <= m < |lines[k]| ensures !IsLineBreak(lines[k][m]) {
        if m < |d| {
          assert lines[k][m] == d[m];
        } else if m >= |d| + 2 {
          assert lines[k][m] == labels[k][m - |d| - 2];
        }
      }
    }
    SplitLinesJoin(lines);
    forall i | 0 <= i < |labels|
      ensures StartsWith(lines[i], NatToString(i + 1) + ". ") && EndsWith(lines[i], labels[i])
    {
      var p := NatToString(i + 1) + ". ";
      assert lines[i] == p + labels[i];
      assert lines[i][..|p|] == p;
      assert lines[i][|lines[i]| - |labels[i]|..] == labels[i];
    }
  }

  /** The category list is numbered 1 to 10, one label per line, in list
      order. */
  lemma CategoriesTextLines()
    ensures |SplitLines(CategoriesText())| == |Categories| == 10
    ensures forall i :: 0 <= i < |Categories| ==>
      SplitLines(CategoriesText())[i] == NatToString(i + 1) + ". " + Categories[i]
  {
    CategoriesNoLineBreak();
    NumberedListLines(Categories);
  }

  /** No label holds a line break; checked a few labels at a time. */
  lemma CategoriesNoLineBreak()
    ensures forall j :: 0 <= j < |Categories| ==> NoLineBreak(Categories[j])
  {
    FirstLabelsNoLineBreak();
    MiddleLabelsNoLineBreak();
    LastLabelsNoLineBreak();
  }

  lemma FirstLabelsNoLineBreak()
    ensures forall j :: 0 <= j < 3 ==> NoLineBreak(Categories[j])
  {
    assert NoLineBreak(Categories[0]) && NoLineBreak(Categories[1]) && NoLineBreak(Categories[2]);
  }

  lemma MiddleLabelsNoLineBreak()
    ensures forall j :: 3 <= j < 6 ==> NoLineBreak(Categories[j])
  {
    assert NoLineBreak(Categories[3]) && NoLineBreak(Categories[4]) && NoLineBreak(Categories[5]);
  }

  lemma LastLabelsNoLineBreak()
    ensures forall j :: 6 <= j < 10 ==> NoLineBreak(Categories[j])
  {
    assert NoLineBreak(Categories[6]) && NoLineBreak(Categories[7]);
    assert NoLineBreak(Categories[8]) && NoLineBreak(Categories[9]);
  }

  /** The first of `labels[j..]` that the answer mentions ignoring case,
      and "Other" when it mentions none. */
  function FirstMentioned(answer: string, labels: seq<string>, j: nat): (r: string)
    requires j <= |labels|
    ensures r == "Other" || r in labels
    decreases |labels| - j
  {
    if j == |labels| then "Other"
    else if ContainsIgnoreCase(answer, labels[j]) then labels[j]
    else FirstMentioned(answer, labels, j + 1)
  }

  /** The label found is mentioned and no earlier one is; "Other" comes
      back only when nothing is mentioned. */
  lemma {:induction false} FirstMentionedSpec(answer: string, labels: seq<string>, j: nat)
    requires j <= |labels|
    ensures (exists i :: j <= i < |labels| && ContainsIgnoreCase(answer, labels[i])) ==>
      exists i :: j <= i < |labels| && ContainsIgnoreCase(answer, labels[i])
        && FirstMentioned(answer, labels, j) == labels[i]
        && forall i2 :: j <= i2 < i ==> !ContainsIgnoreCase(answer, labels[i2])
    ensures (forall i :: j <= i < |labels| ==> !ContainsIgnoreCase(answer, labels[i])) ==>
      FirstMentioned(answer, labels, j) == "Other"
    decreases |labels| - j
  {
    if j < |labels| && !ContainsIgnoreCase(answer, labels[j]) {
      FirstMentionedSpec(answer, labels, j + 1);
    }
  }

  /** `refine_answer(answer)`: the first label, in list order, that the
      answer mentions ignoring case, and "Other" when it mentions none. */
  function RefineAnswer(answer: string): (r: string)
    ensures r in Categories
    ensures (exists i :: 0 <= i < |Categories| && ContainsIgnoreCase(answer, Categories[i])) ==>
      exists i :: 0 <= i < |Categories| && ContainsIgnoreCase(answer, Categories[i]) && r == Categories[i]
        && forall i2 :: 0 <= i2 < i ==> !ContainsIgnoreCase(answer, Categories[i2])
    ensures (forall i :: 0 <= i < |Categories| ==> !ContainsIgnoreCase(answer, Categories[i])) ==> r == "Other"
  {
    FirstMentionedSpec(answer, Categories, 0);
    assert Categories[9] == "Other";
    assert "Other" in Categories;
    FirstMentioned(answer, Categories, 0)
  }

  /** The first label wins: an answer mentioning "feature update", whatever
      else it mentions ("bug fix" say), is a Feature Update. */
  lemma FirstLabelWins(answer: string)
    requires ContainsIgnoreCase(answer, "Feature Update")
    ensures RefineAnswer(answer) == "Feature Update"
  {
    assert ContainsIgnoreCase(answer, Categories[0]);
  }

  /** A label the answer does not mention, or that comes after one it does,
      is never the result. */
  lemma RefineAnswerSkips(answer: string, j: int)
    requires 0 <= j < |Categories|
    requires RefineAnswer(answer) == Categories[j] && j != 9
    ensures ContainsIgnoreCase(answer, Categories[j])
    ensures forall i :: 0 <= i < j ==> !ContainsIgnoreCase(answer, Categories[i])
  {
    var i :| 0 <= i < |Categories| && ContainsIgnoreCase(answer, Categories[i]) && RefineAnswer(answer) == Categories[i]
      && forall i2 :: 0 <= i2 < i ==> !ContainsIgnoreCase(answer, Categories[i2]);
    CategoriesDistinct();
  }

  /** No label is listed twice. */
  lemma CategoriesDistinct()
    ensures forall i, j :: 0 <= i < j < |Categories| ==> Categories[i] != Categories[j]
  {
  }

  /** `ask_model_categorization(prompt, ...)` given the model's reply: the
      text after the last "Category:" is refined into a label. */
  function AskModelCategorization(response: string): (r: string)
    ensures r in Categories
  {
    RefineAnswer(AfterLast(response, "Category:"))
  }

  /** Only the text after the last "Category:" decides the label; a reply
      without the marker is refined whole. */
  lemma AskModelCategorizationTail(response: string)
    ensures !Contains(response, "Category:") ==> AskModelCategorization(response) == RefineAnswer(response)
    ensures Contains(response, "Category:") ==>
      exists pre, tail :: response == pre + "Category:" + tail && !Contains(tail, "Category:")
        && AskModelCategorization(response) == RefineAnswer(tail)
  {
    AfterLastSpec(response, "Category:");
  }

  /** The commit block of the categorization prompt. */
  function CommitBlock(c: Commit): string {
    "Hash (unique identifier): " + c.hash + "\nAuthor: " + c.author
      + "\nDate: " + FormatTimestamp(c.date) + "\nCommit Message: " + c.message
      + "\nChanged Files: " + Join(c.files, ", ") + "\nDiffs: " + DiffsSection(c.diffs) + "\n"
  }

  /** `generate_prompt_categorization_few_shots(commit)` */
  function CategorizationPrompt(c: Commit, frame: PromptFrame): string {
    CleanTextParagraph(frame.before + CommitBlock(c) + frame.after)
  }

  /** `categorize(commit, idx, ...)`: the label for the reply to the
      commit's prompt is stored in the category field, and nothing else
      changes. */
  function Categorize(c: Commit, frame: PromptFrame, generate: string -> string): (r: Commit)
    ensures r == c.(llamaCategory := r.llamaCategory)
    ensures r.llamaCategory in Categories
  {
    c.(llamaCategory := AskModelCategorization(generate(CategorizationPrompt(c, frame))))
  }

  /** The prompt sent for a commit is already clean. */
  lemma CategorizationPromptClean(c: Commit, frame: PromptFrame)
    ensures CleanTextParagraph(CategorizationPrompt(c, frame)) == CategorizationPrompt(c, frame)
  {
    CleanedPromptIsClean(frame.before + CommitBlock(c) + frame.after);
  }
}
