/** summary_categorization/general_summarization.py: the general summary of
    one commit. The model is the parameter `generate`; the similarity search
    over stored summaries is the parameter `search`, from query, summary type
    and result count to scored documents. */
module Summarization {
  import opened Text
  import opened LlmUtils
  import opened Commits
  import opened Prompts
  import opened ChromaUtils

  /** `ask_model_summarization(prompt, ...)` given the model's reply: the
      text after the last "Answer:", or the whole reply when there is none. */
  function AskModelSummarization(response: string): (r: string)
    ensures !Contains(r, "Answer:")
    ensures !Contains(response, "Answer:") ==> r == response
    ensures EndsWith(response, r)
  {
    AfterLastSpec(response, "Answer:");
    var r := AfterLast(response, "Answer:");
    if Contains(response, "Answer:") then
      var pre :| response == pre + "Answer:" + r;
      assert response[|response| - |r|..] == r;
      r
    else
      r
  }

  /** The commit block of the summarization prompt. */
  function CommitBlock(c: Commit): string {
    "- Hash (unique identifier): " + c.hash + "\n- Author: " + c.author
      + "\n- Date: " + FormatTimestamp(c.date)
      + "\nCommit Message - this provides a brief summary of the changes:\n" + c.message
      + "\nChanged Files - files modified in this commit:\n" + Join(c.files, ", ")
      + "\nDiffs - lines of code changed in each file:\n" + DiffsSection(c.diffs) + "\n"
  }

  /** `generate_prompt_summarization_few_shots(commit)` */
  function SummarizationPrompt(c: Commit, frame: PromptFrame): string {
    CleanTextParagraph(frame.before + CommitBlock(c) + frame.after)
  }

  /** The page contents of the hits, in order. */
  function Contents(docs: seq<Scored>): (r: seq<string>)
    ensures |r| == |docs|
    ensures forall k :: 0 <= k < |docs| ==> r[k] == docs[k].0.pageContent
  {
    seq(|docs|, k requires 0 <= k < |docs| => docs[k].0.pageContent)
  }

  const SimilarHeader: string := "\n\nPrevious similar commits:\n"

  /** The prompt with the similar commits appended when there are any. */
  function WithSimilar(prompt: string, docs: seq<Scored>): (r: string)
    ensures StartsWith(r, prompt)
    ensures |docs| > 0 <==> r != prompt
    ensures |docs| > 0 ==> r[|prompt|..] == SimilarHeader + Join(Contents(docs), "\n")
  {
    var r := if |docs| > 0 then prompt + SimilarHeader + Join(Contents(docs), "\n") else prompt;
    assert r[..|prompt|] == prompt;
    r
  }

  /** The number of results requested from the search. */
  const SimilarCount: nat := 3

  /** `generate_general_summary(commit, idx, ...)`: the search runs on the
      cleaned prompt for GENERAL documents, asking for three; its hits are
      returned as they came, and the summary field alone changes, to an
      answer with no "Answer:" left in it. */
  function GenerateGeneralSummary(
    c: Commit, frame: PromptFrame,
    search: (string, SummaryType, nat) -> seq<Scored>,
    generate: string -> string): (r: (Commit, seq<Scored>))
    ensures r.0 == c.(llamaSummary := r.0.llamaSummary)
    ensures r.1 == search(SummarizationPrompt(c, frame), General, SimilarCount)
    ensures !Contains(r.0.llamaSummary, "Answer:")
  {
    var prompt := SummarizationPrompt(c, frame);
    var docs := search(prompt, General, SimilarCount);
    (c.(llamaSummary := AskModelSummarization(generate(WithSimilar(prompt, docs)))), docs)
  }

  /** The model sees the retrieved contents exactly when the search found
      something. */
  lemma SimilarBlockIffHits(c: Commit, frame: PromptFrame, search: (string, SummaryType, nat) -> seq<Scored>)
    ensures var prompt := SummarizationPrompt(c, frame);
      var docs := search(prompt, General, SimilarCount);
      (|docs| == 0 <==> WithSimilar(prompt, docs) == prompt)
  {
  }

  /** The prompt before the similar commits are appended is already
      clean. */
  lemma SummarizationPromptClean(c: Commit, frame: PromptFrame)
    ensures CleanTextParagraph(SummarizationPrompt(c, frame)) == SummarizationPrompt(c, frame)
  {
    CleanedPromptIsClean(frame.before + CommitBlock(c) + frame.after);
  }
}
