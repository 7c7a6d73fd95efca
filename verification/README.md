# A Dafny model of the commit-enrichment pipeline

The repository is a research pipeline about a C code base's git history.
Its **offline pipeline** extracts the commits, drops trivial ones and
normalises their messages. It then asks a language model for a category, a
general summary and a technical summary of each commit. The results go to
pickle checkpoints, a SQLite database and a Chroma vector store. The
**validation** scripts score the categories against a hand-made ground truth
and store the judge model's G-Eval grades. The **chat** side answers
questions with a ReAct agent whose tools search code by `§file§` markers and
run SELECT queries.

This project models the deterministic logic under that glue:

- The commit text processing: the trivial-commit filter, message
  normalisation, the diff-line filter, the record builder, prompt
  clean-up, and turning model replies into labels and summaries.
- The resumable enrichment driver, as a fold over the records. Its sinks
  are a filesystem map, SQLite tables as row sequences, and a vector
  store as an ordered id-to-document map.
- The evaluation bookkeeping: confusion-matrix counts over index windows,
  plot counts, score schemas, G-Eval entries and the golden-standard
  transposition.
- The chat-side logic: markers, metadata filters, the SELECT guard, the
  commit formatter and the chat history.

Language models, similarity searches, the clock and database reads are
function parameters. Strings are ASCII. One module models each source
file; `Text`, `Words`, `ODict`, `Seqs`, `Wrappers` and `Commits` hold the
Python semantics they share: string methods, `\b`-bounded `re.sub`,
insertion-ordered dicts, subsequences, `None` and exceptions, and the
commit record.

`normalize_message` is not idempotent: filler phrases are removed after
capitalisation, so a word brought to the front stays in lower case until a
second pass. The lemma `CommitUtils.NormalizeNotIdempotent` exhibits this.
No idempotence is claimed for `CommitUtils.NormalizeMessage`.

## Model

| member | source | states |
|---|---|---|
| CommitUtils.FilterTrivialCommits | utils/commit_utils.py:3-38 | With `trivial_patterns=None` the pattern list is the default as written. The kept records are exactly those that pass the pattern test and the diff-size test, in order. The kept count plus the filtered count is the input size. |
| CommitUtils.KeptCommitsSpec | utils/commit_utils.py:22-35 | A record is kept iff no pattern, read as literal text, occurs in its message ignoring case and it has at least `min_diff_lines` diff lines. Kept records keep their keys and values and their relative order; nothing is renumbered. |
| CommitUtils.KeptKeysSubset | utils/commit_utils.py:19-35 | Every key of the output is a key of the input. |
| CommitUtils.EmptyDiffsDropped | utils/commit_utils.py:29-31 | A record with an empty diffs map is dropped whenever the minimum is positive. |
| CommitUtils.ReleaseKeptAsWritten | utils/commit_utils.py:9-24 | With the default patterns as written, which `trivial_patterns=None` selects, "Release 1.2" with five diff lines is kept, because "release" and "cleanup" are fused into one pattern. |
| CommitUtils.ReleaseDroppedCorrected | utils/commit_utils.py:9-17 | With "release" and "cleanup" as separate defaults, "Release 1.2" is dropped. |
| CommitUtils.CollapseSpace | utils/commit_utils.py:54-55 | After `\s+` becomes one space, the only white space left is single spaces. |
| CommitUtils.CollapseSpaceFixed | utils/commit_utils.py:54-55 | Whitespace collapsing changes text iff the text has white space other than single spaces. |
| CommitUtils.CollapseSpaceIdempotent | utils/commit_utils.py:54-55 | Collapsing white space twice is collapsing once. |
| CommitUtils.CollapsePunct | utils/commit_utils.py:58 | After a run of two or more of `!?.` becomes one `.`, no two of these characters are adjacent. A text that starts with one still does. |
| CommitUtils.DropPunct | utils/commit_utils.py:58 | A leading run of `!?.` is dropped: what is removed is all punctuation, and what is left does not start with it. |
| CommitUtils.CollapsePunctFixed | utils/commit_utils.py:58 | Punctuation collapsing changes text iff two of `!?.` are adjacent in it. |
| CommitUtils.DropPunctSuffix | utils/commit_utils.py:58 | Dropping a leading punctuation run keeps a suffix of the text. |
| CommitUtils.RemovePhrases | utils/commit_utils.py:61-66 | After the filler phrases are removed, each as a whole word with a strip after it, the text has no surrounding white space. |
| CommitUtils.Tidied | utils/commit_utils.py:51-66 | The message after strip, capitalisation, collapsing and phrase removal is stripped. |
| CommitUtils.EnsurePeriod | utils/commit_utils.py:78-79 | The result ends with `.`. It is the text itself when the text already ends with one, and otherwise the text plus `.`. |
| CommitUtils.NormalizeMessage | utils/commit_utils.py:46-81 | Every normalised message is non-empty and ends with a full stop. |
| CommitUtils.NormalizeNotIdempotent | utils/commit_utils.py:51-66 | "this commit x" normalises to "x.", and normalising that again gives "X.". Normalisation is therefore not idempotent. |
| CommitUtils.SubstitutionsSafe | utils/commit_utils.py:69-75 | No replacement text of a substitution spells any substitution target as a whole word. |
| CommitUtils.ApplySubstitutionsNoWhole | utils/commit_utils.py:69-75 | After the substitutions a target is gone if some substitution removes it. A target that was absent stays absent. |
| CommitUtils.NormalizedNoPastTense | utils/commit_utils.py:69-75 | No whole-word "added", "removed", "fixed", "bugfix" or "refactored", in any case, is left in a normalised message. |
| CommitUtils.NormalizeCommitData | utils/commit_utils.py:84-89 | Keys and order are kept. Each record's message is normalised, every other field is unchanged, and every message ends with `.`. |
| Words.ReplaceWordUnchanged | utils/commit_utils.py:66 | A whole-word substitution of a word that does not occur changes nothing. |
| Words.ReplaceWordNoWhole | utils/commit_utils.py:66-75 | After `re.sub(r'\bw\b', rep, s, re.IGNORECASE)` no whole-word `w` remains. A safe replacement creates no whole word that was absent. |
| Commits.DigitsRoundTrip | utils/sqlite_utils.py:25 | Zero-padded digits read back as the number they render. |
| Commits.Digits | utils/sqlite_utils.py:25 | A zero-padded field is exactly `w` decimal digits. |
| Commits.FormatTimestamp | utils/sqlite_utils.py:25 | A rendered date is 19 characters long. |
| Commits.TimestampRoundTrip | utils/sqlite_utils.py:25 | A date rendered with `'%Y-%m-%d %H:%M:%S'` parses back to the same date. |
| GitUtils.KeptLines | utils/git_utils.py:48-52 | Every kept line is an input content line. Every input content line is kept. The kept lines are an in-order subsequence of the input. |
| GitUtils.KeptLinesPositions | utils/git_utils.py:48-52 | The kept lines are the input lines at an increasing list of positions that holds exactly the positions of the content lines, so each content line is kept once and nothing else is. |
| GitUtils.KeptLinesFilter | utils/git_utils.py:48-52 | Keeping diff lines is the in-order filter by the content-line test. |
| GitUtils.FilterDiffLinesLines | utils/git_utils.py:36-52 | The lines of the filtered text are exactly the input's `+`/`-` lines other than `+++`/`---`, in order. |
| GitUtils.KeptLinesAllKept | utils/git_utils.py:48-52 | When every line is a content line, all lines are kept. |
| GitUtils.FilterDiffLinesIdempotent | utils/git_utils.py:36-52 | Filtering an already filtered diff changes nothing. |
| GitUtils.FilterDiffLinesNothingKept | utils/git_utils.py:47-52 | A diff with no content line, the empty diff included, filters to the empty string. |
| GitUtils.HeaderLookalikesDropped | utils/git_utils.py:50 | A removed line whose content starts with `--` is dropped, and so is an added line starting with `++`. Any other removed line is kept. |
| GitUtils.DiffKeyShape | utils/git_utils.py:30 | The key is the single path when old and new paths agree, and otherwise starts with the old path and " -> ". Without arrows in the paths, the key is that prefix plus the new path. |
| GitUtils.DiffsDictKeys | utils/git_utils.py:28-31 | The diffs dict has distinct keys, and a key exactly for each diff key. |
| GitUtils.DiffsDictLastWins | utils/git_utils.py:28-31 | Each key holds the filtered patch of the last diff with that key. |
| GitUtils.BuildRecord | utils/git_utils.py:14-24 | The author is `name <email>` and the message is stripped. Hash, date and files come from the commit, and the three `llama_*` fields are empty. |
| GitUtils.ExtractGitCommits | utils/git_utils.py:11-24 | One record per commit, keyed by position in the reversed history, so the oldest commit comes first. |
| GitUtils.ExtractedShape | utils/git_utils.py:11-24 | Keys are distinct and run 0..n-1. Every record starts with empty enrichment fields, and key 0 is the oldest commit. |
| LlmUtils.CleanLineSource | utils/llm_utils.py:8-10 | Each cleaned line is some non-blank input line, stripped. |
| LlmUtils.CleanLines | utils/llm_utils.py:8-9 | The cleaning filter never adds lines. |
| LlmUtils.StripEach | utils/llm_utils.py:9 | Line `j` of the result is line `j` of the input, stripped. |
| LlmUtils.CleanLinesFixed | utils/llm_utils.py:8-10 | Lines that are already non-empty and stripped come through unchanged. |
| LlmUtils.CleanLinesShape | utils/llm_utils.py:9 | No cleaned line is empty, and none has surrounding white space. |
| LlmUtils.CleanLinesOrdered | utils/llm_utils.py:8-10 | The cleaned lines are an in-order subsequence of the stripped input lines. |
| LlmUtils.CleanLinesComplete | utils/llm_utils.py:9 | No non-blank input line is lost. |
| LlmUtils.CleanLinesPositions | utils/llm_utils.py:9 | The cleaned lines are the input lines, stripped, at an increasing list of positions that holds exactly the positions of the non-blank lines, so each non-blank line comes through once and nothing else does. |
| LlmUtils.CleanLinesEmpty | utils/llm_utils.py:9 | Nothing is left iff every line is blank. |
| LlmUtils.CleanTextLines | utils/llm_utils.py:3-12 | The lines of the cleaned text are exactly the stripped non-blank input lines, in order. |
| LlmUtils.CleanTextShape | utils/llm_utils.py:3-12 | The cleaned text has no leading or trailing white space, and none of its lines is blank. |
| LlmUtils.CleanTextIdempotent | utils/llm_utils.py:3-12 | Cleaning twice is cleaning once. |
| LlmUtils.CleanTextEmpty | utils/llm_utils.py:3-12 | The cleaned text is empty iff every input line is blank. |
| LlmUtils.CleanTextAllSpace | utils/llm_utils.py:10 | An all-white-space input cleans to the empty string. |
| Text.StripSpec | utils/llm_utils.py:9 | `strip` returns a contiguous piece of its input, and nothing iff the input is all white space. |
| Text.Lower | summary_categorization/categorization.py:124-126 | `s.lower()` keeps the length and lowers each character on its own. |
| Text.Capitalize | utils/commit_utils.py:51 | `s.capitalize()` keeps the length, upper-cases the first character and lowers the rest. |
| Text.LStrip | utils/llm_utils.py:9 | `lstrip` removes only white space, and the result does not start with white space. |
| Text.RStrip | utils/llm_utils.py:9 | `rstrip` removes only white space, and the result does not end with white space. |
| Text.Strip | utils/llm_utils.py:9 | `strip` leaves no white space at either end. |
| Text.StripStripped | utils/llm_utils.py:9 | Stripping text that is already stripped changes nothing. |
| Text.StripNoLineBreak | utils/llm_utils.py:9 | Stripping a line without line breaks leaves none. |
| Text.SplitLines | utils/llm_utils.py:8 | `splitlines` gives lines without line breaks, and none for the empty string. |
| Text.SplitLinesJoin | utils/llm_utils.py:8-10 | Joining non-empty break-free lines with `\n` and splitting the result again gives the same lines. |
| Text.SplitOnJoin | summary_categorization/categorization.py:149 | Joining the pieces of `s.split(sep)` with `sep` gives `s` back. |
| Text.SplitOn | summary_categorization/categorization.py:149 | `s.split(sep)` gives at least one piece. |
| Text.SplitOnWithout | summary_categorization/general_summarization.py:142 | Without the separator, `split` returns the text whole. |
| Text.SplitOnPieces | summary_categorization/categorization.py:149 | No piece of `s.split(sep)` contains `sep`. |
| Text.AfterLastSpec | summary_categorization/categorization.py:149 | `s.split(sep)[-1]` never contains `sep`. It is `s` when `sep` is absent, and otherwise the part of `s` after an occurrence of `sep`. |
| Text.SplitOnCharCount | online_pipeline_models/models/graph_agent_react.py:212 | Splitting on a character gives one more piece than the character's count. |
| Text.NatToStringValue | summary_categorization/categorization.py:22 | `str(n)` of a natural number reads back as `n`. |
| Text.NatToString | summary_categorization/categorization.py:22 | `str(n)` is non-empty and all decimal digits. |
| Text.IntToStringParts | utils/chromadb_utils.py:43 | `str(i)` starts with `-` iff `i` is negative, and its digits read back as the magnitude. |
| Text.IntToStringInjective | utils/chromadb_utils.py:43 | Distinct integers render to distinct strings. |
| Categorization.NumberedListLines | summary_categorization/categorization.py:22 | A label list without line breaks renders to one line per label, and line `i` is `i+1`, a full stop, a space and the label. |
| Categorization.NumberedLines | summary_categorization/categorization.py:22 | One numbered line per label, line `i` for label `i`. |
| Categorization.CategoriesTextLines | summary_categorization/categorization.py:9-22 | `categories_text` has ten lines, numbered 1 to 10 in label order. |
| Categorization.CategoriesDistinct | summary_categorization/categorization.py:9-20 | No label is listed twice. |
| Categorization.FirstMentionedSpec | summary_categorization/categorization.py:124-127 | The label found is mentioned ignoring case, and no earlier one is. "Other" is returned only when none is mentioned. |
| Categorization.FirstMentioned | summary_categorization/categorization.py:124-127 | The result is "Other" or one of the labels. |
| Categorization.RefineAnswer | summary_categorization/categorization.py:119-127 | The result is always one of the ten labels. It is the first label, in list order, whose lower case occurs in the lowered answer, and "Other" when none does. |
| Categorization.FirstLabelWins | summary_categorization/categorization.py:124-126 | An answer that mentions "feature update" refines to Feature Update, whatever else it mentions. |
| Categorization.RefineAnswerSkips | summary_categorization/categorization.py:124-126 | A returned label other than the last is mentioned, and no earlier label is. |
| Categorization.AskModelCategorization | summary_categorization/categorization.py:149-150 | The reply always becomes one of the labels. |
| Categorization.AskModelCategorizationTail | summary_categorization/categorization.py:149-150 | Only the text after the last "Category:" decides the label. A reply without the marker is refined whole. |
| Categorization.Categorize | summary_categorization/categorization.py:153-156 | Only the category field changes, and it becomes a label. |
| Categorization.CategorizationPromptClean | summary_categorization/categorization.py:115 | The categorization prompt is already clean: cleaning it again changes nothing. |
| Prompts.Excerpt | summary_categorization/categorization.py:109 | `diff[:1000]` is a prefix of the diff of at most 1000 characters. It is the whole diff when the diff is short, and exactly 1000 characters otherwise. |
| Prompts.DiffEntryShape | summary_categorization/general_summarization.py:111 | Entry `i` names the `i`-th file and carries the excerpt of that file's diff. |
| Prompts.DiffEntries | summary_categorization/categorization.py:104-109 | One entry per diff, in dict order, each naming its file and carrying the excerpt of its diff. |
| Prompts.CleanedPromptIsClean | summary_categorization/general_summarization.py:119 | A prompt that has been through `clean_text_paragraph` is stripped and stays the same when cleaned again. |
| Summarization.AskModelSummarization | summary_categorization/general_summarization.py:142-143 | The summary is the text after the last "Answer:", or the whole reply when it has none. It never contains "Answer:" and is a suffix of the reply. |
| Summarization.WithSimilar | summary_categorization/general_summarization.py:165-168 | The prompt is extended iff there are hits, and then with the header and the hits' contents joined by newlines. |
| Summarization.Contents | summary_categorization/general_summarization.py:166 | The contents of the hits, in order. |
| Summarization.GenerateGeneralSummary | summary_categorization/general_summarization.py:161-173 | Only the general summary changes, and it never contains "Answer:". The hits returned are those the search for GENERAL documents gives when asked for three results. |
| Summarization.SimilarBlockIffHits | summary_categorization/general_summarization.py:165-168 | The model sees the "Previous similar commits" block iff the search found something. |
| Summarization.SummarizationPromptClean | summary_categorization/general_summarization.py:119 | The summarization prompt is already clean. |
| FileUtils.DirNameJoin | utils/file_utils.py:5-7 | The directory part of `dir/name` is `dir`. |
| FileUtils.AfterLastSlash | utils/file_utils.py:15 | The position after the last `/`, with no `/` after it, and 0 when there is none. |
| FileUtils.RStripSlashes | utils/file_utils.py:15 | Trailing slashes are dropped, and only those. |
| FileUtils.DirName | utils/file_utils.py:15 | `os.path.dirname(p)` is a prefix of `p`. |
| FileUtils.DirNameBare | utils/file_utils.py:15-16 | A path without `/` has an empty directory part. |
| FileUtils.DirChain | utils/file_utils.py:16 | The directories `os.makedirs` visits are non-empty prefixes of the path, ending with the path itself. |
| FileUtils.MakeChain | utils/file_utils.py:16 | Creating the chain keeps every existing entry, creates only directories in the chain, and ends with the target a directory. |
| FileUtils.FullPathDir | utils/file_utils.py:5-7 | `full_path(d, n)` is `d/commits_n.pkl`, whose directory part is `d`. |
| FileUtils.MakeDirs | utils/file_utils.py:15-17 | On success the directory exists and no existing entry changes. Only prefixes of the path are created. The empty path is an error. |
| FileUtils.WriteFile | utils/file_utils.py:20-21 | A write replaces the entry at the path and nothing else. |
| FileUtils.SaveCommits | utils/file_utils.py:10-21 | After a save the path holds the value and every other entry is unchanged. Only directories along the path are added. A path without a directory part fails. |
| FileUtils.SaveVariable | utils/file_utils.py:35-49 | On every file system, value and path, `save_variable` gives the same result as `save_commits`, errors included. |
| FileUtils.LoadCommits | utils/file_utils.py:25-32 | A missing path gives None, and a file gives its value. |
| FileUtils.SaveLoadRoundTrip | utils/file_utils.py:20-21 | Loading what was just saved gives the saved value back. |
| FileUtils.LastSaveWins | utils/file_utils.py:20-21 | After two saves to one path, a load returns the second value. |
| FileUtils.SaveOutcomeIgnoresValue | utils/file_utils.py:10-21 | Whether a save succeeds depends only on the filesystem and the path, not on the value saved. |
| FileUtils.SavedParentIsDir | utils/file_utils.py:15-17 | After a successful save the parent directory exists. |
| FileUtils.BareFileNameFails | utils/file_utils.py:15-17 | Saving to a bare file name fails, because `os.makedirs('')` raises. |
| SqliteUtils.RenderDateRoundTrip | utils/sqlite_utils.py:25 | A datetime is stored in a form that parses back to the same date. |
| SqliteUtils.CommitToRow | utils/sqlite_utils.py:23-28 | The row carries the hash, files and diffs, and a date string that parses back to the commit's date. |
| SqliteUtils.CommitRows | utils/sqlite_utils.py:21-29 | One row per record, in map order. |
| SqliteUtils.InsertAll | utils/sqlite_utils.py:18-20 | `INSERT OR IGNORE` never changes existing rows. The rows added are some of the given rows, in order. |
| SqliteUtils.InsertAllNoConflicts | utils/sqlite_utils.py:18-20 | When nothing conflicts, every row is appended, in order. |
| SqliteUtils.SaveCommitsToSqlite | utils/sqlite_utils.py:10-30 | The summaries table is untouched. The commits table keeps its rows and gains a subsequence of the records' rows. |
| SqliteUtils.SerializeDocs | utils/sqlite_utils.py:80-82 | One serialised document per hit, in order. |
| SqliteUtils.SerializeDocsScores | utils/sqlite_utils.py:67-73 | The serialised documents and the score column together give back the hit list. |
| SqliteUtils.Scores | utils/sqlite_utils.py:68-73 | The score column holds the hits' scores, in order. |
| SqliteUtils.SaveSummariesToSqlite | utils/sqlite_utils.py:35-75 | Exactly one row is appended, under the next id. Both counts equal the lengths of the hit lists, and the commits table is untouched. |
| SqliteUtils.SaveSummariesKeeps | utils/sqlite_utils.py:52-75 | The new row's counts, documents and scores agree, and the ids stay dense. |
| SqliteUtils.DeleteAllSummaries | utils/sqlite_utils.py:85-95 | The summaries table is emptied and its counter reset. The commits table is untouched. |
| ChromaUtils.CommitDocument | utils/chromadb_utils.py:25-41 | The text is the general summary for GENERAL and the technical one otherwise. The metadata carries the index, the type value, the hash and the message. |
| ChromaUtils.SaveCommitToChroma | utils/chromadb_utils.py:25-43 | The document is stored under `str(idx)` and every other id keeps its document. |
| ChromaUtils.SharedIdCollision | utils/chromadb_utils.py:43 | Saving a commit as GENERAL and then as TECHNICAL leaves only the technical document under its id. |
| ChromaUtils.DistinctIndicesDistinctIds | utils/chromadb_utils.py:43 | Different indices give different ids. |
| ChromaUtils.FormatRetrievedDocsAppend | utils/chromadb_utils.py:59-62 | Formatting distributes over concatenation: one block per hit, in order, and nothing else. |
| ChromaUtils.FormatRetrievedDocsSmall | utils/chromadb_utils.py:59-62 | No hits format to "", and one hit to its block. |
| ChromaUtils.FormatRetrievedDocsStart | utils/chromadb_utils.py:61 | A non-empty hit list formats to text that starts with the first score line. |
| ChromaUtils.DeleteAllDocuments | utils/chromadb_utils.py:65-70 | Both collections are emptied. |
| OfflinePipeline.SavedUnderCommits | offline_pipeline.py:99-100 | A checkpoint saved under `<cwd>/commits` sits at the relative path `commits/commits_<name>.pkl`. |
| OfflinePipeline.WrittenPaths | offline_pipeline.py:58-100 | As written, the raw checkpoint is saved where it is loaded from. The working set is saved under `commits/`. |
| OfflinePipeline.CorrectedPaths | offline_pipeline.py:58-100 | In the corrected layout, both checkpoints are saved where they are loaded from. |
| OfflinePipeline.Renumber | offline_pipeline.py:65 | The values are kept in order under keys 0..n-1. |
| OfflinePipeline.PrepareRaw | offline_pipeline.py:61-65 | The freshly prepared set is densely keyed. |
| OfflinePipeline.PrepareRawShape | offline_pipeline.py:61-65 | The prepared set is the extracted records that survive filtering, in order and renumbered. Each has its normalised message and empty enrichment fields. |
| OfflinePipeline.Seed | offline_pipeline.py:58-74 | After seeding, the summaries table and the vector store are empty and the ids are dense. |
| OfflinePipeline.SeedSources | offline_pipeline.py:58-71 | The working set is a copy of the raw set iff no working-set checkpoint exists. Extraction runs iff no raw checkpoint exists. |
| OfflinePipeline.SeedFiles | offline_pipeline.py:61-68 | Seeding writes files only along the raw checkpoint's path. |
| OfflinePipeline.SeedRawFile | offline_pipeline.py:58-68 | After seeding, the raw checkpoint holds the raw set, whether seeding wrote it or found it. |
| OfflinePipeline.SeedFromCheckpoints | offline_pipeline.py:58-71 | With a raw checkpoint on disk, seeding succeeds without extracting. |
| OfflinePipeline.CategoryStep | offline_pipeline.py:84-85 | A non-empty category is left alone. An empty one becomes a label, and nothing else changes. |
| OfflinePipeline.GeneralStep | offline_pipeline.py:88-89 | Only the general summary may change. A filled summary, or a record at position 100 or later, is left alone and gets no hits. |
| OfflinePipeline.TechnicalStep | offline_pipeline.py:92-93 | The same for the technical summary. |
| OfflinePipeline.EnrichSpec | offline_pipeline.py:84-93 | Enrichment only fills empty fields, and a summary that is not generated brings no hits. |
| OfflinePipeline.EnrichedCategoryIsLabel | offline_pipeline.py:84-85 | A filled category is a label and stays one. |
| OfflinePipeline.EnrichWith | offline_pipeline.py:79-93 | The driver's enrichment satisfies the fill-if-empty contract. |
| OfflinePipeline.WithRecord | offline_pipeline.py:95 | Replacing the record at a position keeps the keys and every other record. |
| OfflinePipeline.Step | offline_pipeline.py:76-108 | One iteration always completes, even when its checkpoint save fails, and keeps the working set's keys. |
| OfflinePipeline.StepWith | offline_pipeline.py:76-108 | The iteration is defined at every position of every state. |
| OfflinePipeline.OverwriteTechnical | offline_pipeline.py:105-106 | Writing a general and then a technical document under one id leaves an all-technical store all-technical. |
| OfflinePipeline.StepKeepsOthers | offline_pipeline.py:76-108 | An iteration touches no other record. |
| OfflinePipeline.StepEnriches | offline_pipeline.py:79-95 | An iteration enriches the record at its own position. |
| OfflinePipeline.StepAppendsRow | offline_pipeline.py:79-104 | An iteration appends one summaries row for its own record, with empty hit lists when a summary already existed. The ids stay dense. |
| OfflinePipeline.StepStoresTechnical | offline_pipeline.py:105-106 | Both documents share `str(idx)`. In the sequential order of the thread pool's tasks, TECHNICAL is written second, so an iteration leaves only technical documents. |
| OfflinePipeline.StepSavesWork | offline_pipeline.py:97-108 | An iteration leaves the filesystem that saving the whole working set at the checkpoint path gives, or leaves it unchanged when that save fails. |
| OfflinePipeline.StepNeverFails | offline_pipeline.py:97-108 | No iteration stops the loop: the thread pool's wait does not re-raise a failed checkpoint save. |
| OfflinePipeline.StepFiles | offline_pipeline.py:99-100 | An iteration leaves every file off the checkpoint path unchanged and creates files only along that path. |
| OfflinePipeline.DriverStep | offline_pipeline.py:76-108 | The driver's iteration has every property above. |
| OfflinePipeline.Loop | offline_pipeline.py:76 | The loop keeps the working set's keys. |
| OfflinePipeline.LoopKeepsPrefix | offline_pipeline.py:76 | Records before the loop's starting position are untouched. |
| OfflinePipeline.LoopWork | offline_pipeline.py:76-95 | Every record from the start position on is enriched at its own position. |
| OfflinePipeline.LoopRowCount | offline_pipeline.py:101-104 | Each iteration adds exactly one row, and the ids stay dense. |
| OfflinePipeline.LoopRows | offline_pipeline.py:101-104 | The row of the record at position `j` is the `j`-th new row and describes that record. |
| OfflinePipeline.LoopChroma | offline_pipeline.py:105-106 | In the sequential order of the thread pool's tasks, the store stays all-technical. It keeps its ids and holds a document for every record visited. |
| OfflinePipeline.LoopFilesKept | offline_pipeline.py:99-100 | The loop leaves every file off the checkpoint's path unchanged. |
| OfflinePipeline.LoopFilesNew | offline_pipeline.py:99-100 | The loop creates files only along the checkpoint's path. |
| OfflinePipeline.LoopOk | offline_pipeline.py:76-108 | A loop whose iterations never fail runs to the end. |
| OfflinePipeline.LoopFilesLast | offline_pipeline.py:97-108 | After at least one iteration, the checkpoint holds the final working set when saving there succeeds. When it fails, every save fails and the filesystem is unchanged. |
| OfflinePipeline.RunOk | offline_pipeline.py:59-108 | A run fails exactly when seeding fails; a failed checkpoint inside the loop never ends it. |
| OfflinePipeline.RunWork | offline_pipeline.py:70-95 | Over a run, keys and record order survive, and enrichment fields only go from empty to filled. |
| OfflinePipeline.RunCategories | offline_pipeline.py:84-85 | After a run every category is a label, provided each started as a label or empty. |
| OfflinePipeline.RunSummaryLimit | offline_pipeline.py:88-93 | A record at position 100 or later keeps the summaries it came in with. |
| OfflinePipeline.RunRows | offline_pipeline.py:73-104 | A run leaves one summaries row per record, in record order, numbered from 1. A summary that already existed is written with no hits. |
| OfflinePipeline.RunChroma | offline_pipeline.py:73-106 | After a run the store has a document for every record. In the sequential order of the thread pool's tasks, all of them are technical. |
| OfflinePipeline.RunFiles | offline_pipeline.py:97-108 | After seeding, a run writes only along the working-set checkpoint's path. That file holds the final working set when saving there succeeds; otherwise the filesystem is as seeding left it. |
| OfflinePipeline.FewShotsLoadOffSavePaths | offline_pipeline.py:59-100 | `cwd/commits_few_shots.pkl` lies on neither save path. |
| OfflinePipeline.RunRawFile | offline_pipeline.py:58-68 | A run leaves the raw checkpoint holding the raw set. |
| OfflinePipeline.RerunReseedsAsWritten | offline_pipeline.py:59-100 | As written, when `cwd/commits_few_shots.pkl` is missing, a run does not create it. The next run then starts again from the raw set. |
| OfflinePipeline.RerunResumesCorrected | offline_pipeline.py:59-100 | With the working set loaded from where it is saved, a rerun starts from the working set the previous run ended with. |
| Confusion.Classify | validation/categorization.py:54-63 | Equal and not "Other" is a true positive. Equal and "Other" is a true negative. Unequal with "Other" predicted is a false negative, and otherwise a false positive. |
| Confusion.Verdicts | validation/categorization.py:44-63 | One verdict per evaluated commit, in order. |
| Confusion.CountVerdicts | utils/validation_utils.py:30-52 | The in-place counters equal the counts of the verdicts, and they sum to the number evaluated. |
| Confusion.TallyTotal | validation/categorization.py:54-63 | Every verdict lands in exactly one counter. |
| Confusion.TallyAppend | validation/categorization.py:44-63 | Counting splits over concatenation. |
| Confusion.TallyAgreement | validation/categorization.py:54-63 | All-correct predictions give no false verdicts, and all-wrong predictions give no true ones. |
| Confusion.Metrics | validation/categorization.py:65-67 | Accuracy divides by zero when nothing is evaluated. Otherwise all three scores are in [0, 1]. Precision and recall fall back to 0 and are 1 exactly in the no-error cases. |
| Confusion.Ratio | validation/categorization.py:65-67 | A share of a positive whole lies in [0, 1]. It is 1 iff the part is the whole, and 0 iff the part is nothing. |
| Confusion.TallyPositive | validation/categorization.py:56-57 | One right prediction of a real label gives a positive true-positive count. |
| Confusion.PerfectPredictions | validation/categorization.py:54-67 | All-correct predictions with some real label score (1, 1, 1). |
| CategorizationValidation.EvalCommits | validation/categorization.py:34-38 | Only the commits with key in [480, 580) are evaluated, in map order. |
| CategorizationValidation.EvalCommitsEmpty | validation/categorization.py:34-38 | Nothing is evaluated iff no key falls in the window. |
| CategorizationValidation.EvalCommitsDense | validation/categorization.py:34-38 | With keys 0..n-1, the evaluated commits are those at positions 480 to 579 (or to the end), in order. |
| CategorizationValidation.WindowCount | validation/categorization.py:34-38 | The window never holds more than 100 commits. |
| CategorizationValidation.Pairs | validation/categorization.py:44-46 | The `i`-th evaluated commit is compared with `ground_truth[i]`. A shorter ground truth raises IndexError. |
| CategorizationValidation.PrecisionRecall | validation/categorization.py:27-69 | ZeroDivisionError is raised iff the window is empty, and IndexError iff the ground truth is too short. |
| CategorizationValidation.DenseScores | validation/categorization.py:4-67 | With the ground truth reversed, commit 480+i meets label 99-i of the literal list, and the scores are those of these pairs. |
| ValidationUtils.Picked | utils/validation_utils.py:30-37 | Commits at or past the first evaluated key are compared with the label `offset` places before them. An index past the ground truth raises IndexError. |
| ValidationUtils.PickedDense | utils/validation_utils.py:30-37 | With keys 0..n-1, the commits from `first` on are evaluated in order. |
| ValidationUtils.PickedNone | utils/validation_utils.py:30-37 | With no key at or past `first`, nothing is evaluated. |
| ValidationUtils.RecentAsWrittenSkipsFirstLabel | utils/validation_utils.py:26-37 | As written, only the last 101 commits are evaluated, against labels 1..101, and label 0 is never compared. |
| ValidationUtils.RecentPairsComplete | utils/validation_utils.py:26-37 | The corrected window evaluates the last 102 commits, the `j`-th against `ground_truth[j]`. |
| ValidationUtils.ScoresOf | utils/validation_utils.py:54-56 | A window's error is passed on. An empty window raises ZeroDivisionError, and any other window scores the metrics of its pairs' verdicts. |
| ValidationUtils.RecentScoresAsWritten | utils/validation_utils.py:14-58 | `calculate_precision_recall_categorization` as written returns the metrics of the as-written window's pairs. It raises IndexError when that window does, and ZeroDivisionError when the window is empty. |
| ValidationUtils.RecentScoresAsWrittenDense | utils/validation_utils.py:26-56 | With 102 labels and at least 102 densely keyed commits, the as-written scores exist and the accuracy is taken over 101 verdicts. |
| ValidationUtils.RecentScores | utils/validation_utils.py:26-56 | The same metrics over the corrected window, with the same error cases. |
| ValidationUtils.RecentScoresDense | utils/validation_utils.py:26-56 | With the corrected window, the accuracy is taken over all 102 verdicts. |
| ValidationUtils.RecentNewestFirst | utils/validation_utils.py:1-37 | With the ground truth listed newest first and reversed, the newest commit meets the first listed label. |
| Seqs.ReverseInvolution | validation/categorization.py:24 | Reversing twice gives the list back. |
| Seqs.Reverse | validation/categorization.py:24 | `reversed(s)` puts element `i` at position `n-1-i`. |
| Seqs.SubsequenceMembers | utils/commit_utils.py:35 | Everything a subsequence holds comes from the sequence. |
| ODict.GetAt | utils/git_utils.py:30-31 | In a dict with distinct keys, the key at position `i` finds the value at position `i`. |
| ODict.Keys | utils/git_utils.py:28-31 | The keys in insertion order. |
| ODict.Values | utils/git_utils.py:28-31 | The values in insertion order. |
| ODict.Get | utils/git_utils.py:30-31 | A lookup finds a value iff the key is present. |
| ODict.Put | utils/git_utils.py:31 | Assignment keeps the key order and appends a new key at the end. |
| ODict.PutGet | utils/git_utils.py:31 | After `d[k] = v`, `d[k]` is `v` and every other key reads as before. |
| ODict.PutDistinct | utils/git_utils.py:31 | Assignment keeps keys distinct. |
| PlotUtils.QuarterOf | utils/plot_utils.py:7-10 | A month in 1..12 maps to the quarter in 1..4 that contains it. |
| PlotUtils.GetQuarterInjective | utils/plot_utils.py:7-10 | Two dates share a label iff they fall in the same quarter of the same year. |
| PlotUtils.IncrementCount | utils/plot_utils.py:17 | `counts[k] += 1` adds one under `k` and nothing elsewhere. |
| PlotUtils.IncrementKeys | utils/plot_utils.py:17 | Incrementing adds the key if it was missing, and no other key. |
| PlotUtils.SumPut | utils/plot_utils.py:17 | Assigning under a key replaces that key's share of the sum. |
| PlotUtils.PieCountsSpec | utils/plot_utils.py:41-48 | Each slice is the number of records with that category. The empty category never gets a slice, and every category that occurs does. |
| PlotUtils.Occurrences | utils/plot_utils.py:44-48 | No category occurs more often than there are records. |
| PlotUtils.OccurrencesIn | utils/plot_utils.py:14-17 | A category occurs in one quarter at most as often as in all of them. |
| PlotUtils.Categorised | utils/plot_utils.py:44-48 | At most every record is categorised. |
| PlotUtils.PieCounts | utils/plot_utils.py:41-48 | The pie's categories are distinct. |
| PlotUtils.PieCountsTotal | utils/plot_utils.py:44-51 | The slices add up to the number of categorised records. |
| PlotUtils.PlottedCount | utils/plot_utils.py:12-24 | Each plotted point is the number of records of that category in that quarter, and 0 for a pair never seen. |
| PlotUtils.CategoryQuarterCounts | utils/plot_utils.py:12-17 | The line chart's categories are distinct. |
| PlotUtils.QuarterCountsKeys | utils/plot_utils.py:12-17 | A category has a line iff some record has that non-empty category. |
| PlotUtils.QuarterCountsTotal | utils/plot_utils.py:12-17 | Every categorised record is counted exactly once across categories and quarters. |
| Entities.ValidateRq1 | utils/entities.py:79-112 | Validation succeeds iff the four marks are given ints in [1, 5], `technical_depth` is absent, null or in [1, 5], and `justification` is present. |
| Entities.DumpRq1 | utils/entities.py:79-112 | A valid score survives a dump and a validation unchanged, and an invalid one is refused. |
| Entities.Rq1JustificationRequired | utils/entities.py:104-112 | Leaving out `justification` is an error, while leaving out `technical_depth` is not. |
| Entities.ValidateRq2 | utils/entities.py:135-169 | Validation succeeds iff the four marks are in [1, 5] and `is_hallucinated` is exactly YES, NO or PARTIALLY. The justification defaults to None. |
| Entities.DumpRq2 | utils/entities.py:135-169 | The same round trip for the Rq2 schema. |
| Entities.Rq2VerdictExact | utils/entities.py:160-165 | Only the three verdicts pass, compared exactly, so lower-case or padded answers are refused. |
| Rq1GEval.Mean | validation/rq1_g_eval.py:139 | The mean times the count is the sum. |
| Rq1GEval.SumBounds | validation/rq1_g_eval.py:139 | The sum of values in [lo, hi] lies between n times lo and n times hi. |
| Rq1GEval.MeanBetween | validation/rq1_g_eval.py:139 | The mean lies between any bounds of the values. |
| Rq1GEval.Dims | validation/rq1_g_eval.py:130-137 | The four base marks, plus `technical_depth` exactly for a TECHNICAL grade that has one. Over valid scores every dimension is in [1, 5]. |
| Rq1GEval.Evaluate | validation/rq1_g_eval.py:126-164 | The entry is scored iff the reply validates. A failure carries "Invalid response format" and the raw text. |
| Rq1GEval.EvaluateOverall | validation/rq1_g_eval.py:139 | A scored entry's overall is the mean of its four or five dimensions, in [1, 5]. |
| Rq1GEval.AppendEvaluation | validation/rq1_g_eval.py:125-164 | Exactly one entry is appended on either path, and the earlier ones are kept. |
| Rq1GEval.GradeAll | validation/rq1_g_eval.py:21-30 | Summary `i` is graded against `commits[i]` by position, as general and as technical. Fewer commits than summaries raise IndexError. |
| Rq1GEval.CalculateSaveRq1GEval | validation/rq1_g_eval.py:16-34 | The saved list holds 2n entries: all general evaluations, then all technical ones, in summary order. |
| Rq2GEval.RoundHalfEven | validation/rq2_g_eval.py:87-94 | `round(n / d)` is within half a unit of `n / d`, and ties go to the even integer. |
| Rq2GEval.RoundHalfEvenUnique | validation/rq2_g_eval.py:87-94 | No other integer meets those two conditions. |
| Rq2GEval.Overall | validation/rq2_g_eval.py:87-94 | The overall score is the rounded mean of the four marks, and over valid marks it is in [1, 5]. |
| Rq2GEval.Evaluate | validation/rq2_g_eval.py:84-122 | One "g_eval" entry under the given ids. It is scored iff the reply validates; a failure has no scores and justification "Invalid response format". |
| Rq2GEval.AppendEvaluation | validation/rq2_g_eval.py:83-122 | Exactly one entry is appended, and the earlier ones are kept. |
| Rq2GEval.AnswerEvaluationSwapsIds | validation/rq2_g_eval.py:80-83 | As written, the entry stores the answer id as question id and the question id as answer id. They agree only when the ids coincide. |
| Rq2GEval.AnswerEvaluation | validation/rq2_g_eval.py:29-80 | With the ids in their places, the new entry is filed under the question's ids. |
| Rq2GEval.CalculateSaveRq2GEval | validation/rq2_g_eval.py:16-83 | One evaluation per question and answer, in input order. Because `answer_evaluation` swaps the ids, each entry stores the answer id as question id and the question id as answer id. |
| Rq2GEval.CalculateSaveRq2GEvalCorrected | validation/rq2_g_eval.py:16-26 | Over the corrected `answer_evaluation`, there is one evaluation per question and answer, in input order, each under its own ids. |
| Rq1Validation.Rows | rq1_validation_pipeline.py:29-37 | The columns read across give one row per position. |
| Rq1Validation.RetrieveRq1GoldenStandard | rq1_validation_pipeline.py:23-38 | The three columns are as long as the row list, and position `i` of each comes from row `i`. Reading them across gives the rows back, and no rows give three empty columns. |
| GraphAgentReact.ExtractMarkersSpec | online_pipeline_models/models/graph_agent_react.py:210-213 | Every marker is non-empty, stripped and free of `§`. `k` wrapping characters give at most ceil(k/2) markers. |
| GraphAgentReact.OddPieceClean | online_pipeline_models/models/graph_agent_react.py:212-213 | Every odd piece of a `§`-free split is a clean marker. |
| GraphAgentReact.OddPiecesCount | online_pipeline_models/models/graph_agent_react.py:212 | There are at most half as many odd pieces as pieces. |
| GraphAgentReact.UnclosedMarker | online_pipeline_models/models/graph_agent_react.py:212-213 | "§a" yields the marker "a". |
| GraphAgentReact.StemOfSuffixed | online_pipeline_models/models/graph_agent_react.py:225-228 | The stem of `x.c` is `x`. |
| GraphAgentReact.BaseName | online_pipeline_models/models/graph_agent_react.py:220 | The base name contains no `/`. |
| GraphAgentReact.RFind | online_pipeline_models/models/graph_agent_react.py:220 | `rfind` gives the last index of the character, or -1 when it does not occur. |
| GraphAgentReact.TokenConditions | online_pipeline_models/models/graph_agent_react.py:220-232 | A `.c` or `.h` token gives two conditions and any other token one. The first is a file-name condition iff the token has a dot, and a stem condition otherwise. |
| GraphAgentReact.Counterpart | online_pipeline_models/models/graph_agent_react.py:221-228 | `x.c` also looks for `x.h`, and `x.h` for `x.c`. |
| GraphAgentReact.MarkerConditions | online_pipeline_models/models/graph_agent_react.py:219-232 | The condition count lies between the marker count and twice it. |
| GraphAgentReact.Conditions | online_pipeline_models/models/graph_agent_react.py:219-232 | Only the first ten markers give conditions. |
| GraphAgentReact.ConditionsCapped | online_pipeline_models/models/graph_agent_react.py:219 | Markers past the tenth change nothing. |
| GraphAgentReact.MetaFilter | online_pipeline_models/models/graph_agent_react.py:234 | The filter is `$or` iff there is more than one condition. |
| GraphAgentReact.MetaFilterAdmits | online_pipeline_models/models/graph_agent_react.py:234 | Either way, a chunk passes iff it meets one of the conditions. |
| GraphAgentReact.SemanticCode | online_pipeline_models/models/graph_agent_react.py:215-246 | The filtered answer is used iff there are markers and the filtered search finds something. Otherwise the fallback runs, and "nothing found" comes iff the fallback is empty too. |
| GraphAgentReact.NoMarkersFallsBack | online_pipeline_models/models/graph_agent_react.py:217-246 | A query without `§` never reaches the filtered search. |
| GraphAgentReact.NlToSql | online_pipeline_models/models/graph_agent_react.py:158-187 | The stripped query runs iff it starts with "select" in any case. The answer distinguishes refusal, no rows, rows and errors. |
| GraphAgentReact.RefusalIgnoresDatabase | online_pipeline_models/models/graph_agent_react.py:166-170 | A refused query never touches the database. |
| GraphAgentReact.RenderSql | online_pipeline_models/models/graph_agent_react.py:166-187 | Every answer shows the query. |
| GraphAgentReact.FormatCommit | online_pipeline_models/models/graph_agent_react.py:71-82 | The text starts with the commit line and ends with `---` and the document. |
| GraphAgentReact.FormatCommitInjective | online_pipeline_models/models/graph_agent_react.py:71-82 | With single-line metadata, the text determines the shown metadata and the document. |
| GraphAgentReact.Reset | online_pipeline_models/models/graph_agent_react.py:364-366 | The shared graph's checkpointer memory is emptied and the instance's chat history is kept. |
| GraphAgentReact.NewAgent | online_pipeline_models/models/graph_agent_react.py:359-362 | A new instance has an empty chat history and is bound to the shared graph, whose memory it does not change. |
| GraphAgentReact.NewAgentSharesMemory | online_pipeline_models/models/graph_agent_react.py:351-362 | A new instance sees the memory earlier instances built up on the one `main_session` thread. |
| GraphAgentReact.ResetIsShared | online_pipeline_models/models/graph_agent_react.py:351-366 | Resetting one instance empties the memory every instance sees and leaves chat histories alone. |
| GraphAgentReact.ResetKeepsHistory | online_pipeline_models/models/graph_agent_react.py:364-366 | Unlike the base `reset`, a non-empty history survives. |
| BaseChat.New | online_pipeline_models/base_chat_pipeline.py:10-11 | A new pipeline has an empty history. |
| BaseChat.Ask | online_pipeline_models/base_chat_pipeline.py:17-24 | The history grows by a user entry and then an assistant entry, and the old history is a prefix. `_respond` sees the user turn, and its reply is both recorded and returned. |
| BaseChat.Reset | online_pipeline_models/base_chat_pipeline.py:26-28 | The history is emptied. |
| BaseChat.AskAlternates | online_pipeline_models/base_chat_pipeline.py:17-28 | New, reset and asked pipelines hold whole user/assistant exchanges. |
| BaseChat.ConverseHistory | online_pipeline_models/base_chat_pipeline.py:17-24 | After a conversation from a new pipeline, the history is the messages and replies interleaved. |
| BaseChat.Converse | online_pipeline_models/base_chat_pipeline.py:17-24 | A conversation gets one reply per message, adds two turns per message to the history and keeps the earlier history as its prefix. |

## Left out

- The `ThreadPoolExecutor` of offline_pipeline.py:97-108 is run sequentially: checkpoint, summaries row, GENERAL document, then TECHNICAL document. The concurrency is not modelled; a task that raises is swallowed, as `concurrent.futures.wait` does not re-raise, and only the checkpoint save can raise in the model.
- OfflinePipeline.RerunResumesCorrected: resumption is stated only when the working-set checkpoint can be written after seeding. When that save fails, the run still completes but leaves no checkpoint to resume from.
- OfflinePipeline.StepStoresTechnical, OfflinePipeline.LoopChroma and OfflinePipeline.RunChroma: the store is all-technical only under that sequential order. With the thread pool, either of the two documents sharing `str(idx)` may be the one that survives.
- Summarization.GenerateGeneralSummary: the number of hits is whatever the search parameter returns. The model does not bound it by the three results requested.
- The language models, the similarity searches and the technical summariser are function parameters. technical_summarization.py is not part of this model. So are the clock, `os.getcwd()` and the database reads of the golden standard.
- Pickle files, SQLite tables and Chroma collections are a map and sequences. A Chroma `add_documents` with an id that is already present replaces the document, as an upsert.
- Which commit rows `INSERT OR IGNORE` ignores depends on a schema that is not part of this model, so the conflict test is a parameter.
- GitPython's history walk and patch computation are left out. The extractor starts from the commit fields and patches it reads.
- The matplotlib drawing, and the sorting of the quarter axis, are left out. The axis is the set of quarters.
- The ground-truth label lists are parameters rather than the literal lists. Only their reversal is modelled.
- JSON decoding and pydantic's type coercions are left out. A reply is its text plus the decoded object, if any.
- Floating point is left out: `statistics.mean` is an exact rational, and Python's `round` is modelled exactly on the rational mean.
- Search sizes and thresholds (k = 12, k = 8 with 0.35, three results with 0.7) are left to the search parameters.
- `repr` escaping in the SQL tool's column list is left out.
- Strings are ASCII, so Unicode case mapping, white space and `\b` are not modelled.
- The `.get(..., '')` defaults for missing keys cannot fire on records the extractor builds, so they are left out. Records without a message are therefore not modelled either.
- The metric scripts, offline_pipeline_main.py, the UI and dispatch files, the chain variants and the logging handler are not part of this model.
- The `commit_code` and `general_project_info` tools (graph_agent_react.py:93-117) are left out. They only pass a query to a similarity search and format the hits with `_format_commit`, which is modelled.
- The `_respond` graph invocation of the ReAct agent is left out. It is a parameter of `BaseChat.Ask`, so the model does not show how a reply extends the shared graph's memory.
- CommitUtils.KeptCommitsSpec: caller-supplied patterns are literal text, not regular expressions. The default list has no metacharacters, so the filter the driver uses is exact; a caller passing patterns such as `fix.*typo` or `^minor` is not modelled.
- Entities.Rq1Quantitative: the quantitative result record is a datatype only, because its constructor just stores its arguments.
- The values 'general' and 'technical' of `SummaryType` are assumed, because utils/enums.py is not part of this model.
- The plots and metrics at the end of `main` (offline_pipeline.py:117-124) are left out.
- CommitUtils.NormalizeMessage: only the closing full stop and the absence of past-tense words are stated, because the message is not idempotent under normalisation. `CommitUtils.NormalizeNotIdempotent` shows why.

## Findings

| source | as written | input that shows it | evidently intended | confidence | as-written member | corrected member |
|---|---|---|---|---|---|---|
| utils/commit_utils.py:15-16 | The missing comma after `r"release"` fuses it with `r"cleanup"` into one pattern, "releasecleanup". | A commit with message "Release 1.2" and five diff lines is kept. | "release" and "cleanup" are separate trivial patterns, so release commits are dropped. | not executed | CommitUtils.ReleaseKeptAsWritten | CommitUtils.ReleaseDroppedCorrected |
| offline_pipeline.py:59-100 | The working set is loaded from `commits_few_shots.pkl` relative to the working directory, but saved to `<cwd>/commits/commits_few_shots.pkl`. | A first run with no `cwd/commits_few_shots.pkl`: the file is still missing afterwards, so the second run starts again from the raw set. | A rerun resumes from the saved working set. | not executed | OfflinePipeline.RerunReseedsAsWritten | OfflinePipeline.RerunResumesCorrected |
| utils/validation_utils.py:26-37 | Keys `i <= len(commits) - 102` are skipped, and key `i` is compared with `ground_truth[i - (len - 102)]`. | 102 commits keyed 0..101: 101 are evaluated, and `ground_truth[0]` is never compared. | The last 102 commits are evaluated against all 102 labels. | not executed | ValidationUtils.RecentAsWrittenSkipsFirstLabel | ValidationUtils.RecentPairsComplete |
| validation/rq2_g_eval.py:80-83 | `append_evaluation(answer_id, question_id, ...)` is called with parameters `(question_id, answer_id, ...)`. | question_id 1, answer_id 2: the entry is stored with question_id 2 and answer_id 1. | Each entry is stored under its own question and answer ids. | not executed | Rq2GEval.AnswerEvaluationSwapsIds | Rq2GEval.AnswerEvaluation |
