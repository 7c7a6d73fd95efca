/** offline_pipeline.py: the resumable enrichment driver. The run seeds a
    raw commit set (from its checkpoint, or by extracting, filtering,
    normalising and renumbering), takes a working copy, wipes the summary
    and vector stores, and then enriches the working set record by record,
    writing each record to the four sinks. The model, the similarity search,
    the technical summariser and the clock are parameters. The sink writes
    of one iteration run on a thread pool in the source; here they happen
    one after the other in submission order. */
module OfflinePipeline {
  import opened Wrappers
  import opened Text
  import ODict
  import opened Commits
  import opened GitUtils
  import opened CommitUtils
  import opened FileUtils
  import opened SqliteUtils
  import opened ChromaUtils
  import opened Prompts
  import Categorization
  import Summarization

  type FS = FileSystem<CommitSet>

  /** Everything outside the process that the run reads or writes. */
  datatype Sinks = Sinks(fs: FS, db: Database, chroma: ChromaState)

  /** The services the run calls. */
  datatype Services = Services(
    history: seq<GitCommit>,
    generate: string -> string,
    search: (Collection, string, SummaryType, nat) -> seq<Scored>,
    technical: (Collection, Commit) -> (string, seq<Scored>),
    categorizationFrame: PromptFrame,
    summarizationFrame: PromptFrame,
    conflicts: (seq<CommitRow>, CommitRow) -> bool,
    clock: nat -> Timestamp)

  /** Where the two checkpoints are loaded from and saved to. */
  datatype Layout = Layout(rawLoad: string, fewShotsLoad: string, rawSave: string, fewShotsSave: string)

  /** A working directory as `os.getcwd()` returns it, other than the
      root. */
  predicate ValidCwd(cwd: string) {
    |cwd| > 1 && cwd[0] == '/' && cwd[|cwd| - 1] != '/'
  }

  /** A relative path as the operating system resolves it against the
      working directory. */
  function Resolve(cwd: string, rel: string): string {
    cwd + "/" + rel
  }

  /** The paths as the driver writes them: the checkpoints are loaded from
      relative paths and saved under `<cwd>/commits`, and the working set is
      loaded from the working directory itself. */
  function WrittenLayout(cwd: string): Layout {
    Layout(Resolve(cwd, "commits/commits_raw.pkl"), Resolve(cwd, "commits_few_shots.pkl"),
           FullPath(cwd + "/commits", "raw"), FullPath(cwd + "/commits", "few_shots"))
  }

  /** The working set loaded from where it is saved. */
  function CorrectedLayout(cwd: string): Layout {
    Layout(Resolve(cwd, "commits/commits_raw.pkl"), Resolve(cwd, "commits/commits_few_shots.pkl"),
           FullPath(cwd + "/commits", "raw"), FullPath(cwd + "/commits", "few_shots"))
  }

  /** A checkpoint saved under `<cwd>/commits`. */
  lemma SavedUnderCommits(cwd: string, name: string)
    requires ValidCwd(cwd)
    ensures FullPath(cwd + "/commits", name) == Resolve(cwd, "commits/commits_" + name + ".pkl")
  {
    var d := cwd + "/commits";
    var f := "commits_" + name + ".pkl";
    assert !StartsWith(f, "/") by {
      assert f[0] == 'c';
    }
    assert !EndsWith(d, "/") by {
      assert d[|d| - 1] == 's';
    }
    assert d + "/" + f == cwd + "/" + ("commits/" + f);
  }

  /** As written, the raw checkpoint is saved where it is loaded from, and
      the working set is not. */
  lemma WrittenPaths(cwd: string)
    requires ValidCwd(cwd)
    ensures WrittenLayout(cwd).rawSave == WrittenLayout(cwd).rawLoad
    ensures WrittenLayout(cwd).fewShotsSave == Resolve(cwd, "commits/commits_few_shots.pkl")
  {
    SavedUnderCommits(cwd, "raw");
    SavedUnderCommits(cwd, "few_shots");
  }

  /** In the corrected layout both checkpoints are saved where they are
      loaded from. */
  lemma CorrectedPaths(cwd: string)
    requires ValidCwd(cwd)
    ensures CorrectedLayout(cwd).rawSave == CorrectedLayout(cwd).rawLoad
    ensures CorrectedLayout(cwd).fewShotsSave == CorrectedLayout(cwd).fewShotsLoad
  {
    SavedUnderCommits(cwd, "raw");
    SavedUnderCommits(cwd, "few_shots");
  }

  // ---------------------------------------------------------------------------
  // Seeding

  /** `{i: value for i, value in enumerate(commits.values())}` */
  function Renumber(commits: CommitSet): (r: CommitSet)
    ensures |r| == |commits|
    ensures forall i :: 0 <= i < |r| ==> r[i] == (i, commits[i].1)
  {
    seq(|commits|, i requires 0 <= i < |commits| => (i, commits[i].1))
  }

  /** Extraction, filtering with the default patterns and threshold,
      normalisation and renumbering. */
  function PrepareRaw(history: seq<GitCommit>): (r: CommitSet)
    ensures DenseKeys(r)
  {
    Renumber(NormalizeCommitData(KeptCommits(ExtractGitCommits(history), PatternsOrDefault(None), 5)))
  }

  /** The freshly prepared set holds the surviving extracted records, in
      order, densely renumbered, each with a normalised message and empty
      enrichment fields. */
  lemma PrepareRawShape(history: seq<GitCommit>)
    ensures var kept := KeptCommits(ExtractGitCommits(history), PatternsOrDefault(None), 5);
      && |PrepareRaw(history)| == |kept|
      && forall i :: 0 <= i < |kept| ==>
        PrepareRaw(history)[i].1 == kept[i].1.(message := NormalizeMessage(kept[i].1.message))
    ensures forall i :: 0 <= i < |PrepareRaw(history)| ==>
      var c := PrepareRaw(history)[i].1;
      c.llamaCategory == "" && c.llamaSummary == "" && c.llamaTechSummary == ""
  {
    var extracted := ExtractGitCommits(history);
    var kept := KeptCommits(extracted, PatternsOrDefault(None), 5);
    KeptCommitsSpec(extracted, PatternsOrDefault(None), 5);
    SubsequenceMembersExtracted(kept, extracted);
  }

  lemma SubsequenceMembersExtracted(kept: CommitSet, extracted: CommitSet)
    requires Seqs.IsSubsequence(kept, extracted)
    requires forall i :: 0 <= i < |extracted| ==>
      extracted[i].1.llamaCategory == "" && extracted[i].1.llamaSummary == "" && extracted[i].1.llamaTechSummary == ""
    ensures forall i :: 0 <= i < |kept| ==>
      kept[i].1.llamaCategory == "" && kept[i].1.llamaSummary == "" && kept[i].1.llamaTechSummary == ""
  {
    Seqs.SubsequenceMembers(kept, extracted);
    forall i | 0 <= i < |kept|
      ensures kept[i].1.llamaCategory == "" && kept[i].1.llamaSummary == "" && kept[i].1.llamaTechSummary == ""
    {
      assert kept[i] in extracted;
    }
  }

  /** The seeded state: the raw set, the working set and the sinks. */
  datatype Start = Start(raw: CommitSet, work: CommitSet, sinks: Sinks)

  /** Lines 58-74: load both checkpoints; when the raw one is missing,
      save the prepared raw set to the checkpoint and to SQL; take the
      working set from its checkpoint or, failing that, the raw set; wipe
      the summaries table and the vector store. The prepared set stands for
      what extraction would produce: it is used only when no raw checkpoint
      exists. */
  function Seed(layout: Layout, prepared: CommitSet, conflicts: (seq<CommitRow>, CommitRow) -> bool, sinks: Sinks): (r: Result<Start>)
    ensures r.Ok? ==> |r.value.sinks.db.summaries| == 0 && DenseIds(r.value.sinks.db)
    ensures r.Ok? ==> |r.value.sinks.chroma.commits| == 0
  {
    match LoadCommits(sinks.fs, layout.rawLoad)
    case Err(e) => Err(e)
    case Ok(rawLoaded) =>
      match LoadCommits(sinks.fs, layout.fewShotsLoad)
      case Err(e) => Err(e)
      case Ok(fewLoaded) =>
        var seeded: Result<(CommitSet, Sinks)> :=
          if rawLoaded.None? then
            match SaveCommits(sinks.fs, prepared, layout.rawSave)
            case Err(e) => Err(e)
            case Ok(fs1) => Ok((prepared, Sinks(fs1, SaveCommitsToSqlite(sinks.db, prepared, conflicts), sinks.chroma)))
          else Ok((rawLoaded.value, sinks));
        match seeded
        case Err(e) => Err(e)
        case Ok((raw, sinks1)) =>
          var work := if fewLoaded.None? then raw else fewLoaded.value;
          var db := DeleteAllSummaries(sinks1.db);
          var chroma := DeleteAllDocuments(sinks1.chroma);
          assert ODict.Keys(chroma.commits) == [];
          Ok(Start(raw, work, Sinks(sinks1.fs, db, chroma)))
  }

  /** The working set is the raw set exactly when no working-set checkpoint
      exists; the extraction runs exactly when no raw checkpoint exists. */
  lemma SeedSources(layout: Layout, prepared: CommitSet, conflicts: (seq<CommitRow>, CommitRow) -> bool, sinks: Sinks)
    requires Seed(layout, prepared, conflicts, sinks).Ok?
    ensures var st := Seed(layout, prepared, conflicts, sinks).value;
      && (!Exists(sinks.fs, layout.fewShotsLoad) ==> st.work == st.raw)
      && (Exists(sinks.fs, layout.fewShotsLoad) ==> st.work == LoadCommits(sinks.fs, layout.fewShotsLoad).value.value)
      && (!Exists(sinks.fs, layout.rawLoad) ==> st.raw == prepared)
      && (Exists(sinks.fs, layout.rawLoad) ==> st.raw == LoadCommits(sinks.fs, layout.rawLoad).value.value)
  {
  }

  /** Seeding writes files only along the raw checkpoint's path. */
  lemma SeedFiles(layout: Layout, prepared: CommitSet, conflicts: (seq<CommitRow>, CommitRow) -> bool, sinks: Sinks)
    requires Seed(layout, prepared, conflicts, sinks).Ok?
    ensures var fs := Seed(layout, prepared, conflicts, sinks).value.sinks.fs;
      && (forall p :: p in sinks.fs && p != layout.rawSave ==> p in fs && fs[p] == sinks.fs[p])
      && (forall p :: p in fs && p !in sinks.fs ==> |p| <= |layout.rawSave| && p == layout.rawSave[..|p|])
      && (!Exists(sinks.fs, layout.rawLoad) ==> layout.rawSave in fs && fs[layout.rawSave] == File(Seed(layout, prepared, conflicts, sinks).value.raw))
      && (Exists(sinks.fs, layout.rawLoad) ==> fs == sinks.fs)
  {
  }

  /** Seeding leaves the raw checkpoint holding the raw set, whether it
      wrote it or found it. */
  lemma SeedRawFile(layout: Layout, prepared: CommitSet, conflicts: (seq<CommitRow>, CommitRow) -> bool, sinks: Sinks)
    requires layout.rawSave == layout.rawLoad
    requires Seed(layout, prepared, conflicts, sinks).Ok?
    ensures var st := Seed(layout, prepared, conflicts, sinks).value;
      layout.rawSave in st.sinks.fs && st.sinks.fs[layout.rawSave] == File(st.raw)
  {
    SeedFiles(layout, prepared, conflicts, sinks);
    SeedSources(layout, prepared, conflicts, sinks);
  }

  /** With a raw checkpoint on disk, seeding succeeds without extracting:
      the raw set is the checkpoint's and the working set is the working-set
      checkpoint's when there is one, the raw set otherwise. */
  lemma SeedFromCheckpoints(layout: Layout, prepared: CommitSet, conflicts: (seq<CommitRow>, CommitRow) -> bool, sinks: Sinks)
    requires Exists(sinks.fs, layout.rawLoad) && sinks.fs[layout.rawLoad].File?
    requires Exists(sinks.fs, layout.fewShotsLoad) ==> sinks.fs[layout.fewShotsLoad].File?
    ensures Seed(layout, prepared, conflicts, sinks).Ok?
    ensures var st := Seed(layout, prepared, conflicts, sinks).value;
      && st.raw == sinks.fs[layout.rawLoad].value
      && st.work == (if Exists(sinks.fs, layout.fewShotsLoad) then sinks.fs[layout.fewShotsLoad].value else st.raw)
  {
  }

  // ---------------------------------------------------------------------------
  // Enriching one record

  /** Summaries are generated only for the first this many records. */
  const SummaryLimit: nat := 100

  /** Lines 84-85: categorise when the category is empty. */
  function CategoryStep(s: Services, c: Commit): (r: Commit)
    ensures c.llamaCategory != "" ==> r == c
    ensures c.llamaCategory == "" ==> r == c.(llamaCategory := r.llamaCategory) && r.llamaCategory in Categorization.Categories
  {
    if c.llamaCategory == "" then Categorization.Categorize(c, s.categorizationFrame, s.generate) else c
  }

  /** Lines 88-89: the general summary when it is empty and the record is
      among the first hundred. */
  function GeneralStep(s: Services, store: Collection, c: Commit, pos: nat): (r: (Commit, seq<Scored>))
    ensures r.0 == c.(llamaSummary := r.0.llamaSummary)
    ensures c.llamaSummary != "" || pos >= SummaryLimit ==> r == (c, [])
  {
    if c.llamaSummary == "" && pos < SummaryLimit then
      Summarization.GenerateGeneralSummary(
        c, s.summarizationFrame, (q: string, t: SummaryType, n: nat) => s.search(store, q, t, n), s.generate)
    else (c, [])
  }

  /** Lines 92-93: the technical summary on the same condition. */
  function TechnicalStep(s: Services, store: Collection, c: Commit, pos: nat): (r: (Commit, seq<Scored>))
    ensures r.0 == c.(llamaTechSummary := r.0.llamaTechSummary)
    ensures c.llamaTechSummary != "" || pos >= SummaryLimit ==> r == (c, [])
  {
    if c.llamaTechSummary == "" && pos < SummaryLimit then
      var (summary, docs) := s.technical(store, c);
      (c.(llamaTechSummary := summary), docs)
    else (c, [])
  }

  /** The record with its three enrichment steps applied, and the hits of
      the two summarisers. */
  datatype Enriched = Enriched(c: Commit, summaryDocs: seq<Scored>, techDocs: seq<Scored>)

  function Enrich(s: Services, store: Collection, c: Commit, pos: nat): Enriched {
    var c1 := CategoryStep(s, c);
    var g := GeneralStep(s, store, c1, pos);
    var t := TechnicalStep(s, store, g.0, pos);
    Enriched(t.0, g.1, t.1)
  }

  /** The extracted fields of a record. */
  predicate SameCore(a: Commit, b: Commit) {
    a.hash == b.hash && a.author == b.author && a.date == b.date
    && a.message == b.message && a.files == b.files && a.diffs == b.diffs
  }

  /** What enrichment may do to a record at loop position `pos`: fill an
      empty category with a label, and fill empty summaries when the
      position is below the limit, and nothing else. */
  predicate EnrichedFrom(before: Commit, after: Commit, pos: nat) {
    && SameCore(before, after)
    && (before.llamaCategory != "" ==> after.llamaCategory == before.llamaCategory)
    && (before.llamaCategory == "" ==> after.llamaCategory in Categorization.Categories)
    && (before.llamaSummary != "" || pos >= SummaryLimit ==> after.llamaSummary == before.llamaSummary)
    && (before.llamaTechSummary != "" || pos >= SummaryLimit ==> after.llamaTechSummary == before.llamaTechSummary)
  }

  /** Enrichment only fills empty fields, and the hits are empty for a
      summary that was not generated. */
  lemma EnrichSpec(s: Services, store: Collection, c: Commit, pos: nat)
    ensures var e := Enrich(s, store, c, pos);
      && EnrichedFrom(c, e.c, pos)
      && (c.llamaSummary != "" || pos >= SummaryLimit ==> e.summaryDocs == [])
      && (c.llamaTechSummary != "" || pos >= SummaryLimit ==> e.techDocs == [])
  {
  }

  /** A filled category is a label, and stays one. */
  lemma EnrichedCategoryIsLabel(before: Commit, after: Commit, pos: nat)
    requires EnrichedFrom(before, after, pos)
    requires before.llamaCategory == "" || before.llamaCategory in Categorization.Categories
    ensures after.llamaCategory in Categorization.Categories
  {
  }

  /** The enrichment of one record, as a value: from the vector store, the
      record and its loop position to the enriched record and the hits. */
  type EnrichFn = (Collection, Commit, nat) -> Enriched

  /** What the loop relies on from the enrichment it is given. */
  ghost predicate SoundEnrichment(enrich: EnrichFn) {
    forall store: Collection, c: Commit, pos: nat ::
      && EnrichedFrom(c, enrich(store, c, pos).c, pos)
      && (c.llamaSummary != "" || pos >= SummaryLimit ==> enrich(store, c, pos).summaryDocs == [])
      && (c.llamaTechSummary != "" || pos >= SummaryLimit ==> enrich(store, c, pos).techDocs == [])
  }

  /** The driver's enrichment, as a value. */
  function EnrichWith(s: Services): (r: EnrichFn)
    ensures SoundEnrichment(r)
  {
    var r: EnrichFn := (store: Collection, c: Commit, pos: nat) => Enrich(s, store, c, pos);
    assert SoundEnrichment(r) by {
      forall store: Collection, c: Commit, pos: nat
        ensures EnrichedFrom(c, r(store, c, pos).c, pos)
        ensures c.llamaSummary != "" || pos >= SummaryLimit ==> r(store, c, pos).summaryDocs == []
        ensures c.llamaTechSummary != "" || pos >= SummaryLimit ==> r(store, c, pos).techDocs == []
      {
        EnrichSpec(s, store, c, pos);
      }
    }
    r
  }

  // ---------------------------------------------------------------------------
  // One iteration

  datatype State = State(work: CommitSet, sinks: Sinks)

  /** The summaries row of one iteration. */
  function SummaryRowDb(db: Database, key: int, e: Enriched, now: Timestamp): Database {
    SaveSummariesToSqlite(db, key, "test1", Stamp(now), e.c.llamaCategory, e.c.llamaSummary,
                          e.summaryDocs, e.c.llamaTechSummary, e.techDocs)
  }

  /** The two vector documents of one iteration, GENERAL first. */
  function SaveBoth(ch: ChromaState, c: Commit, key: int): ChromaState {
    SaveCommitToChroma(SaveCommitToChroma(ch, c, key, General), c, key, Technical)
  }

  /** The working set with the record at position `i` replaced. */
  function WithRecord(work: CommitSet, i: nat, c: Commit): (r: CommitSet)
    requires i < |work|
    ensures ODict.Keys(r) == ODict.Keys(work)
    ensures r[i] == (work[i].0, c)
    ensures forall j :: 0 <= j < |work| && j != i ==> r[j] == work[j]
  {
    var r := work[i := (work[i].0, c)];
    assert ODict.Keys(r) == ODict.Keys(work);
    r
  }

  /** Lines 76-108 for the record at position `i`: enrich it, store it in
      the working set, checkpoint the working set, append its summaries row
      stamped with the clock's time, and store its two vector documents.
      The four writes run as thread-pool tasks whose exceptions
      `concurrent.futures.wait` never re-raises, so a failed checkpoint
      leaves the filesystem as it was and the iteration goes on. */
  function Step(layout: Layout, enrich: EnrichFn, clock: nat -> Timestamp, st: State, i: nat): (r: Result<State>)
    requires i < |st.work|
    ensures r.Ok?
    ensures ODict.Keys(r.value.work) == ODict.Keys(st.work)
  {
    var key := st.work[i].0;
    var e := enrich(st.sinks.chroma.commits, st.work[i].1, i);
    var work := WithRecord(st.work, i, e.c);
    var fs := match SaveCommits(st.sinks.fs, work, layout.fewShotsSave)
              case Err(_) => st.sinks.fs
              case Ok(fs1) => fs1;
    Ok(State(work, Sinks(fs, SummaryRowDb(st.sinks.db, key, e, clock(i)), SaveBoth(st.sinks.chroma, e.c, key))))
  }

  /** One iteration, as a value. */
  type StepFn = (State, nat) --> Result<State>

  /** Defined at every position of the working set, and keeping its keys. */
  ghost predicate Total(step: StepFn) {
    forall st: State, i: nat :: i < |st.work| ==>
      step.requires(st, i) && (step(st, i).Ok? ==> ODict.Keys(step(st, i).value.work) == ODict.Keys(st.work))
  }

  /** The iteration with the given enrichment and clock. */
  function StepWith(layout: Layout, enrich: EnrichFn, clock: nat -> Timestamp): (r: StepFn)
    ensures Total(r)
  {
    (st: State, i: nat) requires i < |st.work| => Step(layout, enrich, clock, st, i)
  }

  /** Each iteration leaves the records at other positions alone. */
  ghost predicate KeepsOthers(step: StepFn)
    requires Total(step)
  {
    forall st: State, i: nat :: i < |st.work| && step(st, i).Ok? ==>
      forall j :: 0 <= j < |st.work| && j != i ==> step(st, i).value.work[j] == st.work[j]
  }

  /** Each iteration enriches the record at its own position. */
  ghost predicate EnrichesOwn(step: StepFn)
    requires Total(step)
  {
    forall st: State, i: nat :: i < |st.work| && step(st, i).Ok? ==>
      EnrichedFrom(st.work[i].1, step(st, i).value.work[i].1, i)
  }

  /** The row written for a record at position `pos`. */
  predicate RowFor(row: SummaryRow, key: int, before: Commit, after: Commit, pos: nat) {
    && row.commitId == key
    && row.llamaCategory == after.llamaCategory
    && row.llamaSummary == after.llamaSummary
    && row.llamaTechSummary == after.llamaTechSummary
    && (before.llamaSummary != "" || pos >= SummaryLimit ==> row.summaryDocsCount == 0)
    && (before.llamaTechSummary != "" || pos >= SummaryLimit ==> row.techSummaryDocsCount == 0)
  }

  /** Each iteration appends one row, for its own record, keeping the
      numbering dense. */
  ghost predicate AppendsRow(step: StepFn)
    requires Total(step)
  {
    forall st: State, i: nat :: i < |st.work| && step(st, i).Ok? && DenseIds(st.sinks.db) ==>
      var db := step(st, i).value.sinks.db;
      && |db.summaries| == |st.sinks.db.summaries| + 1
      && db.summaries[..|st.sinks.db.summaries|] == st.sinks.db.summaries
      && DenseIds(db)
      && RowFor(db.summaries[|st.sinks.db.summaries|], st.work[i].0, st.work[i].1, step(st, i).value.work[i].1, i)
  }

  /** Every stored document is a technical one. */
  predicate AllTechnical(col: Collection) {
    forall k :: 0 <= k < |col| ==> col[k].1.metadata.kind == "technical"
  }

  /** Each iteration stores its record's document and keeps the store
      all-technical and every id it had. */
  ghost predicate StoresTechnical(step: StepFn)
    requires Total(step)
  {
    forall st: State, i: nat :: i < |st.work| && step(st, i).Ok? && AllTechnical(st.sinks.chroma.commits) ==>
      var ch := step(st, i).value.sinks.chroma.commits;
      && AllTechnical(ch)
      && ODict.HasKey(ch, DocumentId(st.work[i].0))
      && forall id :: ODict.HasKey(st.sinks.chroma.commits, id) ==> ODict.HasKey(ch, id)
  }

  /** Each iteration's filesystem is the one `save_commits` leaves when it
      checkpoints the whole working set at `path`, or the one it had when
      that save fails. */
  ghost predicate SavesWorkAt(step: StepFn, path: string)
    requires Total(step)
  {
    forall st: State, i: nat :: i < |st.work| && step(st, i).Ok? ==>
      var fs := step(st, i).value.sinks.fs;
      var saved := SaveCommits(st.sinks.fs, step(st, i).value.work, path);
      && (saved.Ok? ==> fs == saved.value)
      && (saved.Err? ==> fs == st.sinks.fs)
  }

  /** No iteration stops the loop. */
  ghost predicate NeverFails(step: StepFn)
    requires Total(step)
  {
    forall st: State, i: nat :: i < |st.work| ==> step(st, i).Ok?
  }

  /** Everything the run lemmas rely on from an iteration. */
  ghost predicate SoundStep(step: StepFn, path: string) {
    && Total(step) && NeverFails(step) && KeepsOthers(step) && EnrichesOwn(step) && AppendsRow(step)
    && StoresTechnical(step) && SavesWorkAt(step, path)
  }

  lemma StepKeepsOthers(layout: Layout, enrich: EnrichFn, clock: nat -> Timestamp)
    ensures KeepsOthers(StepWith(layout, enrich, clock))
  {
  }

  lemma StepEnriches(layout: Layout, enrich: EnrichFn, clock: nat -> Timestamp)
    requires SoundEnrichment(enrich)
    ensures EnrichesOwn(StepWith(layout, enrich, clock))
  {
  }

  lemma StepAppendsRow(layout: Layout, enrich: EnrichFn, clock: nat -> Timestamp)
    requires SoundEnrichment(enrich)
    ensures AppendsRow(StepWith(layout, enrich, clock))
  {
    var step := StepWith(layout, enrich, clock);
    forall st: State, i: nat | i < |st.work| && step(st, i).Ok? && DenseIds(st.sinks.db)
      ensures var db := step(st, i).value.sinks.db;
        && |db.summaries| == |st.sinks.db.summaries| + 1
        && db.summaries[..|st.sinks.db.summaries|] == st.sinks.db.summaries
        && DenseIds(db)
        && RowFor(db.summaries[|st.sinks.db.summaries|], st.work[i].0, st.work[i].1, step(st, i).value.work[i].1, i)
    {
      var e := enrich(st.sinks.chroma.commits, st.work[i].1, i);
      SaveSummariesKeeps(st.sinks.db, st.work[i].0, "test1", Stamp(clock(i)), e.c.llamaCategory, e.c.llamaSummary,
                         e.summaryDocs, e.c.llamaTechSummary, e.techDocs);
    }
  }

  /** Replacing the value under a key of an all-technical collection, first
      with any document and then with a technical one, leaves it
      all-technical. */
  lemma {:induction false} OverwriteTechnical(col: Collection, id: string, g: Document, d: Document)
    requires AllTechnical(col) && d.metadata.kind == "technical"
    ensures AllTechnical(ODict.Put(ODict.Put(col, id, g), id, d))
    decreases |col|
  {
    if |col| > 0 && col[0].0 != id {
      OverwriteTechnical(col[1..], id, g, d);
      assert ODict.Put(col, id, g)[1..] == ODict.Put(col[1..], id, g);
    }
  }

  /** Both documents of a commit share the id `str(idx)`. In the sequential
      order this model gives the thread pool's four tasks, the technical
      document is written second, so an iteration leaves no general
      document behind. */
  lemma StepStoresTechnical(layout: Layout, enrich: EnrichFn, clock: nat -> Timestamp)
    ensures StoresTechnical(StepWith(layout, enrich, clock))
  {
    var step := StepWith(layout, enrich, clock);
    forall st: State, i: nat | i < |st.work| && step(st, i).Ok? && AllTechnical(st.sinks.chroma.commits)
      ensures var ch := step(st, i).value.sinks.chroma.commits;
        && AllTechnical(ch)
        && ODict.HasKey(ch, DocumentId(st.work[i].0))
        && forall id :: ODict.HasKey(st.sinks.chroma.commits, id) ==> ODict.HasKey(ch, id)
    {
      var e := enrich(st.sinks.chroma.commits, st.work[i].1, i);
      var key := st.work[i].0;
      OverwriteTechnical(st.sinks.chroma.commits, DocumentId(key),
                         CommitDocument(e.c, key, General), CommitDocument(e.c, key, Technical));
    }
  }

  lemma StepSavesWork(layout: Layout, enrich: EnrichFn, clock: nat -> Timestamp)
    ensures SavesWorkAt(StepWith(layout, enrich, clock), layout.fewShotsSave)
  {
  }

  /** A failed checkpoint does not stop an iteration. */
  lemma StepNeverFails(layout: Layout, enrich: EnrichFn, clock: nat -> Timestamp)
    ensures NeverFails(StepWith(layout, enrich, clock))
  {
  }

  /** The driver's iteration. */
  function DriverStep(layout: Layout, s: Services): (r: StepFn)
    ensures SoundStep(r, layout.fewShotsSave)
  {
    var r := StepWith(layout, EnrichWith(s), s.clock);
    StepKeepsOthers(layout, EnrichWith(s), s.clock);
    StepEnriches(layout, EnrichWith(s), s.clock);
    StepAppendsRow(layout, EnrichWith(s), s.clock);
    StepStoresTechnical(layout, EnrichWith(s), s.clock);
    StepSavesWork(layout, EnrichWith(s), s.clock);
    StepNeverFails(layout, EnrichWith(s), s.clock);
    r
  }

  // ---------------------------------------------------------------------------
  // The loop

  /** The iterations from position `i` on; the first failure stops the
      run. */
  function Loop(step: StepFn, st: State, i: nat): (r: Result<State>)
    requires Total(step) && i <= |st.work|
    ensures r.Ok? ==> ODict.Keys(r.value.work) == ODict.Keys(st.work)
    decreases |st.work| - i
  {
    if i == |st.work| then Ok(st)
    else
      var r := step(st, i);
      if r.Err? then Err(r.error)
      else
        assert |r.value.work| == |ODict.Keys(r.value.work)| == |st.work|;
        Loop(step, r.value, i + 1)
  }

  /** The records before position `i` are not touched by the iterations
      from `i` on. */
  lemma {:induction false} LoopKeepsPrefix(step: StepFn, st: State, i: nat)
    requires Total(step) && KeepsOthers(step)
    requires i <= |st.work| && Loop(step, st, i).Ok?
    ensures var fin := Loop(step, st, i).value;
      forall j :: 0 <= j < i ==> fin.work[j] == st.work[j]
    decreases |st.work| - i
  {
    if i < |st.work| {
      var st1 := step(st, i).value;
      LoopKeepsPrefix(step, st1, i + 1);
    }
  }

  /** Records from position `i` on are enriched. */
  lemma {:induction false} LoopWork(step: StepFn, st: State, i: nat)
    requires Total(step) && KeepsOthers(step) && EnrichesOwn(step)
    requires i <= |st.work| && Loop(step, st, i).Ok?
    ensures var fin := Loop(step, st, i).value;
      forall j :: i <= j < |st.work| ==> EnrichedFrom(st.work[j].1, fin.work[j].1, j)
    decreases |st.work| - i
  {
    if i < |st.work| {
      var st1 := step(st, i).value;
      LoopWork(step, st1, i + 1);
      LoopKeepsPrefix(step, st1, i + 1);
    }
  }

  /** Each iteration from position `i` on appends exactly one row and
      keeps the numbering dense. */
  lemma {:induction false} LoopRowCount(step: StepFn, st: State, i: nat)
    requires Total(step) && AppendsRow(step)
    requires i <= |st.work| && Loop(step, st, i).Ok?
    requires DenseIds(st.sinks.db)
    ensures var fin := Loop(step, st, i).value;
      && |fin.sinks.db.summaries| == |st.sinks.db.summaries| + |st.work| - i
      && (forall k :: 0 <= k < |st.sinks.db.summaries| ==> fin.sinks.db.summaries[k] == st.sinks.db.summaries[k])
      && DenseIds(fin.sinks.db)
    decreases |st.work| - i
  {
    if i < |st.work| {
      var st1 := step(st, i).value;
      LoopRowCount(step, st1, i + 1);
    }
  }

  /** What one iteration does to its own record, the others and the rows. */
  lemma StepRow(step: StepFn, st: State, i: nat)
    requires Total(step) && KeepsOthers(step) && AppendsRow(step)
    requires i < |st.work| && step(st, i).Ok? && DenseIds(st.sinks.db)
    ensures var st1 := step(st, i).value;
      && |st1.sinks.db.summaries| == |st.sinks.db.summaries| + 1
      && DenseIds(st1.sinks.db)
      && RowFor(st1.sinks.db.summaries[|st.sinks.db.summaries|], st.work[i].0, st.work[i].1, st1.work[i].1, i)
      && forall j :: 0 <= j < |st.work| && j != i ==> st1.work[j] == st.work[j]
  {
  }

  /** The row of the record at position `j` sits at `j + off`, where `off`
      is the number of rows there were before position 0. */
  lemma {:induction false} LoopRows(step: StepFn, st: State, i: nat, off: int)
    requires Total(step) && KeepsOthers(step) && AppendsRow(step)
    requires i <= |st.work| && Loop(step, st, i).Ok?
    requires DenseIds(st.sinks.db) && off == |st.sinks.db.summaries| - i
    ensures var fin := Loop(step, st, i).value;
      && |fin.sinks.db.summaries| == |st.work| + off
      && forall j :: i <= j < |st.work| ==>
        RowFor(fin.sinks.db.summaries[j + off], st.work[j].0, st.work[j].1, fin.work[j].1, j)
    decreases |st.work| - i
  {
    if i < |st.work| {
      var st1 := step(st, i).value;
      assert Loop(step, st, i) == Loop(step, st1, i + 1);
      StepRow(step, st, i);
      LoopRows(step, st1, i + 1, off);
      LoopRowCount(step, st1, i + 1);
      LoopKeepsPrefix(step, st1, i + 1);
    }
  }

  /** The store stays all-technical, keeps its ids, and gains one for
      every record from position `i` on. */
  lemma {:induction false} LoopChroma(step: StepFn, st: State, i: nat)
    requires Total(step) && KeepsOthers(step) && StoresTechnical(step)
    requires i <= |st.work| && Loop(step, st, i).Ok?
    requires AllTechnical(st.sinks.chroma.commits)
    ensures var fin := Loop(step, st, i).value;
      && AllTechnical(fin.sinks.chroma.commits)
      && (forall j :: i <= j < |st.work| ==> ODict.HasKey(fin.sinks.chroma.commits, DocumentId(st.work[j].0)))
      && (forall id :: ODict.HasKey(st.sinks.chroma.commits, id) ==> ODict.HasKey(fin.sinks.chroma.commits, id))
    decreases |st.work| - i
  {
    if i < |st.work| {
      var st1 := step(st, i).value;
      LoopChroma(step, st1, i + 1);
      forall j | i < j < |st.work| ensures st1.work[j] == st.work[j] {
      }
    }
  }

  /** Each iteration leaves every file off `path` as it was, and creates
      files only along `path`. */
  ghost predicate WritesAlong(step: StepFn, path: string)
    requires Total(step)
  {
    forall st: State, i: nat :: i < |st.work| && step(st, i).Ok? ==>
      var fs := step(st, i).value.sinks.fs;
      && (forall p :: p in st.sinks.fs && p != path ==> p in fs && fs[p] == st.sinks.fs[p])
      && (forall p :: p in fs && p !in st.sinks.fs ==> |p| <= |path| && p == path[..|p|])
  }

  /** What one iteration does to the filesystem. */
  lemma StepFiles(step: StepFn, path: string)
    requires Total(step) && SavesWorkAt(step, path)
    ensures WritesAlong(step, path)
  {
    forall st: State, i: nat | i < |st.work| && step(st, i).Ok?
      ensures var fs := step(st, i).value.sinks.fs;
        && (forall p :: p in st.sinks.fs && p != path ==> p in fs && fs[p] == st.sinks.fs[p])
        && (forall p :: p in fs && p !in st.sinks.fs ==> |p| <= |path| && p == path[..|p|])
    {
      var saved := SaveCommits(st.sinks.fs, step(st, i).value.work, path);
      assert saved.Ok? ==> step(st, i).value.sinks.fs == saved.value;
    }
  }

  /** The loop leaves every file off the checkpoint's path as it was. */
  lemma {:induction false} LoopFilesKept(step: StepFn, path: string, st: State, i: nat)
    requires Total(step) && WritesAlong(step, path)
    requires i <= |st.work| && Loop(step, st, i).Ok?
    ensures var fin := Loop(step, st, i).value;
      forall p :: p in st.sinks.fs && p != path ==> p in fin.sinks.fs && fin.sinks.fs[p] == st.sinks.fs[p]
    decreases |st.work| - i
  {
    if i < |st.work| {
      var st1 := step(st, i).value;
      LoopFilesKept(step, path, st1, i + 1);
      assert Loop(step, st, i) == Loop(step, st1, i + 1);
    }
  }

  /** The loop creates files only along the checkpoint's path. */
  lemma {:induction false} LoopFilesNew(step: StepFn, path: string, st: State, i: nat)
    requires Total(step) && WritesAlong(step, path)
    requires i <= |st.work| && Loop(step, st, i).Ok?
    ensures var fin := Loop(step, st, i).value;
      forall p :: p in fin.sinks.fs && p !in st.sinks.fs ==> |p| <= |path| && p == path[..|p|]
    decreases |st.work| - i
  {
    if i < |st.work| {
      var st1 := step(st, i).value;
      LoopFilesNew(step, path, st1, i + 1);
      assert Loop(step, st, i) == Loop(step, st1, i + 1);
    }
  }

  /** A loop whose iterations never fail runs to the end. */
  lemma {:induction false} LoopOk(step: StepFn, st: State, i: nat)
    requires Total(step) && NeverFails(step) && i <= |st.work|
    ensures Loop(step, st, i).Ok?
    decreases |st.work| - i
  {
    if i < |st.work| {
      var st1 := step(st, i).value;
      assert |st1.work| == |ODict.Keys(st1.work)| == |st.work|;
      LoopOk(step, st1, i + 1);
    }
  }

  /** After at least one iteration the checkpoint holds the final working
      set, unless saving there fails, in which case every iteration's save
      fails and the filesystem is as the loop found it. */
  lemma {:induction false} LoopFilesLast(step: StepFn, path: string, st: State, i: nat)
    requires Total(step) && SavesWorkAt(step, path)
    requires i < |st.work| && Loop(step, st, i).Ok?
    ensures var fin := Loop(step, st, i).value;
      var saved := SaveCommits(st.sinks.fs, fin.work, path);
      && (saved.Ok? ==> path in fin.sinks.fs && fin.sinks.fs[path] == File(fin.work))
      && (saved.Err? ==> fin.sinks.fs == st.sinks.fs)
    decreases |st.work| - i
  {
    var st1 := step(st, i).value;
    var fin := Loop(step, st, i).value;
    assert Loop(step, st, i) == Loop(step, st1, i + 1);
    SaveOutcomeIgnoresValue(st.sinks.fs, st1.work, fin.work, path);
    if i + 1 < |st.work| {
      LoopFilesLast(step, path, st1, i + 1);
      if SaveCommits(st.sinks.fs, st1.work, path).Ok? {
        LastSaveWins(st.sinks.fs, st1.work, fin.work, path);
      }
    }
  }

  // ---------------------------------------------------------------------------
  // A whole run

  /** The outcome of a whole run: the raw set, the enriched working set and
      the sinks. */
  datatype Outcome = Outcome(raw: CommitSet, work: CommitSet, sinks: Sinks)

  /** Seeding then the loop, for a given iteration and prepared raw set. */
  function RunFrom(layout: Layout, step: StepFn, prepared: CommitSet,
                   conflicts: (seq<CommitRow>, CommitRow) -> bool, sinks: Sinks): Result<Outcome>
    requires Total(step)
  {
    match Seed(layout, prepared, conflicts, sinks)
    case Err(e) => Err(e)
    case Ok(start) =>
      match Loop(step, State(start.work, start.sinks), 0)
      case Err(e) => Err(e)
      case Ok(fin) => Ok(Outcome(start.raw, fin.work, fin.sinks))
  }

  /** `main()`, up to the plots and metrics. */
  function Run(layout: Layout, s: Services, sinks: Sinks): Result<Outcome> {
    RunFrom(layout, DriverStep(layout, s), PrepareRaw(s.history), s.conflicts, sinks)
  }

  /** A failed checkpoint inside the loop never ends a run: it fails
      exactly when seeding does. */
  lemma RunOk(layout: Layout, step: StepFn, prepared: CommitSet, conflicts: (seq<CommitRow>, CommitRow) -> bool, sinks: Sinks)
    requires SoundStep(step, layout.fewShotsSave)
    ensures RunFrom(layout, step, prepared, conflicts, sinks).Ok? <==> Seed(layout, prepared, conflicts, sinks).Ok?
  {
    if Seed(layout, prepared, conflicts, sinks).Ok? {
      var start := Seed(layout, prepared, conflicts, sinks).value;
      LoopOk(step, State(start.work, start.sinks), 0);
    }
  }

  /** Keys and record order survive the run, and the three enrichment
      fields only ever go from empty to filled. */
  lemma RunWork(layout: Layout, step: StepFn, prepared: CommitSet, conflicts: (seq<CommitRow>, CommitRow) -> bool, sinks: Sinks)
    requires SoundStep(step, layout.fewShotsSave)
    requires RunFrom(layout, step, prepared, conflicts, sinks).Ok?
    ensures var start := Seed(layout, prepared, conflicts, sinks).value;
      var out := RunFrom(layout, step, prepared, conflicts, sinks).value;
      && ODict.Keys(out.work) == ODict.Keys(start.work)
      && forall j :: 0 <= j < |out.work| ==> EnrichedFrom(start.work[j].1, out.work[j].1, j)
  {
    var start := Seed(layout, prepared, conflicts, sinks).value;
    LoopWork(step, State(start.work, start.sinks), 0);
  }

  /** After a run every category is a label, provided the working set
      started with labels or empty categories. */
  lemma RunCategories(layout: Layout, step: StepFn, prepared: CommitSet, conflicts: (seq<CommitRow>, CommitRow) -> bool, sinks: Sinks)
    requires SoundStep(step, layout.fewShotsSave)
    requires RunFrom(layout, step, prepared, conflicts, sinks).Ok?
    requires var w := Seed(layout, prepared, conflicts, sinks).value.work;
      forall j :: 0 <= j < |w| ==> w[j].1.llamaCategory == "" || w[j].1.llamaCategory in Categorization.Categories
    ensures var out := RunFrom(layout, step, prepared, conflicts, sinks).value;
      forall j :: 0 <= j < |out.work| ==> out.work[j].1.llamaCategory in Categorization.Categories
  {
    var start := Seed(layout, prepared, conflicts, sinks).value;
    var out := RunFrom(layout, step, prepared, conflicts, sinks).value;
    RunWork(layout, step, prepared, conflicts, sinks);
    forall j | 0 <= j < |out.work| ensures out.work[j].1.llamaCategory in Categorization.Categories {
      EnrichedCategoryIsLabel(start.work[j].1, out.work[j].1, j);
    }
  }

  /** From position 100 on, a record leaves the run with the summaries it
      came in with. */
  lemma RunSummaryLimit(layout: Layout, step: StepFn, prepared: CommitSet, conflicts: (seq<CommitRow>, CommitRow) -> bool, sinks: Sinks, j: int)
    requires SoundStep(step, layout.fewShotsSave)
    requires RunFrom(layout, step, prepared, conflicts, sinks).Ok?
    requires SummaryLimit <= j < |RunFrom(layout, step, prepared, conflicts, sinks).value.work|
    ensures var w := Seed(layout, prepared, conflicts, sinks).value.work;
      var out := RunFrom(layout, step, prepared, conflicts, sinks).value;
      && out.work[j].1.llamaSummary == w[j].1.llamaSummary
      && out.work[j].1.llamaTechSummary == w[j].1.llamaTechSummary
  {
    RunWork(layout, step, prepared, conflicts, sinks);
  }

  /** A full run leaves one summaries row per record, in record order,
      numbered from 1; a record whose summary was already there is written
      with no retrieved documents. */
  lemma RunRows(layout: Layout, step: StepFn, prepared: CommitSet, conflicts: (seq<CommitRow>, CommitRow) -> bool, sinks: Sinks)
    requires SoundStep(step, layout.fewShotsSave)
    requires RunFrom(layout, step, prepared, conflicts, sinks).Ok?
    ensures var start := Seed(layout, prepared, conflicts, sinks).value;
      var out := RunFrom(layout, step, prepared, conflicts, sinks).value;
      && |out.sinks.db.summaries| == |out.work|
      && DenseIds(out.sinks.db)
      && forall j :: 0 <= j < |out.work| ==>
        RowFor(out.sinks.db.summaries[j], out.work[j].0, start.work[j].1, out.work[j].1, j)
  {
    var start := Seed(layout, prepared, conflicts, sinks).value;
    LoopRowCount(step, State(start.work, start.sinks), 0);
    LoopRows(step, State(start.work, start.sinks), 0, 0);
  }

  /** After a run the vector store holds a document for every record, and
      in the sequential order of the thread pool's tasks all of them are
      technical. */
  lemma RunChroma(layout: Layout, step: StepFn, prepared: CommitSet, conflicts: (seq<CommitRow>, CommitRow) -> bool, sinks: Sinks)
    requires SoundStep(step, layout.fewShotsSave)
    requires RunFrom(layout, step, prepared, conflicts, sinks).Ok?
    ensures var out := RunFrom(layout, step, prepared, conflicts, sinks).value;
      && AllTechnical(out.sinks.chroma.commits)
      && forall j :: 0 <= j < |out.work| ==> ODict.HasKey(out.sinks.chroma.commits, DocumentId(out.work[j].0))
  {
    var start := Seed(layout, prepared, conflicts, sinks).value;
    LoopChroma(step, State(start.work, start.sinks), 0);
  }

  /** What a run does to the filesystem after seeding: it writes only along
      the working-set checkpoint's path, and that file ends up holding the
      final working set, unless saving there fails, in which case the run
      leaves the filesystem as seeding did. */
  lemma RunFiles(layout: Layout, step: StepFn, prepared: CommitSet, conflicts: (seq<CommitRow>, CommitRow) -> bool, sinks: Sinks)
    requires SoundStep(step, layout.fewShotsSave)
    requires RunFrom(layout, step, prepared, conflicts, sinks).Ok?
    ensures var start := Seed(layout, prepared, conflicts, sinks).value;
      var out := RunFrom(layout, step, prepared, conflicts, sinks).value;
      && (forall p :: p in start.sinks.fs && p != layout.fewShotsSave ==> p in out.sinks.fs && out.sinks.fs[p] == start.sinks.fs[p])
      && (forall p :: p in out.sinks.fs && p !in start.sinks.fs ==> |p| <= |layout.fewShotsSave| && p == layout.fewShotsSave[..|p|])
      && (|out.work| > 0 && SaveCommits(start.sinks.fs, out.work, layout.fewShotsSave).Ok? ==>
            layout.fewShotsSave in out.sinks.fs && out.sinks.fs[layout.fewShotsSave] == File(out.work))
      && (|out.work| == 0 || SaveCommits(start.sinks.fs, out.work, layout.fewShotsSave).Err? ==>
            out.sinks.fs == start.sinks.fs)
  {
    var start := Seed(layout, prepared, conflicts, sinks).value;
    var st := State(start.work, start.sinks);
    var fin := Loop(step, st, 0).value;
    assert RunFrom(layout, step, prepared, conflicts, sinks) == Ok(Outcome(start.raw, fin.work, fin.sinks));
    assert |fin.work| == |ODict.Keys(fin.work)| == |start.work|;
    StepFiles(step, layout.fewShotsSave);
    LoopFilesKept(step, layout.fewShotsSave, st, 0);
    LoopFilesNew(step, layout.fewShotsSave, st, 0);
    if |start.work| > 0 {
      LoopFilesLast(step, layout.fewShotsSave, st, 0);
    }
  }

  // ---------------------------------------------------------------------------
  // Rerunning

  /** `cwd/commits_few_shots.pkl` lies on neither checkpoint's save path. */
  lemma FewShotsLoadOffSavePaths(cwd: string)
    requires ValidCwd(cwd)
    ensures var l := WrittenLayout(cwd);
      && !(|l.fewShotsLoad| <= |l.rawSave| && l.fewShotsLoad == l.rawSave[..|l.fewShotsLoad|])
      && !(|l.fewShotsLoad| <= |l.fewShotsSave| && l.fewShotsLoad == l.fewShotsSave[..|l.fewShotsLoad|])
      && l.fewShotsLoad != l.rawSave && l.fewShotsLoad != l.fewShotsSave && l.rawSave != l.fewShotsSave
  {
    WrittenPaths(cwd);
    var l := WrittenLayout(cwd);
    var n := |cwd|;
    assert l.fewShotsLoad[n + 8] == '_';
    assert l.rawSave[n + 8] == '/' && l.fewShotsSave[n + 8] == '/';
    assert l.rawSave[n + 17] == 'r' && l.fewShotsSave[n + 17] == 'f';
  }

  /** A run leaves the raw checkpoint holding the raw set, whether it
      wrote it or found it. */
  lemma RunRawFile(layout: Layout, step: StepFn, prepared: CommitSet, conflicts: (seq<CommitRow>, CommitRow) -> bool, sinks: Sinks)
    requires SoundStep(step, layout.fewShotsSave)
    requires layout.rawSave == layout.rawLoad != layout.fewShotsSave
    requires RunFrom(layout, step, prepared, conflicts, sinks).Ok?
    ensures var out := RunFrom(layout, step, prepared, conflicts, sinks).value;
      layout.rawSave in out.sinks.fs && out.sinks.fs[layout.rawSave] == File(out.raw)
  {
    SeedRawFile(layout, prepared, conflicts, sinks);
    RunFiles(layout, step, prepared, conflicts, sinks);
  }

  /** As written, the working set is saved where it is never loaded from:
      when `cwd/commits_few_shots.pkl` does not exist, a run does not create
      it, so the next run starts again from the raw set and every
      enrichment is redone. */
  lemma RerunReseedsAsWritten(cwd: string, step: StepFn, prepared: CommitSet, conflicts: (seq<CommitRow>, CommitRow) -> bool, sinks: Sinks)
    requires ValidCwd(cwd)
    requires SoundStep(step, WrittenLayout(cwd).fewShotsSave)
    requires !Exists(sinks.fs, WrittenLayout(cwd).fewShotsLoad)
    requires RunFrom(WrittenLayout(cwd), step, prepared, conflicts, sinks).Ok?
    ensures var out := RunFrom(WrittenLayout(cwd), step, prepared, conflicts, sinks).value;
      && Seed(WrittenLayout(cwd), prepared, conflicts, out.sinks).Ok?
      && Seed(WrittenLayout(cwd), prepared, conflicts, out.sinks).value.raw == out.raw
      && Seed(WrittenLayout(cwd), prepared, conflicts, out.sinks).value.work == out.raw
  {
    var l := WrittenLayout(cwd);
    var out := RunFrom(l, step, prepared, conflicts, sinks).value;
    WrittenPaths(cwd);
    FewShotsLoadOffSavePaths(cwd);
    SeedFiles(l, prepared, conflicts, sinks);
    RunFiles(l, step, prepared, conflicts, sinks);
    RunRawFile(l, step, prepared, conflicts, sinks);
    SeedFromCheckpoints(l, prepared, conflicts, out.sinks);
  }

  /** With the working set loaded from where it is saved, a rerun resumes:
      it starts from the working set the previous run ended with. */
  lemma RerunResumesCorrected(cwd: string, step: StepFn, prepared: CommitSet, conflicts: (seq<CommitRow>, CommitRow) -> bool, sinks: Sinks)
    requires ValidCwd(cwd)
    requires SoundStep(step, CorrectedLayout(cwd).fewShotsSave)
    requires RunFrom(CorrectedLayout(cwd), step, prepared, conflicts, sinks).Ok?
    requires |RunFrom(CorrectedLayout(cwd), step, prepared, conflicts, sinks).value.work| > 0
    requires SaveCommits(Seed(CorrectedLayout(cwd), prepared, conflicts, sinks).value.sinks.fs,
                         RunFrom(CorrectedLayout(cwd), step, prepared, conflicts, sinks).value.work,
                         CorrectedLayout(cwd).fewShotsSave).Ok?
    ensures var out := RunFrom(CorrectedLayout(cwd), step, prepared, conflicts, sinks).value;
      && Seed(CorrectedLayout(cwd), prepared, conflicts, out.sinks).Ok?
      && Seed(CorrectedLayout(cwd), prepared, conflicts, out.sinks).value.work == out.work
  {
    var l := CorrectedLayout(cwd);
    var out := RunFrom(l, step, prepared, conflicts, sinks).value;
    CorrectedPaths(cwd);
    FewShotsLoadOffSavePaths(cwd);
    RunFiles(l, step, prepared, conflicts, sinks);
    RunRawFile(l, step, prepared, conflicts, sinks);
    SeedFromCheckpoints(l, prepared, conflicts, out.sinks);
  }
}
