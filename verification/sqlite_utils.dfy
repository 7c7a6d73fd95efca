/** utils/sqlite_utils.py: the rows the pipeline writes to its SQLite
    database. Tables are row sequences. The `summaries` table has an
    autoincrement id, whose counter is the `sqlite_sequence` entry the
    deletion resets. The `commits` table's uniqueness constraint is not
    part of this model, so whether `INSERT OR IGNORE` finds a conflict is
    a parameter. JSON text encoding is left abstract: a JSON column holds
    the value it encodes. */
module SqliteUtils {
  import opened Wrappers
  import opened Text
  import opened Seqs
  import ODict
  import opened Commits
  import opened ChromaUtils

  /** A row of `commits`. */
  datatype CommitRow = CommitRow(
    commitHash: string,
    author: string,
    date: string,
    message: string,
    files: seq<string>,
    diffs: ODict.Dict<string, string>)

  /** A row of `summaries`. */
  datatype SummaryRow = SummaryRow(
    id: nat,
    commitId: int,
    experimentName: string,
    date: string,
    llamaCategory: string,
    llamaSummary: string,
    summaryDocs: seq<Document>,
    summaryDocsCount: nat,
    summaryDocsScores: seq<real>,
    llamaTechSummary: string,
    techSummaryDocs: seq<Document>,
    techSummaryDocsCount: nat,
    techSummaryDocsScores: seq<real>)

  /** The two tables and the `summaries` autoincrement counter. */
  datatype Database = Database(commits: seq<CommitRow>, summaries: seq<SummaryRow>, summariesSeq: nat)

  /** A date argument: a `datetime`, rendered, or any other value, passed
      through as it is. */
  datatype DateArg = Stamp(t: Timestamp) | Plain(s: string)

  function RenderDate(d: DateArg): string {
    match d
    case Stamp(t) => FormatTimestamp(t)
    case Plain(s) => s
  }

  /** A datetime is stored in a form that reads back as the same date. */
  lemma RenderDateRoundTrip(t: Timestamp)
    ensures ParseTimestamp(RenderDate(Stamp(t))) == Some(t)
  {
    TimestampRoundTrip(t);
  }

  /** The row `save_commits_to_sqlite` builds for one record. */
  function CommitToRow(c: Commit): (r: CommitRow)
    ensures ParseTimestamp(r.date) == Some(c.date)
    ensures r.commitHash == c.hash && r.files == c.files && r.diffs == c.diffs
  {
    TimestampRoundTrip(c.date);
    CommitRow(c.hash, c.author, RenderDate(Stamp(c.date)), c.message, c.files, c.diffs)
  }

  /** One row per record, in the dict's order. */
  function CommitRows(commits: CommitSet): (rows: seq<CommitRow>)
    ensures |rows| == |commits|
    ensures forall i :: 0 <= i < |commits| ==> rows[i] == CommitToRow(commits[i].1)
  {
    seq(|commits|, i requires 0 <= i < |commits| => CommitToRow(commits[i].1))
  }

  /** `INSERT OR IGNORE`: the row is added unless it conflicts with the
      table. */
  function InsertOrIgnore(table: seq<CommitRow>, row: CommitRow, conflicts: (seq<CommitRow>, CommitRow) -> bool): seq<CommitRow> {
    if conflicts(table, row) then table else table + [row]
  }

  /** `executemany` of the insertion over `rows`: existing rows are never
      changed, and the rows added are some of `rows`, in order. */
  function InsertAll(table: seq<CommitRow>, rows: seq<CommitRow>, conflicts: (seq<CommitRow>, CommitRow) -> bool): (r: seq<CommitRow>)
    ensures |table| <= |r| <= |table| + |rows|
    ensures r[..|table|] == table
    ensures IsSubsequence(r[|table|..], rows)
    decreases |rows|
  {
    if |rows| == 0 then table
    else
      var next := InsertOrIgnore(table, rows[0], conflicts);
      var r := InsertAll(next, rows[1..], conflicts);
      assert r[..|table|] == next[..|table|];
      if conflicts(table, rows[0]) then
        SubsequenceCons(r[|table|..], rows);
        r
      else
        assert r[|table|..] == [rows[0]] + r[|next|..];
        r
  }

  /** When nothing conflicts, every row is added, in order. */
  lemma {:induction false} InsertAllNoConflicts(table: seq<CommitRow>, rows: seq<CommitRow>, conflicts: (seq<CommitRow>, CommitRow) -> bool)
    requires forall t, row :: !conflicts(t, row)
    ensures InsertAll(table, rows, conflicts) == table + rows
    decreases |rows|
  {
    if |rows| > 0 {
      InsertAllNoConflicts(table + [rows[0]], rows[1..], conflicts);
      assert table + [rows[0]] + rows[1..] == table + rows;
    }
  }

  /** `save_commits_to_sqlite(commits)` */
  function SaveCommitsToSqlite(db: Database, commits: CommitSet, conflicts: (seq<CommitRow>, CommitRow) -> bool): (r: Database)
    ensures r.summaries == db.summaries && r.summariesSeq == db.summariesSeq
    ensures |db.commits| <= |r.commits| <= |db.commits| + |commits|
    ensures r.commits[..|db.commits|] == db.commits
    ensures IsSubsequence(r.commits[|db.commits|..], CommitRows(commits))
  {
    db.(commits := InsertAll(db.commits, CommitRows(commits), conflicts))
  }

  /** `serialize_docs(docs)`: one entry per hit, the hit's document. */
  function SerializeDocs(docs: seq<Scored>): (r: seq<Document>)
    ensures |r| == |docs|
    ensures forall k :: 0 <= k < |docs| ==> r[k] == docs[k].0
  {
    seq(|docs|, k requires 0 <= k < |docs| => docs[k].0)
  }

  /** The score column: the hits' scores, in order. */
  function Scores(docs: seq<Scored>): (r: seq<real>)
    ensures |r| == |docs|
    ensures forall k :: 0 <= k < |docs| ==> r[k] == docs[k].1
  {
    seq(|docs|, k requires 0 <= k < |docs| => docs[k].1)
  }

  /** The serialised documents and the scores together give back the hit
      list. */
  lemma SerializeDocsScores(docs: seq<Scored>)
    ensures |SerializeDocs(docs)| == |Scores(docs)| == |docs|
    ensures forall k :: 0 <= k < |docs| ==> (SerializeDocs(docs)[k], Scores(docs)[k]) == docs[k]
  {
  }

  /** `save_summaries_to_sqlite(...)`: exactly one row is appended, under the
      next id, with both counts equal to the lengths of the hit lists. */
  function SaveSummariesToSqlite(
    db: Database, commitId: int, experimentName: string, date: DateArg,
    llamaCategory: string, llamaSummary: string, summaryDocs: seq<Scored>,
    llamaTechSummary: string, techSummaryDocs: seq<Scored>): (r: Database)
    ensures r.commits == db.commits
    ensures r.summariesSeq == db.summariesSeq + 1
    ensures |r.summaries| == |db.summaries| + 1 && r.summaries[..|db.summaries|] == db.summaries
    ensures var row := r.summaries[|db.summaries|];
      && row.id == r.summariesSeq && row.commitId == commitId
      && row.summaryDocsCount == |summaryDocs| && row.techSummaryDocsCount == |techSummaryDocs|
      && row.llamaCategory == llamaCategory && row.llamaSummary == llamaSummary
      && row.llamaTechSummary == llamaTechSummary
  {
    var row := SummaryRow(
      db.summariesSeq + 1, commitId, experimentName, RenderDate(date), llamaCategory,
      llamaSummary, SerializeDocs(summaryDocs), |summaryDocs|, Scores(summaryDocs),
      llamaTechSummary, SerializeDocs(techSummaryDocs), |techSummaryDocs|, Scores(techSummaryDocs));
    db.(summaries := db.summaries + [row], summariesSeq := db.summariesSeq + 1)
  }

  /** Each summaries row's count columns agree with its document and score
      columns. */
  predicate RowConsistent(row: SummaryRow) {
    && row.summaryDocsCount == |row.summaryDocs| == |row.summaryDocsScores|
    && row.techSummaryDocsCount == |row.techSummaryDocs| == |row.techSummaryDocsScores|
  }

  /** The rows are numbered 1, 2, ... and the counter is the last id. */
  predicate DenseIds(db: Database) {
    && db.summariesSeq == |db.summaries|
    && forall k :: 0 <= k < |db.summaries| ==> db.summaries[k].id == k + 1
  }

  /** The row written carries a consistent set of columns, and numbering
      stays dense. */
  lemma SaveSummariesKeeps(
    db: Database, commitId: int, experimentName: string, date: DateArg,
    llamaCategory: string, llamaSummary: string, summaryDocs: seq<Scored>,
    llamaTechSummary: string, techSummaryDocs: seq<Scored>)
    ensures var r := SaveSummariesToSqlite(db, commitId, experimentName, date, llamaCategory,
                                          llamaSummary, summaryDocs, llamaTechSummary, techSummaryDocs);
      && RowConsistent(r.summaries[|db.summaries|])
      && r.summaries[|db.summaries|].summaryDocsScores == Scores(summaryDocs)
      && r.summaries[|db.summaries|].techSummaryDocsScores == Scores(techSummaryDocs)
      && (DenseIds(db) ==> DenseIds(r))
  {
  }

  /** `delete_all_summaries()`: the summaries table is emptied and its
      counter reset; the commits table is untouched. */
  function DeleteAllSummaries(db: Database): (r: Database)
    ensures |r.summaries| == 0 && r.commits == db.commits
    ensures DenseIds(r)
  {
    db.(summaries := [], summariesSeq := 0)
  }
}
