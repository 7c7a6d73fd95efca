/** utils/chromadb_utils.py: the documents the pipeline writes to the vector
    store. The store is an abstract collection from document id to document;
    embedding and similarity search stay outside the model. Adding a document
    under an id that is already present replaces the stored one, as Chroma's
    upsert does. */
module ChromaUtils {
  import opened Wrappers
  import opened Text
  import ODict
  import opened Commits

  /** `SummaryType`, the enumeration of the two summary kinds. */
  datatype SummaryType = General | Technical {
    /** `summary_type.value` */
    function Value(): string {
      if General? then "general" else "technical"
    }
  }

  /** The metadata dict attached to a commit document. */
  datatype Metadata = Metadata(
    commitHash: string,
    index: int,
    author: string,
    date: string,
    message: string,
    kind: string)

  /** A LangChain `Document`. */
  datatype Document = Document(pageContent: string, metadata: Metadata)

  /** A search hit: a document and its relevance score. */
  type Scored = (Document, real)

  /** A collection: documents by id, in insertion order. */
  type Collection = ODict.Dict<string, Document>

  /** The two collections the pipeline uses. */
  datatype ChromaState = ChromaState(commits: Collection, generalDocs: seq<Document>)

  /** The summary a document carries: the general one for GENERAL, the
      technical one otherwise. */
  function DocText(c: Commit, t: SummaryType): string {
    if t == General then c.llamaSummary else c.llamaTechSummary
  }

  function CommitMetadata(c: Commit, idx: int, t: SummaryType): Metadata {
    Metadata(c.hash, idx, c.author, FormatTimestamp(c.date), c.message, t.Value())
  }

  /** The id a commit's document is stored under: `str(idx)`, whatever the
      summary type. */
  function DocumentId(idx: int): string {
    IntToString(idx)
  }

  function CommitDocument(c: Commit, idx: int, t: SummaryType): (d: Document)
    ensures d.pageContent == (if t == General then c.llamaSummary else c.llamaTechSummary)
    ensures d.metadata.index == idx && d.metadata.kind == t.Value()
    ensures d.metadata.commitHash == c.hash && d.metadata.message == c.message
  {
    Document(DocText(c, t), CommitMetadata(c, idx, t))
  }

  /** `save_commit_to_chromadb(commit, idx, summary_type)`: the commit's
      document is stored under `str(idx)`, and every other id keeps what it
      had. */
  function SaveCommitToChroma(s: ChromaState, c: Commit, idx: int, t: SummaryType): (r: ChromaState)
    ensures ODict.Get(r.commits, DocumentId(idx)) == Some(CommitDocument(c, idx, t))
    ensures forall id :: id != DocumentId(idx) ==> ODict.Get(r.commits, id) == ODict.Get(s.commits, id)
    ensures ODict.Keys(r.commits) ==
      if ODict.HasKey(s.commits, DocumentId(idx)) then ODict.Keys(s.commits) else ODict.Keys(s.commits) + [DocumentId(idx)]
    ensures r.generalDocs == s.generalDocs
  {
    var d := CommitDocument(c, idx, t);
    var commits := ODict.Put(s.commits, DocumentId(idx), d);
    assert forall id :: ODict.Get(commits, id) == if id == DocumentId(idx) then Some(d) else ODict.Get(s.commits, id) by {
      forall id ensures ODict.Get(commits, id) == if id == DocumentId(idx) then Some(d) else ODict.Get(s.commits, id) {
        ODict.PutGet(s.commits, DocumentId(idx), d, id);
      }
    }
    s.(commits := commits)
  }

  /** Saving the same commit and index under both summary types leaves one
      document, the one written last: the general document is no longer
      stored. */
  lemma SharedIdCollision(s: ChromaState, c: Commit, idx: int)
    ensures var r := SaveCommitToChroma(SaveCommitToChroma(s, c, idx, General), c, idx, Technical);
      && ODict.Get(r.commits, DocumentId(idx)) == Some(CommitDocument(c, idx, Technical))
      && ODict.Get(r.commits, DocumentId(idx)).value.metadata.kind == "technical"
  {
  }

  /** Different indices give different ids, so documents of different
      commits never replace each other. */
  lemma DistinctIndicesDistinctIds(a: int, b: int)
    requires a != b
    ensures DocumentId(a) != DocumentId(b)
  {
    if DocumentId(a) == DocumentId(b) {
      IntToStringInjective(a, b);
    }
  }

  /** One block of `format_retrieved_docs`. */
  function ScoredBlock(d: Scored, showScore: real -> string): string {
    "\nScore: " + showScore(d.1) + "\nContent: " + d.0.pageContent
  }

  /** `format_retrieved_docs(retrieved_docs)`: the blocks of the hits,
      concatenated in order. `str(score)` is the parameter `showScore`. */
  function FormatRetrievedDocs(docs: seq<Scored>, showScore: real -> string): string
    decreases |docs|
  {
    if |docs| == 0 then ""
    else FormatRetrievedDocs(docs[..|docs| - 1], showScore) + ScoredBlock(docs[|docs| - 1], showScore)
  }

  /** Formatting distributes over concatenation of hit lists: every hit
      contributes its own block, in order, and nothing else is emitted. */
  lemma {:induction false} FormatRetrievedDocsAppend(a: seq<Scored>, b: seq<Scored>, showScore: real -> string)
    ensures FormatRetrievedDocs(a + b, showScore) == FormatRetrievedDocs(a, showScore) + FormatRetrievedDocs(b, showScore)
    decreases |b|
  {
    if |b| > 0 {
      var n := |b| - 1;
      assert (a + b)[..|a + b| - 1] == a + b[..n];
      FormatRetrievedDocsAppend(a, b[..n], showScore);
    } else {
      assert a + b == a;
    }
  }

  /** No hits format to the empty string, one hit to its block. */
  lemma FormatRetrievedDocsSmall(d: Scored, showScore: real -> string)
    ensures FormatRetrievedDocs([], showScore) == ""
    ensures FormatRetrievedDocs([d], showScore) == ScoredBlock(d, showScore)
  {
    assert [d][..0] == [];
  }

  /** Every block starts with the score line, so the formatted text of a
      non-empty hit list starts with it too. */
  lemma FormatRetrievedDocsStart(docs: seq<Scored>, showScore: real -> string)
    requires |docs| > 0
    ensures StartsWith(FormatRetrievedDocs(docs, showScore), "\nScore: " + showScore(docs[0].1))
  {
    FormatRetrievedDocsAppend([docs[0]], docs[1..], showScore);
    assert [docs[0]] + docs[1..] == docs;
    FormatRetrievedDocsSmall(docs[0], showScore);
    var p := "\nScore: " + showScore(docs[0].1);
    var f := FormatRetrievedDocs(docs, showScore);
    assert f[..|p|] == p;
  }

  /** `delete_all_documents()`: both collections are reset. */
  function DeleteAllDocuments(s: ChromaState): (r: ChromaState)
    ensures forall id :: ODict.Get(r.commits, id) == None
    ensures |r.generalDocs| == 0
  {
    ChromaState([], [])
  }
}
