/** online_pipeline_models/models/graph_agent_react.py: the pure logic of
    the ReAct chat agent's tools. The language models, the vector stores
    and the SQLite database are parameters; what is modelled is how a
    query is turned into a metadata filter, when the unfiltered search is
    the fallback, which generated SQL is run, how a commit document is
    rendered, and what `reset` clears. */
module GraphAgentReact {
  import opened Wrappers
  import opened Text
  import FileUtils
  import BaseChat

  // ---------------------------------------------------------------------------
  // Markers

  /** The character that wraps a file name or stem in a query. */
  const Section: char := '§'

  predicate NoSection(s: string) {
    forall i :: 0 <= i < |s| ==> s[i] != Section
  }

  /** What a marker looks like: something, stripped, without the
      wrapping character. */
  predicate CleanMarker(m: string) {
    m != "" && IsStripped(m) && NoSection(m)
  }

  /** `parts[1::2]`, stripped, the empty ones dropped: the pieces between
      an opening and a closing wrapping character. */
  function OddPieces(parts: seq<string>): (ms: seq<string>)
  {
    if |parts| < 2 then []
    else
      var piece := Strip(parts[1]);
      (if piece != "" then [piece] else []) + OddPieces(parts[2..])
  }

  /** `_extract_markers` (lines 210-213). */
  function ExtractMarkers(text: string): seq<string> {
    OddPieces(SplitOn(text, [Section]))
  }

  /** Every marker is non-empty, stripped and free of the wrapping
      character, and `k` wrapping characters give at most ceil(k / 2)
      markers: an unclosed last marker still counts. */
  lemma ExtractMarkersSpec(text: string)
    ensures var ms := ExtractMarkers(text);
      forall k :: 0 <= k < |ms| ==> CleanMarker(ms[k])
    ensures 2 * |ExtractMarkers(text)| <= CountChar(text, Section) + 1
  {
    var parts := SplitOn(text, [Section]);
    SplitOnPieces(text, [Section]);
    SplitOnCharCount(text, Section);
    forall k | 0 <= k < |parts| ensures NoSection(parts[k]) {
      NoOccurrence(parts[k], Section);
    }
    forall k | 0 <= k < |OddPieces(parts)| ensures CleanMarker(OddPieces(parts)[k]) {
      OddPieceClean(parts, k);
    }
    OddPiecesCount(parts);
  }

  lemma NoOccurrence(s: string, c: char)
    requires !Contains(s, [c])
    ensures forall i :: 0 <= i < |s| ==> s[i] != c
  {
    forall i | 0 <= i < |s| && s[i] == c ensures OccursAt(s, [c], i) {
      assert s[i..i + 1] == [c];
    }
  }

  lemma NoSectionNoOccurrence(s: string)
    requires NoSection(s)
    ensures !Contains(s, [Section])
  {
    forall i | OccursAt(s, [Section], i) ensures s[i] == Section {
      assert s[i..i + 1][0] == s[i];
    }
  }

  /** Stripping only takes characters away. */
  lemma StripNoSection(s: string)
    requires NoSection(s)
    ensures NoSection(Strip(s))
  {
    var r := Strip(s);
    var off := StripSlice(s);
    forall i | 0 <= i < |r| ensures r[i] != Section {
      assert r[i] == s[off + i];
    }
  }

  lemma {:induction false} OddPieceClean(parts: seq<string>, k: int)
    requires forall j :: 0 <= j < |parts| ==> NoSection(parts[j])
    requires 0 <= k < |OddPieces(parts)|
    ensures CleanMarker(OddPieces(parts)[k])
  {
    var piece := Strip(parts[1]);
    var head := if piece != "" then [piece] else [];
    assert OddPieces(parts) == head + OddPieces(parts[2..]);
    if k < |head| {
      StripNoSection(parts[1]);
    } else {
      assert forall j :: 0 <= j < |parts| - 2 ==> parts[2..][j] == parts[j + 2];
      OddPieceClean(parts[2..], k - |head|);
    }
  }

  lemma {:induction false} OddPiecesCount(parts: seq<string>)
    ensures 2 * |OddPieces(parts)| <= |parts|
  {
    if |parts| >= 2 {
      OddPiecesCount(parts[2..]);
    }
  }

  /** A marker left open at the end of the query is still a marker. */
  lemma UnclosedMarker()
    ensures ExtractMarkers("§a") == ["a"]
  {
    assert SplitOn("", "§") == [""];
    assert "a"[..1][0] == 'a';
    assert "a"[1..] == "";
    assert ['a'] + "" == "a";
    assert SplitOn("a", "§") == ["a"];
    assert "§a"[..1] == "§" && "§a"[1..] == "a";
    assert SplitOn("§a", "§") == ["", "a"];
    assert Strip("a") == "a";
    assert [Section] == "§";
    assert ["", "a"][2..] == [];
    assert OddPieces(["", "a"]) == ["a"];
  }

  // ---------------------------------------------------------------------------
  // The metadata filter

  /** At most this many markers are turned into conditions (line 219). */
  const MarkerCap: nat := 10

  /** `os.path.basename`: the part after the last `/`. */
  function BaseName(p: string): (r: string)
    ensures forall k :: 0 <= k < |r| ==> r[k] != '/'
  {
    p[FileUtils.AfterLastSlash(p)..]
  }

  /** `s.rfind(c)`: the last index of `c`, or -1. */
  function RFind(s: string, c: char): (i: int)
    ensures -1 <= i < |s|
    ensures i >= 0 ==> s[i] == c
    ensures forall k :: i < k < |s| ==> s[k] != c
  {
    if |s| == 0 then -1
    else if s[|s| - 1] == c then |s| - 1
    else RFind(s[..|s| - 1], c)
  }

  /** `pathlib.Path(name).stem`: the name without its last suffix, where a
      dot at the start or the end does not begin a suffix. */
  function Stem(name: string): string {
    var i := RFind(name, '.');
    if 0 < i < |name| - 1 then name[..i] else name
  }

  /** The stem of `x.c` is `x`; a name that is only `.c` is its own stem. */
  lemma StemOfSuffixed(stem: string, ext: char)
    requires ext != '.'
    ensures |stem| > 0 ==> Stem(stem + ['.', ext]) == stem
    ensures |stem| == 0 ==> Stem(stem + ['.', ext]) == ['.', ext]
  {
    var name := stem + ['.', ext];
    assert name[|name| - 2] == '.' && name[|name| - 1] == ext;
    assert name[..|stem|] == stem;
  }

  /** One condition of the filter. */
  datatype Condition = FileNameIs(fileName: string) | StemIs(stem: string)

  /** The filter passed to the similarity search. */
  datatype Filter = Single(condition: Condition) | AnyOf(conditions: seq<Condition>)

  /** Lines 220-232 for one marker: a token with a dot is a file name, and
      a C source or header brings its counterpart along; a token without
      a dot is a stem. */
  function TokenConditions(tok: string): (cs: seq<Condition>)
    ensures 1 <= |cs| <= 2
    ensures |cs| == 2 <==> EndsWith(tok, ".c") || EndsWith(tok, ".h")
    ensures cs[0] == (if Contains(tok, ".") then FileNameIs(tok) else StemIs(tok))
  {
    if Contains(tok, ".") then
      if EndsWith(tok, ".c") then [FileNameIs(tok), FileNameIs(Stem(tok) + ".h")]
      else if EndsWith(tok, ".h") then [FileNameIs(tok), FileNameIs(Stem(tok) + ".c")]
      else [FileNameIs(tok)]
    else
      ExtensionHasDot(tok, 'c');
      ExtensionHasDot(tok, 'h');
      [StemIs(tok)]
  }

  /** A name ending in `.c` or `.h` contains a dot. */
  lemma ExtensionHasDot(tok: string, ext: char)
    ensures EndsWith(tok, ['.', ext]) ==> Contains(tok, ".")
  {
    if EndsWith(tok, ['.', ext]) {
      assert OccursAt(tok, ".", |tok| - 2);
    }
  }

  /** `x.c` also looks for `x.h`, and `x.h` for `x.c`. */
  lemma Counterpart(stem: string)
    requires |stem| > 0
    ensures TokenConditions(stem + ".c") == [FileNameIs(stem + ".c"), FileNameIs(stem + ".h")]
    ensures TokenConditions(stem + ".h") == [FileNameIs(stem + ".h"), FileNameIs(stem + ".c")]
  {
    StemOfSuffixed(stem, 'c');
    StemOfSuffixed(stem, 'h');
    assert stem + ".c" == stem + ['.', 'c'] && stem + ".h" == stem + ['.', 'h'];
    assert OccursAt(stem + ".c", ".", |stem|) && OccursAt(stem + ".h", ".", |stem|);
  }

  /** The conditions for markers, in marker order. */
  function MarkerConditions(markers: seq<string>): (cs: seq<Condition>)
    ensures |markers| <= |cs| <= 2 * |markers|
  {
    if |markers| == 0 then []
    else
      var n := |markers| - 1;
      MarkerConditions(markers[..n]) + TokenConditions(BaseName(Strip(markers[n])))
  }

  /** Lines 218-232: the conditions of the first ten markers. */
  function Conditions(markers: seq<string>): (cs: seq<Condition>)
    ensures var n := if |markers| < MarkerCap then |markers| else MarkerCap;
      n <= |cs| <= 2 * n
  {
    MarkerConditions(if |markers| < MarkerCap then markers else markers[..MarkerCap])
  }

  /** Markers past the tenth change nothing. */
  lemma ConditionsCapped(markers: seq<string>, more: seq<string>)
    requires |markers| >= MarkerCap
    ensures Conditions(markers + more) == Conditions(markers)
  {
    assert (markers + more)[..MarkerCap] == markers[..MarkerCap];
  }

  /** Line 234: `{"$or": conds}` for several conditions, the condition
      itself for one. */
  function MetaFilter(cs: seq<Condition>): (f: Filter)
    requires |cs| > 0
    ensures f.AnyOf? <==> |cs| > 1
  {
    if |cs| > 1 then AnyOf(cs) else Single(cs[0])
  }

  /** The metadata of a code chunk the filter is tested against. */
  datatype ChunkMeta = ChunkMeta(fileName: string, stem: string)

  predicate Satisfies(m: ChunkMeta, c: Condition) {
    match c
    case FileNameIs(n) => m.fileName == n
    case StemIs(s) => m.stem == s
  }

  /** Chroma's reading of a filter. */
  predicate Admits(f: Filter, m: ChunkMeta) {
    match f
    case Single(c) => Satisfies(m, c)
    case AnyOf(cs) => exists k :: 0 <= k < |cs| && Satisfies(m, cs[k])
  }

  /** Whichever shape the filter takes, a chunk passes exactly when it
      meets one of the conditions. */
  lemma MetaFilterAdmits(cs: seq<Condition>, m: ChunkMeta)
    requires |cs| > 0
    ensures Admits(MetaFilter(cs), m) <==> exists k :: 0 <= k < |cs| && Satisfies(m, cs[k])
  {
  }

  // ---------------------------------------------------------------------------
  // semantic_code

  /** Where the answer of `semantic_code` came from. */
  datatype CodeAnswer<D> = Filtered(filter: Filter, docs: seq<D>) | Fallback(docs: seq<D>) | NothingFound

  /** Lines 215-246. `search` is the filtered similarity search (k = 12),
      `fallback` the unfiltered one (k = 8, relevance at least 0.35). */
  function SemanticCode<D>(query: string, search: (string, Filter) -> seq<D>, fallback: string -> seq<D>): (r: CodeAnswer<D>)
    ensures r.Filtered? ==> |ExtractMarkers(query)| > 0 && |r.docs| > 0 && r.docs == search(query, r.filter)
    ensures r.Filtered? ==> r.filter == MetaFilter(Conditions(ExtractMarkers(query)))
    ensures !r.Filtered? <==>
      (|ExtractMarkers(query)| == 0 || |search(query, MetaFilter(Conditions(ExtractMarkers(query))))| == 0)
    ensures r.Fallback? ==> r.docs == fallback(query) && |r.docs| > 0
    ensures r.NothingFound? <==> !r.Filtered? && |fallback(query)| == 0
  {
    var marks := ExtractMarkers(query);
    var filtered :=
      if |marks| > 0 then
        var f := MetaFilter(Conditions(marks));
        if |search(query, f)| > 0 then Some(Filtered(f, search(query, f))) else None
      else None;
    if filtered.Some? then filtered.value
    else if |fallback(query)| > 0 then Fallback(fallback(query))
    else NothingFound
  }

  /** A query without markers never reaches the filtered search. */
  lemma NoMarkersFallsBack<D>(query: string, search: (string, Filter) -> seq<D>, fallback: string -> seq<D>)
    requires NoSection(query)
    ensures !SemanticCode(query, search, fallback).Filtered?
  {
    NoSectionNoOccurrence(query);
    SplitOnWithout(query, [Section]);
    assert SplitOn(query, [Section]) == [query];
    assert [query][..0] == [];
    assert OddPieces([query]) == [];
    assert ExtractMarkers(query) == [];
  }

  // ---------------------------------------------------------------------------
  // nl_to_sql_commit_context

  /** What the database returns for a query. */
  datatype SqlOutcome = Rows(header: seq<string>, rows: seq<seq<string>>) | SqlError(message: string)

  /** What the tool answers. */
  datatype SqlAnswer =
    | Refused(query: string)
    | NoRows(query: string)
    | Results(query: string, header: seq<string>, rows: seq<seq<string>>)
    | ExecutionError(query: string, message: string)

  /** Lines 158-187: the generated query, stripped, is run only when it
      starts with "select" in any case; otherwise it is refused. */
  function NlToSql(question: string, generate: string -> string, execute: string -> SqlOutcome): (r: SqlAnswer)
    ensures r.query == Strip(generate(question))
    ensures r.Refused? <==> !StartsWith(Lower(r.query), "select")
    ensures r.NoRows? || r.Results? ==> execute(r.query).Rows?
    ensures r.NoRows? <==> !r.Refused? && execute(r.query).Rows? && |execute(r.query).rows| == 0
    ensures r.ExecutionError? <==> !r.Refused? && execute(r.query).SqlError?
  {
    var q := Strip(generate(question));
    if !StartsWith(Lower(q), "select") then Refused(q)
    else
      match execute(q)
      case SqlError(e) => ExecutionError(q, e)
      case Rows(header, rows) => if |rows| == 0 then NoRows(q) else Results(q, header, rows)
  }

  /** A refused query never touches the database: the answer is the same
      whatever the database would have done. */
  lemma RefusalIgnoresDatabase(question: string, generate: string -> string,
                               execute: string -> SqlOutcome, other: string -> SqlOutcome)
    requires NlToSql(question, generate, execute).Refused?
    ensures NlToSql(question, generate, other) == NlToSql(question, generate, execute)
  {
  }

  /** `repr` of a list of strings, for names that need no escaping. */
  function ListRepr(items: seq<string>): string {
    "[" + Join(seq(|items|, i requires 0 <= i < |items| => "'" + items[i] + "'"), ", ") + "]"
  }

  /** The text of an answer; every answer shows the query. */
  function RenderSql(a: SqlAnswer): (text: string)
    ensures Contains(text, a.query)
  {
    var q := a.query;
    match a
    case Refused(_) =>
      var pre := "For safety I only execute SELECT statements.\nGenerated query: ";
      assert OccursAt(pre + q, q, |pre|);
      pre + q
    case NoRows(_) =>
      var pre := "SQL:\n";
      var post := "\n\nNo rows returned.";
      assert OccursAt(pre + q + post, q, |pre|);
      pre + q + post
    case Results(_, header, rows) =>
      var pre := "SQL:\n";
      var post := "\n\nResults (header → " + ListRepr(header) + "):\n"
        + Join(seq(|rows|, i requires 0 <= i < |rows| => Join(rows[i], ", ")), "\n");
      assert OccursAt(pre + q + post, q, |pre|);
      pre + q + post
    case ExecutionError(_, e) =>
      var pre := "Error executing:\n";
      var post := "\n\n" + e;
      assert OccursAt(pre + q + post, q, |pre|);
      pre + q + post
  }

  // ---------------------------------------------------------------------------
  // _format_commit

  /** `m.get(key, '')` */
  function MetaGet(m: map<string, string>, key: string): string {
    if key in m then m[key] else ""
  }

  predicate NoNewline(s: string) {
    forall i :: 0 <= i < |s| ==> s[i] != '\n'
  }

  function Line(tag: string, value: string): string {
    tag + value + "\n"
  }

  /** Lines 71-82: six labelled metadata lines, a `---` line, then the
      document text. */
  function FormatCommit(meta: map<string, string>, content: string): (r: string)
    ensures StartsWith(r, "COMMIT: " + MetaGet(meta, "commit_hash") + "\n")
    ensures EndsWith(r, "---\n" + content)
  {
    var tail := "---\n" + content;
    var r := Line("COMMIT: ", MetaGet(meta, "commit_hash")) + (Line("INDEX:  ", MetaGet(meta, "index"))
      + (Line("AUTHOR: ", MetaGet(meta, "author")) + (Line("DATE:   ", MetaGet(meta, "date"))
      + (Line("TYPE:   ", MetaGet(meta, "type")) + (Line("MSG  : ", MetaGet(meta, "message")) + tail)))));
    assert r[|r| - |tail|..] == tail;
    r
  }

  /** The metadata keys `_format_commit` shows. */
  predicate SingleLineMeta(m: map<string, string>) {
    && NoNewline(MetaGet(m, "commit_hash")) && NoNewline(MetaGet(m, "index"))
    && NoNewline(MetaGet(m, "author")) && NoNewline(MetaGet(m, "date"))
    && NoNewline(MetaGet(m, "type")) && NoNewline(MetaGet(m, "message"))
  }

  /** Two lines under the same tag with single-line values agree on the
      values and on what follows. */
  lemma LineCancel(tag: string, x: string, s: string, y: string, t: string)
    requires NoNewline(x) && NoNewline(y)
    requires Line(tag, x) + s == Line(tag, y) + t
    ensures x == y && s == t
  {
    var a := Line(tag, x) + s;
    assert a == Line(tag, y) + t;
    assert a[|tag| + |x|] == '\n' && a[|tag| + |y|] == '\n';
    assert |x| == |y| by {
      if |x| < |y| {
      } else if |y| < |x| {
      }
    }
    assert x == a[|tag|..|tag| + |x|] == y;
    assert s == a[|tag| + |x| + 1..] == t;
  }

  /** With single-line metadata the rendered text determines the shown
      metadata and the document text. */
  lemma FormatCommitInjective(m1: map<string, string>, c1: string, m2: map<string, string>, c2: string)
    requires SingleLineMeta(m1) && SingleLineMeta(m2)
    requires FormatCommit(m1, c1) == FormatCommit(m2, c2)
    ensures MetaGet(m1, "commit_hash") == MetaGet(m2, "commit_hash")
    ensures MetaGet(m1, "message") == MetaGet(m2, "message")
    ensures c1 == c2
  {
    var t1 := "---\n" + c1;
    var t2 := "---\n" + c2;
    var r5a := Line("MSG  : ", MetaGet(m1, "message")) + t1;
    var r5b := Line("MSG  : ", MetaGet(m2, "message")) + t2;
    var r4a := Line("TYPE:   ", MetaGet(m1, "type")) + r5a;
    var r4b := Line("TYPE:   ", MetaGet(m2, "type")) + r5b;
    var r3a := Line("DATE:   ", MetaGet(m1, "date")) + r4a;
    var r3b := Line("DATE:   ", MetaGet(m2, "date")) + r4b;
    var r2a := Line("AUTHOR: ", MetaGet(m1, "author")) + r3a;
    var r2b := Line("AUTHOR: ", MetaGet(m2, "author")) + r3b;
    var r1a := Line("INDEX:  ", MetaGet(m1, "index")) + r2a;
    var r1b := Line("INDEX:  ", MetaGet(m2, "index")) + r2b;
    LineCancel("COMMIT: ", MetaGet(m1, "commit_hash"), r1a, MetaGet(m2, "commit_hash"), r1b);
    LineCancel("INDEX:  ", MetaGet(m1, "index"), r2a, MetaGet(m2, "index"), r2b);
    LineCancel("AUTHOR: ", MetaGet(m1, "author"), r3a, MetaGet(m2, "author"), r3b);
    LineCancel("DATE:   ", MetaGet(m1, "date"), r4a, MetaGet(m2, "date"), r4b);
    LineCancel("TYPE:   ", MetaGet(m1, "type"), r5a, MetaGet(m2, "type"), r5b);
    LineCancel("MSG  : ", MetaGet(m1, "message"), t1, MetaGet(m2, "message"), t2);
    assert c1 == t1[4..] == t2[4..] == c2;
  }

  // ---------------------------------------------------------------------------
  // GraphAgentReact

  /** The module-level graph (lines 254-257, 351 and 355-356) that every
      instance shares: its checkpointer remembers the messages of the one
      `main_session` thread. */
  datatype Graph = Graph(memory: seq<BaseChat.Message>)

  /** An instance: its own chat history, bound to the shared graph. */
  datatype Agent = Agent(chat: BaseChat.Pipeline)

  /** `GraphAgentReact()` (lines 359-362): a fresh chat history bound to
      the shared graph, whose memory is whatever earlier instances left. */
  function NewAgent(g: Graph): (r: (Agent, Graph))
    ensures r.0.chat.history == []
    ensures r.1.memory == g.memory
  {
    (Agent(BaseChat.New()), g)
  }

  /** `GraphAgentReact.reset` (lines 364-366): the shared graph gets a
      fresh checkpointer, while the inherited `chat_history` is left as it
      was. */
  function Reset(a: Agent, g: Graph): (r: (Agent, Graph))
    ensures r.1.memory == []
    ensures r.0 == a
  {
    (a, Graph([]))
  }

  /** A new instance does not start a new conversation for the graph: it
      sees the memory another instance built up. */
  lemma NewAgentSharesMemory(g: Graph)
    requires |g.memory| > 0
    ensures NewAgent(g).1.memory != []
    ensures NewAgent(g).0.chat == BaseChat.New()
  {
  }

  /** Resetting one instance empties the memory every instance sees, and
      leaves the other instance's chat history alone. */
  lemma ResetIsShared(a: Agent, b: Agent, g: Graph)
    ensures Reset(a, g).1.memory == []
    ensures Reset(b, Reset(a, g).1).1 == Reset(a, g).1
    ensures Reset(a, g).0.chat.history == a.chat.history
  {
  }

  /** Unlike the base `reset`, this one keeps every earlier turn in the
      chat history. */
  lemma ResetKeepsHistory(a: Agent, g: Graph)
    requires |a.chat.history| > 0
    ensures Reset(a, g).0.chat.history == a.chat.history
    ensures Reset(a, g).0.chat != BaseChat.Reset(a.chat)
  {
  }
}
