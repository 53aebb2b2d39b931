/**
  Document versions and their chunks: replacing a document's chunks archives the old ones, and only the newest
  processable raw version of a logical source may take a document over.
 */
module ChunkVersions {
  datatype Status = Fetched | Parsed | Indexed | Failed | Held

  /** One collected version of a logical source; versions are ordered by creation time, then id. */
  datatype Raw = Raw(project: int, sourceType: int, source: int, status: Status, hasParsed: bool, created: int)

  datatype Document = Document(project: int, source: int, raw: int, title: string)

  datatype Chunk = Chunk(document: int, index: int, content: string)

  /** A chunk in the history: the version that its document had when it was archived, and the one that replaced it. */
  datatype Archived = Archived(id: nat, chunk: Chunk, raw: int, supersededBy: int, reason: string)

  datatype State = State(
    raws: map<int, Raw>, documents: map<int, Document>, chunks: map<nat, Chunk>, history: seq<Archived>, written: nat)

  /** `version` and `raw` are the two raw document ids of the request; the caller passes the same one. */
  datatype Request = Request(
    document: int, project: int, source: int, version: int, raw: int, title: string, reason: string,
    chunks: seq<(int, string)>)

  predicate Processable(r: Raw) {
    (r.status == Parsed || r.status == Indexed) && r.hasParsed
  }

  /** (created, id) in order. */
  predicate Newer(raws: map<int, Raw>, a: int, b: int)
    requires a in raws && b in raws
  {
    raws[a].created > raws[b].created || (raws[a].created == raws[b].created && a > b)
  }

  predicate SameSource(a: Raw, b: Raw) {
    a.project == b.project && a.sourceType == b.sourceType && a.source == b.source
  }

  /** The row lock found the document, and the version asked for is the newest processable one of its source. */
  predicate LatestProcessable(s: State, q: Request) {
    && q.document in s.documents && s.documents[q.document].project == q.project
    && q.version in s.raws
    && (var target := s.raws[q.version];
        && target.project == q.project && target.source == q.source && Processable(target)
        && forall n :: n in s.raws && SameSource(s.raws[n], target) && Processable(s.raws[n]) ==>
             !Newer(s.raws, n, q.version))
  }

  /**
    The document is the project's, and the version is a parsed one of its source with no parsed version of that source
    created later, or at the same time under a greater id.
   */
  ghost predicate MayTakeOver(s: State, q: Request) {
    && q.document in s.documents && s.documents[q.document].project == q.project && q.version in s.raws
    && (var target := s.raws[q.version];
        && target.project == q.project && target.source == q.source
        && (target.status == Parsed || target.status == Indexed) && target.hasParsed
        && !exists n :: n in s.raws && s.raws[n].project == target.project
                        && s.raws[n].sourceType == target.sourceType && s.raws[n].source == target.source
                        && (s.raws[n].status == Parsed || s.raws[n].status == Indexed) && s.raws[n].hasParsed
                        && (s.raws[n].created > target.created
                           || (s.raws[n].created == target.created && n > q.version)))
  }

  lemma LatestMayTakeOver(s: State, q: Request)
    ensures LatestProcessable(s, q) <==> MayTakeOver(s, q)
  {
  }

  // ----- Statements -----

  function UpdatedDocument(s: State, q: Request): map<int, Document>
    requires q.document in s.documents
  {
    s.documents[q.document := Document(q.project, q.source, q.version, q.title)]
  }

  function MarkedIndexed(raws: map<int, Raw>, raw: int): map<int, Raw> {
    if raw in raws then raws[raw := raws[raw].(status := Indexed)] else raws
  }

  /** INSERT … SELECT over the first `n` chunk ids: the document's chunks with the version that it has now. */
  function Archive(chunks: map<nat, Chunk>, document: int, raw: int, q: Request, n: nat): seq<Archived> {
    if n == 0 then []
    else
      Archive(chunks, document, raw, q, n - 1)
      + if n - 1 in chunks && chunks[n - 1].document == document
        then [Archived(n - 1, chunks[n - 1], raw, q.raw, q.reason)]
        else []
  }

  function WithoutDocument(chunks: map<nat, Chunk>, document: int): map<nat, Chunk> {
    map id | id in chunks && chunks[id].document != document :: chunks[id]
  }

  /** The first `n` new chunks, numbered from `from` on. */
  function Inserted(chunks: map<nat, Chunk>, q: Request, from: nat, n: nat): map<nat, Chunk>
    requires n <= |q.chunks|
  {
    if n == 0 then chunks
    else Inserted(chunks, q, from, n - 1)[from + n - 1 := Chunk(q.document, q.chunks[n - 1].0, q.chunks[n - 1].1)]
  }

  function Replace(s: State, q: Request): State {
    if !LatestProcessable(s, q) then s
    else
      State(MarkedIndexed(s.raws, q.raw), UpdatedDocument(s, q),
            Inserted(WithoutDocument(s.chunks, q.document), q, s.written, |q.chunks|),
            s.history + Archive(s.chunks, q.document, s.documents[q.document].raw, q, s.written),
            s.written + |q.chunks|)
  }

  function Activate(s: State, q: Request): State {
    if !LatestProcessable(s, q) then s
    else s.(raws := MarkedIndexed(s.raws, q.version), documents := UpdatedDocument(s, q))
  }

  class Store {
    var raws: map<int, Raw>
    var documents: map<int, Document>
    var chunks: map<nat, Chunk>
    var history: seq<Archived>
    var written: nat

    ghost function Snapshot(): State
      reads this
    {
      State(raws, documents, chunks, history, written)
    }

    method ActivateDocumentVersion(q: Request) returns (ok: bool)
      modifies this`raws, this`documents
      ensures Snapshot() == Activate(old(Snapshot()), q)
      ensures ok <==> MayTakeOver(old(Snapshot()), q)
      ensures !ok ==> raws == old(raws) && documents == old(documents)
      ensures ok ==>
                && raws == old(raws)[q.version := old(raws)[q.version].(status := Indexed)]
                && documents == old(documents)[q.document := Document(q.project, q.source, q.version, q.title)]
    {
      LatestMayTakeOver(Snapshot(), q);
      ok := LatestProcessable(State(raws, documents, chunks, history, written), q);
      if !ok {
        return;
      }
      documents := documents[q.document := Document(q.project, q.source, q.version, q.title)];
      raws := MarkedIndexed(raws, q.version);
    }

    method ArchiveChunks(q: Request, raw: int)
      modifies this`history
      ensures history == old(history) + Archive(chunks, q.document, raw, q, written)
    {
      for id := 0 to written
        invariant history == old(history) + Archive(chunks, q.document, raw, q, id)
      {
        if id in chunks && chunks[id].document == q.document {
          history := history + [Archived(id, chunks[id], raw, q.raw, q.reason)];
        }
      }
    }

    method InsertChunks(q: Request)
      modifies this`chunks, this`written
      ensures chunks == Inserted(old(chunks), q, old(written), |q.chunks|) && written == old(written) + |q.chunks|
    {
      for i := 0 to |q.chunks|
        invariant chunks == Inserted(old(chunks), q, old(written), i) && written == old(written) + i
      {
        chunks := chunks[written := Chunk(q.document, q.chunks[i].0, q.chunks[i].1)];
        written := written + 1;
      }
    }

    method ReplaceDocumentChunks(q: Request) returns (ok: bool)
      modifies this
      ensures Snapshot() == Replace(old(Snapshot()), q)
      ensures ok <==> MayTakeOver(old(Snapshot()), q)
      ensures !ok ==> Snapshot() == old(Snapshot())
      ensures ok ==>
                && raws == (if q.raw !in old(raws) then old(raws)
                            else old(raws)[q.raw := old(raws)[q.raw].(status := Indexed)])
                && documents == old(documents)[q.document := Document(q.project, q.source, q.version, q.title)]
                && written == old(written) + |q.chunks|
    {
      LatestMayTakeOver(Snapshot(), q);
      ok := LatestProcessable(State(raws, documents, chunks, history, written), q);
      if !ok {
        return;
      }
      ArchiveChunks(q, documents[q.document].raw);
      documents := documents[q.document := Document(q.project, q.source, q.version, q.title)];
      chunks := WithoutDocument(chunks, q.document);
      InsertChunks(q);
      raws := MarkedIndexed(raws, q.raw);
    }
  }

  // ----- Every chunk is kept -----

  ghost predicate InHistory(history: seq<Archived>, id: nat) {
    exists k :: 0 <= k < |history| && history[k].id == id
  }

  /**
    Every chunk id ever given out is in the current table or in the history, not in both, and in the history at most
    once.
   */
  ghost predicate Conserved(s: State) {
    && (forall id: nat :: id in s.chunks || InHistory(s.history, id) ==> id < s.written)
    && (forall id: nat :: id < s.written ==> (id in s.chunks <==> !InHistory(s.history, id)))
    && (forall j, k :: 0 <= j < k < |s.history| ==> s.history[j].id != s.history[k].id)
  }

  /** The row is a copy of a chunk of the document, with the document's version. */
  predicate Archives(chunks: map<nat, Chunk>, document: int, raw: int, q: Request, row: Archived) {
    row.id in chunks && row.chunk.document == document && row == Archived(row.id, chunks[row.id], raw, q.raw, q.reason)
  }

  ghost predicate ArchivedBelow(
    rows: seq<Archived>, chunks: map<nat, Chunk>, document: int, raw: int, q: Request, n: nat)
  {
    && (forall k :: 0 <= k < |rows| ==> rows[k].id < n && Archives(chunks, document, raw, q, rows[k]))
    && (forall j, k :: 0 <= j < k < |rows| ==> rows[j].id < rows[k].id)
  }

  lemma {:induction false} ArchiveRows(chunks: map<nat, Chunk>, document: int, raw: int, q: Request, n: nat)
    ensures ArchivedBelow(Archive(chunks, document, raw, q, n), chunks, document, raw, q, n)
  {
    if n > 0 {
      ArchiveRows(chunks, document, raw, q, n - 1);
      var front := Archive(chunks, document, raw, q, n - 1);
      assert ArchivedBelow(front, chunks, document, raw, q, n);
    }
  }

  lemma {:induction false} ArchiveIsComplete(
    chunks: map<nat, Chunk>, document: int, raw: int, q: Request, n: nat, id: nat)
    requires id < n && id in chunks && chunks[id].document == document
    ensures InHistory(Archive(chunks, document, raw, q, n), id)
  {
    var rows := Archive(chunks, document, raw, q, n);
    if id == n - 1 {
      assert rows[|rows| - 1].id == id;
    } else {
      ArchiveIsComplete(chunks, document, raw, q, n - 1, id);
      var front := Archive(chunks, document, raw, q, n - 1);
      var k :| 0 <= k < |front| && front[k].id == id;
      assert rows[k].id == id;
    }
  }

  lemma {:induction false} InsertedRows(chunks: map<nat, Chunk>, q: Request, from: nat, n: nat, id: nat)
    requires n <= |q.chunks|
    ensures id in Inserted(chunks, q, from, n) <==> id in chunks || from <= id < from + n
    ensures from <= id < from + n ==>
              Inserted(chunks, q, from, n)[id] == Chunk(q.document, q.chunks[id - from].0, q.chunks[id - from].1)
    ensures id in chunks && !(from <= id < from + n) ==> Inserted(chunks, q, from, n)[id] == chunks[id]
  {
    if n > 0 {
      InsertedRows(chunks, q, from, n - 1, id);
    }
  }

  lemma InLongerHistory(a: seq<Archived>, b: seq<Archived>, id: nat)
    ensures InHistory(a + b, id) <==> InHistory(a, id) || InHistory(b, id)
  {
    if InHistory(a, id) {
      var k :| 0 <= k < |a| && a[k].id == id;
      assert (a + b)[k].id == id;
    }
    if InHistory(b, id) {
      var k :| 0 <= k < |b| && b[k].id == id;
      assert (a + b)[|a| + k].id == id;
    }
  }

  lemma ArchivedIds(s: State, q: Request, raw: int, id: nat)
    requires Conserved(s)
    ensures InHistory(Archive(s.chunks, q.document, raw, q, s.written), id)
       <==> id in s.chunks && s.chunks[id].document == q.document
  {
    ArchiveRows(s.chunks, q.document, raw, q, s.written);
    if id in s.chunks && s.chunks[id].document == q.document {
      ArchiveIsComplete(s.chunks, q.document, raw, q, s.written, id);
    }
  }

  lemma ReplacePlaces(s: State, q: Request, id: nat)
    requires Conserved(s) && LatestProcessable(s, q)
    ensures var t := Replace(s, q);
            && (id in t.chunks || InHistory(t.history, id) ==> id < t.written)
            && (id < t.written ==> (id in t.chunks <==> !InHistory(t.history, id)))
  {
    var rows := Archive(s.chunks, q.document, s.documents[q.document].raw, q, s.written);
    ArchivedIds(s, q, s.documents[q.document].raw, id);
    InLongerHistory(s.history, rows, id);
    InsertedRows(WithoutDocument(s.chunks, q.document), q, s.written, |q.chunks|, id);
  }

  lemma ReplaceKeepsRowsDistinct(s: State, q: Request)
    requires Conserved(s) && LatestProcessable(s, q)
    ensures var h := Replace(s, q).history; forall j, k :: 0 <= j < k < |h| ==> h[j].id != h[k].id
  {
    var rows := Archive(s.chunks, q.document, s.documents[q.document].raw, q, s.written);
    ArchiveRows(s.chunks, q.document, s.documents[q.document].raw, q, s.written);
    var h := s.history + rows;
    forall j, k | 0 <= j < k < |h| ensures h[j].id != h[k].id {
      var n := |s.history|;
      if k < n {
        assert h[j] == s.history[j] && h[k] == s.history[k];
      } else if j < n {
        assert h[j] == s.history[j] && h[k] == rows[k - n];
        assert InHistory(s.history, s.history[j].id);
      } else {
        assert h[j] == rows[j - n] && h[k] == rows[k - n];
      }
    }
  }

  lemma ReplaceConserves(s: State, q: Request)
    requires Conserved(s)
    ensures Conserved(Replace(s, q))
  {
    if LatestProcessable(s, q) {
      var t := Replace(s, q);
      forall id: nat ensures id in t.chunks || InHistory(t.history, id) ==> id < t.written {
        ReplacePlaces(s, q, id);
      }
      forall id: nat | id < t.written ensures id in t.chunks <==> !InHistory(t.history, id) {
        ReplacePlaces(s, q, id);
      }
      ReplaceKeepsRowsDistinct(s, q);
    }
  }

  /** Each replaced chunk goes to the history with the version that its document had; other documents are untouched. */
  lemma ReplaceArchives(s: State, q: Request, id: nat)
    requires Conserved(s) && LatestProcessable(s, q) && id in s.chunks
    ensures var t := Replace(s, q);
            if s.chunks[id].document == q.document
            then Archived(id, s.chunks[id], s.documents[q.document].raw, q.raw, q.reason) in t.history
              && id !in t.chunks
            else id in t.chunks && t.chunks[id] == s.chunks[id] && !InHistory(t.history, id)
  {
    var raw := s.documents[q.document].raw;
    var rows := Archive(s.chunks, q.document, raw, q, s.written);
    ArchivedIds(s, q, raw, id);
    InLongerHistory(s.history, rows, id);
    InsertedRows(WithoutDocument(s.chunks, q.document), q, s.written, |q.chunks|, id);
    if s.chunks[id].document == q.document {
      ArchivedRow(s.chunks, q.document, raw, q, s.written, id);
    }
  }

  lemma {:induction false} ArchivedRow(chunks: map<nat, Chunk>, document: int, raw: int, q: Request, n: nat, id: nat)
    requires InHistory(Archive(chunks, document, raw, q, n), id)
    ensures id in chunks && Archived(id, chunks[id], raw, q.raw, q.reason) in Archive(chunks, document, raw, q, n)
  {
    if n > 0 {
      var front := Archive(chunks, document, raw, q, n - 1);
      var rows := Archive(chunks, document, raw, q, n);
      var k :| 0 <= k < |rows| && rows[k].id == id;
      if k < |front| {
        assert front[k].id == id;
        ArchivedRow(chunks, document, raw, q, n - 1, id);
      }
    }
  }

  /** After a replacement the document's chunks are exactly the new ones. */
  lemma ReplaceInstallsChunks(s: State, q: Request, id: nat)
    requires Conserved(s) && LatestProcessable(s, q) && id in Replace(s, q).chunks
    requires Replace(s, q).chunks[id].document == q.document
    ensures s.written <= id < s.written + |q.chunks|
    ensures Replace(s, q).chunks[id] == Chunk(q.document, q.chunks[id - s.written].0, q.chunks[id - s.written].1)
  {
    InsertedRows(WithoutDocument(s.chunks, q.document), q, s.written, |q.chunks|, id);
  }

  // ----- Runs -----

  /** What else happens to raw versions: they are collected, and they move between statuses. */
  datatype Event =
    | Replaced(q: Request)
    | Activated(q: Request)
    | Collected(id: int, raw: Raw)
    | StatusChanged(id: int, status: Status, hasParsed: bool)

  function Apply(s: State, e: Event): State {
    match e
    case Replaced(q) => Replace(s, q)
    case Activated(q) => Activate(s, q)
    case Collected(id, raw) => if id in s.raws then s else s.(raws := s.raws[id := raw])
    case StatusChanged(id, status, hasParsed) =>
      if id in s.raws then s.(raws := s.raws[id := s.raws[id].(status := status, hasParsed := hasParsed)]) else s
  }

  function Final(s: State, run: seq<Event>): State {
    if run == [] then s else Apply(Final(s, run[..|run| - 1]), run[|run| - 1])
  }

  /** In every reachable state each chunk ever written is in exactly one place. */
  lemma {:induction false} ChunksAreConserved(s: State, run: seq<Event>)
    requires Conserved(s)
    ensures Conserved(Final(s, run))
  {
    if run != [] {
      var front := Final(s, run[..|run| - 1]);
      ChunksAreConserved(s, run[..|run| - 1]);
      match run[|run| - 1] {
        case Replaced(q) => ReplaceConserves(front, q);
        case _ =>
      }
    }
  }

  /** The statement writes chunk `id`, with this document, index and content. */
  ghost predicate Writes(s: State, e: Event, id: nat, c: Chunk) {
    && e.Replaced? && LatestProcessable(s, e.q) && s.written <= id < s.written + |e.q.chunks|
    && c == Chunk(e.q.document, e.q.chunks[id - s.written].0, e.q.chunks[id - s.written].1)
  }

  /** Chunk `id` is in the current table or in the history, as `c`. */
  ghost predicate Kept(s: State, id: nat, c: Chunk) {
    || (id in s.chunks && s.chunks[id] == c)
    || exists k :: 0 <= k < |s.history| && s.history[k].id == id && s.history[k].chunk == c
  }

  lemma HistoryGrows(s: State, e: Event)
    ensures s.history <= Apply(s, e).history
  {
  }

  lemma KeptStep(s: State, e: Event, id: nat, c: Chunk)
    requires Conserved(s) && Kept(s, id, c)
    ensures Kept(Apply(s, e), id, c)
  {
    var t := Apply(s, e);
    if id in s.chunks && s.chunks[id] == c {
      if e.Replaced? && LatestProcessable(s, e.q) {
        ReplaceArchives(s, e.q, id);
        if c.document == e.q.document {
          var row := Archived(id, c, s.documents[e.q.document].raw, e.q.raw, e.q.reason);
          var k :| 0 <= k < |t.history| && t.history[k] == row;
        }
      }
    } else {
      HistoryGrows(s, e);
      var k :| 0 <= k < |s.history| && s.history[k].id == id && s.history[k].chunk == c;
      assert t.history[k] == s.history[k];
    }
  }

  lemma WrittenIsKept(s: State, e: Event, id: nat, c: Chunk)
    requires Writes(s, e, id, c)
    ensures Kept(Apply(s, e), id, c)
  {
    InsertedRows(WithoutDocument(s.chunks, e.q.document), e.q, s.written, |e.q.chunks|, id);
  }

  /** Every chunk that some statement of a run wrote is there at its end, as it was written. */
  lemma {:induction false} WrittenChunksAreKept(s: State, run: seq<Event>, w: nat, id: nat, c: Chunk)
    requires Conserved(s) && w < |run| && Writes(Final(s, run[..w]), run[w], id, c)
    ensures Kept(Final(s, run), id, c)
  {
    var n := |run| - 1;
    if w == n {
      WrittenIsKept(Final(s, run[..n]), run[n], id, c);
    } else {
      assert run[..n][..w] == run[..w];
      WrittenChunksAreKept(s, run[..n], w, id, c);
      ChunksAreConserved(s, run[..n]);
      KeptStep(Final(s, run[..n]), run[n], id, c);
    }
  }

  /** History rows never change and never go away. */
  lemma {:induction false} HistoryIsFinal(s: State, run: seq<Event>, i: nat)
    requires i <= |run|
    ensures Final(s, run[..i]).history <= Final(s, run).history
  {
    var n := |run| - 1;
    if i == |run| {
      assert run[..i] == run;
    } else {
      assert run[..n][..i] == run[..i];
      HistoryIsFinal(s, run[..n], i);
      HistoryGrows(Final(s, run[..n]), run[n]);
    }
  }

  lemma ChunkStep(s: State, e: Event, id: nat)
    requires id in Apply(s, e).chunks
    ensures Writes(s, e, id, Apply(s, e).chunks[id]) || (id in s.chunks && s.chunks[id] == Apply(s, e).chunks[id])
  {
    if e.Replaced? && LatestProcessable(s, e.q) {
      InsertedRows(WithoutDocument(s.chunks, e.q.document), e.q, s.written, |e.q.chunks|, id);
    }
  }

  /** A chunk of the current table that was not there at the start is as some statement wrote it. */
  lemma {:induction false} ChunksAreAsWritten(s: State, run: seq<Event>, id: nat) returns (w: nat)
    requires id in Final(s, run).chunks && s.chunks == map[]
    ensures w < |run| && Writes(Final(s, run[..w]), run[w], id, Final(s, run).chunks[id])
  {
    if run == [] {
      assert false;
    }
    var n := |run| - 1;
    var front := Final(s, run[..n]);
    ChunkStep(front, run[n], id);
    if Writes(front, run[n], id, Final(s, run).chunks[id]) {
      w := n;
    } else {
      w := ChunksAreAsWritten(s, run[..n], id);
      assert run[..n][..w] == run[..w];
    }
  }

  /** The statement moves the chunk of the row to the history, with the version that its document has then. */
  ghost predicate MovesToHistory(s: State, e: Event, row: Archived) {
    && e.Replaced? && LatestProcessable(s, e.q)
    && Archives(s.chunks, e.q.document, s.documents[e.q.document].raw, e.q, row)
  }

  lemma {:induction false} RowsAreMoved(s: State, run: seq<Event>, k: nat) returns (a: nat)
    requires |s.history| <= k < |Final(s, run).history|
    ensures a < |run| && MovesToHistory(Final(s, run[..a]), run[a], Final(s, run).history[k])
  {
    if run == [] {
      assert false;
    }
    var n := |run| - 1;
    var front := Final(s, run[..n]);
    HistoryGrows(front, run[n]);
    if k < |front.history| {
      a := RowsAreMoved(s, run[..n], k);
      assert run[..n][..a] == run[..a];
    } else {
      a := n;
      var q := run[n].q;
      ArchiveRows(front.chunks, q.document, front.documents[q.document].raw, q, front.written);
    }
  }

  /**
    A history row holds the chunk as an earlier statement wrote it, with the version that its document had when a later
    one replaced it.
   */
  lemma HistoryRowsAreFaithful(s: State, run: seq<Event>, k: nat) returns (w: nat, a: nat)
    requires s.chunks == map[] && |s.history| <= k < |Final(s, run).history|
    ensures var row := Final(s, run).history[k];
            && w < a < |run| && Writes(Final(s, run[..w]), run[w], row.id, row.chunk)
            && MovesToHistory(Final(s, run[..a]), run[a], row)
  {
    a := RowsAreMoved(s, run, k);
    w := ChunksAreAsWritten(s, run[..a], Final(s, run).history[k].id);
    assert run[..a][..w] == run[..w];
  }

  /** The document is on the greatest processable version of its source. */
  ghost predicate OnLatest(s: State, document: int) {
    && document in s.documents && s.documents[document].raw in s.raws
    && (var current := s.raws[s.documents[document].raw];
        && Processable(current) && current.source == s.documents[document].source
        && forall n :: n in s.raws && SameSource(s.raws[n], current) && Processable(s.raws[n]) ==>
             !Newer(s.raws, n, s.documents[document].raw))
  }

  /** A replace or an activate that returns true leaves the document on the greatest processable version. */
  lemma {:induction false} TrueMeansLatest(s: State, q: Request)
    requires LatestProcessable(s, q) && q.raw == q.version
    ensures OnLatest(Replace(s, q), q.document) && OnLatest(Activate(s, q), q.document)
  {
  }

  /** A parsed version that is collected later keeps an older one from taking the document over. */
  lemma LaterVersionsSupersede(s: State, q: Request, id: int, raw: Raw)
    requires MayTakeOver(s, q) && id !in s.raws && raw.created > s.raws[q.version].created
    requires SameSource(raw, s.raws[q.version]) && Processable(raw)
    ensures var t := Apply(s, Collected(id, raw));
            && t.raws == s.raws[id := raw] && !MayTakeOver(t, q)
            && Apply(t, Activated(q)) == t && Apply(t, Replaced(q)) == t
  {
    var t := Apply(s, Collected(id, raw));
    LatestMayTakeOver(t, q);
    assert id in t.raws && t.raws[id] == raw;
  }

  /** No processable version stops being processable. */
  ghost predicate OnlyGrows(s: State, e: Event) {
    e.StatusChanged? && e.id in s.raws && Processable(s.raws[e.id]) ==>
      Processable(s.raws[e.id].(status := e.status, hasParsed := e.hasParsed))
  }

  /** The request is for the document's own source, of one source type. */
  ghost predicate OwnSource(s: State, q: Request) {
    q.raw == q.version && q.document in s.documents && s.documents[q.document].source == q.source
    && (q.version in s.raws && s.documents[q.document].raw in s.raws ==>
          SameSource(s.raws[q.version], s.raws[s.documents[q.document].raw]))
  }

  ghost predicate Fits(s: State, e: Event) {
    OnlyGrows(s, e) && (e.Replaced? ==> OwnSource(s, e.q)) && (e.Activated? ==> OwnSource(s, e.q))
  }

  ghost predicate Settled(s: State) {
    forall d :: d in s.documents ==>
      s.documents[d].raw in s.raws && Processable(s.raws[s.documents[d].raw])
  }

  ghost predicate AllFit(s: State, run: seq<Event>) {
    run != [] ==> AllFit(s, run[..|run| - 1]) && Fits(Final(s, run[..|run| - 1]), run[|run| - 1])
  }

  /** While processable versions stay processable, no document ever goes back to an older version. */
  lemma {:induction false} VersionsNeverGoBack(s: State, run: seq<Event>, d: int)
    requires Settled(s) && AllFit(s, run) && d in s.documents
    ensures var t := Final(s, run);
            && Settled(t) && d in t.documents && s.documents[d].raw in t.raws
            && !Newer(t.raws, s.documents[d].raw, t.documents[d].raw)
  {
    if run != [] {
      var front := run[..|run| - 1];
      VersionsNeverGoBack(s, front, d);
    }
  }

  /**
    Whatever else happens to the versions, a document leaves its version for an older one only once that version has
    stopped being processable.
   */
  lemma OnlyUnprocessableVersionsAreLeft(s: State, e: Event, d: int)
    requires d in s.documents && s.documents[d].raw in s.raws
    requires (e.Replaced? ==> OwnSource(s, e.q)) && (e.Activated? ==> OwnSource(s, e.q))
    ensures var t := Apply(s, e);
            && d in t.documents && t.documents[d].raw in t.raws && s.documents[d].raw in t.raws
            && (Newer(t.raws, s.documents[d].raw, t.documents[d].raw) ==> !Processable(s.raws[s.documents[d].raw]))
  {
  }

  /** The versions of the document's source other than its own that are processable are not newer than `older`. */
  ghost predicate NextInLine(s: State, d: int, older: int)
    requires d in s.documents && s.documents[d].raw in s.raws && older in s.raws
  {
    && Processable(s.raws[older]) && SameSource(s.raws[older], s.raws[s.documents[d].raw])
    && forall n :: n in s.raws && n != s.documents[d].raw && SameSource(s.raws[n], s.raws[older]) ==>
         Processable(s.raws[n]) ==> !Newer(s.raws, n, older)
  }

  /** A reprocess reset of the document's version lets an activation take the document back to the version before. */
  lemma ResetLetsADocumentGoBack(s: State, q: Request, older: int)
    requires q.document in s.documents && s.documents[q.document].raw in s.raws && older in s.raws
    requires NextInLine(s, q.document, older) && Newer(s.raws, s.documents[q.document].raw, older)
    requires q.version == older && s.documents[q.document].project == q.project
    requires s.raws[older].project == q.project && s.raws[older].source == q.source
    ensures var current := s.documents[q.document].raw;
            var t := Apply(Apply(s, StatusChanged(current, Fetched, false)), Activated(q));
            && t.documents[q.document].raw == older && current in t.raws && older in t.raws
            && Newer(t.raws, current, older)
  {
    var current := s.documents[q.document].raw;
    var reset := Apply(s, StatusChanged(current, Fetched, false));
    assert reset.raws[older] == s.raws[older] && reset.documents == s.documents;
    forall n | n in reset.raws && SameSource(reset.raws[n], reset.raws[older]) && Processable(reset.raws[n])
      ensures !Newer(reset.raws, n, older)
    {
      assert n != current && reset.raws[n] == s.raws[n];
    }
    assert LatestProcessable(reset, q);
  }
}
