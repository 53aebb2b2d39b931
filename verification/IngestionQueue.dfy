/**
  The ingestion queue and the raw documents it feeds: one project's two tables, and the SQL
  statements and transactions that many workers run against them, one atomic step each.

  `attempts` is the ticket of a dequeue: a worker may complete a row only while the row is
  `parsing` under the very attempt it was handed.
 */
module IngestionQueue {
  import opened Options

  type QueueId = int
  type RawId = int
  type ParserVersion = int

  datatype QueueStatus = Pending | Parsing | Parsed | Indexed | Failed | Held
  datatype RawStatus = RawFetched | RawHeld | RawParsed | RawIndexed | RawFailed

  datatype QueueRow = QueueRow(rawId: RawId, status: QueueStatus, attempts: nat, lease: Option<int>)

  /** `source` is the logical source id, `rank` the position of (created_at, id) among its versions. */
  datatype RawRow = RawRow(
    status: RawStatus, parsedUri: Option<string>, parser: Option<ParserVersion>, source: nat, rank: int)

  datatype Database = Database(now: int, queue: map<QueueId, QueueRow>, raw: map<RawId, RawRow>)

  /** What a dequeue hands to its worker. */
  datatype Ticket = Ticket(queueId: QueueId, rawId: RawId, attempts: nat)

  datatype Outcome =
    | ParsedTo(uri: string, parser: ParserVersion)
    | FailedWith(failedParser: Option<ParserVersion>)
    | HeldWith(heldParser: Option<ParserVersion>)

  /**
    The statements. Set-valued arguments are the rows a statement selected and locked; `newQueue` is the id that a
    document's row gets if it has none yet.
   */
  datatype Event =
    | Tick(elapsed: nat)
    | CollectRaw(newRaw: RawId, source: nat, rank: int)
    | QueueRaw(newQueue: QueueId, queuedRaw: RawId)
    | Dequeue(rows: set<QueueId>, leaseSeconds: nat)
    | Mark(ticket: Ticket, outcome: Outcome)
    | RetryReset(rows: set<QueueId>)
    | Reprocess(rows: set<QueueId>, active: map<QueueId, ParserVersion>)
    | IndexLatest(raw: RawId)
    | GraphIndexed(raw: RawId)
    | GraphFailed(raw: RawId)

  // ----- Guards -----

  predicate Processable(row: RawRow) {
    (row.status == RawParsed || row.status == RawIndexed) && row.parsedUri.Some?
  }

  predicate Expired(db: Database, row: QueueRow) {
    row.lease.None? || row.lease.value <= db.now
  }

  predicate CanDequeue(db: Database, q: QueueId) {
    && q in db.queue && db.queue[q].rawId in db.raw
    && (var row := db.queue[q];
        row.status == Pending || row.status == Failed || (row.status == Parsing && Expired(db, row)))
    && (db.raw[db.queue[q].rawId].status == RawFetched || db.raw[db.queue[q].rawId].status == RawFailed)
  }

  /** The guard of every completing update: `parsing` under the expected attempt. */
  predicate Active(db: Database, t: Ticket) {
    t.queueId in db.queue && db.queue[t.queueId].status == Parsing && db.queue[t.queueId].attempts == t.attempts
  }

  predicate Resettable(db: Database, q: QueueId) {
    && q in db.queue && db.queue[q].rawId in db.raw
    && (var row, raw := db.queue[q], db.raw[db.queue[q].rawId];
        || (row.status == Failed && raw.status == RawFailed)
        || (row.status == Parsing && Expired(db, row) && (raw.status == RawFetched || raw.status == RawFailed)))
  }

  predicate HasNewer(db: Database, r: RawId)
    requires r in db.raw
  {
    exists n :: n in db.raw && db.raw[n].source == db.raw[r].source
      && (db.raw[n].status == RawParsed || db.raw[n].status == RawIndexed) && db.raw[n].rank > db.raw[r].rank
  }

  /** A queue-bound document parsed by another version than the active one, and its source's newest. */
  predicate Stale(db: Database, active: map<QueueId, ParserVersion>, q: QueueId) {
    && q in active && q in db.queue && db.queue[q].rawId in db.raw
    && (var raw := db.raw[db.queue[q].rawId];
        (raw.status == RawParsed || raw.status == RawIndexed) && raw.parser != Some(active[q]))
    && !HasNewer(db, db.queue[q].rawId)
  }

  predicate IsLatestProcessable(db: Database, r: RawId) {
    && r in db.raw && Processable(db.raw[r])
    && forall n :: n in db.raw && db.raw[n].source == db.raw[r].source && Processable(db.raw[n])
                   ==> db.raw[n].rank <= db.raw[r].rank
  }

  // ----- Row updates -----

  /** Collecting a document that has a row: the row starts over, but keeps its lease. */
  function Recollected(row: QueueRow): QueueRow {
    row.(status := Pending, attempts := 0)
  }

  function Dequeued(db: Database, row: QueueRow, leaseSeconds: nat): QueueRow {
    row.(status := Parsing, attempts := row.attempts + 1, lease := Some(db.now + leaseSeconds))
  }

  function Retried(raw: RawRow): RawRow {
    raw.(status := if raw.parsedUri.None? then RawFetched else RawParsed)
  }

  function Requeued(row: QueueRow): QueueRow {
    row.(status := Pending, lease := None)
  }

  function Refetched(raw: RawRow): RawRow {
    raw.(status := RawFetched, parsedUri := None, parser := None)
  }

  function Completed(row: QueueRow, outcome: Outcome): QueueRow {
    var status := match outcome
      case ParsedTo(_, _) => Parsed
      case FailedWith(_) => Failed
      case HeldWith(_) => Held;
    row.(status := status, lease := None)
  }

  function Finished(raw: RawRow, outcome: Outcome): RawRow {
    match outcome
    case ParsedTo(uri, parser) => raw.(status := RawParsed, parsedUri := Some(uri), parser := Some(parser))
    case FailedWith(parser) => raw.(status := RawFailed, parser := parser)
    case HeldWith(parser) => raw.(status := RawHeld, parser := parser)
  }

  predicate HasRow(db: Database, r: RawId) {
    exists q :: q in db.queue && db.queue[q].rawId == r
  }

  predicate Retries(db: Database, rows: set<QueueId>, r: RawId) {
    exists q :: q in rows && Resettable(db, q) && db.queue[q].rawId == r
  }

  predicate Refetches(db: Database, rows: set<QueueId>, active: map<QueueId, ParserVersion>, r: RawId) {
    exists q :: q in rows && Stale(db, active, q) && db.queue[q].rawId == r
  }

  function SetStatus(db: Database, r: RawId, raw: RawStatus, queue: QueueStatus): Database {
    db.(raw := if r in db.raw then db.raw[r := db.raw[r].(status := raw)] else db.raw,
        queue := map q | q in db.queue ::
                   if db.queue[q].rawId == r then db.queue[q].(status := queue) else db.queue[q])
  }

  function Apply(db: Database, e: Event): Database {
    match e
    case Tick(elapsed) => db.(now := db.now + elapsed)
    case CollectRaw(r, source, rank) =>
      if r in db.raw then db else db.(raw := db.raw[r := RawRow(RawFetched, None, None, source, rank)])
    case QueueRaw(q, r) =>
      if r !in db.raw then db
      else if HasRow(db, r) then
        db.(queue := map p | p in db.queue ::
                       if db.queue[p].rawId == r then Recollected(db.queue[p]) else db.queue[p])
      else if q in db.queue then db
      else db.(queue := db.queue[q := QueueRow(r, Pending, 0, None)])
    case Dequeue(rows, leaseSeconds) =>
      db.(queue := map q | q in db.queue ::
                     if q in rows && CanDequeue(db, q) then Dequeued(db, db.queue[q], leaseSeconds) else db.queue[q])
    case Mark(t, outcome) =>
      if !Active(db, t) then db
      else db.(queue := db.queue[t.queueId := Completed(db.queue[t.queueId], outcome)],
               raw := if t.rawId in db.raw then db.raw[t.rawId := Finished(db.raw[t.rawId], outcome)] else db.raw)
    case RetryReset(rows) =>
      db.(queue := map q | q in db.queue ::
                     if q in rows && Resettable(db, q) then Requeued(db.queue[q]) else db.queue[q],
          raw := map r | r in db.raw ::
                   if Retries(db, rows, r) then Retried(db.raw[r]) else db.raw[r])
    case Reprocess(rows, active) =>
      db.(queue := map q | q in db.queue ::
                     if q in rows && Stale(db, active, q) then Requeued(db.queue[q]) else db.queue[q],
          raw := map r | r in db.raw ::
                   if Refetches(db, rows, active, r) then Refetched(db.raw[r]) else db.raw[r])
    case IndexLatest(r) => if IsLatestProcessable(db, r) then SetStatus(db, r, RawIndexed, Indexed) else db
    case GraphIndexed(r) => SetStatus(db, r, RawIndexed, Indexed)
    case GraphFailed(r) => SetStatus(db, r, RawFailed, Failed)
  }

  /** A document that is known keeps its row whatever is collected; a new one starts without a parsed URI. */
  lemma CollectsOnce(db: Database, r: RawId, source: nat, rank: int)
    ensures var after := Apply(db, CollectRaw(r, source, rank));
            && after.now == db.now && after.queue == db.queue
            && (r in db.raw ==> after.raw == db.raw)
            && (r !in db.raw ==> after.raw == db.raw[r := RawRow(RawFetched, None, None, source, rank)])
  {
  }

  /** The document and its queue row carry these statuses, and nothing else changes. */
  ghost predicate SetsBoth(db: Database, r: RawId, raw: RawStatus, queue: QueueStatus, after: Database) {
    && after.now == db.now && after.queue.Keys == db.queue.Keys && after.raw.Keys == db.raw.Keys
    && (forall q :: q in db.queue ==>
          after.queue[q] == if db.queue[q].rawId != r then db.queue[q]
                            else QueueRow(r, queue, db.queue[q].attempts, db.queue[q].lease))
    && (forall d :: d in db.raw ==>
          after.raw[d] == if d != r then db.raw[d]
                          else RawRow(raw, db.raw[r].parsedUri, db.raw[r].parser, db.raw[r].source, db.raw[r].rank))
  }

  /**
    Activating the chunks of a document marks it indexed exactly while it has a parsed URI and no other version of its
    source with one is newer.
   */
  lemma IndexesTheNewest(db: Database, r: RawId)
    ensures var after := Apply(db, IndexLatest(r));
            var newest := && r in db.raw && db.raw[r].parsedUri.Some?
                          && (db.raw[r].status == RawParsed || db.raw[r].status == RawIndexed)
                          && !exists n :: n in db.raw && db.raw[n].source == db.raw[r].source
                                          && db.raw[n].parsedUri.Some? && db.raw[r].rank < db.raw[n].rank
                                          && (db.raw[n].status == RawParsed || db.raw[n].status == RawIndexed);
            if newest then SetsBoth(db, r, RawIndexed, Indexed, after) else after == db
  {
    if r in db.raw {
      if n :| n in db.raw && db.raw[n].source == db.raw[r].source && db.raw[n].parsedUri.Some?
              && db.raw[r].rank < db.raw[n].rank
              && (db.raw[n].status == RawParsed || db.raw[n].status == RawIndexed) {
        assert Processable(db.raw[n]);
      }
    }
  }

  /** A row that its worker abandons can be dequeued again exactly once its lease has run out. */
  lemma AbandonedRowsAreTakenOver(db: Database, rows: set<QueueId>, leaseSeconds: nat, q: QueueId, elapsed: nat)
    requires q in rows && CanDequeue(db, q)
    ensures var later := Apply(Apply(db, Dequeue(rows, leaseSeconds)), Tick(elapsed));
            CanDequeue(later, q) <==> elapsed >= leaseSeconds
  {
    var leased := Apply(db, Dequeue(rows, leaseSeconds));
    assert leased.queue[q] == Dequeued(db, db.queue[q], leaseSeconds);
  }

  // ----- Invariant -----

  ghost predicate QueueInv(db: Database) {
    && (forall q :: q in db.queue ==> db.queue[q].rawId in db.raw)
    && (forall p, q :: p in db.queue && q in db.queue && db.queue[p].rawId == db.queue[q].rawId ==> p == q)
    && (forall q :: q in db.queue && db.queue[q].status == Parsing ==>
          db.raw[db.queue[q].rawId].status == RawFetched || db.raw[db.queue[q].rawId].status == RawFailed)
  }

  ghost predicate RawInv(raw: RawRow) {
    && (raw.status == RawFetched ==> raw.parsedUri.None?)
    && (raw.status == RawParsed || raw.status == RawIndexed ==> raw.parsedUri.Some?)
  }

  ghost predicate Inv(db: Database) {
    QueueInv(db) && forall r :: r in db.raw ==> RawInv(db.raw[r])
  }

  /**
    What the statements leave to their callers: a worker completes with the document its ticket
    named, and a graph worker's document still has its parsed JSON when it is marked indexed.
   */
  predicate Admissible(db: Database, e: Event) {
    && (e.Mark? && e.ticket.queueId in db.queue ==> db.queue[e.ticket.queueId].rawId == e.ticket.rawId)
    && (e.GraphIndexed? && e.raw in db.raw ==> db.raw[e.raw].parsedUri.Some?)
  }

  lemma ResetKeepsInv(db: Database, rows: set<QueueId>)
    requires Inv(db)
    ensures Inv(Apply(db, RetryReset(rows)))
  {
    assert forall r :: r in db.raw ==> RawInv(Apply(db, RetryReset(rows)).raw[r]);
  }

  lemma ReprocessKeepsInv(db: Database, rows: set<QueueId>, active: map<QueueId, ParserVersion>)
    requires Inv(db)
    ensures Inv(Apply(db, Reprocess(rows, active)))
  {
    assert forall r :: r in db.raw ==> RawInv(Apply(db, Reprocess(rows, active)).raw[r]);
  }

  lemma MarkKeepsInv(db: Database, t: Ticket, outcome: Outcome)
    requires Inv(db) && Admissible(db, Mark(t, outcome))
    ensures Inv(Apply(db, Mark(t, outcome)))
  {
  }

  lemma SetStatusKeepsInv(db: Database, r: RawId, raw: RawStatus, queue: QueueStatus)
    requires Inv(db) && queue != Parsing
    requires raw == RawFailed || (raw == RawIndexed && (r in db.raw ==> db.raw[r].parsedUri.Some?))
    ensures Inv(SetStatus(db, r, raw, queue))
  {
  }

  lemma DequeueKeepsInv(db: Database, rows: set<QueueId>, leaseSeconds: nat)
    requires Inv(db)
    ensures Inv(Apply(db, Dequeue(rows, leaseSeconds)))
  {
  }

  /**
    Every admissible step keeps: parsing rows sit on fetched or failed documents, and the
    presence of a parsed URI follows the document's status.
   */
  lemma {:induction false} StepKeepsInv(db: Database, e: Event)
    requires Inv(db) && Admissible(db, e)
    ensures Inv(Apply(db, e))
  {
    match e
    case Tick(_) =>
    case CollectRaw(_, _, _) =>
    case QueueRaw(_, _) =>
    case Dequeue(rows, leaseSeconds) => DequeueKeepsInv(db, rows, leaseSeconds);
    case Mark(t, outcome) => MarkKeepsInv(db, t, outcome);
    case RetryReset(rows) => ResetKeepsInv(db, rows);
    case Reprocess(rows, active) => ReprocessKeepsInv(db, rows, active);
    case IndexLatest(r) => if IsLatestProcessable(db, r) { SetStatusKeepsInv(db, r, RawIndexed, Indexed); }
    case GraphIndexed(r) => SetStatusKeepsInv(db, r, RawIndexed, Indexed);
    case GraphFailed(r) => SetStatusKeepsInv(db, r, RawFailed, Failed);
  }

  // ----- Runs -----

  /** The database after the first `i` statements of a run. */
  function At(start: Database, run: seq<Event>, i: nat): Database
    requires i <= |run|
  {
    if i == 0 then start else Apply(At(start, run, i - 1), run[i - 1])
  }

  ghost predicate AdmissibleAt(start: Database, run: seq<Event>, i: nat)
    requires i < |run|
  {
    Admissible(At(start, run, i), run[i])
  }

  ghost predicate AdmissibleRun(start: Database, run: seq<Event>) {
    forall i: nat :: i < |run| ==> AdmissibleAt(start, run, i)
  }

  /**
    In every reachable state a `parsing` row has a fetched or failed document, `fetched` has
    no parsed URI, and `parsed` or `indexed` has one.
   */
  lemma {:induction false} ReachableStatesAreConsistent(start: Database, run: seq<Event>, n: nat)
    requires Inv(start) && AdmissibleRun(start, run) && n <= |run|
    ensures Inv(At(start, run, n))
  {
    if n > 0 {
      ReachableStatesAreConsistent(start, run, n - 1);
      assert AdmissibleAt(start, run, n - 1);
      StepKeepsInv(At(start, run, n - 1), run[n - 1]);
    }
  }

  /**
    The one caller obligation on graph workers is exact: marking a document indexed keeps the
    tables consistent precisely when its parsed URI is still there. A reprocess reset between
    a graph worker's read and its mark removes it.
   */
  lemma GraphMarkIsSafeWhenParsed(db: Database, r: RawId)
    requires Inv(db) && r in db.raw
    ensures Inv(Apply(db, GraphIndexed(r))) <==> db.raw[r].parsedUri.Some?
  {
    if db.raw[r].parsedUri.Some? {
      SetStatusKeepsInv(db, r, RawIndexed, Indexed);
    } else {
      assert !RawInv(Apply(db, GraphIndexed(r)).raw[r]);
    }
  }

  /** A graph worker that marks after a reprocess reset of its document leaves it indexed without a parsed URI. */
  lemma MarkAfterResetBreaksTables(db: Database, rows: set<QueueId>, active: map<QueueId, ParserVersion>, q: QueueId)
    requires Inv(db) && q in rows && Stale(db, active, q)
    ensures var r := db.queue[q].rawId;
            var after := Apply(Apply(db, Reprocess(rows, active)), GraphIndexed(r));
            && r in after.raw && after.raw[r].status == RawIndexed && after.raw[r].parsedUri == None && !Inv(after)
  {
    var r, reset := db.queue[q].rawId, Apply(db, Reprocess(rows, active));
    assert Refetches(db, rows, active, r);
    assert reset.raw[r] == Refetched(db.raw[r]);
    var after := Apply(reset, GraphIndexed(r));
    assert !RawInv(after.raw[r]);
  }

  const EMPTY := Database(0, map[], map[])

  /** One row and its document. */
  function Single(q: QueueId, row: QueueRow, r: RawId, raw: RawRow): Database {
    Database(0, map[q := row], map[r := raw])
  }

  lemma Leased(r: RawId, q: QueueId)
    ensures Apply(Single(q, QueueRow(r, Pending, 0, None), r, RawRow(RawFetched, None, None, 0, 0)), Dequeue({q}, 60))
         == Single(q, QueueRow(r, Parsing, 1, Some(60)), r, RawRow(RawFetched, None, None, 0, 0))
  {
    var db := Single(q, QueueRow(r, Pending, 0, None), r, RawRow(RawFetched, None, None, 0, 0));
    assert CanDequeue(db, q);
    assert Apply(db, Dequeue({q}, 60)).queue == map[q := Dequeued(db, db.queue[q], 60)];
  }

  lemma ParsedAs(r: RawId, q: QueueId, uri: string, parser: ParserVersion)
    ensures Apply(Single(q, QueueRow(r, Parsing, 1, Some(60)), r, RawRow(RawFetched, None, None, 0, 0)),
                  Mark(Ticket(q, r, 1), ParsedTo(uri, parser)))
         == Single(q, QueueRow(r, Parsed, 1, None), r, RawRow(RawParsed, Some(uri), Some(parser), 0, 0))
  {
  }

  /**
    From empty tables: collect, queue, dequeue, parse, reset for another parser, and only then the graph worker's
    mark.
   */
  lemma LateGraphMark(r: RawId, q: QueueId, uri: string, parser: ParserVersion, newer: ParserVersion)
    returns (run: seq<Event>)
    requires parser != newer
    ensures var end := At(EMPTY, run, |run|);
            r in end.raw && end.raw[r].status == RawIndexed && end.raw[r].parsedUri == None && !Inv(end)
    ensures run == [CollectRaw(r, 0, 0)] + [QueueRaw(q, r)] + [Dequeue({q}, 60)]
                   + [Mark(Ticket(q, r, 1), ParsedTo(uri, parser))] + [Reprocess({q}, map[q := newer])]
                   + [GraphIndexed(r)]
  {
    var collected := [CollectRaw(r, 0, 0)];
    var queued := collected + [QueueRaw(q, r)];
    var leased := queued + [Dequeue({q}, 60)];
    var parsed := leased + [Mark(Ticket(q, r, 1), ParsedTo(uri, parser))];
    assert At(EMPTY, collected, 1) == Apply(At(EMPTY, collected, 0), CollectRaw(r, 0, 0));
    AtOneMore(EMPTY, collected, QueueRaw(q, r));
    AtOneMore(EMPTY, queued, Dequeue({q}, 60));
    Leased(r, q);
    AtOneMore(EMPTY, leased, Mark(Ticket(q, r, 1), ParsedTo(uri, parser)));
    ParsedAs(r, q, uri, parser);
    ParsedIsStale(r, q, uri, parser, newer);
    LateMark(EMPTY, parsed, {q}, map[q := newer], q, r);
    run := parsed + [Reprocess({q}, map[q := newer])] + [GraphIndexed(r)];
  }

  lemma ParsedIsStale(r: RawId, q: QueueId, uri: string, parser: ParserVersion, newer: ParserVersion)
    requires parser != newer
    ensures var db := Single(q, QueueRow(r, Parsed, 1, None), r, RawRow(RawParsed, Some(uri), Some(parser), 0, 0));
            Inv(db) && Stale(db, map[q := newer], q) && db.queue[q].rawId == r
  {
  }

  /** Any run that leaves a document stale goes on, with a reset and a late mark, to an inconsistent state. */
  lemma LateMark(
    start: Database, run: seq<Event>, rows: set<QueueId>, active: map<QueueId, ParserVersion>, q: QueueId, r: RawId)
    requires var db := At(start, run, |run|); Inv(db) && q in rows && Stale(db, active, q) && db.queue[q].rawId == r
    ensures var end := At(start, run + [Reprocess(rows, active)] + [GraphIndexed(r)], |run| + 2);
            r in end.raw && end.raw[r].status == RawIndexed && end.raw[r].parsedUri == None && !Inv(end)
  {
    AtOneMore(start, run, Reprocess(rows, active));
    AtOneMore(start, run + [Reprocess(rows, active)], GraphIndexed(r));
    MarkAfterResetBreaksTables(At(start, run, |run|), rows, active, q);
  }

  // ----- Tickets -----

  /** The statement hands out attempt `a` of row `q`. */
  ghost predicate Issues(db: Database, e: Event, q: QueueId, a: nat) {
    e.Dequeue? && q in e.rows && CanDequeue(db, q) && a == db.queue[q].attempts + 1
  }

  ghost predicate Completes(db: Database, e: Event, q: QueueId, a: nat) {
    e.Mark? && e.ticket.queueId == q && e.ticket.attempts == a && Active(db, e.ticket)
  }

  ghost predicate IssuesAny(db: Database, e: Event, q: QueueId) {
    e.Dequeue? && q in e.rows && CanDequeue(db, q)
  }

  /** The statement collects the document of row `q` again. */
  ghost predicate Recollects(db: Database, e: Event, q: QueueId) {
    e.QueueRaw? && e.queuedRaw in db.raw && q in db.queue && db.queue[q].rawId == e.queuedRaw
  }

  lemma RowStep(db: Database, e: Event, q: QueueId)
    requires q in db.queue
    ensures var next := Apply(db, e);
            && q in next.queue && next.queue[q].rawId == db.queue[q].rawId
            && next.queue[q].attempts == (if Recollects(db, e, q) then 0
                                          else db.queue[q].attempts + if IssuesAny(db, e, q) then 1 else 0)
            && (next.queue[q].status == Parsing ==> IssuesAny(db, e, q) || db.queue[q].status == Parsing)
            && (next.queue[q].status == Parsing ==> !Recollects(db, e, q))
  {
  }

  lemma NewRowStep(db: Database, e: Event, q: QueueId)
    requires q !in db.queue && q in Apply(db, e).queue
    ensures Apply(db, e).queue[q].status == Pending && Apply(db, e).queue[q].attempts == 0
  {
  }

  lemma CompletionStep(db: Database, e: Event, q: QueueId, a: nat)
    requires Completes(db, e, q, a)
    ensures Spent(Apply(db, e), q, a)
  {
  }

  /** Attempt `a` of row `q` can no longer complete the row. */
  ghost predicate Spent(db: Database, q: QueueId, a: nat) {
    && q in db.queue
    && (db.queue[q].attempts > a || (db.queue[q].attempts == a && db.queue[q].status != Parsing))
  }

  ghost predicate RecollectsAt(start: Database, run: seq<Event>, k: nat, q: QueueId)
    requires k < |run|
  {
    Recollects(At(start, run, k), run[k], q)
  }

  /** No statement from `i` up to `n` collects the document of row `q` again. */
  ghost predicate Undisturbed(start: Database, run: seq<Event>, i: nat, n: nat, q: QueueId)
    requires n <= |run|
  {
    forall k: nat :: i <= k < n ==> !RecollectsAt(start, run, k, q)
  }

  /** A spent ticket stays spent until its document is collected again; completing with it fails and changes nothing. */
  lemma {:induction false} StaleTicketsAlwaysFail(
    start: Database, run: seq<Event>, i: nat, n: nat, t: Ticket, outcome: Outcome)
    requires i <= n <= |run| && Spent(At(start, run, i), t.queueId, t.attempts)
    requires Undisturbed(start, run, i, n, t.queueId)
    ensures Spent(At(start, run, n), t.queueId, t.attempts)
    ensures !Active(At(start, run, n), t)
    ensures Apply(At(start, run, n), Mark(t, outcome)) == At(start, run, n)
  {
    if i < n {
      StaleTicketsAlwaysFail(start, run, i, n - 1, t, outcome);
      RowStep(At(start, run, n - 1), run[n - 1], t.queueId);
      assert !RecollectsAt(start, run, n - 1, t.queueId);
    }
  }

  lemma {:induction false} AttemptsNeverFall(start: Database, run: seq<Event>, i: nat, n: nat, q: QueueId)
    requires i <= n <= |run| && q in At(start, run, i).queue && Undisturbed(start, run, i, n, q)
    ensures q in At(start, run, n).queue
    ensures At(start, run, n).queue[q].attempts >= At(start, run, i).queue[q].attempts
    ensures At(start, run, n).queue[q].rawId == At(start, run, i).queue[q].rawId
  {
    if i < n {
      AttemptsNeverFall(start, run, i, n - 1, q);
      RowStep(At(start, run, n - 1), run[n - 1], q);
      assert !RecollectsAt(start, run, n - 1, q);
    }
  }

  lemma {:induction false} LaterIssuesAreHigher(start: Database, run: seq<Event>, i: nat, j: nat, q: QueueId)
    requires i < j < |run| && IssuesAny(At(start, run, i), run[i], q) && Undisturbed(start, run, i, j, q)
    ensures q in At(start, run, j).queue && At(start, run, j).queue[q].attempts > At(start, run, i).queue[q].attempts
  {
    RowStep(At(start, run, i), run[i], q);
    AttemptsNeverFall(start, run, i + 1, j, q);
  }

  /** Between two collections of its document a row hands out each attempt at most once. */
  lemma {:induction false} TicketsAreIssuedOnce(start: Database, run: seq<Event>, i: nat, j: nat, q: QueueId, a: nat)
    requires i < |run| && j < |run|
    requires Undisturbed(start, run, i, j, q) && Undisturbed(start, run, j, i, q)
    requires Issues(At(start, run, i), run[i], q, a) && Issues(At(start, run, j), run[j], q, a)
    ensures i == j
  {
    if i < j {
      LaterIssuesAreHigher(start, run, i, j, q);
    } else if j < i {
      LaterIssuesAreHigher(start, run, j, i, q);
    }
  }

  lemma {:induction false} NoLaterCompletion(start: Database, run: seq<Event>, i: nat, j: nat, q: QueueId, a: nat)
    requires i < j < |run| && Completes(At(start, run, i), run[i], q, a) && Undisturbed(start, run, i, j, q)
    ensures !Completes(At(start, run, j), run[j], q, a)
  {
    CompletionStep(At(start, run, i), run[i], q, a);
    StaleTicketsAlwaysFail(start, run, i + 1, j, Ticket(q, 0, a), FailedWith(None));
  }

  /** Between two collections of its document a row is completed at most once with each ticket. */
  lemma {:induction false} TicketsCompleteOnce(start: Database, run: seq<Event>, i: nat, j: nat, q: QueueId, a: nat)
    requires i < |run| && j < |run|
    requires Undisturbed(start, run, i, j, q) && Undisturbed(start, run, j, i, q)
    requires Completes(At(start, run, i), run[i], q, a) && Completes(At(start, run, j), run[j], q, a)
    ensures i == j
  {
    if i < j {
      NoLaterCompletion(start, run, i, j, q, a);
    } else if j < i {
      NoLaterCompletion(start, run, j, i, q, a);
    }
  }

  ghost predicate IssuedAt(start: Database, run: seq<Event>, d: nat, q: QueueId, a: nat)
    requires d < |run|
  {
    Issues(At(start, run, d), run[d], q, a)
  }

  ghost predicate IssuesAnyAt(start: Database, run: seq<Event>, d: nat, q: QueueId)
    requires d < |run|
  {
    IssuesAny(At(start, run, d), run[d], q)
  }

  /** Row `q` is parsing in state `n`, under attempt `a`. */
  ghost predicate ParsingUnder(start: Database, run: seq<Event>, n: nat, q: QueueId, a: nat)
    requires n <= |run|
  {
    var db := At(start, run, n);
    q in db.queue && db.queue[q].status == Parsing && db.queue[q].attempts == a
  }

  /** A parsing row was handed out just now, or was parsing before with the same attempt. */
  lemma ParsingAt(start: Database, run: seq<Event>, n: nat, q: QueueId, a: nat)
    requires n < |run| && ParsingUnder(start, run, n + 1, q, a)
    ensures if IssuesAnyAt(start, run, n, q) then IssuedAt(start, run, n, q, a) else ParsingUnder(start, run, n, q, a)
  {
    var db := At(start, run, n);
    if q in db.queue {
      RowStep(db, run[n], q);
    } else {
      NewRowStep(db, run[n], q);
    }
  }

  /** Whatever is collected again: only with the ticket of its latest dequeue can a row be completed. */
  lemma {:induction false} OnlyTheLatestTicketCompletes(start: Database, run: seq<Event>, n: nat, q: QueueId, a: nat)
    returns (i: nat)
    requires n <= |run| && ParsingUnder(start, run, n, q, a)
    requires forall p :: p in start.queue ==> start.queue[p].status != Parsing
    ensures i < n && IssuedAt(start, run, i, q, a)
    ensures forall k :: i < k < n ==> !IssuesAnyAt(start, run, k, q)
  {
    if n == 0 {
      assert false;
    }
    ParsingAt(start, run, n - 1, q, a);
    if IssuesAnyAt(start, run, n - 1, q) {
      i := n - 1;
    } else {
      i := OnlyTheLatestTicketCompletes(start, run, n - 1, q, a);
    }
  }

  // ----- Reprocessing -----

  /** Statement `d` handed out an attempt of `q`, under which statement `w` wrote `uri`. */
  ghost predicate ParsedAt(
    start: Database, run: seq<Event>, d: nat, w: nat, a: nat, parser: ParserVersion, q: QueueId, r: RawId, uri: string)
    requires d < |run| && w < |run|
  {
    && IssuedAt(start, run, d, q, a)
    && run[w] == Mark(Ticket(q, r, a), ParsedTo(uri, parser))
    && Active(At(start, run, w), Ticket(q, r, a))
  }

  /** Under a ticket that was handed out after statement `from`, `uri` was written before statement `n`. */
  ghost predicate ParsedSince(start: Database, run: seq<Event>, from: nat, n: nat, q: QueueId, r: RawId, uri: string)
    requires n <= |run|
  {
    exists d: nat, w: nat, a: nat, parser :: from < d < w < n && ParsedAt(start, run, d, w, a, parser, q, r, uri)
  }

  /** What a reset of `q` at statement `from` leaves behind up to statement `n`: first of the row, then of the URI. */
  ghost predicate RowSinceReset(start: Database, run: seq<Event>, from: nat, n: nat, q: QueueId)
    requires from < n <= |run|
  {
    var db := At(start, run, n);
    && q in db.queue
    && (db.queue[q].status == Parsing ==>
          exists d: nat :: from < d < n && IssuedAt(start, run, d, q, db.queue[q].attempts))
  }

  ghost predicate UriSinceReset(start: Database, run: seq<Event>, from: nat, n: nat, q: QueueId, r: RawId)
    requires from < n <= |run|
  {
    var db := At(start, run, n);
    && q in db.queue && db.queue[q].rawId == r && r in db.raw
    && (db.raw[r].parsedUri.Some? ==> ParsedSince(start, run, from, n, q, r, db.raw[r].parsedUri.value))
  }

  ghost predicate SinceReset(start: Database, run: seq<Event>, from: nat, n: nat, q: QueueId, r: RawId)
    requires from < n <= |run|
  {
    RowSinceReset(start, run, from, n, q) && UriSinceReset(start, run, from, n, q, r)
  }

  lemma RowSinceResetStep(start: Database, run: seq<Event>, from: nat, n: nat, q: QueueId)
    requires from < n < |run| && RowSinceReset(start, run, from, n, q)
    ensures RowSinceReset(start, run, from, n + 1, q)
  {
    RowStep(At(start, run, n), run[n], q);
    var row := At(start, run, n + 1).queue[q];
    if row.status == Parsing {
      ParsingAt(start, run, n, q, row.attempts);
    }
  }

  /** What was parsed by statement `n` was parsed by statement `n + 1`. */
  lemma ParsedSinceLonger(start: Database, run: seq<Event>, from: nat, n: nat, q: QueueId, r: RawId, uri: string)
    requires n < |run| && ParsedSince(start, run, from, n, q, r, uri)
    ensures ParsedSince(start, run, from, n + 1, q, r, uri)
  {
    var d: nat, w: nat, a: nat, parser :| from < d < w < n && ParsedAt(start, run, d, w, a, parser, q, r, uri);
    assert ParsedAt(start, run, d, w, a, parser, q, r, uri);
  }

  /** A completion of `q` now uses a ticket that was handed out after the reset. */
  lemma {:induction false} ParsedNow(
    start: Database, run: seq<Event>, from: nat, n: nat, q: QueueId, r: RawId)
    requires from < n < |run| && RowSinceReset(start, run, from, n, q)
    requires run[n].Mark? && run[n].outcome.ParsedTo? && Active(At(start, run, n), run[n].ticket)
    requires run[n].ticket == Ticket(q, r, At(start, run, n).queue[q].attempts)
    ensures ParsedSince(start, run, from, n + 1, q, r, run[n].outcome.uri)
  {
    var a := At(start, run, n).queue[q].attempts;
    var d: nat :| from < d < n && IssuedAt(start, run, d, q, a);
    assert ParsedAt(start, run, d, n, a, run[n].outcome.parser, q, r, run[n].outcome.uri);
  }

  lemma UriSinceResetStep(start: Database, run: seq<Event>, from: nat, n: nat, q: QueueId, r: RawId)
    requires from < n < |run| && Inv(At(start, run, n)) && Admissible(At(start, run, n), run[n])
    requires RowSinceReset(start, run, from, n, q) && UriSinceReset(start, run, from, n, q, r)
    ensures UriSinceReset(start, run, from, n + 1, q, r)
  {
    var db := At(start, run, n);
    RowStep(db, run[n], q);
    var uri := Apply(db, run[n]).raw[r].parsedUri;
    if uri.Some? {
      if uri == db.raw[r].parsedUri {
        ParsedSinceLonger(start, run, from, n, q, r, uri.value);
      } else {
        ParsedNow(start, run, from, n, q, r);
      }
    }
  }

  lemma SinceResetNext(start: Database, run: seq<Event>, from: nat, n: nat, q: QueueId, r: RawId)
    requires Inv(start) && AdmissibleRun(start, run) && from < n < |run| && SinceReset(start, run, from, n, q, r)
    ensures SinceReset(start, run, from, n + 1, q, r)
  {
    ReachableStatesAreConsistent(start, run, n);
    assert AdmissibleAt(start, run, n);
    RowSinceResetStep(start, run, from, n, q);
    UriSinceResetStep(start, run, from, n, q, r);
  }

  lemma {:induction false} SinceResetHolds(
    start: Database, run: seq<Event>, from: nat, n: nat, q: QueueId, r: RawId)
    requires Inv(start) && AdmissibleRun(start, run) && from < n <= |run|
    requires SinceReset(start, run, from, from + 1, q, r)
    ensures SinceReset(start, run, from, n, q, r)
  {
    if n > from + 1 {
      SinceResetHolds(start, run, from, n - 1, q, r);
      SinceResetNext(start, run, from, n - 1, q, r);
    }
  }

  /**
    After a reprocess reset of a document, every later state in which it is `parsed` or `indexed`
    carries a parsed URI written under a ticket that was handed out after that reset, whatever
    failures, expiries, graph failures, retries and re-collections come between.
   */
  lemma {:induction false} ReprocessedDocumentsAreReparsed(
    start: Database, run: seq<Event>, from: nat, n: nat, q: QueueId)
    requires Inv(start) && AdmissibleRun(start, run) && from < n <= |run|
    requires run[from].Reprocess? && q in run[from].rows && Stale(At(start, run, from), run[from].active, q)
    ensures var r, db := At(start, run, from).queue[q].rawId, At(start, run, n);
            && r in db.raw
            && (db.raw[r].status == RawParsed || db.raw[r].status == RawIndexed ==>
                  db.raw[r].parsedUri.Some? && ParsedSince(start, run, from, n, q, r, db.raw[r].parsedUri.value))
  {
    var row := At(start, run, from).queue[q];
    SinceResetHolds(start, run, from, n, q, row.rawId);
    ReachableStatesAreConsistent(start, run, n);
  }

  // ----- Re-collection -----

  function Final(start: Database, run: seq<Event>): Database {
    At(start, run, |run|)
  }

  /** How often row `q` was handed out since its document was last collected. */
  ghost function IssuesSince(start: Database, run: seq<Event>, q: QueueId, n: nat): nat
    requires n <= |run|
  {
    if n == 0 || RecollectsAt(start, run, n - 1, q) then 0
    else IssuesSince(start, run, q, n - 1) + if IssuesAny(At(start, run, n - 1), run[n - 1], q) then 1 else 0
  }

  lemma {:induction false} AttemptsCountIssues(start: Database, run: seq<Event>, q: QueueId, n: nat)
    requires n <= |run| && q !in start.queue
    ensures var db := At(start, run, n);
            IssuesSince(start, run, q, n) == if q in db.queue then db.queue[q].attempts else 0
  {
    if n > 0 {
      AttemptsCountIssues(start, run, q, n - 1);
      var db := At(start, run, n - 1);
      if q in db.queue {
        RowStep(db, run[n - 1], q);
      } else if q in Apply(db, run[n - 1]).queue {
        NewRowStep(db, run[n - 1], q);
      }
    }
  }

  /**
    Tickets forget everything before the latest collection: over every run a ticket, however old, can complete its row
    exactly while the row is parsing and has been handed out as often since that collection as the ticket says.
   */
  lemma {:induction false} TicketsCountFromTheLatestCollection(start: Database, run: seq<Event>, n: nat, t: Ticket)
    requires n <= |run| && t.queueId !in start.queue
    ensures Active(At(start, run, n), t)
            <==> && t.queueId in At(start, run, n).queue && At(start, run, n).queue[t.queueId].status == Parsing
                 && IssuesSince(start, run, t.queueId, n) == t.attempts
  {
    AttemptsCountIssues(start, run, t.queueId, n);
  }

  lemma {:induction false} AtPrefix(start: Database, run: seq<Event>, more: seq<Event>, n: nat)
    requires n <= |run|
    ensures At(start, run + more, n) == At(start, run, n)
  {
    if n > 0 {
      AtPrefix(start, run, more, n - 1);
    }
  }

  lemma AtOneMore(start: Database, run: seq<Event>, e: Event)
    ensures At(start, run + [e], |run| + 1) == Apply(At(start, run, |run|), e)
  {
    AtPrefix(start, run, [e], |run|);
  }

  lemma {:induction false} FinalOfTwo(start: Database, run: seq<Event>, more: seq<Event>)
    ensures Final(start, run + more) == Final(Final(start, run), more)
  {
    if more == [] {
      assert run + more == run;
    } else {
      var n := |more| - 1;
      FinalOfTwo(start, run, more[..n]);
      assert run + more == run + more[..n] + [more[n]] && more == more[..n] + [more[n]];
      AtOneMore(start, run + more[..n], more[n]);
      AtOneMore(Final(start, run), more[..n], more[n]);
    }
  }

  /** A row that can be dequeued can be dequeued any number of times, each time after the lease has run out. */
  lemma {:induction false} DequeuedAgainAndAgain(start: Database, q: QueueId, a: nat) returns (run: seq<Event>)
    requires CanDequeue(start, q) && a > 0
    ensures var end := Final(start, run);
            && q in end.queue && end.raw == start.raw && end.queue[q].rawId == start.queue[q].rawId
            && end.queue[q].status == Parsing && end.queue[q].attempts == start.queue[q].attempts + a
            && end.queue[q].lease == Some(end.now + 60)
  {
    if a == 1 {
      run := [] + [Dequeue({q}, 60)];
      AtOneMore(start, [], Dequeue({q}, 60));
    } else {
      var before := DequeuedAgainAndAgain(start, q, a - 1);
      AtOneMore(start, before, Tick(60));
      var later := before + [Tick(60)];
      AtOneMore(start, later, Dequeue({q}, 60));
      run := later + [Dequeue({q}, 60)];
    }
  }

  /** The run, then another collection of the document of row `q`. */
  ghost function CollectedAgain(start: Database, run: seq<Event>, q: QueueId): seq<Event>
    requires q in Final(start, run).queue
  {
    run + [QueueRaw(q, Final(start, run).queue[q].rawId)]
  }

  /** The row can be dequeued once its document has been collected again. */
  ghost predicate Reopens(start: Database, run: seq<Event>, q: QueueId) {
    q in Final(start, run).queue && CanDequeue(Final(start, CollectedAgain(start, run, q)), q)
  }

  /** Every ticket of the row, whenever and however often it was handed out, can come to life again. */
  lemma EarlierTicketsCanReturn(start: Database, run: seq<Event>, q: QueueId, a: nat) returns (more: seq<Event>)
    requires Reopens(start, run, q) && a > 0
    ensures var r := Final(start, run).queue[q].rawId;
            Active(Final(start, CollectedAgain(start, run, q) + more), Ticket(q, r, a))
  {
    var again := CollectedAgain(start, run, q);
    var r := Final(start, run).queue[q].rawId;
    AtOneMore(start, run, QueueRaw(q, r));
    assert Recollects(Final(start, run), QueueRaw(q, r), q);
    RowStep(Final(start, run), QueueRaw(q, r), q);
    more := DequeuedAgainAndAgain(Final(start, again), q, a);
    FinalOfTwo(start, again, more);
  }

  /** Some statement of the run handed out attempt `a` of row `q`. */
  ghost predicate HandedOut(start: Database, run: seq<Event>, q: QueueId, a: nat) {
    exists d: nat :: d < |run| && IssuedAt(start, run, d, q, a)
  }

  /** No ticket that the run handed out ever completes the row after its document has been collected again. */
  ghost predicate EarlierTicketsAreDead(start: Database, run: seq<Event>, q: QueueId)
    requires q in Final(start, run).queue
  {
    forall more: seq<Event>, a: nat :: HandedOut(start, run, q, a) ==>
      !Active(Final(start, CollectedAgain(start, run, q) + more), Ticket(q, Final(start, run).queue[q].rawId, a))
  }

  /**
    When collecting again is harmless: for a row that can be dequeued after it, earlier tickets stay dead exactly when
    there are none, that is when no statement ever handed the row out.
   */
  lemma RecollectionIsSafeWhenNeverHandedOut(start: Database, run: seq<Event>, q: QueueId)
    requires Reopens(start, run, q)
    ensures EarlierTicketsAreDead(start, run, q) <==> forall a: nat :: !HandedOut(start, run, q, a)
  {
    if a: nat :| HandedOut(start, run, q, a) {
      var more := EarlierTicketsCanReturn(start, run, q, a);
      assert Active(Final(start, CollectedAgain(start, run, q) + more), Ticket(q, Final(start, run).queue[q].rawId, a));
    }
  }

  /** A document fails only in a statement of a worker that its row was handed out to, or of a graph worker. */
  lemma FailureStep(db: Database, e: Event, r: RawId)
    requires Inv(db) && Admissible(db, e) && r in Apply(db, e).raw && Apply(db, e).raw[r].status == RawFailed
    ensures r in db.raw
    ensures || db.raw[r].status == RawFailed || e == GraphFailed(r)
            || (e.Mark? && Active(db, e.ticket) && db.queue[e.ticket.queueId].rawId == r)
  {
  }

  lemma {:induction false} FailedWasHandedOut(run: seq<Event>, n: nat, r: RawId) returns (q: QueueId, d: nat)
    requires AdmissibleRun(EMPTY, run) && n <= |run| && GraphFailed(r) !in run
    requires r in At(EMPTY, run, n).raw && At(EMPTY, run, n).raw[r].status == RawFailed
    ensures d < n && IssuesAny(At(EMPTY, run, d), run[d], q)
    ensures q in At(EMPTY, run, n).queue && At(EMPTY, run, n).queue[q].rawId == r
  {
    if n == 0 {
      assert false;
    }
    var db, e := At(EMPTY, run, n - 1), run[n - 1];
    ReachableStatesAreConsistent(EMPTY, run, n - 1);
    assert AdmissibleAt(EMPTY, run, n - 1);
    FailureStep(db, e, r);
    if db.raw[r].status == RawFailed {
      q, d := FailedWasHandedOut(run, n - 1, r);
    } else {
      q := e.ticket.queueId;
      d := OnlyTheLatestTicketCompletes(EMPTY, run, n - 1, q, e.ticket.attempts);
    }
    RowStep(db, e, q);
  }

  /**
    Collectors queue a known document again only when they find it failed. Unless a graph worker failed it, that is
    never harmless: its row was handed out, and can be dequeued again.
   */
  lemma CollectingAFailedDocumentIsUnsafe(run: seq<Event>, q: QueueId)
    requires AdmissibleRun(EMPTY, run) && q in Final(EMPTY, run).queue
    requires var r, end := Final(EMPTY, run).queue[q].rawId, Final(EMPTY, run);
             r in end.raw && end.raw[r].status == RawFailed && GraphFailed(r) !in run
    ensures Reopens(EMPTY, run, q) && !EarlierTicketsAreDead(EMPTY, run, q)
  {
    var r := Final(EMPTY, run).queue[q].rawId;
    ReachableStatesAreConsistent(EMPTY, run, |run|);
    AtOneMore(EMPTY, run, QueueRaw(q, r));
    var p, d := FailedWasHandedOut(run, |run|, r);
    assert p == q;
    assert IssuedAt(EMPTY, run, d, q, At(EMPTY, run, d).queue[q].attempts + 1);
    assert HandedOut(EMPTY, run, q, At(EMPTY, run, d).queue[q].attempts + 1);
    RecollectionIsSafeWhenNeverHandedOut(EMPTY, run, q);
  }

  lemma CollectedAndQueued(r: RawId, q: QueueId)
    ensures Final(EMPTY, [CollectRaw(r, 0, 0)] + [QueueRaw(q, r)])
         == Single(q, QueueRow(r, Pending, 0, None), r, RawRow(RawFetched, None, None, 0, 0))
  {
    AtOneMore(EMPTY, [], CollectRaw(r, 0, 0));
    assert [] + [CollectRaw(r, 0, 0)] == [CollectRaw(r, 0, 0)];
    AtOneMore(EMPTY, [CollectRaw(r, 0, 0)], QueueRaw(q, r));
  }

  lemma FailedAs(r: RawId, q: QueueId)
    ensures Apply(Single(q, QueueRow(r, Parsing, 1, Some(60)), r, RawRow(RawFetched, None, None, 0, 0)),
                  Mark(Ticket(q, r, 1), FailedWith(None)))
         == Single(q, QueueRow(r, Failed, 1, None), r, RawRow(RawFailed, None, None, 0, 0))
  {
  }

  lemma RetriedAs(r: RawId, q: QueueId)
    ensures Apply(Single(q, QueueRow(r, Failed, 1, None), r, RawRow(RawFailed, None, None, 0, 0)), RetryReset({q}))
         == Single(q, QueueRow(r, Pending, 1, None), r, RawRow(RawFetched, None, None, 0, 0))
  {
    var db := Single(q, QueueRow(r, Failed, 1, None), r, RawRow(RawFailed, None, None, 0, 0));
    assert Resettable(db, q) && Retries(db, {q}, r);
    assert Apply(db, RetryReset({q})).queue == map[q := Requeued(db.queue[q])];
    assert Apply(db, RetryReset({q})).raw == map[r := Retried(db.raw[r])];
  }

  lemma RecollectedAs(r: RawId, q: QueueId, attempts: nat)
    ensures Apply(Single(q, QueueRow(r, Pending, attempts, None), r, RawRow(RawFetched, None, None, 0, 0)),
              QueueRaw(q, r))
         == Single(q, QueueRow(r, Pending, 0, None), r, RawRow(RawFetched, None, None, 0, 0))
  {
    var db := Single(q, QueueRow(r, Pending, attempts, None), r, RawRow(RawFetched, None, None, 0, 0));
    assert HasRow(db, r) by {
      assert q in db.queue && db.queue[q].rawId == r;
    }
    assert Apply(db, QueueRaw(q, r)).queue == map[q := Recollected(db.queue[q])];
  }

  /**
    The tables do not tell: two runs end in the same state, and collecting again is harmless after the one but not
    after the other, in which a worker failed, its row was reset, and its document was collected again.
   */
  lemma TablesDoNotTell(r: RawId, q: QueueId) returns (safe: seq<Event>, unsafe: seq<Event>)
    ensures Final(EMPTY, safe) == Final(EMPTY, unsafe) && Reopens(EMPTY, safe, q) && Reopens(EMPTY, unsafe, q)
    ensures EarlierTicketsAreDead(EMPTY, safe, q) && !EarlierTicketsAreDead(EMPTY, unsafe, q)
  {
    safe := [CollectRaw(r, 0, 0)] + [QueueRaw(q, r)];
    var leased := safe + [Dequeue({q}, 60)];
    var failed := leased + [Mark(Ticket(q, r, 1), FailedWith(None))];
    var reset := failed + [RetryReset({q})];
    unsafe := reset + [QueueRaw(q, r)];
    CollectedAndQueued(r, q);
    AtOneMore(EMPTY, safe, Dequeue({q}, 60));
    Leased(r, q);
    AtOneMore(EMPTY, leased, Mark(Ticket(q, r, 1), FailedWith(None)));
    FailedAs(r, q);
    AtOneMore(EMPTY, failed, RetryReset({q}));
    RetriedAs(r, q);
    AtOneMore(EMPTY, reset, QueueRaw(q, r));
    RecollectedAs(r, q, 1);
    RecollectedAs(r, q, 0);
    AtOneMore(EMPTY, safe, QueueRaw(q, r));
    AtOneMore(EMPTY, unsafe, QueueRaw(q, r));
    HandedOutOnce(r, q, safe, unsafe);
    RecollectionIsSafeWhenNeverHandedOut(EMPTY, safe, q);
    RecollectionIsSafeWhenNeverHandedOut(EMPTY, unsafe, q);
  }

  lemma HandedOutOnce(r: RawId, q: QueueId, safe: seq<Event>, unsafe: seq<Event>)
    requires safe == [CollectRaw(r, 0, 0)] + [QueueRaw(q, r)] && safe < unsafe && unsafe[2] == Dequeue({q}, 60)
    ensures (forall a: nat :: !HandedOut(EMPTY, safe, q, a)) && HandedOut(EMPTY, unsafe, q, 1)
  {
    CollectedAndQueued(r, q);
    assert unsafe == safe + unsafe[2..];
    AtPrefix(EMPTY, safe, unsafe[2..], 2);
    assert IssuedAt(EMPTY, unsafe, 2, q, 1);
  }
}
