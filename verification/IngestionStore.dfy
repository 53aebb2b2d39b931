/** The repositories whose statements rewrite the two ingestion tables in place. */
module IngestionStore {
  import opened Collections
  import opened Options
  import opened IngestionQueue

  ghost function Rows(ids: seq<QueueId>): set<QueueId> {
    set q | q in ids
  }

  /** The WHERE clauses of the statements that pick queue rows. */
  datatype Guard = Dequeueable | Retryable | Outdated(active: map<QueueId, ParserVersion>)

  predicate Qualifies(db: Database, g: Guard, q: QueueId) {
    match g
    case Dequeueable => CanDequeue(db, q)
    case Retryable => Resettable(db, q)
    case Outdated(active) => Stale(db, active, q)
  }

  function Matching(db: Database, g: Guard, order: seq<QueueId>): seq<QueueId> {
    if order == [] then []
    else
      var n := |order| - 1;
      Matching(db, g, order[..n]) + if Qualifies(db, g, order[n]) then [order[n]] else []
  }

  /** What `LIMIT` keeps of the qualifying rows of `order`. */
  ghost predicate FirstMatching(db: Database, g: Guard, order: seq<QueueId>, limit: nat, picked: seq<QueueId>) {
    exists cut :: 0 <= cut <= |order| && picked == Matching(db, g, order[..cut]) && |picked| <= limit
      && (cut == |order| || |picked| == limit)
  }

  lemma {:induction false} MatchingMembers(db: Database, g: Guard, order: seq<QueueId>)
    ensures forall q :: q in Matching(db, g, order) <==> q in order && Qualifies(db, g, q)
    ensures NoRepeats(order) ==> NoRepeats(Matching(db, g, order))
  {
    if order != [] {
      var n := |order| - 1;
      MatchingMembers(db, g, order[..n]);
      assert order == order[..n] + [order[n]];
    }
  }

  lemma MatchingNext(db: Database, g: Guard, order: seq<QueueId>, i: nat)
    requires i < |order|
    ensures Matching(db, g, order[..i + 1])
         == Matching(db, g, order[..i]) + if Qualifies(db, g, order[i]) then [order[i]] else []
  {
    assert order[..i + 1][..i] == order[..i];
  }

  lemma FirstMatchingQualify(db: Database, g: Guard, order: seq<QueueId>, limit: nat, picked: seq<QueueId>)
    requires FirstMatching(db, g, order, limit, picked) && NoRepeats(order)
    ensures NoRepeats(picked) && forall q :: q in picked ==> q in order && Qualifies(db, g, q)
    ensures |picked| < limit || limit >= |order| ==> forall q :: q in order && Qualifies(db, g, q) ==> q in picked
  {
    var cut :| 0 <= cut <= |order| && picked == Matching(db, g, order[..cut]) && |picked| <= limit
      && (cut == |order| || |picked| == limit);
    MatchingMembers(db, g, order[..cut]);
    assert order[..|order|] == order;
    MatchingIsShort(db, g, order[..cut]);
  }

  /** `picked` lists the first `limit` rows of `order` that are in `wanted`, in the order of `order`. */
  ghost predicate PicksFirst(order: seq<QueueId>, wanted: set<QueueId>, limit: nat, picked: seq<QueueId>) {
    && |picked| <= limit
    && (forall q :: q in picked ==> q in order && q in wanted)
    && (|picked| < limit ==> forall q :: q in order && q in wanted ==> q in picked)
    && (forall a, b :: 0 <= a < b < |order| && order[a] in wanted && order[b] in picked ==> order[a] in picked)
    && InOrder(order, picked)
  }

  ghost predicate InOrder(order: seq<QueueId>, picked: seq<QueueId>) {
    forall i, j, a, b ::
      0 <= i < j < |picked| && 0 <= a < |order| && 0 <= b < |order| && order[a] == picked[i] && order[b] == picked[j]
      ==> a < b
  }

  lemma {:induction false} MatchingInOrder(db: Database, g: Guard, order: seq<QueueId>)
    requires NoRepeats(order)
    ensures InOrder(order, Matching(db, g, order))
  {
    if order != [] {
      var n := |order| - 1;
      var front := order[..n];
      MatchingInOrder(db, g, front);
      MatchingMembers(db, g, front);
      var all := Matching(db, g, order);
      forall i, j, a, b | 0 <= i < j < |all| && 0 <= a < |order| && 0 <= b < |order|
                            && order[a] == all[i] && order[b] == all[j] ensures a < b {
        assert all[i] == Matching(db, g, front)[i] && all[i] in front;
        assert a < n && front[a] == all[i];
        if j < |Matching(db, g, front)| {
          assert all[j] == Matching(db, g, front)[j] && all[j] in front;
          assert b < n && front[b] == all[j];
        }
      }
    }
  }

  lemma FirstMatchingIsFirst(
    db: Database, g: Guard, order: seq<QueueId>, limit: nat, picked: seq<QueueId>, wanted: set<QueueId>)
    requires FirstMatching(db, g, order, limit, picked) && NoRepeats(order)
    requires forall q :: q in order ==> (q in wanted <==> Qualifies(db, g, q))
    ensures PicksFirst(order, wanted, limit, picked)
  {
    var cut :| 0 <= cut <= |order| && picked == Matching(db, g, order[..cut]) && |picked| <= limit
      && (cut == |order| || |picked| == limit);
    var front := order[..cut];
    MatchingMembers(db, g, front);
    MatchingInOrder(db, g, front);
    forall a, b | 0 <= a < b < |order| && order[a] in wanted && order[b] in picked ensures order[a] in picked {
      PickedInFront(order, cut, b);
      assert front[a] == order[a] && order[a] in front;
    }
    forall i, j, a, b | 0 <= i < j < |picked| && 0 <= a < |order| && 0 <= b < |order|
                          && order[a] == picked[i] && order[b] == picked[j] ensures a < b {
      assert picked[i] in picked && picked[j] in picked;
      PickedInFront(order, cut, a);
      PickedInFront(order, cut, b);
      assert front[a] == picked[i] && front[b] == picked[j];
    }
    assert |picked| < limit ==> front == order;
  }

  lemma PickedInFront(order: seq<QueueId>, cut: nat, b: nat)
    requires NoRepeats(order) && cut <= |order| && b < |order| && order[b] in order[..cut]
    ensures b < cut
  {
    var k :| 0 <= k < cut && order[..cut][k] == order[b];
    assert order[k] == order[b];
  }

  lemma {:induction false} MatchingIsShort(db: Database, g: Guard, order: seq<QueueId>)
    ensures |Matching(db, g, order)| <= |order|
  {
    if order != [] {
      MatchingIsShort(db, g, order[..|order| - 1]);
    }
  }

  lemma {:induction false} CountRows(ids: seq<QueueId>)
    requires NoRepeats(ids)
    ensures |Rows(ids)| == |ids|
  {
    if ids != [] {
      var n := |ids| - 1;
      CountRows(ids[..n]);
      assert Rows(ids) == Rows(ids[..n]) + {ids[n]};
      assert ids[n] !in ids[..n];
    }
  }

  ghost function Documents(db: Database, ids: seq<QueueId>): set<RawId> {
    set q | q in ids && q in db.queue :: db.queue[q].rawId
  }

  lemma DocumentsNext(db: Database, ids: seq<QueueId>, k: nat)
    requires k < |ids| && ids[k] in db.queue
    ensures Documents(db, ids[..k + 1]) == Documents(db, ids[..k]) + {db.queue[ids[k]].rawId}
  {
    var front, next := ids[..k], ids[..k + 1];
    assert next == front + [ids[k]];
    forall r | r in Documents(db, front) + {db.queue[ids[k]].rawId} ensures r in Documents(db, next) {
      if r in Documents(db, front) {
        var q :| q in front && q in db.queue && db.queue[q].rawId == r;
        assert q in next;
      } else {
        var q := ids[k];
        assert next[k] == q && q in next && q in db.queue && db.queue[q].rawId == r;
      }
    }
    forall r | r in Documents(db, next) ensures r in Documents(db, front) + {db.queue[ids[k]].rawId} {
      var q :| q in next && q in db.queue && db.queue[q].rawId == r;
      assert q in front || q == ids[k];
    }
  }

  /** Each queue row has a document of its own, so rows and documents are equally many. */
  lemma {:induction false} CountDocuments(db: Database, ids: seq<QueueId>)
    requires QueueInv(db) && NoRepeats(ids) && forall i :: 0 <= i < |ids| ==> ids[i] in db.queue
    ensures |Documents(db, ids)| == |ids|
  {
    if ids == [] {
      assert Documents(db, ids) == {};
    } else {
      var n := |ids| - 1;
      CountDocuments(db, ids[..n]);
      DocumentsNext(db, ids, n);
      assert ids[..n + 1] == ids;
    }
  }

  // ----- What a caller sees in the two tables -----

  /** Rows that wait for a worker: pending, failed or abandoned ones whose document is fetched or failed. */
  ghost function WaitingRows(db: Database): set<QueueId> {
    set q | q in db.queue && db.queue[q].rawId in db.raw
            && (|| db.queue[q].status == Pending || db.queue[q].status == Failed
                || (db.queue[q].status == Parsing
                    && (db.queue[q].lease == None || db.queue[q].lease.value <= db.now)))
            && (db.raw[db.queue[q].rawId].status == RawFetched || db.raw[db.queue[q].rawId].status == RawFailed)
  }

  /** Failed rows with a failed document, and abandoned ones whose document is fetched or failed. */
  ghost function FailedRows(db: Database): set<QueueId> {
    set q | q in db.queue && db.queue[q].rawId in db.raw
            && (|| (db.queue[q].status == Failed && db.raw[db.queue[q].rawId].status == RawFailed)
                || (db.queue[q].status == Parsing
                    && (db.queue[q].lease == None || db.queue[q].lease.value <= db.now)
                    && (|| db.raw[db.queue[q].rawId].status == RawFetched
                        || db.raw[db.queue[q].rawId].status == RawFailed)))
  }

  /** Rows of documents parsed by a version that is not the active one, unless a newer document replaced them. */
  ghost function OutdatedRows(db: Database, active: map<QueueId, ParserVersion>): set<QueueId> {
    set q | q in db.queue && q in active && db.queue[q].rawId in db.raw
            && (db.raw[db.queue[q].rawId].status == RawParsed || db.raw[db.queue[q].rawId].status == RawIndexed)
            && (db.raw[db.queue[q].rawId].parser == None || db.raw[db.queue[q].rawId].parser.value != active[q])
            && !exists n :: n in db.raw && db.raw[n].source == db.raw[db.queue[q].rawId].source
                            && (db.raw[n].status == RawParsed || db.raw[n].status == RawIndexed)
                            && db.raw[db.queue[q].rawId].rank < db.raw[n].rank
  }

  /**
    The failed rows among `rows` wait again with their attempts; their documents are parsed where a parsed URI is
    left and fetched otherwise. Nothing else changes.
   */
  ghost predicate ResetsFailures(db: Database, rows: set<QueueId>, after: Database) {
    var reset := rows * FailedRows(db);
    && after.now == db.now && after.queue.Keys == db.queue.Keys && after.raw.Keys == db.raw.Keys
    && (forall q :: q in db.queue ==>
          after.queue[q] == if q in reset then QueueRow(db.queue[q].rawId, Pending, db.queue[q].attempts, None)
                            else db.queue[q])
    && (forall q :: q in reset ==>
          var r := db.queue[q].rawId;
          after.raw[r] == RawRow(if db.raw[r].parsedUri.Some? then RawParsed else RawFetched,
                                 db.raw[r].parsedUri, db.raw[r].parser, db.raw[r].source, db.raw[r].rank))
    && (forall r :: r in db.raw && (forall q :: q in reset ==> db.queue[q].rawId != r) ==> after.raw[r] == db.raw[r])
  }

  /** The rows wait again with their attempts, and their documents lost what was parsed. Nothing else changes. */
  ghost predicate StartsOver(db: Database, rows: set<QueueId>, after: Database) {
    && after.now == db.now && after.queue.Keys == db.queue.Keys && after.raw.Keys == db.raw.Keys
    && (forall q :: q in db.queue ==>
          after.queue[q] == if q in rows then QueueRow(db.queue[q].rawId, Pending, db.queue[q].attempts, None)
                            else db.queue[q])
    && (forall q :: q in rows && q in db.queue && db.queue[q].rawId in db.raw ==>
          var r := db.queue[q].rawId;
          after.raw[r] == RawRow(RawFetched, None, None, db.raw[r].source, db.raw[r].rank))
    && (forall r :: r in db.raw && (forall q :: q in rows && q in db.queue ==> db.queue[q].rawId != r) ==>
          after.raw[r] == db.raw[r])
  }

  lemma OutdatedRowsAreStale(db: Database, active: map<QueueId, ParserVersion>)
    ensures forall q :: q in OutdatedRows(db, active) <==> Stale(db, active, q)
  {
    forall q ensures q in OutdatedRows(db, active) <==> Stale(db, active, q) {
      if q in db.queue && q in active && db.queue[q].rawId in db.raw {
        OutdatedRowIsStale(db, active, q);
      }
    }
  }

  lemma OutdatedRowIsStale(db: Database, active: map<QueueId, ParserVersion>, q: QueueId)
    requires q in db.queue && q in active && db.queue[q].rawId in db.raw
    ensures q in OutdatedRows(db, active) <==> Stale(db, active, q)
  {
    var r := db.queue[q].rawId;
    if HasNewer(db, r) {
      var n :| n in db.raw && db.raw[n].source == db.raw[r].source
        && (db.raw[n].status == RawParsed || db.raw[n].status == RawIndexed) && db.raw[n].rank > db.raw[r].rank;
    }
  }

  /** Retried documents go back to parsed or fetched by their parsed URI, through the whole statement. */
  lemma RetryResetResetsFailures(db: Database, rows: set<QueueId>)
    ensures ResetsFailures(db, rows, Apply(db, RetryReset(rows)))
  {
    var reset, after := rows * FailedRows(db), Apply(db, RetryReset(rows));
    forall q | q in rows ensures q in reset <==> Resettable(db, q) {
    }
    forall q | q in reset ensures Retries(db, rows, db.queue[q].rawId) {
      assert Resettable(db, q);
    }
    forall r | r in db.raw && (forall q :: q in reset ==> db.queue[q].rawId != r) ensures after.raw[r] == db.raw[r] {
    }
  }

  lemma ReprocessStartsOver(db: Database, active: map<QueueId, ParserVersion>, rows: set<QueueId>)
    requires forall q :: q in rows ==> Stale(db, active, q)
    ensures StartsOver(db, rows, Apply(db, Reprocess(rows, active)))
  {
    var after := Apply(db, Reprocess(rows, active));
    forall q | q in rows ensures Refetches(db, rows, active, db.queue[q].rawId) {
      assert Stale(db, active, q);
    }
    forall r | r in db.raw && (forall q :: q in rows && q in db.queue ==> db.queue[q].rawId != r)
      ensures after.raw[r] == db.raw[r] {
    }
  }

  /** A retry reset gives a document whose graph failed back as it was parsed. */
  lemma RetryUndoesAGraphFailure(db: Database, r: RawId, q: QueueId, rows: set<QueueId>)
    requires Inv(db) && q in rows && q in db.queue && db.queue[q].rawId == r && db.raw[r].parsedUri.Some?
    ensures var after := Apply(Apply(db, GraphFailed(r)), RetryReset(rows));
            && after.raw[r] == db.raw[r].(status := RawParsed)
            && (db.raw[r].status == RawParsed ==> after.raw[r] == db.raw[r])
            && after.queue[q] == db.queue[q].(status := Pending, lease := None)
  {
    var failed := Apply(db, GraphFailed(r));
    assert q in failed.queue && failed.queue[q] == db.queue[q].(status := Failed);
    assert failed.raw[r] == db.raw[r].(status := RawFailed);
    RetryResetResetsFailures(failed, rows);
    assert q in rows * FailedRows(failed);
  }

  /** `SKIP LOCKED`: the rows that no other transaction has locked. */
  function Unlocked(order: seq<QueueId>, locked: set<QueueId>): (r: seq<QueueId>)
    ensures forall q :: q in r <==> q in order && q !in locked
  {
    if order == [] then []
    else
      var n := |order| - 1;
      assert order == order[..n] + [order[n]];
      Unlocked(order[..n], locked) + if order[n] in locked then [] else [order[n]]
  }

  lemma {:induction false} UnlockedOnce(order: seq<QueueId>, locked: set<QueueId>)
    requires NoRepeats(order)
    ensures NoRepeats(Unlocked(order, locked))
  {
    if order != [] {
      UnlockedOnce(order[..|order| - 1], locked);
      assert order[|order| - 1] !in order[..|order| - 1];
    }
  }

  lemma OneRowStartsOver(db: Database, newQueue: QueueId, r: RawId, q: QueueId)
    requires QueueInv(db) && r in db.raw && q in db.queue && db.queue[q].rawId == r
    ensures Apply(db, QueueRaw(newQueue, r)) == db.(queue := db.queue[q := Recollected(db.queue[q])])
  {
    var next := Apply(db, QueueRaw(newQueue, r)).queue;
    assert HasRow(db, r);
    forall p | p in next ensures next[p] == db.queue[q := Recollected(db.queue[q])][p] {
    }
    assert next.Keys == db.queue.Keys;
  }

  class Store {
    var now: int
    var queue: map<QueueId, QueueRow>
    var raw: map<RawId, RawRow>

    function Db(): Database
      reads this
    {
      Database(now, queue, raw)
    }

    constructor ()
      ensures Db() == Database(0, map[], map[]) && Inv(Db())
    {
      now := 0;
      queue := map[];
      raw := map[];
    }

    /**
      Queues a document: its row starts over if it has one, and gets the id `newQueue` otherwise. An unknown document is
      refused.
     */
    method QueueCandidate(newQueue: QueueId, r: RawId) returns (ok: bool)
      requires Inv(Db()) && newQueue !in queue
      modifies this`queue
      ensures Db() == Apply(old(Db()), QueueRaw(newQueue, r)) && Inv(Db())
      ensures ok <==> r in raw
      ensures ok ==> HasRow(Db(), r)
      ensures !ok ==> queue == old(queue)
      ensures forall q :: ok && q in old(queue) && old(queue)[q].rawId == r ==>
                queue == old(queue)[q := QueueRow(r, Pending, 0, old(queue)[q].lease)]
      ensures ok && (forall q :: q in old(queue) ==> old(queue)[q].rawId != r) ==>
                queue == old(queue)[newQueue := QueueRow(r, Pending, 0, None)]
    {
      ghost var db := Db();
      StepKeepsInv(db, QueueRaw(newQueue, r));
      ok := r in raw;
      if !ok {
        return;
      }
      if q :| q in queue && queue[q].rawId == r {
        OneRowStartsOver(db, newQueue, r, q);
        queue := queue[q := QueueRow(r, Pending, 0, queue[q].lease)];
        assert queue[q].rawId == r;
      } else {
        queue := queue[newQueue := QueueRow(r, Pending, 0, None)];
        assert queue[newQueue].rawId == r;
      }
    }

    method Select(order: seq<QueueId>, limit: nat, g: Guard) returns (picked: seq<QueueId>)
      ensures FirstMatching(Db(), g, order, limit, picked)
    {
      picked := [];
      var i := 0;
      while i < |order| && |picked| < limit
        invariant 0 <= i <= |order| && |picked| <= limit
        invariant picked == Matching(Db(), g, order[..i])
      {
        MatchingNext(Db(), g, order, i);
        if Qualifies(Db(), g, order[i]) {
          picked := picked + [order[i]];
        }
        i := i + 1;
      }
    }

    /** Leases the first `limit` dequeuable rows of `order`: the unlocked rows by priority. */
    method DequeueTargets(order: seq<QueueId>, limit: nat, leaseSeconds: nat)
      returns (picked: seq<QueueId>, tickets: seq<Ticket>)
      requires NoRepeats(order)
      modifies this`queue
      ensures PicksFirst(order, WaitingRows(old(Db())), limit, picked)
      ensures Db() == Apply(old(Db()), Dequeue(Rows(picked), leaseSeconds))
      ensures queue.Keys == old(queue.Keys)
      ensures forall q :: q in queue ==>
                queue[q] == if q !in picked then old(queue)[q]
                            else QueueRow(old(queue)[q].rawId, Parsing, old(queue)[q].attempts + 1,
                                          Some(now + leaseSeconds))
      ensures |tickets| == |picked|
      ensures forall j :: 0 <= j < |picked| ==>
                && picked[j] in queue && Active(Db(), tickets[j])
                && tickets[j] == Ticket(picked[j], queue[picked[j]].rawId, queue[picked[j]].attempts)
    {
      picked := Select(order, limit, Dequeueable);
      FirstMatchingQualify(Db(), Dequeueable, order, limit, picked);
      FirstMatchingIsFirst(Db(), Dequeueable, order, limit, picked, WaitingRows(Db()));
      ghost var db := Db();
      tickets := LeaseRows(picked, leaseSeconds);
      DequeuesThese(db, picked, leaseSeconds, queue);
    }

    method LeaseRows(picked: seq<QueueId>, leaseSeconds: nat) returns (tickets: seq<Ticket>)
      requires NoRepeats(picked) && forall q :: q in picked ==> CanDequeue(Db(), q)
      modifies this`queue
      ensures queue.Keys == old(queue.Keys)
      ensures forall q :: q in queue ==>
                queue[q] == if q !in picked then old(queue)[q]
                            else QueueRow(old(queue)[q].rawId, Parsing, old(queue)[q].attempts + 1,
                                          Some(now + leaseSeconds))
      ensures |tickets| == |picked|
      ensures forall j :: 0 <= j < |picked| ==>
                && picked[j] in queue
                && tickets[j] == Ticket(picked[j], queue[picked[j]].rawId, queue[picked[j]].attempts)
    {
      ghost var db := Db();
      tickets := [];
      for k := 0 to |picked|
        invariant |tickets| == k && queue.Keys == db.queue.Keys
        invariant forall q :: q in queue ==>
                    queue[q] == if q !in picked[..k] then db.queue[q]
                                else QueueRow(db.queue[q].rawId, Parsing, db.queue[q].attempts + 1,
                                              Some(now + leaseSeconds))
        invariant forall j :: 0 <= j < k ==>
                    && picked[j] in db.queue
                    && tickets[j] == Ticket(picked[j], db.queue[picked[j]].rawId, db.queue[picked[j]].attempts + 1)
      {
        var q := picked[k];
        assert CanDequeue(db, q) && q !in picked[..k];
        var row := queue[q];
        queue := queue[q := QueueRow(row.rawId, Parsing, row.attempts + 1, Some(now + leaseSeconds))];
        tickets := tickets + [Ticket(q, row.rawId, row.attempts + 1)];
        assert picked[..k + 1] == picked[..k] + [q];
      }
      assert picked[..|picked|] == picked;
    }

    /** Each completing transaction fails, and rolls back, unless the row is still leased to it. */
    method MarkParsed(t: Ticket, parsedUri: string, parser: ParserVersion) returns (ok: bool)
      requires Inv(Db()) && Admissible(Db(), Mark(t, ParsedTo(parsedUri, parser)))
      modifies this
      ensures Db() == Apply(old(Db()), Mark(t, ParsedTo(parsedUri, parser))) && Inv(Db())
      ensures ok <==> t.queueId in old(queue) && old(queue)[t.queueId].status == Parsing
                      && old(queue)[t.queueId].attempts == t.attempts
      ensures now == old(now) && (!ok ==> queue == old(queue) && raw == old(raw))
      ensures ok ==> t.rawId in old(raw)
      ensures ok ==> queue == old(queue)[t.queueId := QueueRow(t.rawId, Parsed, t.attempts, None)]
      ensures ok ==>
                var doc := old(raw)[t.rawId];
                raw == old(raw)[t.rawId := RawRow(RawParsed, Some(parsedUri), Some(parser), doc.source, doc.rank)]
    {
      MarkKeepsInv(Db(), t, ParsedTo(parsedUri, parser));
      ok := LeaveParsing(t, Parsed);
      if ok {
        var row := raw[t.rawId];
        raw := raw[t.rawId := RawRow(RawParsed, Some(parsedUri), Some(parser), row.source, row.rank)];
      }
    }

    method MarkFailed(t: Ticket, parser: Option<ParserVersion>) returns (ok: bool)
      requires Inv(Db()) && Admissible(Db(), Mark(t, FailedWith(parser)))
      modifies this
      ensures Db() == Apply(old(Db()), Mark(t, FailedWith(parser))) && Inv(Db())
      ensures ok <==> t.queueId in old(queue) && old(queue)[t.queueId].status == Parsing
                      && old(queue)[t.queueId].attempts == t.attempts
      ensures now == old(now) && (!ok ==> queue == old(queue) && raw == old(raw))
      ensures ok ==> t.rawId in old(raw)
      ensures ok ==> queue == old(queue)[t.queueId := QueueRow(t.rawId, Failed, t.attempts, None)]
      ensures ok ==>
                var doc := old(raw)[t.rawId];
                raw == old(raw)[t.rawId := RawRow(RawFailed, doc.parsedUri, parser, doc.source, doc.rank)]
    {
      MarkKeepsInv(Db(), t, FailedWith(parser));
      ok := LeaveParsing(t, Failed);
      if ok {
        var row := raw[t.rawId];
        raw := raw[t.rawId := RawRow(RawFailed, row.parsedUri, parser, row.source, row.rank)];
      }
    }

    method MarkHeld(t: Ticket, parser: Option<ParserVersion>) returns (ok: bool)
      requires Inv(Db()) && Admissible(Db(), Mark(t, HeldWith(parser)))
      modifies this
      ensures Db() == Apply(old(Db()), Mark(t, HeldWith(parser))) && Inv(Db())
      ensures ok <==> t.queueId in old(queue) && old(queue)[t.queueId].status == Parsing
                      && old(queue)[t.queueId].attempts == t.attempts
      ensures now == old(now) && (!ok ==> queue == old(queue) && raw == old(raw))
      ensures ok ==> t.rawId in old(raw)
      ensures ok ==> queue == old(queue)[t.queueId := QueueRow(t.rawId, Held, t.attempts, None)]
      ensures ok ==>
                var doc := old(raw)[t.rawId];
                raw == old(raw)[t.rawId := RawRow(RawHeld, doc.parsedUri, parser, doc.source, doc.rank)]
    {
      MarkKeepsInv(Db(), t, HeldWith(parser));
      ok := LeaveParsing(t, Held);
      if ok {
        var row := raw[t.rawId];
        raw := raw[t.rawId := RawRow(RawHeld, row.parsedUri, parser, row.source, row.rank)];
      }
    }

    /** The queue half of a completion, whose row count decides whether the lease was still held. */
    method LeaveParsing(t: Ticket, status: QueueStatus) returns (updated: bool)
      modifies this`queue
      ensures updated == Active(old(Db()), t)
      ensures queue == if updated then old(queue)[t.queueId := old(queue)[t.queueId].(status := status, lease := None)]
                       else old(queue)
    {
      updated := t.queueId in queue && queue[t.queueId].status == Parsing && queue[t.queueId].attempts == t.attempts;
      if updated {
        var row := queue[t.queueId];
        queue := queue[t.queueId := QueueRow(row.rawId, status, row.attempts, None)];
      }
    }

    /** Resets every failed or expired row among `rows`, the queue rows of the wanted source type. */
    method ResetFailedQueue(rows: seq<QueueId>) returns (queueItems: nat, rawDocuments: nat)
      requires Inv(Db()) && NoRepeats(rows)
      modifies this
      ensures Db() == Apply(old(Db()), RetryReset(Rows(rows))) && Inv(Db())
      ensures ResetsFailures(old(Db()), Rows(rows), Db())
      ensures queueItems == rawDocuments == |Rows(rows) * FailedRows(old(Db()))|
    {
      ghost var db := Db();
      var resettable := Select(rows, |rows|, Retryable);
      FirstMatchingQualify(db, Retryable, rows, |rows|, resettable);
      RetryDocuments(resettable);
      RequeueRows(resettable);
      RetriesThese(db, rows, resettable, Db());
      queueItems, rawDocuments := |resettable|, |resettable|;
      CountRows(resettable);
      assert Rows(resettable) == Rows(rows) * FailedRows(db);
      RetryResetResetsFailures(db, Rows(rows));
      ResetKeepsInv(db, Rows(rows));
    }

    method RetryDocuments(rows: seq<QueueId>)
      requires forall q :: q in rows ==> Resettable(Db(), q)
      modifies this`raw
      ensures raw.Keys == old(raw.Keys)
      ensures forall r :: r in raw ==>
                raw[r] == if r in Documents(old(Db()), rows) then Retried(old(raw)[r]) else old(raw)[r]
    {
      ghost var db := Db();
      for k := 0 to |rows|
        invariant raw.Keys == db.raw.Keys
        invariant forall r :: r in raw ==>
                    raw[r] == if r in Documents(db, rows[..k]) then Retried(db.raw[r]) else db.raw[r]
      {
        assert Resettable(db, rows[k]);
        DocumentsNext(db, rows, k);
        var r := queue[rows[k]].rawId;
        raw := raw[r := raw[r].(status := if raw[r].parsedUri.None? then RawFetched else RawParsed)];
      }
      assert rows[..|rows|] == rows;
    }

    method RequeueRows(rows: seq<QueueId>)
      requires forall q :: q in rows ==> q in queue
      modifies this`queue
      ensures queue.Keys == old(queue.Keys)
      ensures forall q :: q in queue ==> queue[q] == if q in rows then Requeued(old(queue)[q]) else old(queue)[q]
    {
      ghost var before := queue;
      for k := 0 to |rows|
        invariant queue.Keys == before.Keys
        invariant forall q :: q in queue ==> queue[q] == if q in rows[..k] then Requeued(before[q]) else before[q]
      {
        var q := rows[k];
        var row := queue[q];
        queue := queue[q := QueueRow(row.rawId, Pending, row.attempts, None)];
        assert rows[..k + 1] == rows[..k] + [q];
      }
      assert rows[..|rows|] == rows;
    }

    /**
      Resets the first `limit` stale rows of `scope`, the project's rows by document age, that nobody else has
      locked; what remains is counted over the whole scope.
     */
    method ResetStaleParserRawDocuments(
      scope: seq<QueueId>, locked: set<QueueId>, limit: nat, active: map<QueueId, ParserVersion>)
      returns (selected: seq<QueueId>, rawDocuments: nat, remaining: nat)
      requires Inv(Db()) && NoRepeats(scope)
      modifies this
      ensures PicksFirst(Unlocked(scope, locked), OutdatedRows(old(Db()), active), limit, selected)
      ensures Db() == Apply(old(Db()), Reprocess(Rows(selected), active)) && Inv(Db())
      ensures StartsOver(old(Db()), Rows(selected), Db())
      ensures rawDocuments == |selected| == |Documents(old(Db()), selected)|
      ensures remaining == |Rows(scope) * OutdatedRows(Db(), active)|
    {
      ghost var db := Db();
      UnlockedOnce(scope, locked);
      selected := Select(Unlocked(scope, locked), limit, Outdated(active));
      FirstMatchingQualify(db, Outdated(active), Unlocked(scope, locked), limit, selected);
      OutdatedRowsAreStale(db, active);
      FirstMatchingIsFirst(db, Outdated(active), Unlocked(scope, locked), limit, selected, OutdatedRows(db, active));
      RefetchDocuments(selected, active);
      RequeueRows(selected);
      RefetchesThese(db, active, selected, Db());
      ReprocessKeepsInv(db, Rows(selected), active);
      CountDocuments(db, selected);
      ReprocessStartsOver(db, active, Rows(selected));
      rawDocuments := |selected|;
      remaining := CountStale(scope, active);
    }

    method RefetchDocuments(rows: seq<QueueId>, ghost active: map<QueueId, ParserVersion>)
      requires forall q :: q in rows ==> Stale(Db(), active, q)
      modifies this`raw
      ensures raw.Keys == old(raw.Keys)
      ensures forall r :: r in raw ==>
                raw[r] == if r in Documents(old(Db()), rows) then Refetched(old(raw)[r]) else old(raw)[r]
    {
      ghost var db := Db();
      for k := 0 to |rows|
        invariant raw.Keys == db.raw.Keys
        invariant forall r :: r in raw ==>
                    raw[r] == if r in Documents(db, rows[..k]) then Refetched(db.raw[r]) else db.raw[r]
      {
        assert Stale(db, active, rows[k]);
        DocumentsNext(db, rows, k);
        var r := queue[rows[k]].rawId;
        raw := raw[r := RawRow(RawFetched, None, None, raw[r].source, raw[r].rank)];
      }
      assert rows[..|rows|] == rows;
    }

    /** A graph worker's two marks: unconditional on both tables, for its document. */
    method MarkGraphIndexed(r: RawId)
      modifies this
      ensures Db() == Apply(old(Db()), GraphIndexed(r)) && SetsBoth(old(Db()), r, RawIndexed, Indexed, Db())
    {
      SetBothStatuses(r, RawIndexed, Indexed);
    }

    method MarkGraphFailed(r: RawId)
      modifies this
      ensures Db() == Apply(old(Db()), GraphFailed(r)) && SetsBoth(old(Db()), r, RawFailed, Failed, Db())
    {
      SetBothStatuses(r, RawFailed, Failed);
    }

    method SetBothStatuses(r: RawId, rawStatus: RawStatus, queueStatus: QueueStatus)
      modifies this`raw, this`queue
      ensures Db() == SetStatus(old(Db()), r, rawStatus, queueStatus)
      ensures SetsBoth(old(Db()), r, rawStatus, queueStatus, Db())
    {
      ghost var db := Db();
      if r in raw {
        raw := raw[r := RawRow(rawStatus, raw[r].parsedUri, raw[r].parser, raw[r].source, raw[r].rank)];
      }
      SetQueueStatus(r, queueStatus);
      SetsThese(db, r, rawStatus, queueStatus, queue);
    }

    method SetQueueStatus(r: RawId, queueStatus: QueueStatus)
      modifies this`queue
      ensures queue.Keys == old(queue.Keys)
      ensures forall q :: q in queue ==>
                queue[q] == if old(queue)[q].rawId == r then old(queue)[q].(status := queueStatus) else old(queue)[q]
    {
      ghost var before := queue;
      var rest: set<QueueId> := queue.Keys;
      while rest != {}
        invariant rest <= queue.Keys && queue.Keys == before.Keys
        invariant forall q :: q in queue ==>
                    queue[q] == if q in rest || before[q].rawId != r then before[q]
                                else before[q].(status := queueStatus)
        decreases rest
      {
        ghost var some := SomeElement(rest);
        var q :| q in rest;
        if queue[q].rawId == r {
          queue := queue[q := QueueRow(r, queueStatus, queue[q].attempts, queue[q].lease)];
        }
        rest := rest - {q};
      }
    }

    method CountStale(scope: seq<QueueId>, active: map<QueueId, ParserVersion>) returns (count: nat)
      requires NoRepeats(scope)
      ensures count == |Rows(scope) * OutdatedRows(Db(), active)|
    {
      var all := Select(scope, |scope|, Outdated(active));
      FirstMatchingQualify(Db(), Outdated(active), scope, |scope|, all);
      CountRows(all);
      OutdatedRowsAreStale(Db(), active);
      assert Rows(all) == Rows(scope) * OutdatedRows(Db(), active);
      count := |all|;
    }
  }

  lemma SetsThese(db: Database, r: RawId, rawStatus: RawStatus, queueStatus: QueueStatus, queue: map<QueueId, QueueRow>)
    requires queue.Keys == db.queue.Keys
    requires forall q :: q in queue ==>
               queue[q] == if db.queue[q].rawId == r then db.queue[q].(status := queueStatus) else db.queue[q]
    ensures queue == SetStatus(db, r, rawStatus, queueStatus).queue
  {
    var next := SetStatus(db, r, rawStatus, queueStatus);
    assert queue.Keys == next.queue.Keys;
    forall q | q in queue ensures queue[q] == next.queue[q] {
    }
  }

  lemma DequeuesThese(db: Database, picked: seq<QueueId>, leaseSeconds: nat, queue: map<QueueId, QueueRow>)
    requires forall q :: q in picked ==> CanDequeue(db, q)
    requires queue.Keys == db.queue.Keys
    requires forall q :: q in queue ==>
               queue[q] == if q !in picked then db.queue[q]
                           else QueueRow(db.queue[q].rawId, Parsing, db.queue[q].attempts + 1,
                                         Some(db.now + leaseSeconds))
    ensures db.(queue := queue) == Apply(db, Dequeue(Rows(picked), leaseSeconds))
  {
    var next := Apply(db, Dequeue(Rows(picked), leaseSeconds));
    assert next.queue.Keys == queue.Keys;
    forall q | q in queue ensures queue[q] == next.queue[q] {
    }
    assert next.queue == queue;
  }

  lemma RetriesThese(db: Database, rows: seq<QueueId>, picked: seq<QueueId>, after: Database)
    requires forall q :: q in picked <==> q in rows && Resettable(db, q)
    requires after.now == db.now && after.queue.Keys == db.queue.Keys && after.raw.Keys == db.raw.Keys
    requires forall q :: q in after.queue ==>
               after.queue[q] == if q in picked then Requeued(db.queue[q]) else db.queue[q]
    requires forall r :: r in after.raw ==>
               after.raw[r] == if r in Documents(db, picked) then Retried(db.raw[r]) else db.raw[r]
    ensures after == Apply(db, RetryReset(Rows(rows)))
  {
    var next := Apply(db, RetryReset(Rows(rows)));
    assert next.queue.Keys == after.queue.Keys && next.raw.Keys == after.raw.Keys;
    forall q | q in after.queue ensures after.queue[q] == next.queue[q] {
    }
    forall r | r in after.raw ensures after.raw[r] == next.raw[r] {
      if Retries(db, Rows(rows), r) {
        var q :| q in Rows(rows) && Resettable(db, q) && db.queue[q].rawId == r;
        assert q in picked;
      }
    }
    assert next.queue == after.queue && next.raw == after.raw;
  }

  lemma RefetchesThese(db: Database, active: map<QueueId, ParserVersion>, picked: seq<QueueId>, after: Database)
    requires forall q :: q in picked ==> Stale(db, active, q)
    requires after.now == db.now && after.queue.Keys == db.queue.Keys && after.raw.Keys == db.raw.Keys
    requires forall q :: q in after.queue ==>
               after.queue[q] == if q in picked then Requeued(db.queue[q]) else db.queue[q]
    requires forall r :: r in after.raw ==>
               after.raw[r] == if r in Documents(db, picked) then Refetched(db.raw[r]) else db.raw[r]
    ensures after == Apply(db, Reprocess(Rows(picked), active))
  {
    var next := Apply(db, Reprocess(Rows(picked), active));
    assert next.queue.Keys == after.queue.Keys && next.raw.Keys == after.raw.Keys;
    forall q | q in after.queue ensures after.queue[q] == next.queue[q] {
    }
    forall r | r in after.raw ensures after.raw[r] == next.raw[r] {
    }
    assert next.queue == after.queue && next.raw == after.raw;
  }
}
