/**
  The keyword backfill: batches over document chunks in (document, chunk) order, resumed by a cursor. NULL alone means
  pending; the trigger that derives a keyword from the content is the parameter `derive`.
 */
module KeywordBackfill {
  import opened Collections
  import opened Options

  datatype Chunk = Chunk(project: int, document: int, id: int, content: string, keyword: Option<string>)

  datatype Cursor = Cursor(document: int, chunk: int)

  datatype Scope = Scope(project: int, from: Option<int>, through: Option<int>)

  datatype Mode = DryRun | Execute | Status

  datatype Report = Report(total: nat, pending: nat, selected: nat, updated: nat, dryRun: bool, resume: Option<Cursor>)

  type Derive = string -> string

  predicate InRange(scope: Scope, c: Chunk) {
    && c.project == scope.project
    && (scope.from.Some? ==> scope.from.value <= c.document)
    && (scope.through.Some? ==> c.document <= scope.through.value)
  }

  predicate Before(a: Cursor, b: Cursor) {
    a.document < b.document || (a.document == b.document && a.chunk < b.chunk)
  }

  function KeyOf(c: Chunk): Cursor {
    Cursor(c.document, c.id)
  }

  predicate Passed(cursor: Option<Cursor>, c: Chunk) {
    cursor.Some? && !Before(cursor.value, KeyOf(c))
  }

  predicate Waiting(scope: Scope, cursor: Option<Cursor>, c: Chunk) {
    InRange(scope, c) && c.keyword.None? && !Passed(cursor, c)
  }

  /** The table in (document, chunk) order; chunk ids are the primary key. */
  ghost predicate Table(rows: seq<Chunk>) {
    && (forall i, j :: 0 <= i < j < |rows| ==> Before(KeyOf(rows[i]), KeyOf(rows[j])))
    && (forall i, j :: 0 <= i < j < |rows| ==> rows[i].id != rows[j].id)
  }

  // ----- The statements of one batch -----

  /** Positions of the rows that the batch query matches, in order. */
  function Matching(rows: seq<Chunk>, scope: Scope, cursor: Option<Cursor>): (r: seq<nat>)
    ensures |r| <= |rows| && forall k :: 0 <= k < |r| ==> r[k] < |rows|
  {
    if rows == [] then []
    else
      var n := |rows| - 1;
      Matching(rows[..n], scope, cursor) + if Waiting(scope, cursor, rows[n]) then [n] else []
  }

  /** SELECT … ORDER BY document_id, id LIMIT. */
  function Select(rows: seq<Chunk>, scope: Scope, cursor: Option<Cursor>, limit: nat): (r: seq<Cursor>)
    ensures |r| == |Take(Matching(rows, scope, cursor), limit)|
  {
    var positions := Take(Matching(rows, scope, cursor), limit);
    seq(|positions|, k requires 0 <= k < |positions| => KeyOf(rows[positions[k]]))
  }

  function Filled(c: Chunk, derive: Derive): Chunk {
    c.(keyword := Some(derive(c.content)))
  }

  /** UPDATE … WHERE range AND id = ANY(selected) AND keyword_content IS NULL. */
  function Fill(rows: seq<Chunk>, scope: Scope, ids: set<int>, derive: Derive): (r: seq<Chunk>)
    ensures |r| == |rows|
  {
    seq(|rows|, i requires 0 <= i < |rows| =>
      var c := rows[i];
      if InRange(scope, c) && c.id in ids && c.keyword.None? then Filled(c, derive) else c)
  }

  function Count(rows: seq<Chunk>, scope: Scope, pendingOnly: bool): nat {
    if rows == [] then 0
    else
      var c := rows[|rows| - 1];
      Count(rows[..|rows| - 1], scope, pendingOnly)
      + if InRange(scope, c) && (pendingOnly ==> c.keyword.None?) then 1 else 0
  }

  function Ids(cursors: seq<Cursor>): set<int> {
    set i | 0 <= i < |cursors| :: cursors[i].chunk
  }

  /** The table and the cursor after one execute batch. */
  function Batch(
    rows: seq<Chunk>, scope: Scope, cursor: Option<Cursor>, limit: nat, derive: Derive): (seq<Chunk>, Option<Cursor>)
  {
    var selected := Select(rows, scope, cursor, limit);
    (Fill(rows, scope, Ids(selected), derive), if selected == [] then cursor else Some(selected[|selected| - 1]))
  }

  // ----- What a batch does to the table -----

  ghost predicate InScope(scope: Scope, c: Chunk) {
    && c.project == scope.project
    && (scope.from == None || c.document >= scope.from.value)
    && (scope.through == None || c.document <= scope.through.value)
  }

  /** A chunk of the scope without a keyword, behind the cursor in (document, chunk) order. */
  ghost predicate Awaits(scope: Scope, cursor: Option<Cursor>, c: Chunk) {
    && InScope(scope, c) && c.keyword == None
    && (cursor == None || c.document > cursor.value.document
        || (c.document == cursor.value.document && c.id > cursor.value.chunk))
  }

  /** The first `limit` positions of awaiting chunks. */
  ghost predicate FirstAwaiting(
    rows: seq<Chunk>, scope: Scope, cursor: Option<Cursor>, limit: nat, positions: seq<nat>)
  {
    && |positions| <= limit && Increasing(positions)
    && (forall i: nat :: i in positions ==> i < |rows| && Awaits(scope, cursor, rows[i]))
    && (forall i: nat :: i < |rows| && Awaits(scope, cursor, rows[i]) && i !in positions ==>
          |positions| == limit && forall j :: j in positions ==> j < i)
  }

  lemma TakesTheFirst(rows: seq<Chunk>, scope: Scope, cursor: Option<Cursor>, limit: nat)
    ensures FirstAwaiting(rows, scope, cursor, limit, Take(Matching(rows, scope, cursor), limit))
  {
    var all := Matching(rows, scope, cursor);
    var positions := Take(all, limit);
    MatchingMembers(rows, scope, cursor);
    forall i: nat | i in positions ensures i < |rows| && Awaits(scope, cursor, rows[i]) {
      assert i in all && Waiting(scope, cursor, rows[i]);
    }
    forall i: nat | i < |rows| && Awaits(scope, cursor, rows[i]) && i !in positions
      ensures |positions| == limit && forall j :: j in positions ==> j < i
    {
      assert Waiting(scope, cursor, rows[i]) && i in all;
      var k :| 0 <= k < |all| && all[k] == i;
      assert k >= |positions|;
    }
  }

  /** The chunks of the scope, and those without a keyword among them, by position. */
  ghost function ScopeRows(rows: seq<Chunk>, scope: Scope): set<nat> {
    set i: nat | i < |rows| && InScope(scope, rows[i])
  }

  ghost function PendingRows(rows: seq<Chunk>, scope: Scope): set<nat> {
    set i: nat | i < |rows| && InScope(scope, rows[i]) && rows[i].keyword == None
  }

  lemma OneMoreRow(rows: seq<Chunk>, scope: Scope)
    requires rows != []
    ensures var n := |rows| - 1;
            && n !in ScopeRows(rows[..n], scope) && n !in PendingRows(rows[..n], scope)
            && ScopeRows(rows, scope) == ScopeRows(rows[..n], scope) + (if InScope(scope, rows[n]) then {n} else {})
            && PendingRows(rows, scope)
               == PendingRows(rows[..n], scope)
                  + (if InScope(scope, rows[n]) && rows[n].keyword == None then {n} else {})
  {
    assert forall i: nat :: i < |rows| - 1 ==> rows[..|rows| - 1][i] == rows[i];
  }

  /** Both counts are sizes. */
  lemma {:induction false} CountsAreSizes(rows: seq<Chunk>, scope: Scope)
    ensures Count(rows, scope, false) == |ScopeRows(rows, scope)|
    ensures Count(rows, scope, true) == |PendingRows(rows, scope)|
  {
    if rows == [] {
      assert ScopeRows(rows, scope) == {} && PendingRows(rows, scope) == {};
    } else {
      CountsAreSizes(rows[..|rows| - 1], scope);
      OneMoreRow(rows, scope);
    }
  }

  /** Only the chunks at the positions change, and of them only the keyword. */
  ghost predicate SetsKeywords(rows: seq<Chunk>, positions: seq<nat>, derive: Derive, next: seq<Chunk>) {
    && |next| == |rows|
    && forall i: nat :: i < |rows| ==>
         next[i] == if i !in positions then rows[i]
                    else Chunk(rows[i].project, rows[i].document, rows[i].id, rows[i].content,
                               Some(derive(rows[i].content)))
  }

  /** Where the next batch goes on: at the last chunk of this one, if it had any. */
  ghost function ResumeAt(rows: seq<Chunk>, positions: seq<nat>, cursor: Option<Cursor>): Option<Cursor>
    requires positions != [] ==> positions[|positions| - 1] < |rows|
  {
    if positions == [] then cursor
    else
      var last := rows[positions[|positions| - 1]];
      Some(Cursor(last.document, last.id))
  }

  /** An execute batch sets the keywords of the first awaiting chunks, and goes on behind the last of them. */
  ghost predicate FillsTheFirst(
    rows: seq<Chunk>, scope: Scope, cursor: Option<Cursor>, limit: nat, derive: Derive, positions: seq<nat>,
    next: seq<Chunk>, resume: Option<Cursor>)
  {
    && FirstAwaiting(rows, scope, cursor, limit, positions)
    && (positions != [] ==> positions[|positions| - 1] < |rows|)
    && resume == ResumeAt(rows, positions, cursor)
    && (Table(rows) ==> SetsKeywords(rows, positions, derive, next))
  }

  lemma BatchSetsKeywords(rows: seq<Chunk>, scope: Scope, cursor: Option<Cursor>, limit: nat, derive: Derive)
    ensures var (next, resume) := Batch(rows, scope, cursor, limit, derive);
            FillsTheFirst(rows, scope, cursor, limit, derive, Take(Matching(rows, scope, cursor), limit), next, resume)
  {
    var positions := Take(Matching(rows, scope, cursor), limit);
    TakesTheFirst(rows, scope, cursor, limit);
    if Table(rows) {
      forall i: nat | i < |rows|
        ensures Batch(rows, scope, cursor, limit, derive).0[i]
             == if i in positions then Filled(rows[i], derive) else rows[i]
      {
        BatchFillsTheFirst(rows, scope, cursor, limit, derive, i);
      }
    }
    BatchResumes(rows, scope, cursor, limit, derive);
  }

  class ChunkTable {
    var rows: seq<Chunk>

    method CountRows(scope: Scope) returns (total: nat, pending: nat)
      ensures total == |ScopeRows(rows, scope)| && pending == |PendingRows(rows, scope)|
    {
      CountsAreSizes(rows, scope);
      total, pending := Count(rows, scope, false), Count(rows, scope, true);
    }

    method SelectAndFill(scope: Scope, mode: Mode, cursor: Option<Cursor>, limit: nat, derive: Derive)
      returns (selected: seq<Cursor>)
      modifies this
      ensures selected == if mode == Status then [] else Select(old(rows), scope, cursor, limit)
      ensures rows == if mode == Execute then Batch(old(rows), scope, cursor, limit, derive).0 else old(rows)
    {
      selected := [];
      if mode != Status {
        selected := Select(rows, scope, cursor, limit);
        if mode != DryRun && |selected| > 0 {
          rows := Fill(rows, scope, Ids(selected), derive);
        } else if mode != DryRun {
          assert Fill(rows, scope, Ids(selected), derive) == rows;
        }
      }
    }

    /** One transaction. Only an execute batch changes the table; a status call looks at counts alone. */
    method BackfillKeywords(scope: Scope, mode: Mode, cursor: Option<Cursor>, limit: nat, derive: Derive)
      returns (report: Report, ghost positions: seq<nat>)
      modifies this
      ensures mode != Execute ==> rows == old(rows) && report.resume == cursor
      ensures mode == Execute ==>
                && rows == Batch(old(rows), scope, cursor, limit, derive).0
                && FillsTheFirst(old(rows), scope, cursor, limit, derive, positions, rows, report.resume)
      ensures FirstAwaiting(old(rows), scope, cursor, limit, positions)
      ensures report.selected == if mode == Status then 0 else |positions|
      ensures report.total == |ScopeRows(rows, scope)| && report.pending == |PendingRows(rows, scope)|
      ensures report.updated == (if mode == Execute then report.selected else 0) && (report.dryRun <==> mode == DryRun)
    {
      ghost var before := rows;
      var selected := SelectAndFill(scope, mode, cursor, limit, derive);
      var last := if mode == DryRun || selected == [] then cursor else Some(selected[|selected| - 1]);
      var total, pending := CountRows(scope);
      report := Report(
        total, pending, |selected|, if mode == Execute then |selected| else 0, mode == DryRun, last);
      positions := Take(Matching(before, scope, cursor), limit);
      BatchSetsKeywords(before, scope, cursor, limit, derive);
    }
  }

  // ----- Which rows match -----

  ghost predicate Increasing(s: seq<nat>) {
    forall i, j :: 0 <= i < j < |s| ==> s[i] < s[j]
  }

  lemma {:induction false} MatchingMembers(rows: seq<Chunk>, scope: Scope, cursor: Option<Cursor>)
    ensures Increasing(Matching(rows, scope, cursor))
    ensures forall i: nat :: i in Matching(rows, scope, cursor) <==> i < |rows| && Waiting(scope, cursor, rows[i])
  {
    if rows != [] {
      MatchingMembers(rows[..|rows| - 1], scope, cursor);
    }
  }

  lemma HasMember(s: seq<nat>)
    ensures s == [] || exists i: nat :: i in s
  {
    if s != [] {
      assert s[0] in s;
    }
  }

  lemma {:induction false} PositionsAreUnique(a: seq<nat>, b: seq<nat>)
    requires Increasing(a) && Increasing(b) && forall i: nat :: i in a <==> i in b
    ensures a == b
  {
    if a == [] {
      HasMember(b);
    } else {
      assert a[0] in b && b[0] in a;
      assert a[0] == b[0];
      forall i: nat ensures i in a[1..] <==> i in b[1..] {
        assert i in a[1..] <==> i in a && i != a[0];
        assert i in b[1..] <==> i in b && i != b[0];
      }
      PositionsAreUnique(a[1..], b[1..]);
      assert a == [a[0]] + a[1..] && b == [b[0]] + b[1..];
    }
  }

  // ----- One batch -----

  lemma SelectedIds(rows: seq<Chunk>, scope: Scope, cursor: Option<Cursor>, limit: nat, i: nat)
    requires Table(rows) && i < |rows|
    ensures rows[i].id in Ids(Select(rows, scope, cursor, limit)) <==> i in Take(Matching(rows, scope, cursor), limit)
  {
    var positions := Take(Matching(rows, scope, cursor), limit);
    var selected := Select(rows, scope, cursor, limit);
    if i in positions {
      var k :| 0 <= k < |positions| && positions[k] == i;
      assert selected[k].chunk == rows[i].id;
    }
    if rows[i].id in Ids(selected) {
      var k :| 0 <= k < |selected| && selected[k].chunk == rows[i].id;
      assert rows[positions[k]].id == rows[i].id;
    }
  }

  /** A batch fills the first `limit` waiting rows and leaves every other row as it is. */
  lemma {:induction false} BatchFillsTheFirst(
    rows: seq<Chunk>, scope: Scope, cursor: Option<Cursor>, limit: nat, derive: Derive, i: nat)
    requires Table(rows) && i < |rows|
    ensures Batch(rows, scope, cursor, limit, derive).0[i]
         == if i in Take(Matching(rows, scope, cursor), limit) then Filled(rows[i], derive) else rows[i]
  {
    SelectedIds(rows, scope, cursor, limit, i);
    MatchingMembers(rows, scope, cursor);
  }

  lemma BatchKeepsTable(rows: seq<Chunk>, scope: Scope, cursor: Option<Cursor>, limit: nat, derive: Derive)
    requires Table(rows)
    ensures Table(Batch(rows, scope, cursor, limit, derive).0)
  {
    var next := Batch(rows, scope, cursor, limit, derive).0;
    forall i | 0 <= i < |rows| ensures KeyOf(next[i]) == KeyOf(rows[i]) && next[i].id == rows[i].id {
    }
  }

  lemma PassedUpTo(rows: seq<Chunk>, p: nat, i: nat)
    requires Table(rows) && p < |rows| && i < |rows|
    ensures Passed(Some(KeyOf(rows[p])), rows[i]) <==> i <= p
  {
  }

  /** Up to the last selected row a row waits exactly if it was selected. */
  lemma LastSelected(rows: seq<Chunk>, scope: Scope, cursor: Option<Cursor>, limit: nat, i: nat)
    requires i < |rows| && Take(Matching(rows, scope, cursor), limit) != []
    ensures var positions := Take(Matching(rows, scope, cursor), limit);
            i in positions <==> i <= positions[|positions| - 1] && Waiting(scope, cursor, rows[i])
  {
    MatchingMembers(rows, scope, cursor);
    var all := Matching(rows, scope, cursor);
    TakenUpTo(all, Take(all, limit), i);
  }

  lemma TakenUpTo(all: seq<nat>, taken: seq<nat>, i: nat)
    requires Increasing(all) && taken != [] && taken <= all
    ensures i in taken <==> i in all && i <= taken[|taken| - 1]
  {
    assert all[|taken| - 1] == taken[|taken| - 1];
    if i in all {
      var k :| 0 <= k < |all| && all[k] == i;
      if k < |taken| {
        assert taken[k] == i;
      } else {
        assert all[|taken| - 1] < all[k];
      }
    }
    if i in taken {
      var k :| 0 <= k < |taken| && taken[k] == i;
      assert all[k] == i;
    }
  }

  lemma LastIsAhead(rows: seq<Chunk>, scope: Scope, cursor: Option<Cursor>, limit: nat)
    requires Take(Matching(rows, scope, cursor), limit) != []
    ensures var positions := Take(Matching(rows, scope, cursor), limit);
            !Passed(cursor, rows[positions[|positions| - 1]])
  {
    var positions := Take(Matching(rows, scope, cursor), limit);
    MatchingMembers(rows, scope, cursor);
    assert positions[|positions| - 1] in Matching(rows, scope, cursor);
  }

  lemma StillAhead(rows: seq<Chunk>, cursor: Option<Cursor>, p: nat, i: nat)
    requires Table(rows) && p < i < |rows| && !Passed(cursor, rows[p])
    ensures !Passed(cursor, rows[i])
  {
    assert Before(KeyOf(rows[p]), KeyOf(rows[i]));
  }

  lemma BatchResumes(rows: seq<Chunk>, scope: Scope, cursor: Option<Cursor>, limit: nat, derive: Derive)
    ensures var positions := Take(Matching(rows, scope, cursor), limit);
            Batch(rows, scope, cursor, limit, derive).1
            == if positions == [] then cursor else Some(KeyOf(rows[positions[|positions| - 1]]))
  {
    var positions := Take(Matching(rows, scope, cursor), limit);
    var selected := Select(rows, scope, cursor, limit);
    assert |selected| == |positions|;
    if positions != [] {
      assert selected[|selected| - 1] == KeyOf(rows[positions[|positions| - 1]]);
    }
  }

  lemma NoneSelected(rows: seq<Chunk>, scope: Scope, cursor: Option<Cursor>, limit: nat, i: nat)
    requires i < |rows| && limit > 0 && Take(Matching(rows, scope, cursor), limit) == []
    ensures !Waiting(scope, cursor, rows[i])
  {
    MatchingMembers(rows, scope, cursor);
    assert i !in Matching(rows, scope, cursor);
  }

  lemma AheadOfTheLast(rows: seq<Chunk>, scope: Scope, cursor: Option<Cursor>, limit: nat, i: nat)
    requires Table(rows) && i < |rows| && Take(Matching(rows, scope, cursor), limit) != []
    ensures var positions := Take(Matching(rows, scope, cursor), limit);
            i <= positions[|positions| - 1] || !Passed(cursor, rows[i])
  {
    var positions := Take(Matching(rows, scope, cursor), limit);
    LastIsAhead(rows, scope, cursor, limit);
    if i > positions[|positions| - 1] {
      StillAhead(rows, cursor, positions[|positions| - 1], i);
    }
  }

  /** After a batch exactly the waiting rows past the selected ones still wait. */
  lemma WaitingAfterBatch(rows: seq<Chunk>, scope: Scope, cursor: Option<Cursor>, limit: nat, derive: Derive, i: nat)
    requires Table(rows) && i < |rows| && limit > 0
    ensures var (next, resume) := Batch(rows, scope, cursor, limit, derive);
            Waiting(scope, resume, next[i])
            <==> Waiting(scope, cursor, rows[i]) && i !in Take(Matching(rows, scope, cursor), limit)
  {
    BatchFillsTheFirst(rows, scope, cursor, limit, derive, i);
    BatchResumes(rows, scope, cursor, limit, derive);
    RowsAfterBatch(rows, scope, cursor, limit, derive, Batch(rows, scope, cursor, limit, derive).0[i],
                   Batch(rows, scope, cursor, limit, derive).1, i);
  }

  lemma {:induction false} RowsAfterBatch(
    rows: seq<Chunk>, scope: Scope, cursor: Option<Cursor>, limit: nat, derive: Derive, next: Chunk,
    resume: Option<Cursor>, i: nat)
    requires Table(rows) && i < |rows| && limit > 0
    requires next == if i in Take(Matching(rows, scope, cursor), limit) then Filled(rows[i], derive) else rows[i]
    requires var positions := Take(Matching(rows, scope, cursor), limit);
             resume == if positions == [] then cursor else Some(KeyOf(rows[positions[|positions| - 1]]))
    ensures Waiting(scope, resume, next)
            <==> Waiting(scope, cursor, rows[i]) && i !in Take(Matching(rows, scope, cursor), limit)
  {
    var positions := Take(Matching(rows, scope, cursor), limit);
    if positions == [] {
      NoneSelected(rows, scope, cursor, limit, i);
    } else {
      var last := positions[|positions| - 1];
      PassedUpTo(rows, last, i);
      LastSelected(rows, scope, cursor, limit, i);
      AheadOfTheLast(rows, scope, cursor, limit, i);
    }
  }

  lemma MatchingAfterBatch(rows: seq<Chunk>, scope: Scope, cursor: Option<Cursor>, limit: nat, derive: Derive)
    requires Table(rows) && limit > 0
    ensures var (next, resume) := Batch(rows, scope, cursor, limit, derive);
            var all := Matching(rows, scope, cursor);
            Matching(next, scope, resume) == all[|Take(all, limit)|..]
  {
    var (next, resume) := Batch(rows, scope, cursor, limit, derive);
    var all := Matching(rows, scope, cursor);
    var rest := all[|Take(all, limit)|..];
    MatchingMembers(rows, scope, cursor);
    MatchingMembers(next, scope, resume);
    forall i: nat ensures i in Matching(next, scope, resume) <==> i in rest {
      if i < |rows| {
        WaitingAfterBatch(rows, scope, cursor, limit, derive, i);
      }
    }
    PositionsAreUnique(Matching(next, scope, resume), rest);
  }

  // ----- Chained batches -----

  /** A table under backfill: `filled` lists the positions filled so far, in the order of filling. */
  datatype Chain = Chain(rows: seq<Chunk>, cursor: Option<Cursor>, filled: seq<nat>)

  ghost function Next(c: Chain, scope: Scope, limit: nat, derive: Derive): Chain {
    var (next, resume) := Batch(c.rows, scope, c.cursor, limit, derive);
    Chain(next, resume, c.filled + Take(Matching(c.rows, scope, c.cursor), limit))
  }

  ghost predicate IsNext(c: Chain, d: Chain, scope: Scope, limit: nat, derive: Derive) {
    d == Next(c, scope, limit, derive)
  }

  /** Chained execute batches from `run[0]` on: each starts from the cursor that the one before returned. */
  ghost predicate Batches(run: seq<Chain>, scope: Scope, limit: nat, derive: Derive) {
    && run != [] && run[0].filled == [] && Table(run[0].rows)
    && forall k :: 0 <= k < |run| - 1 ==> IsNext(run[k], run[k + 1], scope, limit, derive)
  }

  /**
    The first `done` of the rows waiting in `start` are filled, every other row is as it was, and the rest still
    waits.
   */
  ghost predicate Reached(start: Chain, scope: Scope, derive: Derive, c: Chain, done: nat) {
    var all := Matching(start.rows, scope, start.cursor);
    && done <= |all| && Table(c.rows) && |c.rows| == |start.rows|
    && c.filled == all[..done] && Matching(c.rows, scope, c.cursor) == all[done..]
    && (forall i: nat :: i < |c.rows| ==>
          c.rows[i] == if i in c.filled then Filled(start.rows[i], derive) else start.rows[i])
  }

  lemma FilledGrows(start: Chain, scope: Scope, limit: nat, derive: Derive, c: Chain, done: nat)
    requires Reached(start, scope, derive, c, done)
    ensures var d := Next(c, scope, limit, derive);
            forall i: nat :: i < |c.rows| ==>
              d.rows[i] == if i in d.filled then Filled(start.rows[i], derive) else start.rows[i]
  {
    var d := Next(c, scope, limit, derive);
    var chosen := Take(Matching(c.rows, scope, c.cursor), limit);
    forall i: nat | i < |c.rows|
      ensures d.rows[i] == if i in d.filled then Filled(start.rows[i], derive) else start.rows[i]
    {
      BatchFillsTheFirst(c.rows, scope, c.cursor, limit, derive, i);
      assert i in d.filled <==> i in c.filled || i in chosen;
    }
  }

  lemma TakenFromRest(all: seq<nat>, done: nat, limit: nat)
    requires done <= |all|
    ensures var more := Min(done + limit, |all|);
            && all[done..][|Take(all[done..], limit)|..] == all[more..]
            && all[..done] + Take(all[done..], limit) == all[..more]
  {
  }

  lemma NextReaches(start: Chain, scope: Scope, limit: nat, derive: Derive, c: Chain, d: Chain, done: nat, more: nat)
    requires Reached(start, scope, derive, c, done) && limit > 0 && IsNext(c, d, scope, limit, derive)
    requires more == Min(done + limit, |Matching(start.rows, scope, start.cursor)|)
    ensures Reached(start, scope, derive, d, more)
  {
    TakenFromRest(Matching(start.rows, scope, start.cursor), done, limit);
    BatchKeepsTable(c.rows, scope, c.cursor, limit, derive);
    MatchingAfterBatch(c.rows, scope, c.cursor, limit, derive);
    FilledGrows(start, scope, limit, derive, c, done);
  }

  lemma MinSteps(k: nat, limit: nat, m: nat)
    requires k > 0
    ensures Min(k * limit, m) == Min(Min((k - 1) * limit, m) + limit, m) && 0 <= Min((k - 1) * limit, m)
  {
    assert k * limit == (k - 1) * limit + limit;
  }

  /** After `k` batches exactly the first `k * limit` waiting rows are filled, in order and each once. */
  lemma {:induction false} ChainedBatches(run: seq<Chain>, scope: Scope, limit: nat, derive: Derive, k: nat)
    requires Batches(run, scope, limit, derive) && limit > 0 && k < |run|
    ensures Reached(run[0], scope, derive, run[k], Min(k * limit, |Matching(run[0].rows, scope, run[0].cursor)|))
    decreases k
  {
    var m := |Matching(run[0].rows, scope, run[0].cursor)|;
    if k == 0 {
      assert Min(0 * limit, m) == 0;
    } else {
      ChainedBatches(run, scope, limit, derive, k - 1);
      assert IsNext(run[k - 1], run[k - 1 + 1], scope, limit, derive);
      MinSteps(k, limit, m);
      NextReaches(run[0], scope, limit, derive, run[k - 1], run[k], Min((k - 1) * limit, m), Min(k * limit, m));
    }
  }

  lemma {:induction false} PendingMatches(rows: seq<Chunk>, scope: Scope)
    ensures Count(rows, scope, true) == |Matching(rows, scope, None)|
  {
    if rows != [] {
      PendingMatches(rows[..|rows| - 1], scope);
    }
  }

  /** Batch `k + 1` selects something exactly when the `k` before it could not take all waiting rows. */
  lemma NonEmptyBatches(run: seq<Chain>, scope: Scope, limit: nat, derive: Derive, k: nat)
    requires Batches(run, scope, limit, derive) && limit > 0 && k < |run|
    ensures Select(run[k].rows, scope, run[k].cursor, limit) != []
       <==> k * limit < |Matching(run[0].rows, scope, run[0].cursor)|
  {
    ChainedBatches(run, scope, limit, derive, k);
  }

  lemma NothingLeft(start: Chain, scope: Scope, derive: Derive, c: Chain)
    requires start.cursor == None && Reached(start, scope, derive, c, |Matching(start.rows, scope, None)|)
    ensures Matching(c.rows, scope, None) == []
  {
    MatchingMembers(start.rows, scope, None);
    MatchingMembers(c.rows, scope, None);
    assert c.filled == Matching(start.rows, scope, None);
    HasMember(Matching(c.rows, scope, None));
  }

  lemma SomethingLeft(start: Chain, scope: Scope, derive: Derive, c: Chain, done: nat)
    requires start.cursor == None && done < |Matching(start.rows, scope, None)|
             && Reached(start, scope, derive, c, done)
    ensures Matching(c.rows, scope, None) != []
  {
    var i := Matching(start.rows, scope, None)[done];
    MatchingMembers(c.rows, scope, c.cursor);
    MatchingMembers(c.rows, scope, None);
    assert i == Matching(c.rows, scope, c.cursor)[0];
    assert i in Matching(c.rows, scope, c.cursor);
  }

  /** Started without a cursor, `k` batches have left nothing pending exactly when they could take all rows. */
  lemma BackfillFinishes(run: seq<Chain>, scope: Scope, limit: nat, derive: Derive, k: nat)
    requires Batches(run, scope, limit, derive) && limit > 0 && k < |run| && run[0].cursor == None
    ensures Count(run[k].rows, scope, true) == 0 <==> Count(run[0].rows, scope, true) <= k * limit
  {
    ChainedBatches(run, scope, limit, derive, k);
    PendingMatches(run[0].rows, scope);
    PendingMatches(run[k].rows, scope);
    if |Matching(run[0].rows, scope, None)| <= k * limit {
      NothingLeft(run[0], scope, derive, run[k]);
    } else {
      SomethingLeft(run[0], scope, derive, run[k], k * limit);
    }
  }

  // ----- Batches among other writers -----

  /** Pending rows of the range that the cursor has passed. */
  ghost function Behind(rows: seq<Chunk>, scope: Scope, cursor: Option<Cursor>): set<int> {
    set i | 0 <= i < |rows| && IsBehind(scope, cursor, rows[i]) :: rows[i].id
  }

  predicate IsBehind(scope: Scope, cursor: Option<Cursor>, c: Chunk) {
    InRange(scope, c) && c.keyword.None? && Passed(cursor, c)
  }

  lemma BehindGrows(rows: seq<Chunk>, scope: Scope, cursor: Option<Cursor>)
    requires rows != [] && Table(rows)
    ensures var n := |rows| - 1;
            && rows[n].id !in Behind(rows[..n], scope, cursor)
            && Behind(rows, scope, cursor)
               == Behind(rows[..n], scope, cursor) + if IsBehind(scope, cursor, rows[n]) then {rows[n].id} else {}
  {
    var front, last := rows[..|rows| - 1], rows[|rows| - 1];
    forall id ensures id in Behind(rows, scope, cursor)
        <==> id in Behind(front, scope, cursor) || (id == last.id && IsBehind(scope, cursor, last)) {
      if id in Behind(rows, scope, cursor) {
        var i :| 0 <= i < |rows| && IsBehind(scope, cursor, rows[i]) && rows[i].id == id;
        assert i < |front| ==> front[i] == rows[i];
      }
      if id in Behind(front, scope, cursor) {
        var i :| 0 <= i < |front| && IsBehind(scope, cursor, front[i]) && front[i].id == id;
        assert rows[i] == front[i];
      }
    }
  }

  /** What is pending either still waits ahead of the cursor or lies behind it. */
  lemma {:induction false} PendingSplits(rows: seq<Chunk>, scope: Scope, cursor: Option<Cursor>)
    requires Table(rows)
    ensures Count(rows, scope, true) == |Matching(rows, scope, cursor)| + |Behind(rows, scope, cursor)|
  {
    if rows != [] {
      PendingSplits(rows[..|rows| - 1], scope, cursor);
      BehindGrows(rows, scope, cursor);
    }
  }

  lemma BatchLeavesNothingBehind(
    rows: seq<Chunk>, scope: Scope, cursor: Option<Cursor>, limit: nat, derive: Derive, i: nat)
    requires Table(rows) && i < |rows| && limit > 0
    ensures var (next, resume) := Batch(rows, scope, cursor, limit, derive);
            IsBehind(scope, resume, next[i]) <==> IsBehind(scope, cursor, rows[i])
  {
    WaitingAfterBatch(rows, scope, cursor, limit, derive, i);
    BatchFillsTheFirst(rows, scope, cursor, limit, derive, i);
    MatchingMembers(rows, scope, cursor);
    var positions := Take(Matching(rows, scope, cursor), limit);
    if positions != [] {
      var last := positions[|positions| - 1];
      PassedUpTo(rows, last, i);
      assert last in Matching(rows, scope, cursor);
    }
  }

  lemma BatchKeepsBehind(rows: seq<Chunk>, scope: Scope, cursor: Option<Cursor>, limit: nat, derive: Derive)
    requires Table(rows) && limit > 0
    ensures var (next, resume) := Batch(rows, scope, cursor, limit, derive);
            Behind(next, scope, resume) == Behind(rows, scope, cursor)
  {
    var (next, resume) := Batch(rows, scope, cursor, limit, derive);
    forall i: nat | i < |rows|
      ensures next[i].id == rows[i].id && (IsBehind(scope, resume, next[i]) <==> IsBehind(scope, cursor, rows[i]))
    {
      BatchLeavesNothingBehind(rows, scope, cursor, limit, derive, i);
      BatchFillsTheFirst(rows, scope, cursor, limit, derive, i);
    }
  }

  /** `strays` is what other writers put behind the cursor, still NULL, and have not removed again. */
  datatype World = World(rows: seq<Chunk>, cursor: Option<Cursor>, strays: set<int>)

  datatype Event = Batched | Inserted(at: nat, chunk: Chunk) | Deleted(at: nat)

  ghost predicate Happens(w: World, e: Event, v: World, scope: Scope, limit: nat, derive: Derive) {
    match e
    case Batched =>
      var (next, resume) := Batch(w.rows, scope, w.cursor, limit, derive);
      v == World(next, resume, w.strays)
    case Inserted(at, c) =>
      && at <= |w.rows| && Table(w.rows[..at] + [c] + w.rows[at..])
      && v == World(w.rows[..at] + [c] + w.rows[at..], w.cursor,
                    w.strays + if IsBehind(scope, w.cursor, c) then {c.id} else {})
    case Deleted(at) =>
      at < |w.rows| && v == World(w.rows[..at] + w.rows[at + 1..], w.cursor, w.strays - {w.rows[at].id})
  }

  lemma TableWithout(rows: seq<Chunk>, at: nat)
    requires Table(rows) && at < |rows|
    ensures Table(rows[..at] + rows[at + 1..])
  {
    var next := rows[..at] + rows[at + 1..];
    assert forall i :: 0 <= i < |next| ==> next[i] == if i < at then rows[i] else rows[i + 1];
  }

  lemma BehindAfterInsert(rows: seq<Chunk>, at: nat, c: Chunk, scope: Scope, cursor: Option<Cursor>)
    requires at <= |rows|
    ensures Behind(rows[..at] + [c] + rows[at..], scope, cursor)
         == Behind(rows, scope, cursor) + if IsBehind(scope, cursor, c) then {c.id} else {}
  {
    var next := rows[..at] + [c] + rows[at..];
    forall id | id in Behind(rows, scope, cursor) ensures id in Behind(next, scope, cursor) {
      var i :| 0 <= i < |rows| && IsBehind(scope, cursor, rows[i]) && rows[i].id == id;
      assert next[if i < at then i else i + 1] == rows[i];
    }
    forall id | id in Behind(next, scope, cursor)
      ensures id in Behind(rows, scope, cursor) || (id == c.id && IsBehind(scope, cursor, c))
    {
      var i :| 0 <= i < |next| && IsBehind(scope, cursor, next[i]) && next[i].id == id;
      assert i != at ==> next[i] == rows[if i < at then i else i - 1];
    }
    assert next[at] == c;
  }

  lemma BehindAfterDelete(rows: seq<Chunk>, at: nat, scope: Scope, cursor: Option<Cursor>)
    requires Table(rows) && at < |rows|
    ensures Behind(rows[..at] + rows[at + 1..], scope, cursor) == Behind(rows, scope, cursor) - {rows[at].id}
  {
    var next := rows[..at] + rows[at + 1..];
    forall id | id in Behind(rows, scope, cursor) && id != rows[at].id ensures id in Behind(next, scope, cursor) {
      var i :| 0 <= i < |rows| && IsBehind(scope, cursor, rows[i]) && rows[i].id == id;
      assert next[if i < at then i else i - 1] == rows[i];
    }
    forall id | id in Behind(next, scope, cursor) ensures id in Behind(rows, scope, cursor) && id != rows[at].id {
      var i :| 0 <= i < |next| && IsBehind(scope, cursor, next[i]) && next[i].id == id;
      assert next[i] == rows[if i < at then i else i + 1];
    }
  }

  ghost predicate Tracked(w: World, scope: Scope) {
    Table(w.rows) && w.strays == Behind(w.rows, scope, w.cursor)
  }

  lemma EventKeepsTracked(w: World, e: Event, v: World, scope: Scope, limit: nat, derive: Derive)
    requires Tracked(w, scope) && Happens(w, e, v, scope, limit, derive) && limit > 0
    ensures Tracked(v, scope)
  {
    match e {
      case Batched =>
        BatchKeepsTable(w.rows, scope, w.cursor, limit, derive);
        BatchKeepsBehind(w.rows, scope, w.cursor, limit, derive);
      case Inserted(at, c) =>
        BehindAfterInsert(w.rows, at, c, scope, w.cursor);
      case Deleted(at) =>
        TableWithout(w.rows, at);
        BehindAfterDelete(w.rows, at, scope, w.cursor);
    }
  }

  ghost predicate Runs(run: seq<World>, events: seq<Event>, scope: Scope, limit: nat, derive: Derive) {
    && |run| == |events| + 1 && Table(run[0].rows) && run[0].cursor == None && run[0].strays == {}
    && forall k :: 0 <= k < |events| ==> Happens(run[k], events[k], run[k + 1], scope, limit, derive)
  }

  /**
    Among inserts and deletes of other writers, `pending` counts at every moment the rows still ahead of the cursor
    and the rows inserted behind it; when nothing is ahead any more, `pending` is exactly the rows inserted behind
    the cursor.
   */
  lemma {:induction false} PendingIsAheadOrInsertedBehind(
    run: seq<World>, events: seq<Event>, scope: Scope, limit: nat, derive: Derive, k: nat)
    requires Runs(run, events, scope, limit, derive) && limit > 0 && k < |run|
    ensures Tracked(run[k], scope)
    ensures Count(run[k].rows, scope, true) == |Matching(run[k].rows, scope, run[k].cursor)| + |run[k].strays|
    decreases k
  {
    if k > 0 {
      PendingIsAheadOrInsertedBehind(run, events, scope, limit, derive, k - 1);
      assert Happens(run[k - 1], events[k - 1], run[k - 1 + 1], scope, limit, derive);
      EventKeepsTracked(run[k - 1], events[k - 1], run[k], scope, limit, derive);
    }
    PendingSplits(run[k].rows, scope, run[k].cursor);
  }

  // ----- Resume tokens -----

  /** A token names the scope it was made for; the scope digest is taken to be injective. */
  datatype Token = Token(scope: Scope, cursor: Cursor)

  function ReadToken(scope: Scope, token: Token): Option<Cursor> {
    if token.scope != scope || (scope.from.Some? && token.cursor.document < scope.from.value)
       || (scope.through.Some? && token.cursor.document > scope.through.value) then None
    else Some(token.cursor)
  }

  /** The token of a batch that selected something resumes its own scope, and no other. */
  lemma TokensResumeTheirScope(
    rows: seq<Chunk>, scope: Scope, cursor: Option<Cursor>, limit: nat, derive: Derive, other: Scope)
    requires Select(rows, scope, cursor, limit) != []
    ensures var resume := Batch(rows, scope, cursor, limit, derive).1;
            resume.Some? && ReadToken(other, Token(scope, resume.value)) == if other == scope then resume else None
  {
    var positions := Take(Matching(rows, scope, cursor), limit);
    MatchingMembers(rows, scope, cursor);
    assert positions[|positions| - 1] in Matching(rows, scope, cursor);
  }

  /** A token is read exactly for its own scope, and only while its document lies in the range of the scope. */
  lemma TokensOutsideTheRangeAreRefused(scope: Scope, token: Token)
    ensures ReadToken(scope, token) == Some(token.cursor) || ReadToken(scope, token) == None
    ensures ReadToken(scope, token) == None
       <==> || token.scope != scope
            || (scope.from != None && token.cursor.document < scope.from.value)
            || (scope.through != None && scope.through.value < token.cursor.document)
  {
  }
}
