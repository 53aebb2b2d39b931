/** The table of source schedules, from which one statement claims the earliest due rows. */
module SourceSyncTable {
  import opened Collections
  import opened Options
  import opened SourceSync

  /** Due and free, as `Due` says of the single schedule. */
  predicate DueRow(row: Row, now: Time) {
    row.nextRun <= now && (row.token.None? || row.lease <= now)
  }

  function ClaimedRow(row: Row, now: Time, token: Token): Row {
    row.(token := Some(token), lease := now + LEASE, started := now)
  }

  /** The claim of a row is the claim step of its schedule. */
  lemma ClaimsAreSteps(plan: Plan, row: Row, log: seq<Entry>, now: Time, token: Token)
    ensures Apply(plan, State(now, row, log), Claim(token)).row
         == if DueRow(row, now) then ClaimedRow(row, now, token) else row
  {
  }

  /** `ORDER BY next_run_at, id` */
  predicate Earlier(rows: map<int, Row>, a: int, b: int)
    requires a in rows && b in rows
  {
    rows[a].nextRun < rows[b].nextRun || (rows[a].nextRun == rows[b].nextRun && a < b)
  }

  /** `enabled` are the rows whose schedule and source are enabled; locked rows are skipped. */
  function Candidates(rows: map<int, Row>, now: Time, enabled: set<int>, locked: set<int>): set<int> {
    set id | id in rows && id in enabled && id !in locked && DueRow(rows[id], now)
  }

  /** The first rows of the candidates, in order: as many as the limit allows. */
  ghost predicate Earliest(rows: map<int, Row>, candidates: set<int>, limit: nat, picked: seq<int>) {
    && |picked| <= limit && (forall i :: 0 <= i < |picked| ==> picked[i] in candidates && picked[i] in rows)
    && (forall i, j :: 0 <= i < j < |picked| ==> Earlier(rows, picked[i], picked[j]))
    && (forall id :: id in candidates && id !in picked ==>
          id in rows && |picked| == limit && forall i :: 0 <= i < |picked| ==> Earlier(rows, picked[i], id))
  }

  method Least(rows: map<int, Row>, ids: set<int>) returns (least: int)
    requires ids != {} && forall id :: id in ids ==> id in rows
    ensures least in ids && forall id :: id in ids && id != least ==> Earlier(rows, least, id)
  {
    ghost var some := SomeElement(ids);
    least :| least in ids;
    var rest := ids - {least};
    while rest != {}
      invariant rest <= ids && least in ids && least !in rest
      invariant forall id :: id in ids && id !in rest && id != least ==> Earlier(rows, least, id)
      decreases rest
    {
      ghost var some := SomeElement(rest);
      var id :| id in rest;
      if Earlier(rows, id, least) {
        least := id;
      }
      rest := rest - {id};
    }
  }

  /** Rows picked one by one, each the least of what is left, are the earliest. */
  method PickEarliest(rows: map<int, Row>, candidates: set<int>, limit: nat) returns (picked: seq<int>)
    requires forall id :: id in candidates ==> id in rows
    ensures Earliest(rows, candidates, limit, picked)
  {
    picked := [];
    var rest := candidates;
    while |picked| < limit && rest != {}
      invariant |picked| <= limit && rest <= candidates
      invariant forall i :: 0 <= i < |picked| ==> picked[i] in candidates && picked[i] !in rest
      invariant forall i, j :: 0 <= i < j < |picked| ==> Earlier(rows, picked[i], picked[j])
      invariant forall id :: id in candidates ==> id in rest || id in picked
      invariant forall id, i :: id in rest && 0 <= i < |picked| ==> Earlier(rows, picked[i], id)
      decreases rest
    {
      var least := Least(rows, rest);
      picked := picked + [least];
      rest := rest - {least};
    }
    forall id | id in candidates && id !in picked
      ensures |picked| == limit && forall i :: 0 <= i < |picked| ==> Earlier(rows, picked[i], id)
    {
      assert id in rest;
    }
  }

  /** The row may be claimed: enabled, not locked, due, and not held under a live lease. */
  ghost predicate Open(rows: map<int, Row>, now: Time, enabled: set<int>, locked: set<int>, id: int) {
    && id in rows && id in enabled && id !in locked
    && rows[id].nextRun <= now && (rows[id].token == None || rows[id].lease <= now)
  }

  /** The claimed rows are open, in order of their next run and id, and come before any open row that is left. */
  ghost predicate ClaimsEarliest(
    rows: map<int, Row>, now: Time, limit: nat, enabled: set<int>, locked: set<int>, claimed: seq<int>)
  {
    && |claimed| <= limit && (forall i :: 0 <= i < |claimed| ==> Open(rows, now, enabled, locked, claimed[i]))
    && (forall i, j :: 0 <= i < j < |claimed| ==>
          || rows[claimed[i]].nextRun < rows[claimed[j]].nextRun
          || (rows[claimed[i]].nextRun == rows[claimed[j]].nextRun && claimed[i] < claimed[j]))
    && (forall id :: Open(rows, now, enabled, locked, id) && id !in claimed ==>
          |claimed| == limit && forall i :: 0 <= i < |claimed| ==>
            || rows[claimed[i]].nextRun < rows[id].nextRun
            || (rows[claimed[i]].nextRun == rows[id].nextRun && claimed[i] < id))
  }

  lemma EarliestAreClaimed(
    rows: map<int, Row>, now: Time, limit: nat, enabled: set<int>, locked: set<int>, claimed: seq<int>)
    requires Earliest(rows, Candidates(rows, now, enabled, locked), limit, claimed)
    ensures ClaimsEarliest(rows, now, limit, enabled, locked, claimed)
  {
    var candidates := Candidates(rows, now, enabled, locked);
    forall id ensures id in candidates <==> Open(rows, now, enabled, locked, id) {
    }
    forall i, j | 0 <= i < j < |claimed|
      ensures rows[claimed[i]].nextRun < rows[claimed[j]].nextRun
              || (rows[claimed[i]].nextRun == rows[claimed[j]].nextRun && claimed[i] < claimed[j])
    {
      assert Earlier(rows, claimed[i], claimed[j]);
    }
    forall id | Open(rows, now, enabled, locked, id) && id !in claimed
      ensures |claimed| == limit
      ensures forall i :: 0 <= i < |claimed| ==>
                || rows[claimed[i]].nextRun < rows[id].nextRun
                || (rows[claimed[i]].nextRun == rows[id].nextRun && claimed[i] < id)
    {
      assert id in candidates;
      forall i | 0 <= i < |claimed|
        ensures rows[claimed[i]].nextRun < rows[id].nextRun
                || (rows[claimed[i]].nextRun == rows[id].nextRun && claimed[i] < id)
      {
        assert Earlier(rows, claimed[i], id);
      }
    }
  }

  class Schedules {
    var rows: map<int, Row>

    /** Claims the earliest due rows, up to the limit, and leaves all others as they are. */
    method ClaimDue(now: Time, limit: nat, token: Token, enabled: set<int>, locked: set<int>)
      returns (claimed: seq<int>)
      modifies this
      ensures Earliest(old(rows), Candidates(old(rows), now, enabled, locked), limit, claimed)
      ensures ClaimsEarliest(old(rows), now, limit, enabled, locked, claimed)
      ensures rows.Keys == old(rows.Keys)
      ensures forall id :: id in rows ==>
                rows[id] == if id !in claimed then old(rows)[id]
                            else Row(old(rows)[id].nextRun, Some(token), now + 15 * MINUTE, now, old(rows)[id].retries)
    {
      ghost var before := rows;
      claimed := PickEarliest(rows, Candidates(rows, now, enabled, locked), limit);
      EarliestAreClaimed(rows, now, limit, enabled, locked, claimed);
      for i := 0 to |claimed|
        invariant rows.Keys == before.Keys
        invariant forall id :: id in rows ==>
                    rows[id] == if id in claimed[..i] then ClaimedRow(before[id], now, token) else before[id]
      {
        var id := claimed[i];
        assert claimed[..i + 1] == claimed[..i] + [id] && id !in claimed[..i];
        rows := rows[id := rows[id].(token := Some(token), lease := now + LEASE, started := now)];
      }
      assert claimed[..|claimed|] == claimed;
    }
  }

  /** What one statement claims is determined: there is only one list of earliest rows. */
  lemma {:induction false} EarliestIsUnique(
    rows: map<int, Row>, candidates: set<int>, limit: nat, a: seq<int>, b: seq<int>, n: nat)
    requires Earliest(rows, candidates, limit, a) && Earliest(rows, candidates, limit, b) && n <= |a|
    ensures n <= |b| && a[..n] == b[..n]
  {
    if n > 0 {
      EarliestIsUnique(rows, candidates, limit, a, b, n - 1);
      var x := a[n - 1];
      if n - 1 == |b| {
        assert false;
      }
      var y := b[n - 1];
      if x != y {
        assert x !in b[..n - 1] && y !in a[..n - 1];
        assert Earlier(rows, x, y) by { ComesFirst(rows, candidates, limit, a, n - 1, y); }
        assert Earlier(rows, y, x) by { ComesFirst(rows, candidates, limit, b, n - 1, x); }
      }
      assert a[..n] == a[..n - 1] + [x] && b[..n] == b[..n - 1] + [b[n - 1]];
    }
  }

  lemma ComesFirst(rows: map<int, Row>, candidates: set<int>, limit: nat, a: seq<int>, i: nat, y: int)
    requires Earliest(rows, candidates, limit, a) && i < |a| && y in candidates && y !in a[..i] && y != a[i]
    ensures y in rows && Earlier(rows, a[i], y)
  {
    if y in a {
      assert a == a[..i] + a[i..] && y in a[i..];
      var j :| 0 <= j < |a[i..]| && a[i..][j] == y;
      assert a[i + j] == y && j > 0;
    }
  }
}
