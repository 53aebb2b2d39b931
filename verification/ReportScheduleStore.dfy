/** The PostgreSQL repository of one report schedule, statement by statement. */
module ReportScheduleStore {
  import opened Options
  import opened ReportSchedule

  /** A long enumeration is a short one followed by what remains. */
  lemma {:induction false} EnumerationsChain(slots: Slots, next: nat, asOf: int, limit: nat, first: nat)
    requires first <= limit
    ensures var n := DueCount(slots, next, asOf, first);
            DueCount(slots, next, asOf, limit) == n + DueCount(slots, next + n, asOf, limit - n)
    decreases limit
  {
    if first > 0 && slots(next) <= asOf {
      EnumerationsChain(slots, next + 1, asOf, limit - 1, first - 1);
    }
  }

  /** The count is the length of the run of due slots, cut at the limit. */
  lemma {:induction false} CountsDueSlots(slots: Slots, next: nat, asOf: int, limit: nat, n: nat)
    requires n <= limit && forall i: nat :: next <= i < next + n ==> slots(i) <= asOf
    requires n == limit || slots(next + n) > asOf
    ensures DueCount(slots, next, asOf, limit) == n
    decreases limit
  {
    if n > 0 {
      CountsDueSlots(slots, next + 1, asOf, limit - 1, n - 1);
    }
  }

  /** The counted slots are due, and the next one is not unless the limit is reached. */
  lemma {:induction false} DueSlotsAreCounted(slots: Slots, next: nat, asOf: int, limit: nat)
    ensures var n := DueCount(slots, next, asOf, limit);
            (forall i: nat :: next <= i < next + n ==> slots(i) <= asOf) && (n < limit ==> slots(next + n) > asOf)
    decreases limit
  {
    if limit > 0 && slots(next) <= asOf {
      DueSlotsAreCounted(slots, next + 1, asOf, limit - 1);
    }
  }

  /** `after` is `before` with the missing periods of [from, to) pending and untouched. */
  ghost predicate Added(before: map<nat, PeriodRun>, after: map<nat, PeriodRun>, from: nat, to: nat) {
    && (forall p :: p in after <==> p in before || from <= p < to)
    && (forall p :: p in after ==> after[p] == if p in before then before[p] else FRESH)
  }

  lemma AddedTwice(a: map<nat, PeriodRun>, b: map<nat, PeriodRun>, c: map<nat, PeriodRun>, from: nat, mid: nat, to: nat)
    requires from <= mid <= to && Added(a, b, from, mid) && Added(b, c, mid, to)
    ensures Added(a, c, from, to)
  {
  }

  lemma AddedKeepsInv(s: State, runs: map<nat, PeriodRun>, schedule: Schedule, issued: int)
    requires Inv(s) && s.schedule.next <= schedule.next && Added(s.runs, runs, s.schedule.next, schedule.next)
    requires schedule.retryCount == s.schedule.retryCount
    requires schedule.token.Some? ==> schedule.token.value < issued
    ensures Inv(State(s.now, schedule, runs, map[], map[], issued))
  {
    forall i, j | i in runs && j in runs && i < j && !Finished(runs[i]) ensures Untouched(runs[j]) {
      if j in s.runs {
        assert Covers(s.runs, j);
      }
    }
    forall i | i in runs ensures Covers(runs, i) {
      if i in s.runs {
        assert Covers(s.runs, i);
      }
    }
  }

  lemma BatchIsCounted(slots: Slots, next: nat, asOf: int, limit: nat, count: nat)
    requires count <= BatchSize(limit) && forall i: nat :: next <= i < next + count ==> slots(i) <= asOf
    requires count == BatchSize(limit) || slots(next + count) > asOf
    ensures count == DueCount(slots, next, asOf, BatchSize(limit))
    ensures DueCount(slots, next, asOf, limit) == count + DueCount(slots, next + count, asOf, limit - count)
    ensures limit > 0 && slots(next) <= asOf ==> count > 0
  {
    CountsDueSlots(slots, next, asOf, BatchSize(limit), count);
    EnumerationsChain(slots, next, asOf, limit, BatchSize(limit));
  }

  /** The next due periods, as many as one claim takes of the `limit` that are wanted. */
  method EnumerateDue(slots: Slots, next: nat, asOf: int, limit: nat) returns (count: nat)
    ensures count == DueCount(slots, next, asOf, BatchSize(limit))
    ensures DueCount(slots, next, asOf, limit) == count + DueCount(slots, next + count, asOf, limit - count)
    ensures limit > 0 && slots(next) <= asOf ==> count > 0
  {
    var batch := BatchSize(limit);
    count := 0;
    while count < batch && slots(next + count) <= asOf
      invariant count <= batch
      invariant forall i: nat :: next <= i < next + count ==> slots(i) <= asOf
    {
      count := count + 1;
    }
    BatchIsCounted(slots, next, asOf, limit, count);
  }

  /** The worker's token is on the run, and its lease has not ended. */
  ghost predicate Leased(runs: map<nat, PeriodRun>, now: int, run: nat, token: Token) {
    run in runs && runs[run].token == Some(token) && runs[run].lease.Some? && runs[run].lease.value > now
  }

  /** A run that waits, or whose worker's lease has ended, while all earlier ones are succeeded or skipped. */
  ghost predicate Claimable(runs: map<nat, PeriodRun>, now: int, i: nat) {
    && i in runs
    && (var r := runs[i];
        || (r.status == Pending && (r.lease == None || r.lease.value <= now))
        || (r.status == RetryWait && r.nextAttempt.Some? && r.nextAttempt.value <= now
            && (r.lease == None || r.lease.value <= now))
        || (r.status == Running && r.lease.Some? && r.lease.value <= now))
    && forall j :: j in runs && j < i ==> runs[j].status == Succeeded || runs[j].status == Skipped
  }

  lemma OnlyTheHeadIsClaimable(runs: map<nat, PeriodRun>, now: int, head: nat)
    requires head in runs && !Finished(runs[head]) && forall j :: j in runs && j < head ==> Finished(runs[j])
    ensures forall j: nat :: Claimable(runs, now, j) ==> j == head
  {
    forall j: nat | Claimable(runs, now, j) ensures j == head {
    }
  }

  lemma FinishedAreNotClaimable(runs: map<nat, PeriodRun>, now: int, end: nat)
    requires GapFree(runs) && end !in runs && forall j :: j in runs && j < end ==> Finished(runs[j])
    ensures forall j: nat :: !Claimable(runs, now, j)
  {
    forall j | j in runs ensures j < end {
      assert Covers(runs, j);
    }
  }

  class Store {
    const slots: Slots
    var now: int
    var next: nat
    var scheduleToken: Option<Token>
    var scheduleLease: Option<int>
    var retryCount: nat
    var runs: map<nat, PeriodRun>
    var issued: int

    constructor (slots: Slots)
      ensures this.slots == slots && Inv(Db())
    {
      this.slots := slots;
      now, next, issued, retryCount := 0, 0, 0, 0;
      scheduleToken, scheduleLease, runs := None, None, map[];
    }

    /** The tables, seen from outside any materializer. */
    function Db(): State
      reads this
    {
      State(now, Schedule(next, scheduleToken, scheduleLease, retryCount), runs, map[], map[], issued)
    }

    /** Leases the schedule when it is due: the token, the first ordinal and the claim instant. */
    method ClaimDueSchedule() returns (claim: Option<Token>)
      modifies this`scheduleToken, this`scheduleLease, this`issued
      ensures claim.Some? <==> slots(next) <= now && (old(scheduleLease) == None || old(scheduleLease).value <= now)
      ensures claim.Some? ==>
                && claim == Some(old(issued)) && issued == old(issued) + 1
                && scheduleToken == claim && scheduleLease == Some(now + 15 * MINUTE)
      ensures claim.None? ==>
                scheduleToken == old(scheduleToken) && scheduleLease == old(scheduleLease) && issued == old(issued)
    {
      claim := None;
      if slots(next) <= now && Free(scheduleLease, now) {
        claim := Some(issued);
        scheduleToken := claim;
        scheduleLease := Some(now + LEASE);
        issued := issued + 1;
      }
    }

    /** `ON CONFLICT DO NOTHING`: a period that is present stays as it is. */
    method InsertPeriod(period: nat)
      modifies this`runs
      ensures runs == if period in old(runs) then old(runs)
                      else old(runs)[period := PeriodRun(Pending, 0, None, None, None, None)]
    {
      if period !in runs {
        runs := runs[period := PeriodRun(Pending, 0, None, None, None, None)];
      }
    }

    method ReleaseSchedule(token: Token, nextRun: nat) returns (released: bool)
      modifies this`next, this`scheduleToken, this`scheduleLease
      ensures released
              <==> old(scheduleToken) == Some(token) && old(scheduleLease).Some? && old(scheduleLease).value > now
      ensures released ==> next == nextRun && scheduleToken == None && scheduleLease == None
      ensures !released ==>
                next == old(next) && scheduleToken == old(scheduleToken) && scheduleLease == old(scheduleLease)
    {
      released := scheduleToken == Some(token) && scheduleLease.Some? && scheduleLease.value > now;
      if released {
        next, scheduleToken, scheduleLease := nextRun, None, None;
      }
    }

    /**
      One uninterrupted call. It reports at most `limit`, and however its claims split the work
      into batches of ten it materializes exactly the first `limit` due periods, leaving
      `next_run_at` after them; a schedule under another worker's lease is left alone.
     */
    method MaterializeDue(limit: nat) returns (materialized: nat)
      requires Inv(Db())
      modifies this`next, this`scheduleToken, this`scheduleLease, this`runs, this`issued
      ensures Inv(Db()) && retryCount == old(retryCount)
      ensures materialized == if Free(old(scheduleLease), now) then DueCount(slots, old(next), now, limit) else 0
      ensures materialized <= limit && next == old(next) + materialized
      ensures forall i: nat :: old(next) <= i < next ==> slots(i) <= now
      ensures materialized < limit ==>
                slots(next) > now || (materialized == 0 && old(scheduleLease).Some? && old(scheduleLease).value > now)
      ensures Added(old(runs), runs, old(next), next)
    {
      ghost var s := Db();
      materialized := MaterializeUpTo(limit);
      DueSlotsAreCounted(slots, old(next), now, limit);
      AddedKeepsInv(s, runs, Schedule(next, scheduleToken, scheduleLease, retryCount), issued);
    }

    method MaterializeUpTo(limit: nat) returns (materialized: nat)
      requires scheduleToken.Some? ==> scheduleToken.value < issued
      modifies this`next, this`scheduleToken, this`scheduleLease, this`runs, this`issued
      ensures scheduleToken.Some? ==> scheduleToken.value < issued
      ensures materialized == if Free(old(scheduleLease), now) then DueCount(slots, old(next), now, limit) else 0
      ensures next == old(next) + materialized && Added(old(runs), runs, old(next), next)
    {
      materialized := 0;
      ghost var total, free := DueCount(slots, next, now, limit), Free(scheduleLease, now);
      while materialized < limit
        invariant scheduleToken.Some? ==> scheduleToken.value < issued
        invariant materialized <= limit && next == old(next) + materialized
        invariant total == materialized + DueCount(slots, next, now, limit - materialized)
        invariant Free(scheduleLease, now) <==> free
        invariant !free ==> materialized == 0
        invariant Added(old(runs), runs, old(next), next)
      {
        ghost var before, from := runs, next;
        var count := MaterializeBatch(limit - materialized);
        if count.None? {
          break;
        }
        AddedTwice(old(runs), before, runs, old(next), from, next);
        materialized := materialized + count.value;
      }
    }

    /** One claim of the loop: at most ten periods, then the lease is given back. */
    method MaterializeBatch(limit: nat) returns (count: Option<nat>)
      requires limit > 0 && (scheduleToken.Some? ==> scheduleToken.value < issued)
      modifies this`next, this`scheduleToken, this`scheduleLease, this`runs, this`issued
      ensures count.Some? <==> slots(old(next)) <= now && Free(old(scheduleLease), now)
      ensures count.Some? ==>
                && 0 < count.value <= limit
                && DueCount(slots, old(next), now, limit)
                   == count.value + DueCount(slots, next, now, limit - count.value)
                && next == old(next) + count.value && scheduleToken == None && scheduleLease == None
                && Added(old(runs), runs, old(next), next)
      ensures count.None? ==>
                && next == old(next) && scheduleToken == old(scheduleToken) && scheduleLease == old(scheduleLease)
                && runs == old(runs) && issued == old(issued)
    {
      count := None;
      var claim := ClaimDueSchedule();
      if claim.Some? {
        var due := MaterializeClaimed(claim.value, limit);
        count := Some(due);
      }
    }

    /** Inserts the next due periods under the claim that was just made, and releases it behind them. */
    method MaterializeClaimed(token: Token, limit: nat) returns (count: nat)
      requires limit > 0 && slots(next) <= now && scheduleToken == Some(token) && scheduleLease == Some(now + LEASE)
      modifies this`next, this`scheduleToken, this`scheduleLease, this`runs
      ensures 0 < count <= limit
      ensures DueCount(slots, old(next), now, limit) == count + DueCount(slots, next, now, limit - count)
      ensures next == old(next) + count && scheduleToken == None && scheduleLease == None
      ensures Added(old(runs), runs, old(next), next)
    {
      count := EnumerateDue(slots, next, now, limit);
      InsertPeriods(count);
      var released := ReleaseSchedule(token, next + count);
      assert released;
    }

    method InsertPeriods(count: nat)
      modifies this`runs
      ensures Added(old(runs), runs, next, next + count)
    {
      for i := 0 to count
        invariant Added(old(runs), runs, next, next + i)
      {
        InsertPeriod(next + i);
      }
    }

    method LeaseRun(i: nat, token: Token)
      requires Inv(Db()) && Claimable(runs, now, i)
      modifies this`runs
      ensures Db() == Apply(old(Db()), ClaimRun(i, token), slots) && Inv(Db())
      ensures var r := old(runs)[i];
              runs == old(runs)[i := PeriodRun(
                Running, r.attempts, r.nextAttempt, Some(token), Some(now + 15 * MINUTE), Some(now))]
    {
      ClaimKeepsOrder(Db(), i, token, slots);
      MaterializeStep(Db(), ClaimRun(i, token), slots);
      runs := runs[i := runs[i].(
        status := Running, token := Some(token), lease := Some(now + LEASE), startedAt := Some(now))];
    }

    /** Claims the first run that is due and unlocked: only the head of the schedule ever is. */
    method ClaimRunnable(limit: nat, token: Token, locked: set<nat>) returns (claimed: Option<nat>)
      requires Inv(Db())
      modifies this`runs
      ensures claimed.Some? ==>
                && Claimable(old(runs), now, claimed.value) && claimed.value !in locked
                && Db() == Apply(old(Db()), ClaimRun(claimed.value, token), slots)
                && (var r := old(runs)[claimed.value];
                    runs == old(runs)[claimed.value := PeriodRun(
                      Running, r.attempts, r.nextAttempt, Some(token), Some(now + 15 * MINUTE), Some(now))])
      ensures claimed.None? ==>
                runs == old(runs) && (limit == 0 || forall i: nat :: Claimable(runs, now, i) ==> i in locked)
      ensures Inv(Db())
    {
      claimed := None;
      var i := 0;
      var oldestOpen := true;
      while limit > 0 && oldestOpen && i in runs
        invariant claimed.None? && runs == old(runs)
        invariant forall j :: j in runs && j < i && oldestOpen ==> Finished(runs[j])
        invariant !oldestOpen ==> forall j: nat :: Claimable(runs, now, j) ==> j in locked
        decreases oldestOpen, |runs.Keys| - i
      {
        if Finished(runs[i]) {
          Inside(runs, i);
          i := i + 1;
        } else if DueRow(runs[i], now) && i !in locked {
          LeaseRun(i, token);
          return Some(i);
        } else {
          OnlyTheHeadIsClaimable(runs, now, i);
          oldestOpen := false;
        }
      }
      if limit > 0 && oldestOpen {
        FinishedAreNotClaimable(runs, now, i);
      }
    }

    method Heartbeat(run: nat, token: Token) returns (extended: bool)
      modifies this`runs
      ensures Db() == Apply(old(Db()), ReportSchedule.Heartbeat(run, token), slots)
      ensures extended <==> && Leased(old(runs), now, run, token) && old(runs)[run].startedAt.Some?
                            && now < old(runs)[run].startedAt.value + 60 * MINUTE
      ensures !extended ==> runs == old(runs)
      ensures extended ==>
                var fifteen, hour := now + 15 * MINUTE, old(runs)[run].startedAt.value + 60 * MINUTE;
                runs == old(runs)[run := old(runs)[run].(lease := Some(if fifteen < hour then fifteen else hour))]
    {
      extended := Holds(Db(), run, token) && runs[run].startedAt.Some? && runs[run].startedAt.value + MAX_LEASE > now;
      if extended {
        var fresh', cap := now + LEASE, runs[run].startedAt.value + MAX_LEASE;
        runs := runs[run := runs[run].(lease := Some(if fresh' < cap then fresh' else cap))];
      }
    }

    method MarkSucceeded(run: nat, token: Token) returns (updated: bool)
      modifies this`runs, this`retryCount
      ensures Db() == Apply(old(Db()), ReportSchedule.MarkSucceeded(run, token), slots)
      ensures updated <==> Leased(old(runs), now, run, token)
      ensures !updated ==> runs == old(runs) && retryCount == old(retryCount)
      ensures updated ==>
                var r := old(runs)[run];
                && runs == old(runs)[run := PeriodRun(Succeeded, r.attempts, r.nextAttempt, None, None, r.startedAt)]
                && retryCount == 0
    {
      updated := Close(run, token, Succeeded);
    }

    method MarkSkipped(run: nat, token: Token) returns (updated: bool)
      modifies this`runs, this`retryCount
      ensures Db() == Apply(old(Db()), ReportSchedule.MarkSkipped(run, token), slots)
      ensures updated <==> Leased(old(runs), now, run, token)
      ensures !updated ==> runs == old(runs) && retryCount == old(retryCount)
      ensures updated ==>
                var r := old(runs)[run];
                && runs == old(runs)[run := PeriodRun(Skipped, r.attempts, r.nextAttempt, None, None, r.startedAt)]
                && retryCount == 0
    {
      updated := Close(run, token, Skipped);
    }

    /** Both completions update the run first and, only if it was still held, the summary. */
    method Close(run: nat, token: Token, status: RunStatus) returns (updated: bool)
      modifies this`runs, this`retryCount
      ensures updated <==> Leased(old(runs), now, run, token)
      ensures !updated ==> runs == old(runs) && retryCount == old(retryCount)
      ensures updated ==>
                var r := old(runs)[run];
                && runs == old(runs)[run := PeriodRun(status, r.attempts, r.nextAttempt, None, None, r.startedAt)]
                && retryCount == 0
    {
      updated := Holds(Db(), run, token);
      if updated {
        var r := runs[run];
        runs := runs[run := PeriodRun(status, r.attempts, r.nextAttempt, None, None, r.startedAt)];
        retryCount := 0;
      }
    }

    method MarkFailed(run: nat, token: Token) returns (updated: bool)
      modifies this`runs, this`retryCount
      ensures Db() == Apply(old(Db()), ReportSchedule.MarkFailed(run, token), slots)
      ensures updated <==> Leased(old(runs), now, run, token)
      ensures !updated ==> runs == old(runs) && retryCount == old(retryCount)
      ensures updated ==>
                var r := old(runs)[run];
                && retryCount == r.attempts + 1
                && runs == old(runs)[run := PeriodRun(
                     if r.attempts < 3 then RetryWait else RetryExhausted, r.attempts + 1,
                     if r.attempts == 0 then Some(now + 15 * MINUTE)
                     else if r.attempts == 1 then Some(now + 60 * MINUTE)
                     else if r.attempts == 2 then Some(now + 360 * MINUTE)
                     else None,
                     None, None, r.startedAt)]
    {
      updated := Holds(Db(), run, token);
      if updated {
        var r := runs[run];
        var status := if r.attempts >= 3 then RetryExhausted else RetryWait;
        var nextAttempt := None;
        if r.attempts == 0 {
          nextAttempt := Some(now + 15 * MINUTE);
        } else if r.attempts == 1 {
          nextAttempt := Some(now + 60 * MINUTE);
        } else if r.attempts == 2 {
          nextAttempt := Some(now + 360 * MINUTE);
        }
        runs := runs[run := PeriodRun(status, r.attempts + 1, nextAttempt, None, None, r.startedAt)];
        retryCount := r.attempts + 1;
      }
    }
  }

  lemma Inside(runs: map<nat, PeriodRun>, i: nat)
    requires GapFree(runs) && i in runs
    ensures i < |runs.Keys|
  {
    KeysBelow(runs, i + 1);
  }
}
