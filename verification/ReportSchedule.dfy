/**
  The report schedule of one project: its materializers and its period runs, under any
  interleaving of the statements that any number of dispatchers issue.

  A period is named by its ordinal in the strictly increasing sequence of schedule slots, so
  ordinals order runs the way (period_start, period_end, id) does.
 */
module ReportSchedule {
  import opened Options

  type Token = int

  const MINUTE := 60_000_000
  const LEASE := 15 * MINUTE
  const MAX_LEASE := 60 * MINUTE
  const PERIODS_PER_CLAIM: nat := 10

  datatype RunStatus = Pending | Running | Succeeded | Skipped | RetryWait | RetryExhausted

  datatype PeriodRun = PeriodRun(
    status: RunStatus, attempts: nat, nextAttempt: Option<int>,
    token: Option<Token>, lease: Option<int>, startedAt: Option<int>)

  /** `next` is the ordinal of the slot at `next_run_at`. */
  datatype Schedule = Schedule(next: nat, token: Option<Token>, lease: Option<int>, retryCount: nat)

  /** A materializer between its claim and its release: the next period to insert and the end. */
  datatype Materializer = Materializer(token: Token, cursor: nat, stop: nat)

  /** A call of the materializer from its start to its return, over any number of claims. */
  datatype Call = Call(limit: nat, reported: nat)

  datatype State = State(
    now: int, schedule: Schedule, runs: map<nat, PeriodRun>, calls: map<int, Call>, workers: map<int, Materializer>,
    issued: int)

  datatype Event =
    | Tick(elapsed: nat)
    | BeginCall(worker: int, limit: nat)
    | ClaimSchedule(worker: int)
    | InsertPeriod(worker: int)
    | ReleaseSchedule(worker: int)
    | EndCall(worker: int)
    | Crash(worker: int)
    | ClaimRun(run: nat, token: Token)
    | Heartbeat(run: nat, token: Token)
    | MarkSucceeded(run: nat, token: Token)
    | MarkSkipped(run: nat, token: Token)
    | MarkFailed(run: nat, token: Token)

  /** The instants of the slots. */
  type Slots = nat -> int

  const FRESH := PeriodRun(Pending, 0, None, None, None, None)

  // ----- Guards -----

  predicate Free(lease: Option<int>, now: int) {
    lease.None? || lease.value <= now
  }

  predicate Finished(r: PeriodRun) {
    r.status == Succeeded || r.status == Skipped
  }

  predicate DueRow(r: PeriodRun, now: int) {
    || (r.status == Pending && Free(r.lease, now))
    || (r.status == RetryWait && r.nextAttempt.Some? && r.nextAttempt.value <= now && Free(r.lease, now))
    || (r.status == Running && r.lease.Some? && r.lease.value <= now)
  }

  predicate CanClaim(s: State, i: nat) {
    && i in s.runs && DueRow(s.runs[i], s.now)
    && forall j :: j in s.runs && j < i ==> Finished(s.runs[j])
  }

  /** `worker_token` matches and the lease has not ended. */
  predicate Holds(s: State, i: nat, token: Token) {
    i in s.runs && s.runs[i].token == Some(token) && s.runs[i].lease.Some? && s.runs[i].lease.value > s.now
  }

  predicate ScheduleDue(s: State, slots: Slots) {
    slots(s.schedule.next) <= s.now && Free(s.schedule.lease, s.now)
  }

  /** How many of `limit` periods one claim of the schedule may enumerate. */
  function BatchSize(limit: nat): (n: nat)
    ensures n <= limit && n <= 10 && (n == limit || n == 10)
  {
    if limit <= PERIODS_PER_CLAIM then limit else PERIODS_PER_CLAIM
  }

  /** How many consecutive slots from `next` are due, up to `limit`. */
  function DueCount(slots: Slots, next: nat, asOf: int, limit: nat): (n: nat)
    ensures n <= limit
    decreases limit
  {
    if limit == 0 || slots(next) > asOf then 0 else 1 + DueCount(slots, next + 1, asOf, limit - 1)
  }

  // ----- Steps -----

  function Claimed(r: PeriodRun, now: int, token: Token): PeriodRun {
    r.(status := Running, token := Some(token), lease := Some(now + LEASE), startedAt := Some(now))
  }

  function Extended(r: PeriodRun, now: int): PeriodRun
    requires r.startedAt.Some?
  {
    var cap := r.startedAt.value + MAX_LEASE;
    r.(lease := Some(if now + LEASE <= cap then now + LEASE else cap))
  }

  function Completed(r: PeriodRun, status: RunStatus): PeriodRun {
    r.(status := status, token := None, lease := None)
  }

  function Backoff(attempts: nat): Option<int> {
    if attempts == 0 then Some(15 * MINUTE)
    else if attempts == 1 then Some(60 * MINUTE)
    else if attempts == 2 then Some(360 * MINUTE)
    else None
  }

  function FailedRun(r: PeriodRun, now: int): PeriodRun {
    r.(status := if r.attempts >= 3 then RetryExhausted else RetryWait,
       attempts := r.attempts + 1,
       nextAttempt := match Backoff(r.attempts) case None => None case Some(wait) => Some(now + wait),
       token := None, lease := None)
  }

  function Apply(s: State, e: Event, slots: Slots): State {
    match e
    case Tick(elapsed) => s.(now := s.now + elapsed)
    case BeginCall(w, limit) => if w in s.calls then s else s.(calls := s.calls[w := Call(limit, 0)])
    case ClaimSchedule(w) =>
      if w !in s.calls || w in s.workers || s.calls[w].reported >= s.calls[w].limit || !ScheduleDue(s, slots) then s
      else
        var next, wanted := s.schedule.next, s.calls[w].limit - s.calls[w].reported;
        s.(schedule := s.schedule.(token := Some(s.issued), lease := Some(s.now + LEASE)),
           workers := s.workers[w := Materializer(
             s.issued, next, next + DueCount(slots, next, s.now, BatchSize(wanted)))],
           issued := s.issued + 1)
    case InsertPeriod(w) =>
      if w !in s.calls || w !in s.workers || s.workers[w].cursor >= s.workers[w].stop then s
      else
        var m := s.workers[w];
        s.(runs := if m.cursor in s.runs then s.runs else s.runs[m.cursor := FRESH],
           calls := s.calls[w := s.calls[w].(reported := s.calls[w].reported + 1)],
           workers := s.workers[w := m.(cursor := m.cursor + 1)])
    case ReleaseSchedule(w) =>
      if w !in s.workers || s.workers[w].cursor < s.workers[w].stop then s
      else
        var m := s.workers[w];
        var held := s.schedule.token == Some(m.token) && s.schedule.lease.Some? && s.schedule.lease.value > s.now;
        s.(schedule := if held then s.schedule.(next := m.stop, token := None, lease := None) else s.schedule,
           calls := if held then s.calls else s.calls - {w},
           workers := s.workers - {w})
    case EndCall(w) => if w in s.workers then s else s.(calls := s.calls - {w})
    case Crash(w) => s.(calls := s.calls - {w}, workers := s.workers - {w})
    case ClaimRun(i, token) =>
      if CanClaim(s, i) then s.(runs := s.runs[i := Claimed(s.runs[i], s.now, token)]) else s
    case Heartbeat(i, token) =>
      if Holds(s, i, token) && s.runs[i].startedAt.Some? && s.runs[i].startedAt.value + MAX_LEASE > s.now
      then s.(runs := s.runs[i := Extended(s.runs[i], s.now)]) else s
    case MarkSucceeded(i, token) => if Holds(s, i, token) then Finish(s, i, Succeeded) else s
    case MarkSkipped(i, token) => if Holds(s, i, token) then Finish(s, i, Skipped) else s
    case MarkFailed(i, token) =>
      if Holds(s, i, token) then
        s.(runs := s.runs[i := FailedRun(s.runs[i], s.now)],
           schedule := s.schedule.(retryCount := s.runs[i].attempts + 1))
      else s
  }

  function Finish(s: State, i: nat, status: RunStatus): State
    requires i in s.runs
  {
    s.(runs := s.runs[i := Completed(s.runs[i], status)], schedule := s.schedule.(retryCount := 0))
  }

  // ----- Invariants -----

  ghost predicate RowInv(r: PeriodRun, now: int) {
    && (r.token.Some? <==> r.status == Running)
    && (r.lease.Some? <==> r.status == Running)
    && (r.status == Running ==> r.startedAt.Some? && r.startedAt.value <= now
                                && r.lease.value <= now + LEASE && r.lease.value <= r.startedAt.value + MAX_LEASE)
    && r.attempts <= 4 && (r.attempts == 4 <==> r.status == RetryExhausted)
    && (r.status == RetryWait ==> r.attempts > 0 && r.nextAttempt.Some?)
  }

  /** A run that no worker has claimed yet. */
  ghost predicate Untouched(r: PeriodRun) {
    r == FRESH
  }

  ghost predicate InOrder(runs: map<nat, PeriodRun>) {
    forall i, j :: i in runs && j in runs && i < j && !Finished(runs[i]) ==> Untouched(runs[j])
  }

  ghost predicate RunsInv(s: State) {
    && (forall i :: i in s.runs ==> RowInv(s.runs[i], s.now))
    && InOrder(s.runs)
    && s.schedule.retryCount <= 4
  }

  /** All periods before `n` are present. */
  ghost predicate Covers(runs: map<nat, PeriodRun>, n: nat) {
    forall i: nat :: i < n ==> i in runs
  }

  ghost predicate GapFree(runs: map<nat, PeriodRun>) {
    forall i :: i in runs ==> Covers(runs, i)
  }

  ghost predicate MaterializeInv(s: State) {
    && GapFree(s.runs)
    && Covers(s.runs, s.schedule.next)
    && (s.schedule.token.Some? ==> s.schedule.token.value < s.issued)
    && forall w :: w in s.workers ==>
         var m := s.workers[w];
         && m.token < s.issued && m.cursor <= m.stop && Covers(s.runs, m.cursor)
         && (s.schedule.token == Some(m.token) ==> s.schedule.next <= m.stop)
  }

  /** A call reports no more than its limit, with what its present claim still has to insert included. */
  ghost predicate CallsInv(s: State) {
    && (forall w :: w in s.calls ==> s.calls[w].reported <= s.calls[w].limit)
    && (forall w :: w in s.workers ==>
          && w in s.calls && s.workers[w].cursor <= s.workers[w].stop
          && s.calls[w].reported + (s.workers[w].stop - s.workers[w].cursor) <= s.calls[w].limit)
  }

  ghost predicate Inv(s: State) {
    RunsInv(s) && MaterializeInv(s) && CallsInv(s)
  }

  /** Changing the head, the first unfinished run, keeps the order of the runs. */
  lemma TouchHead(s: State, i: nat, r: PeriodRun, retryCount: nat)
    requires RunsInv(s) && i in s.runs && !Finished(s.runs[i]) && RowInv(r, s.now) && retryCount <= 4
    requires forall j :: j in s.runs && j < i ==> Finished(s.runs[j])
    ensures RunsInv(s.(runs := s.runs[i := r], schedule := s.schedule.(retryCount := retryCount)))
  {
  }

  lemma HolderIsHead(s: State, i: nat, token: Token)
    requires RunsInv(s) && Holds(s, i, token)
    ensures s.runs[i].status == Running && forall j :: j in s.runs && j < i ==> Finished(s.runs[j])
  {
    assert RowInv(s.runs[i], s.now);
  }

  lemma ClaimKeepsOrder(s: State, i: nat, token: Token, slots: Slots)
    requires RunsInv(s)
    ensures RunsInv(Apply(s, ClaimRun(i, token), slots))
  {
    if CanClaim(s, i) {
      TouchHead(s, i, Claimed(s.runs[i], s.now, token), s.schedule.retryCount);
    }
  }

  lemma HeartbeatKeepsOrder(s: State, i: nat, token: Token, slots: Slots)
    requires RunsInv(s)
    ensures RunsInv(Apply(s, Heartbeat(i, token), slots))
  {
    if Holds(s, i, token) {
      HolderIsHead(s, i, token);
      TouchHead(s, i, Extended(s.runs[i], s.now), s.schedule.retryCount);
    }
  }

  lemma FinishKeepsOrder(s: State, i: nat, token: Token, status: RunStatus)
    requires RunsInv(s) && Holds(s, i, token) && (status == Succeeded || status == Skipped)
    ensures RunsInv(Finish(s, i, status))
  {
    HolderIsHead(s, i, token);
    TouchHead(s, i, Completed(s.runs[i], status), 0);
  }

  lemma FailureKeepsOrder(s: State, i: nat, token: Token, slots: Slots)
    requires RunsInv(s)
    ensures RunsInv(Apply(s, MarkFailed(i, token), slots))
  {
    if Holds(s, i, token) {
      HolderIsHead(s, i, token);
      TouchHead(s, i, FailedRun(s.runs[i], s.now), s.runs[i].attempts + 1);
    }
  }

  lemma RunsStep(s: State, e: Event, slots: Slots)
    requires RunsInv(s)
    requires GapFree(s.runs) && forall w :: w in s.workers ==> Covers(s.runs, s.workers[w].cursor)
    ensures RunsInv(Apply(s, e, slots))
  {
    match e
    case Tick(_) =>
    case BeginCall(_, _) =>
    case ClaimSchedule(_) =>
    case InsertPeriod(w) => InsertKeepsOrder(s, w, slots);
    case ReleaseSchedule(_) =>
    case EndCall(_) =>
    case Crash(_) =>
    case ClaimRun(i, token) => ClaimKeepsOrder(s, i, token, slots);
    case Heartbeat(i, token) => HeartbeatKeepsOrder(s, i, token, slots);
    case MarkSucceeded(i, token) => if Holds(s, i, token) { FinishKeepsOrder(s, i, token, Succeeded); }
    case MarkSkipped(i, token) => if Holds(s, i, token) { FinishKeepsOrder(s, i, token, Skipped); }
    case MarkFailed(i, token) => FailureKeepsOrder(s, i, token, slots);
  }

  lemma InsertKeepsOrder(s: State, w: int, slots: Slots)
    requires RunsInv(s) && GapFree(s.runs) && (w in s.workers ==> Covers(s.runs, s.workers[w].cursor))
    ensures RunsInv(Apply(s, InsertPeriod(w), slots))
  {
    if w in s.workers && s.workers[w].cursor !in s.runs {
      var c := s.workers[w].cursor;
      assert forall j :: j in s.runs && j > c ==> Covers(s.runs, j);
    }
  }

  lemma MaterializeStep(s: State, e: Event, slots: Slots)
    requires MaterializeInv(s)
    ensures MaterializeInv(Apply(s, e, slots))
  {
    var next := Apply(s, e, slots);
    assert forall i :: i in s.runs ==> i in next.runs;
    assert forall n :: Covers(s.runs, n) ==> Covers(next.runs, n);
  }

  lemma CallsStep(s: State, e: Event, slots: Slots)
    requires CallsInv(s)
    ensures CallsInv(Apply(s, e, slots))
  {
  }

  function At(start: State, run: seq<Event>, slots: Slots, i: nat): State
    requires i <= |run|
  {
    if i == 0 then start else Apply(At(start, run, slots, i - 1), run[i - 1], slots)
  }

  lemma {:induction false} ReachableStatesAreConsistent(start: State, run: seq<Event>, slots: Slots, n: nat)
    requires Inv(start) && n <= |run|
    ensures Inv(At(start, run, slots, n))
  {
    if n > 0 {
      ReachableStatesAreConsistent(start, run, slots, n - 1);
      RunsStep(At(start, run, slots, n - 1), run[n - 1], slots);
      MaterializeStep(At(start, run, slots, n - 1), run[n - 1], slots);
      CallsStep(At(start, run, slots, n - 1), run[n - 1], slots);
    }
  }

  /**
    In every reachable state the runs, in period order, are finished runs, then at most one
    active head, then untouched pending runs; attempts stay within 4, which only an exhausted
    head reaches, and a token is set exactly while a run is running.
   */
  lemma RunsAreFinishedHeadUntouched(start: State, run: seq<Event>, slots: Slots, n: nat) returns (head: nat)
    requires Inv(start) && n <= |run|
    ensures var s := At(start, run, slots, n);
            && (forall i :: i in s.runs && i < head ==> Finished(s.runs[i]))
            && (forall i :: i in s.runs && i > head ==> s.runs[i] == FRESH)
            && (forall i :: i in s.runs ==>
                  && s.runs[i].attempts <= 4
                  && (s.runs[i].attempts == 4 <==> s.runs[i].status == RetryExhausted)
                  && (s.runs[i].token.Some? <==> s.runs[i].status == Running))
  {
    ReachableStatesAreConsistent(start, run, slots, n);
    head := FirstUnfinished(At(start, run, slots, n).runs, 0);
  }

  lemma FirstUnfinished(runs: map<nat, PeriodRun>, from: nat) returns (head: nat)
    requires InOrder(runs) && GapFree(runs) && forall i :: i in runs && i < from ==> Finished(runs[i])
    ensures forall i :: i in runs && i < head ==> Finished(runs[i])
    ensures forall i :: i in runs && i > head ==> Untouched(runs[i])
    decreases |runs.Keys| - from, 0
  {
    if from !in runs || !Finished(runs[from]) {
      head := from;
      assert forall i :: i in runs && i > head ==> Covers(runs, i);
    } else {
      KeysBelow(runs, from + 1);
      head := FirstUnfinished(runs, from + 1);
    }
  }

  /** A map over a gap-free prefix has at least as many keys as any of its keys says. */
  lemma {:induction false} KeysBelow(runs: map<nat, PeriodRun>, n: nat)
    requires Covers(runs, n)
    ensures |runs.Keys| >= n
  {
    if n > 0 {
      var last: nat := n - 1;
      assert last in runs;
      var rest := runs - {last};
      assert rest.Keys == runs.Keys - {last};
      assert Covers(rest, last);
      KeysBelow(rest, last);
    }
  }

  /** Finished runs never change again. */
  lemma FinishedStep(s: State, e: Event, slots: Slots, i: nat)
    requires RunsInv(s) && i in s.runs && Finished(s.runs[i])
    ensures i in Apply(s, e, slots).runs && Apply(s, e, slots).runs[i] == s.runs[i]
  {
    assert s.runs[i].token.None?;
  }

  lemma FinishedAt(start: State, run: seq<Event>, slots: Slots, n: nat, p: nat)
    requires Inv(start) && n < |run| && p in At(start, run, slots, n).runs && Finished(At(start, run, slots, n).runs[p])
    ensures p in At(start, run, slots, n + 1).runs
    ensures At(start, run, slots, n + 1).runs[p] == At(start, run, slots, n).runs[p]
  {
    ReachableStatesAreConsistent(start, run, slots, n);
    FinishedStep(At(start, run, slots, n), run[n], slots, p);
  }

  lemma {:induction false} FinishedRunsAreFinal(start: State, run: seq<Event>, slots: Slots, i: nat, n: nat, p: nat)
    requires Inv(start) && i <= n <= |run|
    requires p in At(start, run, slots, i).runs && Finished(At(start, run, slots, i).runs[p])
    ensures p in At(start, run, slots, n).runs && At(start, run, slots, n).runs[p] == At(start, run, slots, i).runs[p]
  {
    if i < n {
      FinishedRunsAreFinal(start, run, slots, i, n - 1, p);
      FinishedAt(start, run, slots, n - 1, p);
    }
  }

  /** The statement completes run `p` on behalf of `token`. */
  ghost predicate Completes(s: State, e: Event, p: nat, token: Token) {
    (e == MarkSucceeded(p, token) || e == MarkSkipped(p, token)) && Holds(s, p, token)
  }

  /** Over any interleaving a period run is completed at most once. */
  lemma {:induction false} RunsCompleteOnce(
    start: State, run: seq<Event>, slots: Slots, i: nat, j: nat, p: nat, a: Token, b: Token)
    requires Inv(start) && i < |run| && j < |run|
    requires Completes(At(start, run, slots, i), run[i], p, a) && Completes(At(start, run, slots, j), run[j], p, b)
    ensures i == j
  {
    if i < j {
      NotHeldAfterCompletion(start, run, slots, i, j, p, a, b);
    } else if j < i {
      NotHeldAfterCompletion(start, run, slots, j, i, p, b, a);
    }
  }

  lemma {:induction false} NotHeldAfterCompletion(
    start: State, run: seq<Event>, slots: Slots, i: nat, j: nat, p: nat, a: Token, b: Token)
    requires Inv(start) && i < j < |run| && Completes(At(start, run, slots, i), run[i], p, a)
    ensures !Holds(At(start, run, slots, j), p, b)
  {
    StaysCompleted(start, run, slots, i, j, p, a);
    ReachableStatesAreConsistent(start, run, slots, j);
    FinishedIsNotHeld(At(start, run, slots, j), p, b);
  }

  lemma {:induction false} StaysCompleted(
    start: State, run: seq<Event>, slots: Slots, i: nat, n: nat, p: nat, token: Token)
    requires Inv(start) && i < n <= |run| && Completes(At(start, run, slots, i), run[i], p, token)
    ensures p in At(start, run, slots, n).runs && Finished(At(start, run, slots, n).runs[p])
  {
    if n == i + 1 {
      CompletionFinishes(start, run, slots, i, p, token);
    } else {
      StaysCompleted(start, run, slots, i, n - 1, p, token);
      FinishedAt(start, run, slots, n - 1, p);
    }
  }

  lemma FinishedIsNotHeld(s: State, p: nat, token: Token)
    requires RunsInv(s) && p in s.runs && Finished(s.runs[p])
    ensures !Holds(s, p, token)
  {
    assert RowInv(s.runs[p], s.now);
  }

  lemma CompletionFinishes(start: State, run: seq<Event>, slots: Slots, i: nat, p: nat, token: Token)
    requires i < |run| && Completes(At(start, run, slots, i), run[i], p, token)
    ensures p in At(start, run, slots, i + 1).runs && Finished(At(start, run, slots, i + 1).runs[p])
  {
  }

  // ----- What a finished run was marked as -----

  ghost predicate HasStatus(s: State, p: nat, status: RunStatus) {
    p in s.runs && s.runs[p].status == status
  }

  /** Statement `k` is the success of run `p`, by the worker whose token it carries and whose lease is live. */
  ghost predicate SucceedsAt(start: State, run: seq<Event>, slots: Slots, k: nat, p: nat)
    requires k < |run|
  {
    run[k].MarkSucceeded? && run[k].run == p && Holds(At(start, run, slots, k), p, run[k].token)
  }

  ghost predicate SkipsAt(start: State, run: seq<Event>, slots: Slots, k: nat, p: nat)
    requires k < |run|
  {
    run[k].MarkSkipped? && run[k].run == p && Holds(At(start, run, slots, k), p, run[k].token)
  }

  /** In state `n` run `p` has this status. */
  ghost predicate StatusIn(start: State, run: seq<Event>, slots: Slots, n: nat, p: nat, status: RunStatus)
    requires n <= |run|
  {
    HasStatus(At(start, run, slots, n), p, status)
  }

  /** Outside the run that a statement marks, runs keep their status. */
  lemma StatusOfOthers(s: State, e: Event, slots: Slots, p: nat)
    requires RunsInv(s)
    requires !((e.MarkSucceeded? || e.MarkSkipped?) && e.run == p && Holds(s, p, e.token))
    ensures HasStatus(Apply(s, e, slots), p, Succeeded) <==> HasStatus(s, p, Succeeded)
    ensures HasStatus(Apply(s, e, slots), p, Skipped) <==> HasStatus(s, p, Skipped)
  {
    if p in s.runs && Finished(s.runs[p]) {
      FinishedStep(s, e, slots, p);
    }
  }

  lemma MarkedStatus(s: State, e: Event, slots: Slots, p: nat)
    requires RunsInv(s) && (e.MarkSucceeded? || e.MarkSkipped?) && e.run == p && Holds(s, p, e.token)
    ensures !HasStatus(s, p, Succeeded) && !HasStatus(s, p, Skipped)
    ensures HasStatus(Apply(s, e, slots), p, Succeeded) <==> e.MarkSucceeded?
    ensures HasStatus(Apply(s, e, slots), p, Skipped) <==> e.MarkSkipped?
  {
    assert RowInv(s.runs[p], s.now);
  }

  lemma StatusAt(start: State, run: seq<Event>, slots: Slots, n: nat, p: nat)
    requires Inv(start) && n < |run|
    ensures StatusIn(start, run, slots, n + 1, p, Succeeded)
            <==> StatusIn(start, run, slots, n, p, Succeeded) || SucceedsAt(start, run, slots, n, p)
    ensures StatusIn(start, run, slots, n + 1, p, Skipped)
            <==> StatusIn(start, run, slots, n, p, Skipped) || SkipsAt(start, run, slots, n, p)
  {
    ReachableStatesAreConsistent(start, run, slots, n);
    if SucceedsAt(start, run, slots, n, p) || SkipsAt(start, run, slots, n, p) {
      MarkedStatus(At(start, run, slots, n), run[n], slots, p);
    } else {
      StatusOfOthers(At(start, run, slots, n), run[n], slots, p);
    }
  }

  /** Some statement before `n` marked run `p` succeeded, or skipped, under a live lease. */
  ghost predicate SucceededBefore(start: State, run: seq<Event>, slots: Slots, n: nat, p: nat)
    requires n <= |run|
  {
    exists k: nat :: k < n && SucceedsAt(start, run, slots, k, p)
  }

  ghost predicate SkippedBefore(start: State, run: seq<Event>, slots: Slots, n: nat, p: nat)
    requires n <= |run|
  {
    exists k: nat :: k < n && SkipsAt(start, run, slots, k, p)
  }

  lemma MarkedBefore(start: State, run: seq<Event>, slots: Slots, n: nat, p: nat)
    requires n < |run|
    ensures SucceededBefore(start, run, slots, n + 1, p)
            <==> SucceededBefore(start, run, slots, n, p) || SucceedsAt(start, run, slots, n, p)
    ensures SkippedBefore(start, run, slots, n + 1, p)
            <==> SkippedBefore(start, run, slots, n, p) || SkipsAt(start, run, slots, n, p)
  {
  }

  /** A run is succeeded exactly when it was marked so, and skipped exactly when it was marked skipped. */
  lemma {:induction false} StatusIsTheMark(start: State, run: seq<Event>, slots: Slots, n: nat, p: nat)
    requires Inv(start) && n <= |run| && forall i :: i in start.runs ==> !Finished(start.runs[i])
    ensures StatusIn(start, run, slots, n, p, Succeeded) <==> SucceededBefore(start, run, slots, n, p)
    ensures StatusIn(start, run, slots, n, p, Skipped) <==> SkippedBefore(start, run, slots, n, p)
  {
    if n > 0 {
      StatusIsTheMark(start, run, slots, n - 1, p);
      StatusAt(start, run, slots, n - 1, p);
      MarkedBefore(start, run, slots, n - 1, p);
    }
  }

  ghost predicate Claims(s: State, e: Event, p: nat) {
    e.ClaimRun? && e.run == p && CanClaim(s, p)
  }

  /** Statement `k` of the run claims period run `p`. */
  ghost predicate ClaimsAt(start: State, run: seq<Event>, slots: Slots, k: nat, p: nat)
    requires k < |run|
  {
    Claims(At(start, run, slots, k), run[k], p)
  }

  lemma HoldStep(s: State, e: Event, slots: Slots, p: nat)
    requires RunsInv(s) && p in Apply(s, e, slots).runs && Apply(s, e, slots).runs[p].token.Some?
    ensures var r := Apply(s, e, slots).runs[p];
            if Claims(s, e, p) then r.token == Some(e.token) && r.startedAt == Some(s.now)
            else p in s.runs && s.runs[p].token == r.token && s.runs[p].startedAt == r.startedAt
  {
  }

  lemma HoldAt(start: State, run: seq<Event>, slots: Slots, n: nat, p: nat)
    requires Inv(start) && n < |run|
    requires p in At(start, run, slots, n + 1).runs && At(start, run, slots, n + 1).runs[p].token.Some?
    ensures var s, r := At(start, run, slots, n), At(start, run, slots, n + 1).runs[p];
            if Claims(s, run[n], p) then r.token == Some(run[n].token) && r.startedAt == Some(s.now)
            else p in s.runs && s.runs[p].token == r.token && s.runs[p].startedAt == r.startedAt
  {
    ReachableStatesAreConsistent(start, run, slots, n);
    HoldStep(At(start, run, slots, n), run[n], slots, p);
  }

  /** The token of a running run is that of its latest claim, which is when it started. */
  lemma {:induction false} HolderIsLatestClaimer(start: State, run: seq<Event>, slots: Slots, n: nat, p: nat)
    returns (c: nat)
    requires Inv(start) && n <= |run| && (forall i :: i in start.runs ==> start.runs[i].status != Running)
    requires p in At(start, run, slots, n).runs && At(start, run, slots, n).runs[p].token.Some?
    ensures c < n && ClaimsAt(start, run, slots, c, p)
    ensures At(start, run, slots, n).runs[p].token == Some(run[c].token)
    ensures At(start, run, slots, n).runs[p].startedAt == Some(At(start, run, slots, c).now)
    ensures forall k :: c < k < n ==> !ClaimsAt(start, run, slots, k, p)
  {
    if n == 0 {
      assert false;
    }
    HoldAt(start, run, slots, n - 1, p);
    if ClaimsAt(start, run, slots, n - 1, p) {
      c := n - 1;
    } else {
      c := HolderIsLatestClaimer(start, run, slots, n - 1, p);
    }
  }

  /** A run is completed only by its latest claimer, and within an hour of that claim. */
  lemma OnlyTheLatestClaimerCompletes(start: State, run: seq<Event>, slots: Slots, n: nat, p: nat, token: Token)
    returns (c: nat)
    requires Inv(start) && n < |run| && (forall i :: i in start.runs ==> start.runs[i].status != Running)
    requires Completes(At(start, run, slots, n), run[n], p, token)
    ensures c < n && ClaimsAt(start, run, slots, c, p) && run[c].token == token
    ensures forall k :: c < k < n ==> !ClaimsAt(start, run, slots, k, p)
    ensures At(start, run, slots, n).now < At(start, run, slots, c).now + MAX_LEASE
  {
    c := HolderIsLatestClaimer(start, run, slots, n, p);
    ReachableStatesAreConsistent(start, run, slots, n);
    assert RowInv(At(start, run, slots, n).runs[p], At(start, run, slots, n).now);
  }

  lemma RestingStep(s: State, e: Event, slots: Slots, p: nat)
    requires RunsInv(s) && p in s.runs && s.runs[p].token.None? && !Claims(s, e, p)
    ensures p in Apply(s, e, slots).runs && Apply(s, e, slots).runs[p] == s.runs[p]
  {
  }

  lemma RestingAt(start: State, run: seq<Event>, slots: Slots, n: nat, p: nat)
    requires Inv(start) && n < |run| && p in At(start, run, slots, n).runs
    requires At(start, run, slots, n).runs[p].token.None? && !ClaimsAt(start, run, slots, n, p)
    ensures p in At(start, run, slots, n + 1).runs
    ensures At(start, run, slots, n + 1).runs[p] == At(start, run, slots, n).runs[p]
  {
    ReachableStatesAreConsistent(start, run, slots, n);
    RestingStep(At(start, run, slots, n), run[n], slots, p);
  }

  lemma {:induction false} RestingRunsWait(start: State, run: seq<Event>, slots: Slots, i: nat, n: nat, p: nat)
    requires Inv(start) && i <= n <= |run|
    requires p in At(start, run, slots, i).runs && At(start, run, slots, i).runs[p].token.None?
    requires forall k :: i <= k < n ==> !ClaimsAt(start, run, slots, k, p)
    ensures p in At(start, run, slots, n).runs && At(start, run, slots, n).runs[p] == At(start, run, slots, i).runs[p]
  {
    if i < n {
      RestingRunsWait(start, run, slots, i, n - 1, p);
      RestingAt(start, run, slots, n - 1, p);
    }
  }

  lemma {:induction false} FailureAt(start: State, run: seq<Event>, slots: Slots, i: nat, p: nat)
    requires Inv(start) && i < |run|
    requires run[i].MarkFailed? && run[i].run == p && Holds(At(start, run, slots, i), p, run[i].token)
    ensures p in At(start, run, slots, i + 1).runs
    ensures At(start, run, slots, i + 1).runs[p]
         == FailedRun(At(start, run, slots, i).runs[p], At(start, run, slots, i).now)
  {
  }

  lemma {:induction false} FailedRunWaits(start: State, run: seq<Event>, slots: Slots, i: nat, n: nat, p: nat)
    requires Inv(start) && i < n <= |run|
    requires run[i].MarkFailed? && run[i].run == p && Holds(At(start, run, slots, i), p, run[i].token)
    requires forall k :: i < k < n ==> !ClaimsAt(start, run, slots, k, p)
    ensures p in At(start, run, slots, n).runs
    ensures At(start, run, slots, n).runs[p]
            == FailedRun(At(start, run, slots, i).runs[p], At(start, run, slots, i).now)
  {
    FailureAt(start, run, slots, i, p);
    RestingRunsWait(start, run, slots, i + 1, n, p);
  }

  lemma DueAfterBackoff(r: PeriodRun, failedAt: int, now: int)
    requires DueRow(FailedRun(r, failedAt), now)
    ensures r.attempts < 3 && Backoff(r.attempts).Some? && now - failedAt >= Backoff(r.attempts).value
  {
  }

  /**
    The claim after a failure comes no sooner than 15 minutes, 1 hour and 6 hours after the
    first, second and third failure; after the fourth there is none.
   */
  lemma FailuresBackOff(start: State, run: seq<Event>, slots: Slots, i: nat, n: nat, p: nat)
    requires Inv(start) && i < n < |run|
    requires run[i].MarkFailed? && run[i].run == p && Holds(At(start, run, slots, i), p, run[i].token)
    requires forall k :: i < k < n ==> !ClaimsAt(start, run, slots, k, p)
    requires ClaimsAt(start, run, slots, n, p)
    ensures var failures, waited := At(start, run, slots, i).runs[p].attempts + 1,
                                    At(start, run, slots, n).now - At(start, run, slots, i).now;
            && failures < 4
            && waited >= (if failures == 1 then 15 else if failures == 2 then 60 else 360) * MINUTE
  {
    FailedRunWaits(start, run, slots, i, n, p);
    DueAfterBackoff(At(start, run, slots, i).runs[p], At(start, run, slots, i).now, At(start, run, slots, n).now);
  }

  /** A heartbeat never shortens a lease, nor carries it past an hour after the claim. */
  lemma {:induction false} HeartbeatsOnlyExtend(s: State, slots: Slots, p: nat, token: Token)
    requires RunsInv(s) && p in s.runs
    ensures var r, next := s.runs[p], Apply(s, Heartbeat(p, token), slots).runs[p];
            && next == r.(lease := next.lease)
            && (r.lease.Some? ==> next.lease.Some? && next.lease.value >= r.lease.value)
            && (next.lease.Some? ==> r.startedAt.Some? && next.lease.value <= r.startedAt.value + MAX_LEASE)
            && (Holds(s, p, token) && s.now + LEASE <= r.startedAt.value + MAX_LEASE ==>
                 next.lease == Some(s.now + LEASE))
  {
    assert RowInv(s.runs[p], s.now);
  }

  /**
    Materializers that overlap after lease expiry leave a gap-free prefix of the periods, each
    present once; `next_run_at` never moves back and never passes that prefix.
   */
  lemma {:induction false} MaterializedPeriodsAreAPrefix(start: State, run: seq<Event>, slots: Slots, i: nat, n: nat)
    requires Inv(start) && i <= n <= |run|
    ensures var a, b := At(start, run, slots, i), At(start, run, slots, n);
            && GapFree(b.runs) && Covers(b.runs, b.schedule.next)
            && a.schedule.next <= b.schedule.next && a.runs.Keys <= b.runs.Keys
  {
    ReachableStatesAreConsistent(start, run, slots, n);
    if i < n {
      MaterializedPeriodsAreAPrefix(start, run, slots, i, n - 1);
      ReachableStatesAreConsistent(start, run, slots, n - 1);
      NextStep(At(start, run, slots, n - 1), run[n - 1], slots);
    }
  }

  /** However materializers overlap, a call has reported at most its limit whenever it returns. */
  lemma CallsReportAtMostTheirLimit(start: State, run: seq<Event>, slots: Slots, n: nat, w: int)
    requires Inv(start) && n <= |run| && w in At(start, run, slots, n).calls
    ensures At(start, run, slots, n).calls[w].reported <= At(start, run, slots, n).calls[w].limit
  {
    ReachableStatesAreConsistent(start, run, slots, n);
  }

  /** `k` inserts of one materializer. */
  function Inserts(w: int, k: nat): seq<Event> {
    seq(k, _ => InsertPeriod(w))
  }

  /** Inserting advances the materializer and its call alike, and adds only the missing periods. */
  ghost predicate Inserted(s: State, next: State, w: int, k: nat)
    requires w in s.calls && w in s.workers
  {
    var m := s.workers[w];
    && next.now == s.now && next.schedule == s.schedule && next.issued == s.issued
    && next.calls == s.calls[w := Call(s.calls[w].limit, s.calls[w].reported + k)]
    && next.workers == s.workers[w := Materializer(m.token, m.cursor + k, m.stop)]
    && (forall p :: p in next.runs <==> p in s.runs || m.cursor <= p < m.cursor + k)
    && (forall p :: p in next.runs ==>
          next.runs[p] == if p in s.runs then s.runs[p] else PeriodRun(Pending, 0, None, None, None, None))
  }

  lemma {:induction false} InsertsAdvance(s: State, slots: Slots, w: int, k: nat, n: nat)
    requires w in s.calls && w in s.workers && s.workers[w].cursor + k <= s.workers[w].stop && n <= k
    ensures Inserted(s, At(s, Inserts(w, k), slots, n), w, n)
  {
    if n > 0 {
      InsertsAdvance(s, slots, w, k, n - 1);
      OneMoreInsert(s, At(s, Inserts(w, k), slots, n - 1), slots, w, n - 1);
    }
  }

  lemma OneMoreInsert(s: State, now: State, slots: Slots, w: int, n: nat)
    requires w in s.calls && w in s.workers && s.workers[w].cursor + n < s.workers[w].stop && Inserted(s, now, w, n)
    ensures Inserted(s, Apply(now, InsertPeriod(w), slots), w, n + 1)
  {
  }

  /**
    Undisturbed, a call with room on a due and free schedule inserts the next due periods, ten or what its limit leaves,
    and gives the schedule back behind them.
   */
  lemma UndisturbedClaimMaterializes(s: State, slots: Slots, w: int, count: nat)
    requires w in s.calls && w !in s.workers && s.calls[w].reported < s.calls[w].limit
    requires slots(s.schedule.next) <= s.now && (s.schedule.lease == None || s.schedule.lease.value <= s.now)
    requires count == DueCount(slots, s.schedule.next, s.now, BatchSize(s.calls[w].limit - s.calls[w].reported))
    ensures var claimed := Apply(s, ClaimSchedule(w), slots);
            var after := Apply(At(claimed, Inserts(w, count), slots, count), ReleaseSchedule(w), slots);
            && after.schedule == Schedule(s.schedule.next + count, None, None, s.schedule.retryCount)
            && after.now == s.now && after.workers == s.workers && after.issued == s.issued + 1
            && after.calls == s.calls[w := Call(s.calls[w].limit, s.calls[w].reported + count)]
            && (forall p :: p in after.runs <==> p in s.runs || s.schedule.next <= p < s.schedule.next + count)
            && (forall p :: p in after.runs ==>
                  after.runs[p] == if p in s.runs then s.runs[p] else PeriodRun(Pending, 0, None, None, None, None))
  {
    var claimed := Apply(s, ClaimSchedule(w), slots);
    assert claimed.workers[w] == Materializer(s.issued, s.schedule.next, s.schedule.next + count);
    InsertsAdvance(claimed, slots, w, count, count);
    ReleasedBehind(s, claimed, At(claimed, Inserts(w, count), slots, count), slots, w, count);
  }

  lemma ReleasedBehind(s: State, claimed: State, inserted: State, slots: Slots, w: int, count: nat)
    requires w in s.calls && w !in s.workers
    requires claimed == s.(schedule := s.schedule.(token := Some(s.issued), lease := Some(s.now + LEASE)),
                           workers := s.workers[w := Materializer(
                             s.issued, s.schedule.next, s.schedule.next + count)],
                           issued := s.issued + 1)
    requires Inserted(claimed, inserted, w, count)
    ensures var after := Apply(inserted, ReleaseSchedule(w), slots);
            && after.schedule == Schedule(s.schedule.next + count, None, None, s.schedule.retryCount)
            && after.now == s.now && after.workers == s.workers && after.issued == s.issued + 1
            && after.calls == s.calls[w := Call(s.calls[w].limit, s.calls[w].reported + count)]
            && after.runs == inserted.runs
  {
    assert inserted.workers[w].cursor == inserted.workers[w].stop;
    assert inserted.workers - {w} == s.workers;
  }

  /** A run that its worker abandons can be claimed again exactly after 15 minutes. */
  lemma AbandonedRunsAreTakenOver(s: State, slots: Slots, i: nat, token: Token, elapsed: nat)
    requires CanClaim(s, i)
    ensures CanClaim(Apply(Apply(s, ClaimRun(i, token), slots), Tick(elapsed), slots), i) <==> elapsed >= 15 * MINUTE
  {
    var later := Apply(Apply(s, ClaimRun(i, token), slots), Tick(elapsed), slots);
    assert forall j :: j in later.runs && j < i ==> later.runs[j] == s.runs[j];
  }

  /** What a call that just began and claimed the schedule works on: the periods from the next one on. */
  ghost predicate TakesOver(s: State, v: int, limit: nat, slots: Slots) {
    var claimed := Apply(Apply(s, BeginCall(v, limit), slots), ClaimSchedule(v), slots);
    v in claimed.workers && claimed.workers[v].cursor == s.schedule.next && claimed.calls[v] == Call(limit, 0)
  }

  /**
    When a materializer crashes after its claim, its call is gone, and another one takes the schedule over from the same
    period exactly once 15 minutes have passed.
   */
  lemma AbandonedSchedulesAreTakenOver(s: State, slots: Slots, w: int, v: int, limit: nat, elapsed: nat)
    requires w in s.calls && w !in s.workers && s.calls[w].reported < s.calls[w].limit
    requires v !in s.calls && v !in s.workers && limit > 0
    requires slots(s.schedule.next) <= s.now && (s.schedule.lease == None || s.schedule.lease.value <= s.now)
    ensures var crashed := Apply(Apply(s, ClaimSchedule(w), slots), Crash(w), slots);
            && w !in crashed.calls && crashed.workers == s.workers && crashed.schedule.next == s.schedule.next
            && (TakesOver(Apply(crashed, Tick(elapsed), slots), v, limit, slots) <==> elapsed >= 15 * MINUTE)
  {
    var claimed := Apply(s, ClaimSchedule(w), slots);
    assert claimed.schedule.lease == Some(s.now + LEASE);
    assert claimed.workers - {w} == s.workers;
  }

  /** A call that returns leaves the others as they are. */
  lemma CallsBeginAndEnd(s: State, slots: Slots, w: int, limit: nat)
    requires w !in s.calls && w !in s.workers
    ensures var begun := Apply(s, BeginCall(w, limit), slots);
            begun.calls == s.calls[w := Call(limit, 0)] && Apply(begun, EndCall(w), slots) == s
  {
    assert s.calls[w := Call(limit, 0)] - {w} == s.calls;
  }

  lemma NextStep(s: State, e: Event, slots: Slots)
    requires MaterializeInv(s)
    ensures s.schedule.next <= Apply(s, e, slots).schedule.next && s.runs.Keys <= Apply(s, e, slots).runs.Keys
  {
  }
}
