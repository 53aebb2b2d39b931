/**
  The schedule of one data source: workers claim it when it is due, hold it by a lease, and finish it. Times are
  microseconds; the schedule's zone is a fixed offset from UTC.
 */
module SourceSync {
  import opened Collections
  import opened Options

  type Time = int
  type Token = string

  const MINUTE: int := 60_000_000
  const HOUR: int := 60 * MINUTE
  const DAY: int := 24 * HOUR
  const LEASE: int := 15 * MINUTE
  const MAX_LEASE: int := 60 * MINUTE

  /** When the schedule runs every day: `daily` is the local time of day. */
  datatype Plan = Plan(offset: int, daily: int)

  predicate GoodPlan(plan: Plan) {
    0 <= plan.daily < DAY
  }

  datatype Entry = Claimed(at: Time, token: Token) | Succeeded(at: Time, token: Token) | Failed(at: Time, token: Token)

  datatype Row = Row(nextRun: Time, token: Option<Token>, lease: Time, started: Time, retries: int)

  /** The row, the clock and everything that happened to the row. */
  datatype State = State(now: Time, row: Row, log: seq<Entry>)

  datatype Event =
    | Tick(elapsed: nat)
    | Claim(token: Token)
    | Heartbeat(token: Token)
    | Succeed(token: Token)
    | Fail(token: Token)

  // ----- Daily instants -----

  /** The next moment, strictly later, at which the local clock shows the daily time. */
  function NextDaily(plan: Plan, now: Time): Time {
    var local := now + plan.offset;
    var day := if local % DAY < plan.daily then local / DAY else local / DAY + 1;
    day * DAY + plan.daily - plan.offset
  }

  ghost predicate IsDaily(plan: Plan, t: Time) {
    (t + plan.offset - plan.daily) % DAY == 0
  }

  lemma Multiples(a: int, b: int)
    requires a % DAY == 0 && b % DAY == 0 && a < b
    ensures a + DAY <= b
  {
    assert a == DAY * (a / DAY) && b == DAY * (b / DAY);
  }

  /** It is a daily instant, later than now, and no daily instant lies between. */
  lemma {:induction false} NextDailyIsNext(plan: Plan, now: Time, t: Time)
    requires GoodPlan(plan)
    ensures var next := NextDaily(plan, now);
            now < next <= now + DAY && IsDaily(plan, next) && (IsDaily(plan, t) && now < t ==> next <= t)
  {
    var next := NextDaily(plan, now);
    if IsDaily(plan, t) && t < next {
      Multiples(t + plan.offset - plan.daily, next + plan.offset - plan.daily);
    }
  }

  // ----- Steps -----

  predicate Due(s: State) {
    s.row.nextRun <= s.now && (s.row.token.None? || s.row.lease <= s.now)
  }

  predicate Holds(s: State, token: Token) {
    s.row.token == Some(token) && s.now < s.row.lease
  }

  /** 15 minutes, an hour, six hours, and after the fourth failure in a row the next daily time. */
  function RetryAt(plan: Plan, retries: int, now: Time): Time {
    if retries == 0 then now + 15 * MINUTE
    else if retries == 1 then now + HOUR
    else if retries == 2 then now + 6 * HOUR
    else NextDaily(plan, now)
  }

  function Apply(plan: Plan, s: State, e: Event): State {
    match e
    case Tick(elapsed) => s.(now := s.now + elapsed)
    case Claim(token) =>
      if !Due(s) then s
      else s.(row := s.row.(token := Some(token), lease := s.now + LEASE, started := s.now),
              log := s.log + [Claimed(s.now, token)])
    case Heartbeat(token) =>
      if !Holds(s, token) || s.row.started + MAX_LEASE <= s.now then s
      else s.(row := s.row.(lease := Min(s.now + LEASE, s.row.started + MAX_LEASE)))
    case Succeed(token) =>
      if !Holds(s, token) then s
      else s.(row := s.row.(nextRun := NextDaily(plan, s.now), token := None, retries := 0),
              log := s.log + [Succeeded(s.now, token)])
    case Fail(token) =>
      if !Holds(s, token) then s
      else s.(row := s.row.(nextRun := RetryAt(plan, s.row.retries, s.now), token := None,
                            retries := if s.row.retries >= 3 then 0 else s.row.retries + 1),
              log := s.log + [Failed(s.now, token)])
  }

  function Final(plan: Plan, s: State, run: seq<Event>): State {
    if run == [] then s else Apply(plan, Final(plan, s, run[..|run| - 1]), run[|run| - 1])
  }

  /** The row that the workers update. An absent lease is a lease without a token. */
  class Schedule {
    var nextRun: Time
    var workerToken: Option<Token>
    var leaseExpires: Time
    var lastStarted: Time
    var retryCount: int
    ghost var log: seq<Entry>

    ghost function Snapshot(now: Time): State
      reads this
    {
      State(now, Row(nextRun, workerToken, leaseExpires, lastStarted, retryCount), log)
    }

    method ClaimDue(plan: Plan, now: Time, token: Token) returns (claimed: bool)
      modifies this
      ensures Snapshot(now) == Apply(plan, old(Snapshot(now)), Claim(token))
      ensures claimed <==> old(nextRun) <= now && (old(workerToken) == None || old(leaseExpires) <= now)
      ensures nextRun == old(nextRun) && retryCount == old(retryCount)
      ensures claimed ==>
                && workerToken == Some(token) && leaseExpires == now + 15 * MINUTE && lastStarted == now
                && log == old(log) + [Claimed(now, token)]
      ensures !claimed ==> Snapshot(now) == old(Snapshot(now))
    {
      claimed := nextRun <= now && (workerToken.None? || leaseExpires <= now);
      if claimed {
        workerToken, leaseExpires, lastStarted := Some(token), now + LEASE, now;
        log := log + [Claimed(now, token)];
      }
    }

    method ExtendLease(plan: Plan, now: Time, token: Token) returns (extended: bool)
      modifies this`leaseExpires
      ensures Snapshot(now) == Apply(plan, old(Snapshot(now)), Heartbeat(token))
      ensures extended <==>
                && workerToken == Some(token) && now < old(leaseExpires) && now < lastStarted + 60 * MINUTE
      ensures extended ==>
                leaseExpires == if now + 15 * MINUTE < lastStarted + 60 * MINUTE then now + 15 * MINUTE
                                else lastStarted + 60 * MINUTE
      ensures !extended ==> leaseExpires == old(leaseExpires)
    {
      extended := workerToken == Some(token) && now < leaseExpires && now < lastStarted + MAX_LEASE;
      if extended {
        leaseExpires := Min(now + LEASE, lastStarted + MAX_LEASE);
      }
    }

    method MarkSucceeded(plan: Plan, now: Time, token: Token) returns (done: bool)
      modifies this
      ensures Snapshot(now) == Apply(plan, old(Snapshot(now)), Succeed(token))
      ensures done <==> old(workerToken) == Some(token) && now < leaseExpires
      ensures leaseExpires == old(leaseExpires) && lastStarted == old(lastStarted)
      ensures done ==>
                && nextRun == NextDaily(plan, now) && workerToken == None && retryCount == 0
                && log == old(log) + [Succeeded(now, token)]
      ensures !done ==> Snapshot(now) == old(Snapshot(now))
    {
      done := workerToken == Some(token) && now < leaseExpires;
      if done {
        nextRun, workerToken, retryCount := NextDaily(plan, now), None, 0;
        log := log + [Succeeded(now, token)];
      }
    }

    method MarkFailed(plan: Plan, now: Time, token: Token) returns (done: bool)
      modifies this
      ensures Snapshot(now) == Apply(plan, old(Snapshot(now)), Fail(token))
      ensures done <==> old(workerToken) == Some(token) && now < leaseExpires
      ensures leaseExpires == old(leaseExpires) && lastStarted == old(lastStarted)
      ensures done ==>
                && workerToken == None && log == old(log) + [Failed(now, token)]
                && (old(retryCount) == 0 ==> nextRun == now + 15 * MINUTE && retryCount == 1)
                && (old(retryCount) == 1 ==> nextRun == now + 60 * MINUTE && retryCount == 2)
                && (old(retryCount) == 2 ==> nextRun == now + 360 * MINUTE && retryCount == 3)
                && (old(retryCount) == 3 ==> nextRun == NextDaily(plan, now) && retryCount == 0)
      ensures !done ==> Snapshot(now) == old(Snapshot(now))
    {
      done := workerToken == Some(token) && now < leaseExpires;
      if done {
        nextRun, workerToken := RetryAt(plan, retryCount, now), None;
        retryCount := if retryCount >= 3 then 0 else retryCount + 1;
        log := log + [Failed(now, token)];
      }
    }
  }

  // ----- What every step keeps -----

  /** Failures since the last success. */
  ghost function Streak(log: seq<Entry>): nat {
    if log == [] then 0
    else
      match log[|log| - 1]
      case Succeeded(_, _) => 0
      case Failed(_, _) => Streak(log[..|log| - 1]) + 1
      case Claimed(_, _) => Streak(log[..|log| - 1])
  }

  /** A completion stands right behind the claim that it ends, with its token, and within the longest lease. */
  ghost predicate EndsItsClaim(log: seq<Entry>, k: nat)
    requires k < |log|
  {
    log[k].Claimed? ||
    (k > 0 && log[k - 1].Claimed? && log[k - 1].token == log[k].token
      && log[k - 1].at <= log[k].at < log[k - 1].at + MAX_LEASE)
  }

  /** No claim between a success and the daily instant after it. */
  ghost predicate WaitsForDaily(plan: Plan, log: seq<Entry>, t: Time) {
    forall k :: 0 <= k < |log| && log[k].Succeeded? ==> NextDaily(plan, log[k].at) <= t
  }

  ghost predicate LogInv(plan: Plan, log: seq<Entry>) {
    && (forall k :: 0 <= k < |log| ==> EndsItsClaim(log, k))
    && (forall j, k :: 0 <= j < k < |log| && log[j].Succeeded? ==> NextDaily(plan, log[j].at) <= log[k].at)
  }

  ghost predicate Inv(plan: Plan, s: State) {
    && LogInv(plan, s.log)
    && WaitsForDaily(plan, s.log, s.row.nextRun)
    && s.row.retries == Streak(s.log) % 4
    && (s.row.token.Some? ==>
          && s.log != [] && s.log[|s.log| - 1] == Claimed(s.row.started, s.row.token.value)
          && s.row.started <= s.now && s.row.lease <= s.row.started + MAX_LEASE && s.row.nextRun <= s.row.started)
  }

  ghost predicate Fresh(s: State) {
    s.row.token.None? && s.row.retries == 0 && s.log == []
  }

  lemma Append(plan: Plan, log: seq<Entry>, e: Entry)
    requires LogInv(plan, log) && EndsItsClaim(log + [e], |log|)
    requires WaitsForDaily(plan, log, e.at)
    ensures LogInv(plan, log + [e])
  {
    var more := log + [e];
    forall k | 0 <= k < |more| ensures EndsItsClaim(more, k) {
      if k < |log| {
        assert EndsItsClaim(log, k);
      }
    }
  }

  lemma ClaimKeepsInv(plan: Plan, s: State, token: Token)
    requires Inv(plan, s)
    ensures Inv(plan, Apply(plan, s, Claim(token)))
  {
    if Due(s) {
      Append(plan, s.log, Claimed(s.now, token));
    }
  }

  lemma FinishKeepsLog(plan: Plan, s: State, e: Entry)
    requires Inv(plan, s) && !e.Claimed? && e.at == s.now && Holds(s, e.token)
    ensures LogInv(plan, s.log + [e]) && WaitsForDaily(plan, s.log, s.now)
  {
    assert s.log[|s.log| - 1] == Claimed(s.row.started, e.token);
    Append(plan, s.log, e);
  }

  lemma SucceedKeepsInv(plan: Plan, s: State, token: Token)
    requires Inv(plan, s) && GoodPlan(plan)
    ensures Inv(plan, Apply(plan, s, Succeed(token)))
  {
    if Holds(s, token) {
      FinishKeepsLog(plan, s, Succeeded(s.now, token));
      NextDailyIsNext(plan, s.now, s.now);
    }
  }

  lemma FailuresWait(plan: Plan, log: seq<Entry>, e: Entry, t: Time, u: Time)
    requires WaitsForDaily(plan, log, t) && t <= u && !e.Succeeded?
    ensures WaitsForDaily(plan, log + [e], u)
  {
    assert forall k :: 0 <= k < |log| ==> (log + [e])[k] == log[k];
  }

  lemma FailKeepsInv(plan: Plan, s: State, token: Token)
    requires Inv(plan, s) && GoodPlan(plan)
    ensures Inv(plan, Apply(plan, s, Fail(token)))
  {
    if Holds(s, token) {
      FinishKeepsLog(plan, s, Failed(s.now, token));
      FailuresWait(plan, s.log, Failed(s.now, token), s.now, RetryAt(plan, s.row.retries, s.now));
    }
  }

  lemma StepKeepsInv(plan: Plan, s: State, e: Event)
    requires Inv(plan, s) && GoodPlan(plan)
    ensures Inv(plan, Apply(plan, s, e))
  {
    match e {
      case Tick(_) =>
      case Claim(token) => ClaimKeepsInv(plan, s, token);
      case Heartbeat(_) =>
      case Succeed(token) => SucceedKeepsInv(plan, s, token);
      case Fail(token) => FailKeepsInv(plan, s, token);
    }
  }

  lemma {:induction false} ReachableStatesAreConsistent(plan: Plan, s: State, run: seq<Event>)
    requires Fresh(s) && GoodPlan(plan)
    ensures Inv(plan, Final(plan, s, run))
  {
    if run != [] {
      ReachableStatesAreConsistent(plan, s, run[..|run| - 1]);
      StepKeepsInv(plan, Final(plan, s, run[..|run| - 1]), run[|run| - 1]);
    }
  }

  // ----- Results -----

  /** Two successes never fall between the same two consecutive daily instants: a daily instant lies between them. */
  lemma OneSuccessADay(plan: Plan, s: State, run: seq<Event>, j: nat, k: nat, from: Time)
    requires Fresh(s) && GoodPlan(plan) && IsDaily(plan, from)
    requires var log := Final(plan, s, run).log; j < k < |log| && log[j].Succeeded? && log[k].Succeeded?
    ensures var log := Final(plan, s, run).log;
            && log[j].at < NextDaily(plan, log[j].at) <= log[k].at
            && !(from <= log[j].at < from + DAY && from <= log[k].at < from + DAY)
  {
    ReachableStatesAreConsistent(plan, s, run);
    var log := Final(plan, s, run).log;
    NextDailyIsNext(plan, log[j].at, log[k].at);
    var next := NextDaily(plan, log[j].at);
    if from <= log[j].at && next < from + DAY {
      Multiples(from + plan.offset - plan.daily, next + plan.offset - plan.daily);
      assert false;
    }
  }

  /** Every completion ends the claim right before it: the latest claimer's, once, within an hour of the claim. */
  lemma CompletionsEndTheLatestClaim(plan: Plan, s: State, run: seq<Event>, k: nat)
    requires Fresh(s) && GoodPlan(plan) && k < |Final(plan, s, run).log| && !Final(plan, s, run).log[k].Claimed?
    ensures var log := Final(plan, s, run).log;
            && k > 0 && log[k - 1].Claimed? && log[k - 1].token == log[k].token
            && log[k - 1].at <= log[k].at < log[k - 1].at + MAX_LEASE
  {
    ReachableStatesAreConsistent(plan, s, run);
    assert EndsItsClaim(Final(plan, s, run).log, k);
  }

  /**
    The retry count is the number of failures since the last success, counted modulo four: so it stays in 0..3, the
    first three failures in a row wait a quarter of an hour, an hour and six hours, and every fourth waits for the
    daily time.
   */
  lemma FourthFailureWaitsForTheDay(plan: Plan, s: State, run: seq<Event>, token: Token)
    requires Fresh(s) && GoodPlan(plan) && Holds(Final(plan, s, run), token)
    ensures var t := Final(plan, s, run);
            var u := Apply(plan, t, Fail(token));
            var failures := Streak(u.log);
            && 0 <= t.row.retries <= 3 && failures == Streak(t.log) + 1 && u.row.retries == failures % 4
            && u.row.nextRun == if failures % 4 == 1 then t.now + 15 * MINUTE
                                else if failures % 4 == 2 then t.now + HOUR
                                else if failures % 4 == 3 then t.now + 6 * HOUR
                                else NextDaily(plan, t.now)
  {
    ReachableStatesAreConsistent(plan, s, run);
    ReachableStatesAreConsistent(plan, s, run + [Fail(token)]);
    assert (run + [Fail(token)])[..|run|] == run;
  }

  /** A schedule that its worker abandons is due again exactly after 15 minutes. */
  lemma AbandonedClaimsAreTakenOver(plan: Plan, s: State, token: Token, elapsed: nat)
    requires Due(s)
    ensures Due(Apply(plan, Apply(plan, s, Claim(token)), Tick(elapsed))) <==> elapsed >= 15 * MINUTE
  {
  }

  /** A heartbeat never shortens a running lease, and no lease goes past an hour after its claim. */
  lemma HeartbeatsOnlyExtend(plan: Plan, s: State, e: Event)
    requires e.Heartbeat? && s.row.lease <= s.now + LEASE && s.row.lease <= s.row.started + MAX_LEASE
    ensures s.row.lease <= Apply(plan, s, e).row.lease <= s.row.started + MAX_LEASE
  {
  }

  lemma {:induction false} LeasesAreShort(plan: Plan, s: State, run: seq<Event>)
    requires Fresh(s)
    ensures var t := Final(plan, s, run);
            t.row.token.Some? ==> t.row.lease <= t.now + LEASE && t.row.lease <= t.row.started + MAX_LEASE
  {
    if run != [] {
      LeasesAreShort(plan, s, run[..|run| - 1]);
    }
  }
}
