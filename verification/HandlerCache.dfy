/**
  A resolver that shares one initialization attempt between concurrent callers and keeps the first handler that may be
  cached. Promises are events: an attempt settles, and a later turn of the event loop clears its slot.
 */
module HandlerCache {
  import opened Options

  type Handler = string

  datatype Outcome = Success(handler: Handler, cacheable: bool) | Failure

  datatype Phase = Running | Settled(outcome: Outcome) | Cleared(outcome: Outcome)

  /** Attempts are numbered in the order in which they start; `attempts[a]` is where attempt `a` is. */
  datatype State = State(cached: Option<Handler>, inflight: Option<nat>, attempts: seq<Phase>)

  datatype Event = Resolve | Settle(attempt: nat, outcome: Outcome) | Clear(attempt: nat) | Reset

  /** What a caller gets: the cached handler, or the attempt whose result it awaits. */
  datatype Answer = Ready(handler: Handler) | Await(attempt: nat)

  const START := State(None, None, [])

  function AnswerOf(s: State): Answer {
    if s.cached.Some? then Ready(s.cached.value)
    else if s.inflight.Some? then Await(s.inflight.value)
    else Await(|s.attempts|)
  }

  function Apply(s: State, e: Event): State {
    match e
    case Resolve =>
      if s.cached.Some? || s.inflight.Some? then s
      else s.(inflight := Some(|s.attempts|), attempts := s.attempts + [Running])
    case Settle(a, outcome) =>
      if a >= |s.attempts| || s.attempts[a] != Running then s
      else s.(attempts := s.attempts[a := Settled(outcome)],
              cached := if outcome.Success? && outcome.cacheable then Some(outcome.handler) else s.cached)
    case Clear(a) =>
      if a >= |s.attempts| || !s.attempts[a].Settled? then s
      else s.(attempts := s.attempts[a := Cleared(s.attempts[a].outcome)],
              inflight := if s.inflight == Some(a) then None else s.inflight)
    case Reset => s.(cached := None, inflight := None)
  }

  function Final(s: State, run: seq<Event>): State {
    if run == [] then s else Apply(Final(s, run[..|run| - 1]), run[|run| - 1])
  }

  /** The process-scoped object; its two variables are all that the callers share. */
  class Resolver {
    var cached: Option<Handler>
    var inflight: Option<nat>
    ghost var attempts: seq<Phase>
    var started: nat

    ghost function Snapshot(): State
      reads this
    {
      State(cached, inflight, attempts)
    }

    constructor ()
      ensures Snapshot() == START && started == 0
    {
      cached, inflight, attempts, started := None, None, [], 0;
    }

    method Resolve() returns (answer: Answer)
      requires started == |attempts|
      modifies this
      ensures Snapshot() == Apply(old(Snapshot()), Event.Resolve) && started == |attempts|
      ensures answer == AnswerOf(old(Snapshot()))
      ensures cached == old(cached)
      ensures cached.Some? || old(inflight).Some? ==> inflight == old(inflight) && attempts == old(attempts)
      ensures cached.None? && old(inflight).None? ==>
                inflight == Some(|old(attempts)|) && attempts == old(attempts) + [Running]
      ensures answer == if cached.Some? then Ready(cached.value) else Await(inflight.value)
    {
      if cached.Some? {
        return Ready(cached.value);
      }
      if inflight.None? {
        inflight := Some(started);
        started := started + 1;
        attempts := attempts + [Running];
      }
      return Await(inflight.value);
    }

    /** The attempt finishes: a handler that may be cached is stored, whoever waits. */
    method Settle(attempt: nat, outcome: Outcome)
      requires attempt < |attempts| && attempts[attempt] == Running
      modifies this`cached, this`attempts
      ensures Snapshot() == Apply(old(Snapshot()), Event.Settle(attempt, outcome)) && |attempts| == |old(attempts)|
      ensures attempts == old(attempts)[attempt := Settled(outcome)]
      ensures cached == if outcome.Success? && outcome.cacheable then Some(outcome.handler) else old(cached)
    {
      match outcome {
        case Success(handler, cacheable) =>
          if cacheable {
            cached := Some(handler);
          }
        case Failure =>
      }
      attempts := attempts[attempt := Settled(outcome)];
    }

    /** `finally` of the caller that started the attempt. */
    method Clear(attempt: nat)
      requires attempt < |attempts| && attempts[attempt].Settled?
      modifies this`inflight, this`attempts
      ensures Snapshot() == Apply(old(Snapshot()), Event.Clear(attempt)) && |attempts| == |old(attempts)|
      ensures attempts == old(attempts)[attempt := Cleared(old(attempts)[attempt].outcome)]
      ensures inflight == if old(inflight) == Some(attempt) then None else old(inflight)
    {
      if inflight == Some(attempt) {
        inflight := None;
      }
      attempts := attempts[attempt := Cleared(attempts[attempt].outcome)];
    }

    method Reset()
      modifies this`cached, this`inflight
      ensures Snapshot() == Apply(old(Snapshot()), Event.Reset) && cached == None && inflight == None
    {
      cached, inflight := None, None;
    }
  }

  // ----- Runs without a reset -----

  ghost predicate NoReset(run: seq<Event>) {
    forall i :: 0 <= i < |run| ==> run[i] != Reset
  }

  predicate CacheableOf(p: Phase, h: Handler) {
    (p.Settled? || p.Cleared?) && p.outcome == Success(h, true)
  }

  predicate IsCacheable(p: Phase) {
    (p.Settled? || p.Cleared?) && p.outcome.Success? && p.outcome.cacheable
  }

  predicate GaveUp(p: Phase) {
    p.Cleared? && !IsCacheable(p)
  }

  /**
    The slot names exactly the attempts not cleared yet, and the cache holds what the one cacheable attempt
    returned.
   */
  ghost predicate Inv(s: State) {
    && (forall a :: 0 <= a < |s.attempts| ==> (!s.attempts[a].Cleared? <==> s.inflight == Some(a)))
    && (s.inflight.Some? ==> s.inflight.value == |s.attempts| - 1 && |s.attempts| > 0)
    && (forall a :: 0 <= a < |s.attempts| ==>
          (IsCacheable(s.attempts[a]) <==> s.cached.Some? && a == |s.attempts| - 1)
          && (IsCacheable(s.attempts[a]) ==> s.cached == Some(s.attempts[a].outcome.handler)))
    && (s.cached.Some? ==> s.attempts != [])
  }

  lemma StepKeepsInv(s: State, e: Event)
    requires Inv(s) && e != Reset
    ensures Inv(Apply(s, e))
  {
  }

  lemma {:induction false} InvAlways(run: seq<Event>)
    requires NoReset(run)
    ensures Inv(Final(START, run))
  {
    if run != [] {
      InvAlways(run[..|run| - 1]);
      StepKeepsInv(Final(START, run[..|run| - 1]), run[|run| - 1]);
    }
  }

  /** Without a reset at most one initialization is under way at any time: the one in the slot. */
  lemma SingleFlight(run: seq<Event>, a: nat, b: nat)
    requires NoReset(run) && a < |Final(START, run).attempts| && b < |Final(START, run).attempts|
    requires Final(START, run).attempts[a] == Running && Final(START, run).attempts[b] == Running
    ensures a == b && Final(START, run).inflight == Some(a)
  {
    InvAlways(run);
  }

  /** A failed or uncacheable attempt is retried: once it is cleared, the next caller starts a new one. */
  lemma FailuresAreRetried(run: seq<Event>)
    requires NoReset(run)
    requires forall a :: 0 <= a < |Final(START, run).attempts| ==> GaveUp(Final(START, run).attempts[a])
    ensures var s := Final(START, run);
            && AnswerOf(s) == Await(|s.attempts|)
            && Apply(s, Resolve) == State(None, Some(|s.attempts|), s.attempts + [Running])
  {
    InvAlways(run);
    var s := Final(START, run);
    if s.attempts != [] {
      assert GaveUp(s.attempts[|s.attempts| - 1]);
    }
  }

  /** Callers that come while an attempt is not cleared join it and start nothing. */
  lemma {:induction false} ConcurrentCallersJoin(run: seq<Event>, a: nat)
    requires NoReset(run) && a < |Final(START, run).attempts| && !Final(START, run).attempts[a].Cleared?
    ensures var s := Final(START, run);
            Apply(s, Resolve) == s && AnswerOf(s) == if s.cached.Some? then Ready(s.cached.value) else Await(a)
  {
    InvAlways(run);
  }

  lemma OneMore(s: State, run: seq<Event>, e: Event)
    ensures Final(s, run + [e]) == Apply(Final(s, run), e)
  {
    assert (run + [e])[..|run|] == run;
  }

  /** Once a handler is cached, every later caller gets that handler and no attempt starts any more. */
  lemma {:induction false} CachedForGood(run: seq<Event>, more: seq<Event>)
    requires NoReset(run + more) && Final(START, run).cached.Some?
    ensures var s, t := Final(START, run), Final(START, run + more);
            t.cached == s.cached && |t.attempts| == |s.attempts| && AnswerOf(t) == Ready(s.cached.value)
  {
    if more == [] {
      assert run + more == run;
    } else {
      var front, last := more[..|more| - 1], more[|more| - 1];
      assert (run + more)[..|run + more| - 1] == run + front;
      assert (run + more)[|run + more| - 1] == last;
      assert NoReset(run + front);
      CachedForGood(run, front);
      InvAlways(run + front);
    }
  }

  /** Of all attempts of a run without a reset at most one is cacheable, and its handler is the cached one. */
  lemma OneCacheableAttempt(run: seq<Event>, a: nat)
    requires NoReset(run) && a < |Final(START, run).attempts| && IsCacheable(Final(START, run).attempts[a])
    ensures var s := Final(START, run);
            && s.cached == Some(s.attempts[a].outcome.handler)
            && forall b :: 0 <= b < |s.attempts| && b != a ==> !IsCacheable(s.attempts[b])
  {
    InvAlways(run);
  }

  // ----- Runs with resets -----

  ghost predicate FromCacheable(s: State) {
    s.cached.Some? ==> exists a :: 0 <= a < |s.attempts| && CacheableOf(s.attempts[a], s.cached.value)
  }

  lemma StepCachesCacheable(s: State, e: Event)
    requires FromCacheable(s)
    ensures FromCacheable(Apply(s, e))
  {
    var t := Apply(s, e);
    if t.cached.Some? {
      if e.Settle? && e.attempt < |s.attempts| && s.attempts[e.attempt] == Running && IsCacheable(Settled(e.outcome)) {
        assert CacheableOf(t.attempts[e.attempt], t.cached.value);
      } else {
        var a :| 0 <= a < |s.attempts| && CacheableOf(s.attempts[a], s.cached.value);
        assert CacheableOf(t.attempts[a], t.cached.value);
      }
    }
  }

  /** With or without resets, what is cached is the handler of an attempt that allowed caching. */
  lemma {:induction false} OnlyCacheableIsCached(run: seq<Event>)
    ensures FromCacheable(Final(START, run))
  {
    if run != [] {
      OnlyCacheableIsCached(run[..|run| - 1]);
      StepCachesCacheable(Final(START, run[..|run| - 1]), run[|run| - 1]);
    }
  }

  ghost predicate SlotIsLive(s: State) {
    s.inflight.Some? ==> s.inflight.value < |s.attempts| && !s.attempts[s.inflight.value].Cleared?
  }

  /**
    With resets too the slot never names a cleared attempt, and only three things change it: a caller fills an empty
    slot, the attempt in the slot is cleared, or a reset empties it. Other attempts that finish leave it alone.
   */
  lemma {:induction false} AttemptsFreeTheirOwnSlot(run: seq<Event>, e: Event)
    ensures var s := Final(START, run);
            && SlotIsLive(s)
            && (Apply(s, e).inflight != s.inflight ==>
                  || (e == Resolve && s.inflight.None?)
                  || (s.inflight.Some? && e == Clear(s.inflight.value))
                  || e == Reset)
  {
    if run != [] {
      AttemptsFreeTheirOwnSlot(run[..|run| - 1], e);
    }
  }

  ghost function Resets(run: seq<Event>): nat {
    if run == [] then 0 else Resets(run[..|run| - 1]) + if run[|run| - 1] == Reset then 1 else 0
  }

  /** How many attempts are not cleared yet. */
  ghost function Open(attempts: seq<Phase>): nat {
    if attempts == [] then 0
    else Open(attempts[..|attempts| - 1]) + if attempts[|attempts| - 1].Cleared? then 0 else 1
  }

  ghost function RunningCount(attempts: seq<Phase>): nat {
    if attempts == [] then 0
    else RunningCount(attempts[..|attempts| - 1]) + if attempts[|attempts| - 1].Running? then 1 else 0
  }

  lemma {:induction false} RunningAreOpen(attempts: seq<Phase>)
    ensures RunningCount(attempts) <= Open(attempts)
  {
    if attempts != [] {
      RunningAreOpen(attempts[..|attempts| - 1]);
    }
  }

  lemma {:induction false} OpenAfterUpdate(attempts: seq<Phase>, a: nat, p: Phase)
    requires a < |attempts|
    ensures Open(attempts[a := p])
         == Open(attempts) - (if attempts[a].Cleared? then 0 else 1) + (if p.Cleared? then 0 else 1)
  {
    var n := |attempts| - 1;
    if a < n {
      assert attempts[a := p][..n] == attempts[..n][a := p];
      OpenAfterUpdate(attempts[..n], a, p);
    } else {
      assert attempts[a := p][..n] == attempts[..n];
    }
  }

  lemma OpenAfterStart(attempts: seq<Phase>)
    ensures Open(attempts + [Running]) == Open(attempts) + 1
  {
    assert (attempts + [Running])[..|attempts|] == attempts;
  }

  lemma OpenStep(s: State, e: Event)
    ensures var t := Apply(s, e);
            && (e == Resolve ==> Open(t.attempts) - (if t.inflight.Some? then 1 else 0)
                                 <= Open(s.attempts) - (if s.inflight.Some? then 1 else 0))
            && (e.Settle? ==> Open(t.attempts) == Open(s.attempts) && t.inflight == s.inflight)
            && (e.Clear? ==> Open(t.attempts) - (if t.inflight.Some? then 1 else 0)
                             <= Open(s.attempts) - (if s.inflight.Some? then 1 else 0))
            && (e == Reset ==> t.attempts == s.attempts && t.inflight == None)
  {
    match e {
      case Resolve => OpenAfterStart(s.attempts);
      case Settle(a, outcome) => if a < |s.attempts| { OpenAfterUpdate(s.attempts, a, Settled(outcome)); }
      case Clear(a) =>
        if a < |s.attempts| && s.attempts[a].Settled? {
          OpenAfterUpdate(s.attempts, a, Cleared(s.attempts[a].outcome));
        }
      case Reset =>
    }
  }

  lemma {:induction false} OpenPerReset(run: seq<Event>)
    ensures var s := Final(START, run); Open(s.attempts) <= Resets(run) + if s.inflight.Some? then 1 else 0
  {
    if run != [] {
      OpenPerReset(run[..|run| - 1]);
      OpenStep(Final(START, run[..|run| - 1]), run[|run| - 1]);
    }
  }

  /** Every reset allows at most one more initialization to run beside the others. */
  lemma ResetsBoundConcurrency(run: seq<Event>)
    ensures RunningCount(Final(START, run).attempts) <= Resets(run) + 1
  {
    OpenPerReset(run);
    RunningAreOpen(Final(START, run).attempts);
  }

  // ----- What a reset does not reach -----

  /** The cached handler, if there is one, comes from an attempt with at least this number. */
  ghost predicate CachedFrom(s: State, first: nat) {
    s.cached.Some? ==> exists a :: first <= a < |s.attempts| && CacheableOf(s.attempts[a], s.cached.value)
  }

  ghost predicate NoneRunningBelow(s: State, first: nat) {
    first <= |s.attempts| && forall a :: 0 <= a < first ==> s.attempts[a] != Running
  }

  lemma CleanStep(s: State, e: Event, first: nat)
    requires NoneRunningBelow(s, first) && CachedFrom(s, first)
    ensures NoneRunningBelow(Apply(s, e), first) && CachedFrom(Apply(s, e), first)
  {
    var t := Apply(s, e);
    if t.cached.Some? {
      if e.Settle? && e.attempt < |s.attempts| && s.attempts[e.attempt] == Running && IsCacheable(Settled(e.outcome)) {
        assert CacheableOf(t.attempts[e.attempt], t.cached.value);
      } else {
        var a :| first <= a < |s.attempts| && CacheableOf(s.attempts[a], s.cached.value);
        assert CacheableOf(t.attempts[a], t.cached.value);
      }
    }
  }

  lemma {:induction false} CleanAlways(s: State, run: seq<Event>, first: nat)
    requires NoneRunningBelow(s, first) && CachedFrom(s, first)
    ensures NoneRunningBelow(Final(s, run), first) && CachedFrom(Final(s, run), first)
  {
    if run != [] {
      CleanAlways(s, run[..|run| - 1], first);
      CleanStep(Final(s, run[..|run| - 1]), run[|run| - 1], first);
    }
  }

  /** In whatever follows, everything cached comes from an attempt that started after the reset. */
  ghost predicate ForgetsOldAttempts(s: State) {
    forall run :: CachedFrom(Final(Apply(s, Reset), run), |s.attempts|)
  }

  /**
    An attempt that was running at the reset fills the cache as soon as it settles with a handler that may be
    cached.
   */
  lemma StaleAttemptFillsTheCache(s: State, a: nat, h: Handler)
    requires a < |s.attempts| && s.attempts[a] == Running
    ensures var t := Final(Apply(s, Reset), [Settle(a, Success(h, true))]);
            t.cached == Some(h) && |t.attempts| == |s.attempts| && !CachedFrom(t, |s.attempts|)
  {
    OneMore(Apply(s, Reset), [], Settle(a, Success(h, true)));
    assert [] + [Settle(a, Success(h, true))] == [Settle(a, Success(h, true))];
  }

  /** A reset makes the resolver forget all older attempts exactly when none of them is running at that moment. */
  lemma ResetForgetsWhenIdle(s: State)
    ensures ForgetsOldAttempts(s) <==> forall a :: 0 <= a < |s.attempts| ==> s.attempts[a] != Running
  {
    if forall a :: 0 <= a < |s.attempts| ==> s.attempts[a] != Running {
      forall run ensures CachedFrom(Final(Apply(s, Reset), run), |s.attempts|) {
        CleanAlways(Apply(s, Reset), run, |s.attempts|);
      }
    } else {
      var a :| 0 <= a < |s.attempts| && s.attempts[a] == Running;
      StaleAttemptFillsTheCache(s, a, "handler");
      assert !CachedFrom(Final(Apply(s, Reset), [Settle(a, Success("handler", true))]), |s.attempts|);
    }
  }
}
