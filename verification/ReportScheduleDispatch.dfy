/** The dispatch loop: claims runs one by one, executes each and counts what became of it. */
module ReportScheduleDispatch {
  import opened Options

  /** A repository update returned true, returned false, or threw. */
  datatype Reply = Updated | Refused | Raised

  datatype Execution = Report | NoDocuments | Threw

  /** `claimRunnable` returned a run, returned none, or threw. */
  datatype Claim = Claimed | NothingDue | ClaimThrew

  /**
    What one iteration meets: whether the deadline is still ahead, what the claim came to, how the
    execution ended, whether a heartbeat had lost the lease when the execution returned and
    when an error was caught, whether the runtime timer fired, and the replies to its updates.
   */
  datatype Iteration = Iteration(
    beforeDeadline: bool, claim: Claim, execution: Execution, leaseLostAtReturn: bool, leaseLostAtCatch: bool,
    runtimeExceeded: bool, markReply: Reply, failReply: Reply)

  datatype Kind = MarkSucceeded | MarkSkipped | MarkFailed

  datatype Call = Call(iteration: nat, kind: Kind, reply: Reply)

  datatype Counts = Counts(claimed: nat, failed: nat, leaseLost: nat, skipped: nat, succeeded: nat)

  /** How many of the first `n` updates are of this kind and got this reply. */
  ghost function Replies(calls: seq<Call>, n: nat, kind: Kind, reply: Reply): nat
    requires n <= |calls|
  {
    if n == 0 then 0 else Replies(calls, n - 1, kind, reply) + if Is(calls[n - 1], kind, reply) then 1 else 0
  }

  ghost function CallsOf(calls: seq<Call>, kind: Kind, reply: Reply): nat {
    Replies(calls, |calls|, kind, reply)
  }

  predicate Is(c: Call, kind: Kind, reply: Reply) {
    c.kind == kind && c.reply == reply
  }

  /** What an iteration adds to the counters; `Rejected` means that recording the failure threw. */
  datatype Outcome = Succeeded | Skipped | Failed | LeaseLost | Rejected

  /** The counter an iteration feeds is the update that was acknowledged during it, if any. */
  ghost predicate Explains(outcome: Outcome, calls: seq<Call>) {
    && CallsOf(calls, MarkSucceeded, Updated) == (if outcome == Succeeded then 1 else 0)
    && CallsOf(calls, MarkSkipped, Updated) == (if outcome == Skipped then 1 else 0)
    && CallsOf(calls, MarkFailed, Updated) == (if outcome == Failed then 1 else 0)
    && (outcome == Rejected ==>
         calls != [] && calls[|calls| - 1].kind == MarkFailed && calls[|calls| - 1].reply == Raised)
  }

  lemma {:induction false} RepliesAppend(a: seq<Call>, b: seq<Call>, n: nat, kind: Kind, reply: Reply)
    requires n <= |b|
    ensures Replies(a + b, |a| + n, kind, reply) == CallsOf(a, kind, reply) + Replies(b, n, kind, reply)
  {
    if n == 0 {
      RepliesPrefix(a, b, |a|, kind, reply);
    } else {
      RepliesAppend(a, b, n - 1, kind, reply);
    }
  }

  lemma {:induction false} RepliesPrefix(a: seq<Call>, b: seq<Call>, n: nat, kind: Kind, reply: Reply)
    requires n <= |a|
    ensures Replies(a + b, n, kind, reply) == Replies(a, n, kind, reply)
  {
    if n > 0 {
      RepliesPrefix(a, b, n - 1, kind, reply);
    }
  }

  lemma CallsOfAppend(a: seq<Call>, b: seq<Call>, kind: Kind, reply: Reply)
    ensures CallsOf(a + b, kind, reply) == CallsOf(a, kind, reply) + CallsOf(b, kind, reply)
  {
    RepliesAppend(a, b, |b|, kind, reply);
  }

  lemma OneMoreCall(calls: seq<Call>, c: Call, kind: Kind, reply: Reply)
    ensures CallsOf(calls + [c], kind, reply)
         == CallsOf(calls, kind, reply) + if Is(c, kind, reply) then 1 else 0
  {
    CallsOfAppend(calls, [c], kind, reply);
    assert Replies([c], 1, kind, reply) == Replies([c], 0, kind, reply) + if Is(c, kind, reply) then 1 else 0;
  }

  lemma NothingCalled(outcome: Outcome)
    requires outcome == LeaseLost
    ensures Explains(outcome, [])
  {
  }

  /** A completion that was acknowledged is the outcome; one that was not leaves nothing acknowledged. */
  lemma CompletionCalled(c: Call, outcome: Outcome)
    requires c.kind == MarkSucceeded || c.kind == MarkSkipped
    requires outcome == if c.reply != Updated then LeaseLost else if c.kind == MarkSucceeded then Succeeded else Skipped
    ensures Explains(outcome, [] + [c])
  {
    OneMoreCall([], c, MarkSucceeded, Updated);
    OneMoreCall([], c, MarkSkipped, Updated);
    OneMoreCall([], c, MarkFailed, Updated);
  }

  /** Recording a failure after calls of which none was acknowledged. */
  lemma FailureCalled(calls: seq<Call>, c: Call, outcome: Outcome)
    requires Explains(LeaseLost, calls) && c.kind == MarkFailed
    requires outcome == match c.reply case Updated => Failed case Refused => LeaseLost case Raised => Rejected
    ensures Explains(outcome, calls + [c])
  {
    OneMoreCall(calls, c, MarkSucceeded, Updated);
    OneMoreCall(calls, c, MarkSkipped, Updated);
    OneMoreCall(calls, c, MarkFailed, Updated);
  }

  // ----- What becomes of one claimed run -----

  /** The execution returned with the lease still held and within its runtime. */
  ghost predicate InTime(i: Iteration) {
    i.execution != Threw && !i.leaseLostAtReturn && !i.runtimeExceeded
  }

  /** The execution, its timer or the completing update threw. */
  ghost predicate Caught(i: Iteration) {
    i.execution == Threw || (!i.leaseLostAtReturn && i.runtimeExceeded) || (InTime(i) && i.markReply == Raised)
  }

  /** The completion that iteration `n` tries, and the failure that it records. */
  ghost function Completion(n: nat, i: Iteration): seq<Call> {
    if !InTime(i) then [] else [Call(n, if i.execution == Report then MarkSucceeded else MarkSkipped, i.markReply)]
  }

  ghost function Failure(n: nat, i: Iteration): seq<Call> {
    if Caught(i) && !i.leaseLostAtCatch then [Call(n, MarkFailed, i.failReply)] else []
  }

  /** The updates that a run makes: one completion if it returned in time, one failure if something was caught. */
  ghost predicate Makes(i: Iteration, kind: Kind, reply: Reply) {
    match kind
    case MarkSucceeded => InTime(i) && i.execution == Report && reply == i.markReply
    case MarkSkipped => InTime(i) && i.execution == NoDocuments && reply == i.markReply
    case MarkFailed => Caught(i) && !i.leaseLostAtCatch && reply == i.failReply
  }

  /**
    How an iteration ends. The lease is lost when a heartbeat had lost it by the time it was looked at, or when an
    update found it gone.
   */
  ghost predicate Ends(i: Iteration, outcome: Outcome) {
    match outcome
    case Succeeded => InTime(i) && i.execution == Report && i.markReply == Updated
    case Skipped => InTime(i) && i.execution == NoDocuments && i.markReply == Updated
    case Failed => Caught(i) && !i.leaseLostAtCatch && i.failReply == Updated
    case LeaseLost =>
      || (i.execution != Threw && i.leaseLostAtReturn)
      || (InTime(i) && i.markReply == Refused)
      || (Caught(i) && (i.leaseLostAtCatch || i.failReply == Refused))
    case Rejected => Caught(i) && !i.leaseLostAtCatch && i.failReply == Raised
  }

  lemma EndsOneWay(i: Iteration, a: Outcome, b: Outcome)
    requires Ends(i, a) && Ends(i, b)
    ensures a == b
  {
  }

  /** The part of the `try` block: none if it threw, else the outcome and the update it tried. */
  method Execute(n: nat, i: Iteration) returns (outcome: Option<Outcome>, calls: seq<Call>)
    ensures Explains(if outcome.Some? then outcome.value else LeaseLost, calls)
    ensures calls == Completion(n, i)
    ensures outcome.None? <==> Caught(i)
    ensures outcome.Some? ==> Ends(i, outcome.value)
  {
    NothingCalled(LeaseLost);
    calls := [];
    if i.execution == Threw {
      return None, calls;
    }
    if i.leaseLostAtReturn {
      return Some(LeaseLost), calls;
    }
    if i.runtimeExceeded {
      return None, calls;
    }
    var kind := if i.execution == NoDocuments then MarkSkipped else MarkSucceeded;
    var call := Call(n, kind, i.markReply);
    outcome := match i.markReply
      case Raised => None
      case Refused => Some(LeaseLost)
      case Updated => Some(if kind == MarkSkipped then Skipped else Succeeded);
    CompletionCalled(call, if outcome.Some? then outcome.value else LeaseLost);
    calls := calls + [call];
  }

  /** One claimed run: execute it, record the outcome, and record a failure for anything thrown. */
  method Settle(n: nat, i: Iteration) returns (outcome: Outcome, calls: seq<Call>)
    ensures Explains(outcome, calls)
    ensures Ends(i, outcome)
    ensures calls == Completion(n, i) + Failure(n, i)
  {
    var tried;
    tried, calls := Execute(n, i);
    if tried.Some? {
      return tried.value, calls;
    }
    if i.leaseLostAtCatch {
      return LeaseLost, calls;
    }
    var call := Call(n, MarkFailed, i.failReply);
    outcome := match i.failReply case Raised => Rejected case Updated => Failed case Refused => LeaseLost;
    FailureCalled(calls, call, outcome);
    calls := calls + [call];
  }

  /** Each counter is the number of updates the repository acknowledged. */
  ghost predicate Acknowledged(c: Counts, calls: seq<Call>) {
    && c.succeeded == CallsOf(calls, MarkSucceeded, Updated)
    && c.skipped == CallsOf(calls, MarkSkipped, Updated)
    && c.failed == CallsOf(calls, MarkFailed, Updated)
  }

  function Add(c: Counts, outcome: Outcome): Counts {
    var next := c.(claimed := c.claimed + 1);
    match outcome
    case Succeeded => next.(succeeded := c.succeeded + 1)
    case Skipped => next.(skipped := c.skipped + 1)
    case Failed => next.(failed := c.failed + 1)
    case LeaseLost => next.(leaseLost := c.leaseLost + 1)
    case Rejected => next
  }

  lemma AddAcknowledges(c: Counts, calls: seq<Call>, outcome: Outcome, more: seq<Call>)
    requires Acknowledged(c, calls) && Explains(outcome, more)
    ensures Acknowledged(Add(c, outcome), calls + more)
  {
    CallsOfAppend(calls, more, MarkSucceeded, Updated);
    CallsOfAppend(calls, more, MarkSkipped, Updated);
    CallsOfAppend(calls, more, MarkFailed, Updated);
  }

  // ----- What becomes of all of them -----

  /** The update is called once if its iteration, between `from` and `to`, makes it, and never otherwise. */
  ghost predicate CalledAsMade(script: seq<Iteration>, from: nat, to: nat, calls: seq<Call>, c: Call)
    requires to <= |script|
  {
    multiset(calls)[c] == if from <= c.iteration < to && Makes(script[c.iteration], c.kind, c.reply) then 1 else 0
  }

  /** The updates called are, in turn, those that the iterations from `from` to `to` make. */
  ghost predicate Makings(script: seq<Iteration>, from: nat, to: nat, calls: seq<Call>)
    requires to <= |script|
  {
    (forall c: Call :: CalledAsMade(script, from, to, calls, c)) && InTurn(calls)
  }

  ghost predicate InTurn(calls: seq<Call>) {
    forall j, k :: 0 <= j < k < |calls| ==> calls[j].iteration <= calls[k].iteration
  }

  lemma CompletionAsMade(n: nat, i: Iteration, c: Call)
    ensures multiset(Completion(n, i))[c]
         == if c.iteration == n && c.kind != MarkFailed && Makes(i, c.kind, c.reply) then 1 else 0
  {
    var made := Completion(n, i);
    assert made == [] || multiset(made) == multiset{made[0]};
  }

  lemma FailureAsMade(n: nat, i: Iteration, c: Call)
    ensures multiset(Failure(n, i))[c]
         == if c.iteration == n && c.kind == MarkFailed && Makes(i, c.kind, c.reply) then 1 else 0
  {
    var made := Failure(n, i);
    assert made == [] || multiset(made) == multiset{made[0]};
  }

  lemma SettlesAsMade(script: seq<Iteration>, n: nat)
    requires n < |script|
    ensures Makings(script, n, n + 1, Completion(n, script[n]) + Failure(n, script[n]))
  {
    var next := n + 1;
    forall c: Call ensures CalledAsMade(script, n, next, Completion(n, script[n]) + Failure(n, script[n]), c) {
      CompletionAsMade(n, script[n], c);
      FailureAsMade(n, script[n], c);
    }
  }

  lemma MakingsAdd(script: seq<Iteration>, n: nat, calls: seq<Call>, more: seq<Call>)
    requires n < |script| && Makings(script, 0, n, calls) && Makings(script, n, n + 1, more)
    ensures Makings(script, 0, n + 1, calls + more)
  {
    var next := n + 1;
    forall c: Call ensures CalledAsMade(script, 0, next, calls + more, c) {
      assert CalledAsMade(script, 0, n, calls, c) && CalledAsMade(script, n, next, more, c);
    }
    forall c | c in calls ensures c.iteration < n {
      assert c in multiset(calls) && CalledAsMade(script, 0, n, calls, c);
    }
    forall c | c in more ensures c.iteration == n {
      assert c in multiset(more) && CalledAsMade(script, n, n + 1, more, c);
    }
  }

  /** How many of the first `n` iterations end so. */
  ghost function Ending(script: seq<Iteration>, n: nat, outcome: Outcome): nat
    requires n <= |script|
  {
    if n == 0 then 0 else Ending(script, n - 1, outcome) + if Ends(script[n - 1], outcome) then 1 else 0
  }

  /** Each counter is the number of iterations that ended so. */
  ghost predicate Numbers(c: Counts, script: seq<Iteration>, n: nat)
    requires n <= |script|
  {
    && c.claimed == n
    && c.succeeded == Ending(script, n, Succeeded)
    && c.skipped == Ending(script, n, Skipped)
    && c.failed == Ending(script, n, Failed)
    && c.leaseLost == Ending(script, n, LeaseLost)
  }

  lemma NumbersNext(c: Counts, script: seq<Iteration>, n: nat, outcome: Outcome)
    requires n < |script| && Numbers(c, script, n) && Ends(script[n], outcome)
    ensures Numbers(Add(c, outcome), script, n + 1)
  {
  }

  /** The loop comes to iteration `n` and asks for a run: every iteration before it claimed one and did not reject. */
  ghost predicate Reached(script: seq<Iteration>, claimLimit: nat, n: nat) {
    && n < claimLimit && n < |script| && script[n].beforeDeadline
    && forall m :: 0 <= m < n ==>
         script[m].beforeDeadline && script[m].claim == Claimed && !Ends(script[m], Rejected)
  }

  /**
    In some iteration that the loop comes to, the claim throws, or a run is claimed whose failure cannot be
    recorded.
   */
  ghost predicate Rejects(script: seq<Iteration>, claimLimit: nat) {
    exists n: nat :: Reached(script, claimLimit, n)
      && (script[n].claim == ClaimThrew || (script[n].claim == Claimed && Ends(script[n], Rejected)))
  }

  /** Every one of the first `n` iterations claims a run and goes on. */
  ghost predicate Passed(script: seq<Iteration>, n: nat) {
    n <= |script| && forall m :: 0 <= m < n ==>
      script[m].beforeDeadline && script[m].claim == Claimed && !Ends(script[m], Rejected)
  }

  /** The loop leaves after `n` iterations without a run to execute. */
  ghost predicate Leaves(script: seq<Iteration>, claimLimit: nat, n: nat) {
    n >= claimLimit || n >= |script| || !script[n].beforeDeadline || script[n].claim == NothingDue
  }

  lemma LeavingIsNoRejection(script: seq<Iteration>, claimLimit: nat, n: nat)
    requires Passed(script, n) && Leaves(script, claimLimit, n)
    ensures !Rejects(script, claimLimit)
  {
  }

  lemma RejectedHere(script: seq<Iteration>, claimLimit: nat, n: nat)
    requires Passed(script, n) && n < claimLimit && n < |script| && script[n].beforeDeadline
    requires script[n].claim == ClaimThrew || (script[n].claim == Claimed && Ends(script[n], Rejected))
    ensures Rejects(script, claimLimit)
  {
    assert Reached(script, claimLimit, n);
  }

  /** What the loop has made and counted after `n` iterations. */
  ghost predicate Booked(script: seq<Iteration>, n: nat, c: Counts, calls: seq<Call>)
    requires n <= |script|
  {
    && c.failed + c.leaseLost + c.skipped + c.succeeded == c.claimed == n
    && Acknowledged(c, calls) && Numbers(c, script, n) && Makings(script, 0, n, calls)
  }

  /** The rest of iteration `n` once a run is claimed; recording its failure may throw out of the loop. */
  method Account(n: nat, script: seq<Iteration>, counts: Counts, calls: seq<Call>)
    returns (thrown: bool, newCounts: Counts, newCalls: seq<Call>)
    requires n < |script| && Booked(script, n, counts, calls)
    ensures thrown <==> Ends(script[n], Rejected)
    ensures Makings(script, 0, n + 1, newCalls)
    ensures !thrown ==> Booked(script, n + 1, newCounts, newCalls)
  {
    var outcome, more := Settle(n, script[n]);
    if outcome != Rejected && Ends(script[n], Rejected) {
      EndsOneWay(script[n], outcome, Rejected);
    }
    SettlesAsMade(script, n);
    MakingsAdd(script, n, calls, more);
    NumbersNext(counts, script, n, outcome);
    AddAcknowledges(counts, calls, outcome, more);
    thrown, newCounts, newCalls := outcome == Rejected, Add(counts, outcome), calls + more;
  }

  /**
    Runs until the claim limit, the deadline or an empty queue. Every claimed run ends in exactly one counter, after
    the updates that its execution calls for; the loop rejects exactly when recording a failure or a claim throws.
   */
  method Dispatch(claimLimit: nat, script: seq<Iteration>)
    returns (result: Option<Counts>, calls: seq<Call>, claimed: nat)
    ensures result.None? <==> Rejects(script, claimLimit)
    ensures claimed <= claimLimit && claimed <= |script|
    ensures forall n :: 0 <= n < claimed ==> script[n].beforeDeadline && script[n].claim == Claimed
    ensures Makings(script, 0, claimed, calls)
    ensures result.Some? ==>
              Passed(script, claimed) && Leaves(script, claimLimit, claimed)
              && Booked(script, claimed, result.value, calls)
  {
    var counts := Counts(0, 0, 0, 0, 0);
    calls, claimed := [], 0;
    while claimed < claimLimit && claimed < |script| && script[claimed].beforeDeadline
      invariant claimed <= claimLimit && claimed <= |script|
      invariant Booked(script, claimed, counts, calls)
      invariant Passed(script, claimed)
    {
      match script[claimed].claim {
        case ClaimThrew =>
          RejectedHere(script, claimLimit, claimed);
          return None, calls, claimed;
        case NothingDue => break;
        case Claimed =>
      }
      var thrown;
      thrown, counts, calls := Account(claimed, script, counts, calls);
      if thrown {
        RejectedHere(script, claimLimit, claimed);
        return None, calls, claimed + 1;
      }
      claimed := claimed + 1;
    }
    LeavingIsNoRejection(script, claimLimit, claimed);
    result := Some(counts);
  }
}
