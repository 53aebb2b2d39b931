/**
  One migrator running to its end or to its first failing call. Every change it makes is a step of `MigrationRunner`, so
  what is proved of all runs holds of it.
 */
module MigrationDatabase {
  import opened MigrationRunner
  import opened Options

  /** The parts of the migrations `a..b`, in order. */
  function Scripts(dir: seq<Migration>, a: nat, b: nat): seq<Effect>
    requires a <= b <= |dir|
    decreases b
  {
    if a == b then [] else Scripts(dir, a, b - 1) + Script(b - 1, Parts(dir[b - 1]))
  }

  /** How many SQL calls applying the migrations `a..b` needs: one a statement, one a record, one a transaction. */
  function Calls(dir: seq<Migration>, a: nat, b: nat): nat
    requires a <= b <= |dir|
    decreases b
  {
    if a == b then 0
    else Calls(dir, a, b - 1) + Parts(dir[b - 1]) + if dir[b - 1].body.Statements? then 1 else 0
  }

  lemma {:induction false} FinalOfTwo(dir: seq<Migration>, s: State, a: seq<Event>, b: seq<Event>)
    ensures Final(dir, s, a + b) == Final(dir, Final(dir, s, a), b)
  {
    if b == [] {
      assert a + b == a;
    } else {
      var front := b[..|b| - 1];
      FinalOfTwo(dir, s, a, front);
      assert (a + b)[..|a + b| - 1] == a + front;
    }
  }

  /** Some steps of the migrators lead from `s` to `t`. */
  ghost predicate Reaches(dir: seq<Migration>, s: State, t: State) {
    exists run :: Final(dir, s, run) == t
  }

  lemma ReachesSelf(dir: seq<Migration>, s: State)
    ensures Reaches(dir, s, s)
  {
    assert Final(dir, s, []) == s;
  }

  lemma ReachesStep(dir: seq<Migration>, s: State, t: State, e: Event)
    requires Reaches(dir, s, t)
    ensures Reaches(dir, s, Apply(dir, t, e))
  {
    var run :| Final(dir, s, run) == t;
    OneMore(dir, s, run, e);
  }

  lemma ReachesTwice(dir: seq<Migration>, s: State, t: State, u: State)
    requires Reaches(dir, s, t) && Reaches(dir, t, u)
    ensures Reaches(dir, s, u)
  {
    var a :| Final(dir, s, a) == t;
    var b :| Final(dir, t, b) == u;
    FinalOfTwo(dir, s, a, b);
  }

  /** The migrations `n..m` were applied on top of `before`, and nothing else. */
  ghost predicate Applied(
    dir: seq<Migration>, n: nat, before: seq<Effect>, recorded: seq<string>, log: seq<Effect>, m: nat)
  {
    n <= m <= |dir| && recorded == Versions(dir)[..m] && log == before + Scripts(dir, n, m)
  }

  /**
    The migrations `n..m` were applied on top of `before`, then `done` parts of migration `m`; a look-up of a recorded
    migration that failed leaves everything as it was.
   */
  ghost predicate StoppedIn(
    dir: seq<Migration>, n: nat, before: seq<Effect>, recorded: seq<string>, log: seq<Effect>, m: nat, done: nat)
  {
    && n <= |dir| && m < |dir| && done <= Parts(dir[m]) && (m < n || dir[m].body.Transaction? ==> done == 0)
    && recorded == Versions(dir)[..Later(n, m)] && log == before + Scripts(dir, n, Later(n, m)) + Script(m, done)
  }

  /** The loop stopped inside some migration, and what came before it was kept. */
  ghost predicate Stopped(dir: seq<Migration>, n: nat, before: seq<Effect>, recorded: seq<string>, log: seq<Effect>) {
    exists m: nat, done: nat :: StoppedIn(dir, n, before, recorded, log, m, done)
  }

  lemma AppliedOneMore(
    dir: seq<Migration>, n: nat, before: seq<Effect>, recorded: seq<string>, log: seq<Effect>, m: nat)
    requires m < |dir| && Applied(dir, n, before, recorded, log, m)
    ensures Applied(dir, n, before, recorded + [dir[m].version], log + Script(m, Parts(dir[m])), m + 1)
  {
  }

  /** The calls of one turn of the loop: the look-up, and what an unrecorded migration needs. */
  function TurnCalls(dir: seq<Migration>, n: nat, i: nat): nat
    requires i < |dir|
  {
    1 + if i < n then 0 else Calls(dir, i, i + 1)
  }

  function LoopCalls(dir: seq<Migration>, n: nat, i: nat): nat
    requires i <= |dir|
  {
    if i == 0 then 0 else LoopCalls(dir, n, i - 1) + TurnCalls(dir, n, i - 1)
  }

  lemma {:induction false} LoopCallsSum(dir: seq<Migration>, n: nat, i: nat)
    requires n <= |dir| && i <= |dir|
    ensures LoopCalls(dir, n, i) == i + if i < n then 0 else Calls(dir, n, i)
  {
    if i > 0 {
      LoopCallsSum(dir, n, i - 1);
      assert Calls(dir, i - 1, i - 1) == 0 && Calls(dir, n, n) == 0;
    }
  }

  lemma LoopCallsTotal(dir: seq<Migration>, n: nat)
    requires n <= |dir|
    ensures LoopCalls(dir, n, |dir|) == |dir| + Calls(dir, n, |dir|)
  {
    LoopCallsSum(dir, n, |dir|);
  }

  lemma {:induction false} LoopCallsGrow(dir: seq<Migration>, n: nat, i: nat)
    requires i <= |dir|
    ensures LoopCalls(dir, n, i) <= LoopCalls(dir, n, |dir|)
    decreases |dir| - i
  {
    if i < |dir| {
      LoopCallsGrow(dir, n, i + 1);
    }
  }

  function Later(n: nat, i: nat): nat {
    if i < n then n else i
  }

  lemma AllApplied(dir: seq<Migration>, n: nat, before: seq<Effect>, recorded: seq<string>, log: seq<Effect>)
    requires Applied(dir, n, before, recorded, log, Later(n, |dir|))
    ensures recorded == Versions(dir) && log == before + Scripts(dir, n, |dir|)
  {
  }

  lemma AppliedIsPrefix(
    dir: seq<Migration>, n: nat, before: seq<Effect>, recorded: seq<string>, log: seq<Effect>, m: nat)
    requires Applied(dir, n, before, recorded, log, m)
    ensures RecordedPrefix(dir, recorded) && |recorded| == m
  {
  }

  class Database {
    var recorded: seq<string>
    var log: seq<Effect>
    var lock: Option<Process>
    ghost var phases: map<Process, Phase>

    ghost function Snapshot(): State
      reads this
    {
      State(recorded, log, lock, phases)
    }

    /** Runs the statements of migration `i` until one fails; `calls` is how many calls still succeed. */
    method ExecuteStatements(dir: seq<Migration>, i: nat, me: Process, calls: nat) returns (left: nat, ok: bool)
      requires i < |dir| && dir[i].body.Statements? && me in phases && phases[me] == Applying(i, 0)
      modifies this`log, this`phases
      ensures Reaches(dir, old(Snapshot()), Snapshot())
      ensures ok <==> |dir[i].body.list| <= calls
      ensures var done := if ok then |dir[i].body.list| else calls;
              && log == old(log) + Script(i, done) && left == calls - done
              && (forall j :: 0 <= j < done ==> log[|old(log)| + j] == Effect(i, j))
              && phases == old(phases)[me := Applying(i, done)]
    {
      left := calls;
      var list := dir[i].body.list;
      ReachesSelf(dir, Snapshot());
      for j := 0 to |list|
        invariant Reaches(dir, old(Snapshot()), Snapshot())
        invariant log == old(log) + Script(i, j) && left == calls - j
        invariant phases == old(phases)[me := Applying(i, j)]
      {
        if left == 0 {
          return left, false;
        }
        left := left - 1;
        ReachesStep(dir, old(Snapshot()), Snapshot(), Execute(me));
        log := log + [Effect(i, j)];
        phases := phases[me := Applying(i, j + 1)];
        assert Script(i, j + 1) == Script(i, j) + [Effect(i, j)];
      }
      ok := true;
    }

    /** Applies one migration that is not recorded; its version is recorded only after all of its SQL succeeded. */
    method ApplyLoadedMigration(dir: seq<Migration>, i: nat, me: Process, calls: nat) returns (left: nat, ok: bool)
      requires i < |dir| && phases == map[me := Applying(i, 0)] && dir[i].version !in recorded
      modifies this`recorded, this`log, this`phases
      ensures Reaches(dir, old(Snapshot()), Snapshot())
      ensures ok <==> Calls(dir, i, i + 1) <= calls
      ensures Calls(dir, i, i + 1) == match dir[i].body case Transaction(_) => 1 case Statements(list) => |list| + 1
      ensures ok ==>
                && left == calls - Calls(dir, i, i + 1) && recorded == old(recorded) + [dir[i].version]
                && log == old(log) + Script(i, Parts(dir[i])) && phases == map[me := Looking(i + 1)]
      ensures !ok ==>
                && recorded == old(recorded) && phases.Keys == {me}
                && exists done: nat :: done <= Parts(dir[i]) && (dir[i].body.Transaction? ==> done == 0)
                                       && log == old(log) + Script(i, done)
    {
      assert Calls(dir, i, i) == 0;
      match dir[i].body {
        case Statements(list) =>
          left, ok := ExecuteStatements(dir, i, me, calls);
          if !ok || left == 0 {
            ok := false;
            return;
          }
          left := left - 1;
          ReachesStep(dir, old(Snapshot()), Snapshot(), Record(me));
          recorded := recorded + [dir[i].version];
          phases := phases[me := Looking(i + 1)];
        case Transaction(_) =>
          ReachesSelf(dir, Snapshot());
          if calls == 0 {
            assert log == old(log) + Script(i, 0);
            return 0, false;
          }
          left, ok := calls - 1, true;
          ReachesStep(dir, old(Snapshot()), Snapshot(), Commit(me));
          assert Script(i, 1) == [Effect(i, 0)];
          recorded := recorded + [dir[i].version];
          log := log + [Effect(i, 0)];
          phases := phases[me := Looking(i + 1)];
      }
    }

    /** One turn of the loop over the directory: a recorded migration is skipped, the next one is applied. */
    method VisitMigration(dir: seq<Migration>, i: nat, me: Process, calls: nat) returns (left: nat, ok: bool)
      requires DistinctVersions(dir) && RecordedPrefix(dir, recorded) && i <= |recorded| && i < |dir|
      requires phases == map[me := Looking(i)]
      modifies this`recorded, this`log, this`phases
      ensures Reaches(dir, old(Snapshot()), Snapshot())
      ensures ok <==> 1 + (if i < |old(recorded)| then 0 else Calls(dir, i, i + 1)) <= calls
      ensures ok ==> phases == map[me := Looking(i + 1)]
      ensures i < |old(recorded)| ==> recorded == old(recorded) && log == old(log) && (ok ==> left == calls - 1)
      ensures i == |old(recorded)| && ok ==>
                && left == calls - 1 - Calls(dir, i, i + 1) && recorded == old(recorded) + [dir[i].version]
                && log == old(log) + Script(i, Parts(dir[i]))
      ensures !ok ==>
                && recorded == old(recorded) && phases.Keys == {me}
                && exists done: nat :: done <= Parts(dir[i])
                                       && (i < |old(recorded)| || dir[i].body.Transaction? ==> done == 0)
                                       && log == old(log) + Script(i, done)
    {
      NextVersionIsNew(dir, recorded, i);
      ReachesSelf(dir, Snapshot());
      if calls == 0 {
        assert log == old(log) + Script(i, 0);
        return 0, false;
      }
      ReachesStep(dir, Snapshot(), Snapshot(), Look(me));
      if dir[i].version in recorded {
        phases := map[me := Looking(i + 1)];
        return calls - 1, true;
      }
      phases := map[me := Applying(i, 0)];
      ghost var middle := Snapshot();
      left, ok := ApplyLoadedMigration(dir, i, me, calls - 1);
      ReachesTwice(dir, old(Snapshot()), middle, Snapshot());
    }

    /** Turn `i` of the loop is next: `n` versions were recorded when it started, and `before` was committed. */
    ghost predicate Visiting(dir: seq<Migration>, n: nat, before: seq<Effect>, start: State, me: Process, i: nat)
      reads this
    {
      && Reaches(dir, start, Snapshot()) && phases == map[me := Looking(i)]
      && Applied(dir, n, before, recorded, log, Later(n, i))
    }

    /** The same turn, seen from the start of the loop. */
    method VisitNext(
      dir: seq<Migration>, i: nat, me: Process, calls: nat, ghost n: nat, ghost before: seq<Effect>, ghost start: State)
      returns (left: nat, ok: bool)
      requires DistinctVersions(dir) && i < |dir| && Visiting(dir, n, before, start, me, i)
      modifies this`recorded, this`log, this`phases
      ensures ok ==> Visiting(dir, n, before, start, me, i + 1)
      ensures !ok ==>
                && Reaches(dir, start, Snapshot()) && phases.Keys == {me}
                && Stopped(dir, n, before, recorded, log)
      ensures ok <==> TurnCalls(dir, n, i) <= calls
      ensures ok ==> left == calls - TurnCalls(dir, n, i)
    {
      AppliedIsPrefix(dir, n, before, recorded, log, Later(n, i));
      if i >= n {
        AppliedOneMore(dir, n, before, recorded, log, i);
      }
      left, ok := VisitMigration(dir, i, me, calls);
      ReachesTwice(dir, start, old(Snapshot()), Snapshot());
      if !ok {
        ghost var done: nat :| done <= Parts(dir[i]) && (i < |old(recorded)| || dir[i].body.Transaction? ==> done == 0)
                               && log == old(log) + Script(i, done);
        assert StoppedIn(dir, n, before, recorded, log, i, done);
      }
    }

    /** Waits for the advisory lock; it is free here. */
    method Connect(dir: seq<Migration>, me: Process)
      requires lock == None && phases == map[]
      modifies this`lock, this`phases
      ensures lock == Some(me) && phases == map[me := Looking(0)] && Reaches(dir, old(Snapshot()), Snapshot())
    {
      ReachesSelf(dir, Snapshot());
      ReachesStep(dir, Snapshot(), Snapshot(), Acquire(me));
      lock := Some(me);
      phases := map[me := Looking(0)];
    }

    /** `finally`: the lock is freed and the session ends. */
    method Disconnect(dir: seq<Migration>, me: Process, ghost start: State)
      requires phases.Keys == {me} && lock == Some(me) && Reaches(dir, start, Snapshot())
      modifies this`lock, this`phases
      ensures lock == None && phases == map[] && Reaches(dir, start, Snapshot())
    {
      ReachesStep(dir, start, Snapshot(), Leave(me));
      lock := None;
      phases := map[];
    }

    /** The loop over the directory, under the lock. */
    method VisitAll(dir: seq<Migration>, me: Process, calls: nat, ghost start: State) returns (ok: bool)
      requires DistinctVersions(dir) && RecordedPrefix(dir, recorded) && Reaches(dir, start, Snapshot())
      requires phases == map[me := Looking(0)]
      modifies this`recorded, this`log, this`phases
      ensures Reaches(dir, start, Snapshot()) && phases.Keys == {me}
      ensures ok <==> |dir| + Calls(dir, |old(recorded)|, |dir|) <= calls
      ensures ok ==> recorded == Versions(dir) && log == old(log) + Scripts(dir, |old(recorded)|, |dir|)
      ensures !ok ==> Stopped(dir, |old(recorded)|, old(log), recorded, log)
    {
      ghost var n: nat, before := |recorded|, log;
      LoopCallsTotal(dir, n);
      var left := calls;
      for i := 0 to |dir|
        invariant Visiting(dir, n, before, start, me, i)
        invariant left == calls - LoopCalls(dir, n, i)
      {
        LoopCallsGrow(dir, n, i + 1);
        left, ok := VisitNext(dir, i, me, left, n, before, start);
        if !ok {
          return;
        }
      }
      ok := true;
      AllApplied(dir, n, before, recorded, log);
    }

    /**
      Takes the lock, makes sure that the version table exists, applies what is missing, and frees the lock in every
      case. It succeeds exactly when all the calls it needs do; otherwise it changed nothing or stopped inside some
      migration, keeping what came before.
     */
    method MigrateDatabase(dir: seq<Migration>, me: Process, calls: nat) returns (ok: bool)
      requires DistinctVersions(dir) && RecordedPrefix(dir, recorded) && lock == None && phases == map[]
      modifies this
      ensures Reaches(dir, old(Snapshot()), Snapshot()) && lock == None && phases == map[]
      ensures ok <==> 2 + |dir| + Calls(dir, |old(recorded)|, |dir|) <= calls
      ensures ok ==> recorded == Versions(dir) && log == old(log) + Scripts(dir, |old(recorded)|, |dir|)
      ensures !ok ==>
                || (recorded == old(recorded) && log == old(log))
                || Stopped(dir, |old(recorded)|, old(log), recorded, log)
    {
      ghost var start := Snapshot();
      ReachesSelf(dir, start);
      if calls == 0 {
        return false;
      }
      Connect(dir, me);
      if calls == 1 {
        Disconnect(dir, me, start);
        return false;
      }
      ok := VisitAll(dir, me, calls - 2, start);
      Disconnect(dir, me, start);
    }
  }
}
