/**
  Any number of migrators over one database. Every one takes the advisory lock, walks the directory in file-name order,
  looks each version up, and applies what is missing; it may stop at any point, and the database then frees its lock.
 */
module MigrationRunner {
  import opened Options

  type Process = nat

  datatype Body = Transaction(sql: string) | Statements(list: seq<string>)

  datatype Migration = Migration(version: string, body: Body)

  /** One committed piece of a migration's SQL: a whole transactional body or one statement. */
  datatype Effect = Effect(migration: nat, part: nat)

  datatype Phase = Looking(next: nat) | Applying(next: nat, done: nat)

  /** `recorded` lists the rows of schema_migrations in insertion order; `log` is everything that was committed. */
  datatype State = State(recorded: seq<string>, log: seq<Effect>, lock: Option<Process>, phases: map<Process, Phase>)

  datatype Event =
    | Acquire(process: Process)
    | Look(process: Process)
    | Execute(process: Process)
    | Record(process: Process)
    | Commit(process: Process)
    | Leave(process: Process)

  function Parts(m: Migration): nat {
    match m.body
    case Transaction(_) => 1
    case Statements(list) => |list|
  }

  function Script(migration: nat, parts: nat): seq<Effect> {
    seq(parts, j requires 0 <= j < parts => Effect(migration, j))
  }

  ghost predicate DistinctVersions(dir: seq<Migration>) {
    forall i, j :: 0 <= i < j < |dir| ==> dir[i].version != dir[j].version
  }

  function Versions(dir: seq<Migration>): (r: seq<string>)
    ensures |r| == |dir|
  {
    seq(|dir|, i requires 0 <= i < |dir| => dir[i].version)
  }

  // ----- Steps -----

  /** The end of a session: by finishing, by an error, or by a crash. */
  function Gone(s: State, p: Process): State {
    s.(phases := s.phases - {p}, lock := if s.lock == Some(p) then None else s.lock)
  }

  function Moved(s: State, p: Process, phase: Phase): State {
    s.(phases := s.phases[p := phase])
  }

  function ApplyAt(dir: seq<Migration>, s: State, p: Process, i: nat, done: nat, e: Event): State
    requires i < |dir|
  {
    var m := dir[i];
    match e
    case Execute(_) =>
      if m.body.Statements? && done < |m.body.list|
      then Moved(s.(log := s.log + [Effect(i, done)]), p, Applying(i, done + 1)) else s
    case Record(_) =>
      if m.body.Transaction? || done != |m.body.list| then s
      else if m.version in s.recorded then Gone(s, p)
      else Moved(s.(recorded := s.recorded + [m.version]), p, Looking(i + 1))
    case Commit(_) =>
      if !m.body.Transaction? then s
      else if m.version in s.recorded then Gone(s, p)
      else Moved(s.(recorded := s.recorded + [m.version], log := s.log + [Effect(i, 0)]), p, Looking(i + 1))
    case _ => s
  }

  function Apply(dir: seq<Migration>, s: State, e: Event): State {
    var p := e.process;
    match e
    case Acquire(_) =>
      if p in s.phases || s.lock.Some? then s
      else s.(lock := Some(p), phases := s.phases[p := Looking(0)])
    case Leave(_) => if p in s.phases then Gone(s, p) else s
    case Look(_) =>
      if p !in s.phases || !s.phases[p].Looking? || s.phases[p].next >= |dir| then s
      else
        var i := s.phases[p].next;
        Moved(s, p, if dir[i].version in s.recorded then Looking(i + 1) else Applying(i, 0))
    case _ =>
      if p !in s.phases || !s.phases[p].Applying? || s.phases[p].next >= |dir| then s
      else ApplyAt(dir, s, p, s.phases[p].next, s.phases[p].done, e)
  }

  const EMPTY := State([], [], None, map[])

  function Final(dir: seq<Migration>, s: State, run: seq<Event>): State {
    if run == [] then s else Apply(dir, Final(dir, s, run[..|run| - 1]), run[|run| - 1])
  }

  // ----- What every step keeps -----

  /** The recorded versions are the first ones of the directory, in order. */
  ghost predicate RecordedPrefix(dir: seq<Migration>, recorded: seq<string>) {
    |recorded| <= |dir| && forall k :: 0 <= k < |recorded| ==> recorded[k] == dir[k].version
  }

  ghost predicate RanAt(log: seq<Effect>, script: seq<Effect>, a: nat) {
    a + |script| <= |log| && log[a..a + |script|] == script
  }

  /** The script was committed as a block, in order. */
  ghost predicate Ran(log: seq<Effect>, script: seq<Effect>) {
    exists a: nat :: RanAt(log, script, a)
  }

  ghost predicate EndsWith(log: seq<Effect>, script: seq<Effect>) {
    |script| <= |log| && log[|log| - |script|..] == script
  }

  ghost predicate InOrder(log: seq<Effect>) {
    forall a, b :: 0 <= a < b < |log| ==> log[a].migration <= log[b].migration
  }

  /** Nothing of a migration past the `n` recorded ones was committed, except statements of the next one. */
  ghost predicate Bounded(dir: seq<Migration>, n: nat, log: seq<Effect>) {
    forall a :: 0 <= a < |log| ==>
      log[a].migration < n || (log[a].migration == n < |dir| && dir[n].body.Statements?)
  }

  ghost predicate Complete(dir: seq<Migration>, n: nat, log: seq<Effect>)
    requires n <= |dir|
  {
    forall k :: 0 <= k < n ==> Ran(log, Script(k, Parts(dir[k])))
  }

  ghost predicate Once(dir: seq<Migration>, n: nat, log: seq<Effect>)
    requires n <= |dir|
  {
    forall k :: 0 <= k < n && dir[k].body.Transaction? ==> multiset(log)[Effect(k, 0)] == 1
  }

  ghost predicate Logged(dir: seq<Migration>, n: nat, log: seq<Effect>) {
    n <= |dir| && InOrder(log) && Bounded(dir, n, log) && Complete(dir, n, log) && Once(dir, n, log)
  }

  ghost predicate Placed(dir: seq<Migration>, n: nat, log: seq<Effect>, phase: Phase) {
    match phase
    case Looking(i) => i <= n
    case Applying(i, done) =>
      && i == n < |dir| && done <= Parts(dir[i]) && (dir[i].body.Transaction? ==> done == 0)
      && EndsWith(log, Script(i, done))
  }

  ghost predicate Inv(dir: seq<Migration>, s: State) {
    && RecordedPrefix(dir, s.recorded)
    && Logged(dir, |s.recorded|, s.log)
    && (forall p :: p in s.phases ==> s.lock == Some(p) && Placed(dir, |s.recorded|, s.log, s.phases[p]))
  }

  lemma RanGrows(log: seq<Effect>, script: seq<Effect>, e: Effect)
    requires Ran(log, script)
    ensures Ran(log + [e], script)
  {
    var a: nat :| RanAt(log, script, a);
    assert (log + [e])[a..a + |script|] == script;
    assert RanAt(log + [e], script, a);
  }

  lemma ExecutedStatement(dir: seq<Migration>, n: nat, log: seq<Effect>, done: nat)
    requires Logged(dir, n, log) && n < |dir| && dir[n].body.Statements? && done < |dir[n].body.list|
    requires EndsWith(log, Script(n, done))
    ensures Logged(dir, n, log + [Effect(n, done)]) && EndsWith(log + [Effect(n, done)], Script(n, done + 1))
  {
    var more := log + [Effect(n, done)];
    forall k | 0 <= k < n ensures Ran(more, Script(k, Parts(dir[k]))) {
      RanGrows(log, Script(k, Parts(dir[k])), Effect(n, done));
    }
    assert Script(n, done + 1) == Script(n, done) + [Effect(n, done)];
    assert more[|more| - (done + 1)..] == log[|log| - done..] + [Effect(n, done)];
  }

  lemma RecordedStatements(dir: seq<Migration>, n: nat, log: seq<Effect>)
    requires Logged(dir, n, log) && n < |dir| && dir[n].body.Statements?
    requires EndsWith(log, Script(n, Parts(dir[n])))
    ensures Logged(dir, n + 1, log)
  {
    var script := Script(n, Parts(dir[n]));
    assert RanAt(log, script, |log| - |script|);
  }

  lemma CommittedBody(dir: seq<Migration>, n: nat, log: seq<Effect>)
    requires Logged(dir, n, log) && n < |dir| && dir[n].body.Transaction?
    ensures Logged(dir, n + 1, log + [Effect(n, 0)])
  {
    var e := Effect(n, 0);
    var more := log + [e];
    assert multiset(more) == multiset(log) + multiset{e};
    forall k | 0 <= k < n + 1 ensures Ran(more, Script(k, Parts(dir[k]))) {
      if k < n {
        RanGrows(log, Script(k, Parts(dir[k])), e);
      } else {
        assert Script(k, Parts(dir[k])) == [e];
        assert RanAt(more, Script(k, Parts(dir[k])), |log|);
      }
    }
  }

  lemma NextVersionIsNew(dir: seq<Migration>, recorded: seq<string>, i: nat)
    requires DistinctVersions(dir) && RecordedPrefix(dir, recorded) && i < |dir|
    ensures dir[i].version in recorded <==> i < |recorded|
  {
    if i < |recorded| {
      assert recorded[i] == dir[i].version;
    }
  }

  /** The session that is applying a migration: it is the next one, and its version is not recorded. */
  ghost predicate Busy(dir: seq<Migration>, s: State, p: Process) {
    Inv(dir, s) && p in s.phases && s.phases[p].Applying?
  }

  lemma ExecuteKeepsInv(dir: seq<Migration>, s: State, p: Process)
    requires Busy(dir, s, p)
    ensures Inv(dir, Apply(dir, s, Execute(p)))
  {
    var n, done := |s.recorded|, s.phases[p].done;
    if dir[n].body.Statements? && done < |dir[n].body.list| {
      ExecutedStatement(dir, n, s.log, done);
    }
  }

  lemma RecordKeepsInv(dir: seq<Migration>, s: State, p: Process)
    requires DistinctVersions(dir) && Busy(dir, s, p)
    ensures Inv(dir, Apply(dir, s, Record(p)))
  {
    var n, done := |s.recorded|, s.phases[p].done;
    NextVersionIsNew(dir, s.recorded, n);
    if dir[n].body.Statements? && done == |dir[n].body.list| {
      RecordedStatements(dir, n, s.log);
    }
  }

  lemma CommitKeepsInv(dir: seq<Migration>, s: State, p: Process)
    requires DistinctVersions(dir) && Busy(dir, s, p)
    ensures Inv(dir, Apply(dir, s, Commit(p)))
  {
    var n := |s.recorded|;
    NextVersionIsNew(dir, s.recorded, n);
    if dir[n].body.Transaction? {
      CommittedBody(dir, n, s.log);
    }
  }

  lemma StepKeepsInv(dir: seq<Migration>, s: State, e: Event)
    requires DistinctVersions(dir) && Inv(dir, s)
    ensures Inv(dir, Apply(dir, s, e))
  {
    var p := e.process;
    if p in s.phases && s.phases[p].Applying? && (e.Execute? || e.Record? || e.Commit?) {
      match e {
        case Execute(_) => ExecuteKeepsInv(dir, s, p);
        case Record(_) => RecordKeepsInv(dir, s, p);
        case _ => CommitKeepsInv(dir, s, p);
      }
    } else if e.Look? && p in s.phases && s.phases[p].Looking? && s.phases[p].next < |dir| {
      NextVersionIsNew(dir, s.recorded, s.phases[p].next);
    }
  }

  lemma {:induction false} ReachableStatesAreConsistent(dir: seq<Migration>, run: seq<Event>)
    requires DistinctVersions(dir)
    ensures Inv(dir, Final(dir, EMPTY, run))
  {
    if run != [] {
      ReachableStatesAreConsistent(dir, run[..|run| - 1]);
      StepKeepsInv(dir, Final(dir, EMPTY, run[..|run| - 1]), run[|run| - 1]);
    }
  }

  // ----- What a migrated database looks like -----

  /** Whatever the migrators did and wherever they stopped, the recorded versions are a prefix of file-name order. */
  lemma RecordedVersionsAreAPrefix(dir: seq<Migration>, run: seq<Event>)
    requires DistinctVersions(dir)
    ensures var s := Final(dir, EMPTY, run);
            && |s.recorded| <= |dir|
            && forall k :: 0 <= k < |dir| ==> (dir[k].version in s.recorded <==> k < |s.recorded|)
  {
    ReachableStatesAreConsistent(dir, run);
    var s := Final(dir, EMPTY, run);
    forall k | 0 <= k < |dir| ensures dir[k].version in s.recorded <==> k < |s.recorded| {
      NextVersionIsNew(dir, s.recorded, k);
    }
  }

  /** The parts of the migration stand in the log from `a` on, one after the other in their order. */
  ghost predicate CommittedAt(log: seq<Effect>, migration: nat, parts: nat, a: nat) {
    a + parts <= |log| && forall j :: 0 <= j < parts ==> log[a + j] == Effect(migration, j)
  }

  ghost predicate CommittedWhole(log: seq<Effect>, migration: nat, parts: nat) {
    exists a: nat :: CommittedAt(log, migration, parts, a)
  }

  /** A recorded version ran completely: all its parts were committed one after the other, in order. */
  lemma RecordedVersionsRan(dir: seq<Migration>, run: seq<Event>, k: nat)
    requires DistinctVersions(dir) && k < |dir| && dir[k].version in Final(dir, EMPTY, run).recorded
    ensures CommittedWhole(Final(dir, EMPTY, run).log, k, match dir[k].body
                                                          case Transaction(_) => 1
                                                          case Statements(list) => |list|)
  {
    ReachableStatesAreConsistent(dir, run);
    var s := Final(dir, EMPTY, run);
    NextVersionIsNew(dir, s.recorded, k);
    var script := Script(k, Parts(dir[k]));
    assert Ran(s.log, script);
    var a: nat :| RanAt(s.log, script, a);
    forall j | 0 <= j < |script| ensures s.log[a + j] == Effect(k, j) {
      assert s.log[a + j] == s.log[a..a + |script|][j] == script[j];
    }
    assert CommittedAt(s.log, k, |script|, a);
  }

  /** A transactional body is committed exactly once if its version is recorded, and not at all otherwise. */
  lemma {:induction false} TransactionsCommitOnce(dir: seq<Migration>, run: seq<Event>, k: nat)
    requires DistinctVersions(dir) && k < |dir| && dir[k].body.Transaction?
    ensures var s := Final(dir, EMPTY, run);
            multiset(s.log)[Effect(k, 0)] == if dir[k].version in s.recorded then 1 else 0
  {
    ReachableStatesAreConsistent(dir, run);
    var s := Final(dir, EMPTY, run);
    NextVersionIsNew(dir, s.recorded, k);
    if k >= |s.recorded| {
      assert forall a :: 0 <= a < |s.log| ==> s.log[a] != Effect(k, 0);
      assert Effect(k, 0) !in multiset(s.log);
    }
  }

  /**
    Nothing of a migration is committed before everything of the earlier ones is, and only recorded ones have
    successors.
   */
  lemma EffectsFollowTheDirectory(dir: seq<Migration>, run: seq<Event>, a: nat, b: nat)
    requires DistinctVersions(dir) && a < b < |Final(dir, EMPTY, run).log|
    ensures var s := Final(dir, EMPTY, run);
            && s.log[a].migration <= s.log[b].migration <= |s.recorded| && s.log[b].migration < |dir|
            && (s.log[a].migration < s.log[b].migration ==> dir[s.log[a].migration].version in s.recorded)
  {
    ReachableStatesAreConsistent(dir, run);
    var s := Final(dir, EMPTY, run);
    if s.log[a].migration < s.log[b].migration {
      NextVersionIsNew(dir, s.recorded, s.log[a].migration);
    }
  }

  /** At most one migrator is past the lock. */
  lemma OneMigratorAtATime(dir: seq<Migration>, run: seq<Event>, p: Process, q: Process)
    requires DistinctVersions(dir)
    requires p in Final(dir, EMPTY, run).phases && q in Final(dir, EMPTY, run).phases
    ensures p == q
  {
    ReachableStatesAreConsistent(dir, run);
  }

  lemma {:induction false} RecordedOnlyGrows(dir: seq<Migration>, s: State, run: seq<Event>, i: nat)
    requires i <= |run|
    ensures Final(dir, s, run[..i]).recorded <= Final(dir, s, run).recorded
  {
    if i < |run| {
      var front := run[..|run| - 1];
      assert front[..i] == run[..i];
      RecordedOnlyGrows(dir, s, front, i);
    } else {
      assert run[..i] == run;
    }
  }

  lemma OneMore(dir: seq<Migration>, s: State, run: seq<Event>, e: Event)
    ensures Final(dir, s, run + [e]) == Apply(dir, Final(dir, s, run), e)
  {
    assert (run + [e])[..|run|] == run;
  }

  // ----- What can run twice -----

  lemma PrefixHasNot(dir: seq<Migration>, k: nat)
    requires DistinctVersions(dir) && k < |dir|
    ensures dir[k].version !in Versions(dir)[..k]
    ensures forall i :: 0 <= i < k ==> dir[i].version in Versions(dir)[..k]
  {
    var done := Versions(dir)[..k];
    assert forall i :: 0 <= i < k ==> done[i] == dir[i].version;
  }

  /** One session `p` holds the lock at `phase`, with the first `k` versions recorded. */
  ghost predicate Stands(dir: seq<Migration>, run: seq<Event>, p: Process, k: nat, phase: Phase) {
    var s := Final(dir, EMPTY, run);
    k <= |dir| && s.recorded == Versions(dir)[..k] && s.lock == Some(p) && s.phases == map[p := phase]
  }

  /** The first `k` versions are recorded and nobody is at work. */
  ghost predicate Rests(dir: seq<Migration>, run: seq<Event>, k: nat) {
    var s := Final(dir, EMPTY, run);
    k <= |dir| && s.recorded == Versions(dir)[..k] && s.lock == None && s.phases == map[]
  }

  lemma SkipMigration(dir: seq<Migration>, run: seq<Event>, p: Process, k: nat, i: nat)
    requires DistinctVersions(dir) && i < k < |dir| && Stands(dir, run, p, k, Looking(i))
    ensures Stands(dir, run + [Look(p)], p, k, Looking(i + 1))
    ensures Final(dir, EMPTY, run + [Look(p)]).log == Final(dir, EMPTY, run).log
  {
    OneMore(dir, EMPTY, run, Look(p));
    PrefixHasNot(dir, k);
  }

  /** Running the first `n` statements of migration `k` appends their effects. */
  lemma {:induction false} SomeStatements(dir: seq<Migration>, run: seq<Event>, p: Process, k: nat, n: nat)
    returns (more: seq<Event>)
    requires k < |dir| && dir[k].body.Statements? && n <= |dir[k].body.list| && Stands(dir, run, p, k, Applying(k, 0))
    ensures Stands(dir, more, p, k, Applying(k, n))
    ensures Final(dir, EMPTY, more).log == Final(dir, EMPTY, run).log + Script(k, n)
  {
    if n == 0 {
      more := run;
    } else {
      var before := SomeStatements(dir, run, p, k, n - 1);
      more := before + [Execute(p)];
      assert Script(k, n) == Script(k, n - 1) + [Effect(k, n - 1)];
    }
  }

  lemma Finish(dir: seq<Migration>, run: seq<Event>, p: Process, k: nat, e: Event)
    requires DistinctVersions(dir) && k < |dir|
             && Stands(dir, run, p, k, Applying(k, if dir[k].body.Statements? then Parts(dir[k]) else 0))
    requires e == if dir[k].body.Statements? then Record(p) else Commit(p)
    ensures Stands(dir, run + [e], p, k + 1, Looking(k + 1))
  {
    OneMore(dir, EMPTY, run, e);
    PrefixHasNot(dir, k);
    assert Versions(dir)[..k + 1] == Versions(dir)[..k] + [dir[k].version];
  }

  /** A session that is never interrupted comes to look at migration `k` with everything before it recorded. */
  lemma {:induction false} ReachMigration(dir: seq<Migration>, p: Process, k: nat) returns (run: seq<Event>)
    requires DistinctVersions(dir) && k <= |dir|
    ensures Stands(dir, run, p, k, Looking(k))
  {
    if k == 0 {
      run := [] + [Acquire(p)];
      OneMore(dir, EMPTY, [], Acquire(p));
    } else {
      var before := ReachMigration(dir, p, k - 1);
      var started := before + [Look(p)];
      if dir[k - 1].body.Statements? {
        var done := SomeStatements(dir, started, p, k - 1, Parts(dir[k - 1]));
        Finish(dir, done, p, k - 1, Record(p));
        run := done + [Record(p)];
      } else {
        Finish(dir, started, p, k - 1, Commit(p));
        run := started + [Commit(p)];
      }
    }
  }

  /** The next session walks past the recorded migrations. */
  lemma {:induction false} WalkAgain(dir: seq<Migration>, run: seq<Event>, p: Process, k: nat, i: nat)
    returns (more: seq<Event>)
    requires DistinctVersions(dir) && i <= k < |dir| && Rests(dir, run, k)
    ensures Stands(dir, more, p, k, Looking(i)) && Final(dir, EMPTY, more).log == Final(dir, EMPTY, run).log
  {
    if i == 0 {
      more := run + [Acquire(p)];
      OneMore(dir, EMPTY, run, Acquire(p));
    } else {
      var before := WalkAgain(dir, run, p, k, i - 1);
      SkipMigration(dir, before, p, k, i - 1);
      more := before + [Look(p)];
    }
  }

  /** A session that stands at migration `k`, runs its first `n` statements and is gone. */
  lemma Interrupted(dir: seq<Migration>, run: seq<Event>, p: Process, k: nat, n: nat) returns (more: seq<Event>)
    requires DistinctVersions(dir) && k < |dir| && dir[k].body.Statements? && n <= |dir[k].body.list|
    requires Stands(dir, run, p, k, Looking(k))
    ensures Rests(dir, more, k) && Final(dir, EMPTY, more).log == Final(dir, EMPTY, run).log + Script(k, n)
  {
    var worked := SomeStatements(dir, run + [Look(p)], p, k, n);
    more := worked + [Leave(p)];
    OneMore(dir, EMPTY, worked, Leave(p));
  }

  /** Two interrupted sessions commit a statement twice. */
  lemma StatementsCanRepeat(dir: seq<Migration>, k: nat, j: nat) returns (run: seq<Event>)
    requires DistinctVersions(dir) && k < |dir| && dir[k].body.Statements? && j < |dir[k].body.list|
    ensures multiset(Final(dir, EMPTY, run).log)[Effect(k, j)] >= 2
  {
    var reached := ReachMigration(dir, 0, k);
    var first := Interrupted(dir, reached, 0, k, j + 1);
    var again := WalkAgain(dir, first, 1, k, k);
    run := Interrupted(dir, again, 1, k, j + 1);
    var script := Script(k, j + 1);
    assert script[j] == Effect(k, j) && Effect(k, j) in multiset(script);
    assert Final(dir, EMPTY, run).log == Final(dir, EMPTY, reached).log + script + script;
  }

  /** Only parts that the directory has are ever committed. */
  ghost predicate PartsExist(dir: seq<Migration>, log: seq<Effect>) {
    forall a :: 0 <= a < |log| ==> log[a].migration < |dir| && log[a].part < Parts(dir[log[a].migration])
  }

  lemma {:induction false} OnlyExistingParts(dir: seq<Migration>, run: seq<Event>)
    ensures PartsExist(dir, Final(dir, EMPTY, run).log)
  {
    if run != [] {
      OnlyExistingParts(dir, run[..|run| - 1]);
    }
  }

  ghost predicate CanRepeat(dir: seq<Migration>, k: nat, j: nat) {
    exists run: seq<Event> :: multiset(Final(dir, EMPTY, run).log)[Effect(k, j)] >= 2
  }

  lemma RepeatedPartsAreStatements(dir: seq<Migration>, run: seq<Event>, k: nat, j: nat)
    requires DistinctVersions(dir) && multiset(Final(dir, EMPTY, run).log)[Effect(k, j)] >= 2
    ensures k < |dir| && dir[k].body.Statements? && j < |dir[k].body.list|
  {
    var log := Final(dir, EMPTY, run).log;
    OnlyExistingParts(dir, run);
    assert Effect(k, j) in multiset(log);
    var a :| 0 <= a < |log| && log[a] == Effect(k, j);
    if dir[k].body.Transaction? {
      TransactionsCommitOnce(dir, run, k);
    }
  }

  /**
    Crashes can make some run commit a part of a migration twice exactly when it is a statement outside a
    transaction.
   */
  lemma OnlyStatementsCanRepeat(dir: seq<Migration>, k: nat, j: nat)
    requires DistinctVersions(dir)
    ensures CanRepeat(dir, k, j) <==> k < |dir| && dir[k].body.Statements? && j < |dir[k].body.list|
  {
    if CanRepeat(dir, k, j) {
      var run: seq<Event> :| multiset(Final(dir, EMPTY, run).log)[Effect(k, j)] >= 2;
      RepeatedPartsAreStatements(dir, run, k, j);
    } else if k < |dir| && dir[k].body.Statements? && j < |dir[k].body.list| {
      var run := StatementsCanRepeat(dir, k, j);
    }
  }
}
