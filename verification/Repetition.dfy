/** When one run of a bidirectional sync settles its secrets.  With distinct secrets or one worker it always
    does; with a secret listed twice and more workers there is a schedule that swaps its two sides. */
module Repetition {
  import opened Prelude
  import opened Jobs
  import opened Locality
  import opened NestedLoop
  import opened Pool
  import opened Recording
  import opened Resolver
  import opened Settling
  import opened SyncTable

  /** A sync between vaults that give back what was written, on which all calls work. */
  ghost predicate Works<V(!new)>(run: Run<V>, jobs: seq<Job>) {
    && run.kind == Bidirectional && run.Retries() >= 0 && Separate(run, jobs)
    && Injective(run.hash) && NoTransforms(run)
    && forall j | j in jobs :: FailureFree(run, j) && StoresAsGiven(run, j)
  }

  /** The world has the vaults and, in the source, the secrets. */
  ghost predicate Holds<V>(u: Setup<V>) {
    && ValidWorld(u.run, u.w0)
    && forall j | j in u.jobs :: HasTarget(u.w0, j) && Read(u.w0, u.run.source, j.name).Some?
  }

  ghost predicate Agree<V>(u: Setup<V>, schedule: seq<Action>)
    requires Ends(u, schedule)
  {
    forall j | j in u.jobs :: InSyncCell(CellOf(u.run, Exec(u, schedule).value.world, j))
  }

  /** From every such world, under every schedule, both sides of every secret end up equal. */
  ghost predicate AlwaysSettles<V(!new)>(run: Run<V>, jobs: seq<Job>, workers: nat) {
    forall w0: World<V>, schedule ::
      var u := Setup(run, jobs, workers, w0);
      Holds(u) && Ends(u, schedule) ==> Agree(u, schedule)
  }

  // ---------------------------------------------------------------- a schedule, step by step

  /** All goroutines are started, none of the verdicts is collected. */
  function Mid<V>(ps: seq<Phase<V>>, sem: nat, wg: int, results: seq<bool>, w: World<V>): State<V> {
    State(ps, sem, false, wg, results, false, Collecting, Waiting, 0, 0, w)
  }

  lemma Then<V>(u: Setup<V>, schedule: seq<Action>, s: State<V>, a: Action, s': State<V>) returns (next: seq<Action>)
    requires Exec(u, schedule) == Some(s) && |s.phases| == |u.jobs| && Enabled(u, s, a) && Apply(u, s, a) == s'
    ensures Exec(u, next) == Some(s')
  {
    Reachable(u, schedule);
    NothingPanics(u, s, a);
    next := schedule + [a];
    assert next[..|schedule|] == schedule;
  }

  /** The executor has started the first `k` goroutines. */
  function Spawned<V>(u: Setup<V>, k: nat): State<V> {
    var ps := seq(|u.jobs|, i => if i < k then Acquiring else Unborn);
    State(ps, 0, false, k, [], false, Spawning(k), Absent, 0, 0, u.w0)
  }

  lemma SpawnOne<V>(u: Setup<V>, k: nat)
    requires k < |u.jobs|
    ensures Enabled(u, Spawned(u, k), Spawn) && Apply(u, Spawned(u, k), Spawn) == Spawned(u, k + 1)
  {
    assert Apply(u, Spawned(u, k), Spawn).phases == Spawned(u, k + 1).phases;
  }

  lemma {:induction false} SpawnAll<V>(u: Setup<V>, k: nat) returns (schedule: seq<Action>)
    requires k <= |u.jobs|
    ensures Exec(u, schedule) == Some(Spawned(u, k))
  {
    if k == 0 {
      schedule := [];
      assert Init(u).phases == Spawned(u, 0).phases;
    } else {
      schedule := SpawnAll(u, k - 1);
      SpawnOne(u, k - 1);
      schedule := Then(u, schedule, Spawned(u, k - 1), Spawn, Spawned(u, k));
    }
  }

  /** Nobody has the semaphore yet. */
  lemma AllStarted<V>(u: Setup<V>) returns (schedule: seq<Action>)
    ensures Exec(u, schedule) == Some(Mid(seq(|u.jobs|, _ => Acquiring), 0, |u.jobs|, [], u.w0))
  {
    var n := |u.jobs|;
    schedule := SpawnAll(u, n);
    assert Spawned(u, n).phases == seq(n, _ => Acquiring);
    schedule := Then(u, schedule, Spawned(u, n), SpawnCloser, Mid(seq(n, _ => Acquiring), 0, n, [], u.w0));
  }

  /** Goroutine `i` works to the end of its job while all others wait. */
  lemma {:induction false} WorkAlone<V>(u: Setup<V>, schedule: seq<Action>, ps: seq<Phase<V>>, sem: nat, wg: int,
                                        results: seq<bool>, w: World<V>, i: nat, pc: Pc<V>)
    returns (next: seq<Action>)
    requires |ps| == |u.jobs| && i < |ps| && ps[i] == Working(pc)
    requires Exec(u, schedule) == Some(Mid(ps, sem, wg, results, w))
    ensures var (ok, w') := RunFrom(u.run, u.jobs[i], pc, w);
            Exec(u, next) == Some(Mid(ps[i := Working(Finished(ok))], sem, wg, results, w'))
    decreases Rank(u.run, pc)
  {
    if pc.Finished? {
      next := schedule;
      assert ps[i := Working(Finished(pc.ok))] == ps;
    } else {
      var c := CellOf(u.run, w, u.jobs[i]);
      RankDecreases(u.run, u.jobs[i], pc, c);
      var (pc', e) := Next(u.run, u.jobs[i], pc, c);
      var ps', w' := ps[i := Working(pc')], OnWorld(u.run, u.jobs[i], w, e);
      next := Then(u, schedule, Mid(ps, sem, wg, results, w), Work(i), Mid(ps', sem, wg, results, w'));
      next := WorkAlone(u, next, ps', sem, wg, results, w', i, pc');
      var p := Working(Finished(RunFrom(u.run, u.jobs[i], pc', w').0));
      assert ps'[i := p] == ps[i := p];
    }
  }

  /** Goroutine `i` sends its verdict and leaves. */
  lemma LeaveAlone<V>(u: Setup<V>, schedule: seq<Action>, ps: seq<Phase<V>>, sem: nat, wg: int,
                      results: seq<bool>, w: World<V>, i: nat, ok: bool)
    returns (next: seq<Action>)
    requires |ps| == |u.jobs| && i < |ps| && ps[i] == Working(Finished(ok)) && sem > 0
    requires Exec(u, schedule) == Some(Mid(ps, sem, wg, results, w))
    ensures Exec(u, next) == Some(Mid(ps[i := Gone(ok)], sem - 1, wg - 1, results + [ok], w))
  {
    var s0 := Mid(ps, sem, wg, results, w);
    var s1 := Mid(ps[i := Releasing(ok)], sem, wg, results + [ok], w);
    var s2 := Mid(ps[i := Signalling(ok)], sem - 1, wg, results + [ok], w);
    var s3 := Mid(ps[i := Gone(ok)], sem - 1, wg - 1, results + [ok], w);
    Reachable(u, schedule);
    NothingWaits(u, s0, i);
    next := Then(u, schedule, s0, Send(i), s1);
    assert s1.phases[i := Signalling(ok)] == s2.phases;
    next := Then(u, next, s1, Release(i), s2);
    assert s2.phases[i := Gone(ok)] == s3.phases;
    next := Then(u, next, s2, Signal(i), s3);
  }

  /** Goroutine `i` does its whole job while one other holds the semaphore and waits. */
  lemma RunAlone<V>(u: Setup<V>, schedule: seq<Action>, ps: seq<Phase<V>>, wg: int, results: seq<bool>,
                    w: World<V>, i: nat)
    returns (next: seq<Action>)
    requires |ps| == |u.jobs| && i < |ps| && ps[i].Acquiring? && u.workers >= 2
    requires Exec(u, schedule) == Some(Mid(ps, 1, wg, results, w))
    ensures var (ok, w') := RunJob(u.run, u.jobs[i], w);
            Exec(u, next) == Some(Mid(ps[i := Gone(ok)], 1, wg - 1, results + [ok], w'))
  {
    var pc := Start(u.run, HasTarget(w, u.jobs[i]));
    var (ok, w') := RunFrom(u.run, u.jobs[i], pc, w);
    var ps1 := ps[i := Working(pc)];
    var ps2 := ps1[i := Working(Finished(ok))];
    next := Then(u, schedule, Mid(ps, 1, wg, results, w), Acquire(i), Mid(ps1, 2, wg, results, w));
    next := WorkAlone(u, next, ps1, 2, wg, results, w, i, pc);
    next := LeaveAlone(u, next, ps2, 2, wg, results, w', i, ok);
    assert ps2[i := Gone(ok)] == ps[i := Gone(ok)];
  }

  // ---------------------------------------------------------------- one goroutine parked

  /** Two goroutines are listed for the secret of `b`; it is x in the source and y in the target, and has no
      record. */
  ghost predicate Apart<V(!new)>(u: Setup<V>, a: nat, b: nat, x: V, y: V) {
    && Works(u.run, u.jobs) && Holds(u) && u.workers >= 2
    && a < |u.jobs| && b < |u.jobs| && a != b && u.jobs[a] == u.jobs[b]
    && x != y && CellOf(u.run, u.w0, u.jobs[b]) == Cell(Some(x), Some(y), None)
  }

  /** Goroutine `b` has read both sides and waits; of the others the first `k` are gone. */
  predicate Parked<V(==)>(ps: seq<Phase<V>>, b: nat, k: nat, x: V, y: V) {
    forall i | 0 <= i < |ps| ::
      if i == b then ps[i] == Working(BiSelect(x, y)) else if i < k then ps[i].Gone? else ps[i].Acquiring?
  }

  /** The cell of the secret before and after another goroutine of it has run. */
  predicate Seen<V(==)>(c: Cell<V>, ran: bool, x: V, y: V) {
    if ran then c.src == Some(x) && c.tgt == Some(x) && c.row.Some? && c.row.value.direction != TargetToSource
    else c == Cell(Some(x), Some(y), None)
  }

  ghost predicate Ran(jobs: seq<Job>, b: nat, k: nat)
    requires b < |jobs|
  {
    exists i: nat | i < k && i < |jobs| :: i != b && jobs[i] == jobs[b]
  }

  lemma RanNext(jobs: seq<Job>, b: nat, k: nat)
    requires b < |jobs| && k < |jobs| && k != b
    ensures Ran(jobs, b, k + 1) <==> Ran(jobs, b, k) || jobs[k] == jobs[b]
  {}

  /** A goroutine whose job succeeds over what another one has left, or the first one over the divergence. */
  lemma OperationSeen<V(!new)>(run: Run<V>, j: Job, c: Cell<V>, ran: bool, x: V, y: V)
    requires FailureFree(run, j) && StoresAsGiven(run, j) && Injective(run.hash) && run.Retries() >= 0
    requires x != y && Seen(c, ran, x, y)
    ensures Seen(Bidirect(run, j, c).1, true, x, y)
  {
    assert Attempt(run, j, 0, None) == Attempts(true, true, None);
  }

  lemma ParkOne<V(!new)>(u: Setup<V>, a: nat, b: nat, x: V, y: V) returns (schedule: seq<Action>, ps: seq<Phase<V>>)
    requires Apart(u, a, b, x, y)
    ensures |ps| == |u.jobs| && Parked(ps, b, 0, x, y)
    ensures Exec(u, schedule) == Some(Mid(ps, 1, |u.jobs|, [], u.w0))
  {
    var j, n, w := u.jobs[b], |u.jobs|, u.w0;
    var c := CellOf(u.run, w, j);
    var p0 := seq(n, _ => Acquiring);
    var p1, p2 := p0[b := Working(BiReadSource)], p0[b := Working(BiReadTarget(x))];
    ps := p0[b := Working(BiSelect(x, y))];
    assert j in u.jobs;
    assert Next(u.run, j, BiReadSource, c) == (BiReadTarget(x), Nothing);
    assert Next(u.run, j, BiReadTarget(x), c) == (BiSelect(x, y), Nothing);
    assert p1[b := Working(BiReadTarget(x))] == p2 && p2[b := Working(BiSelect(x, y))] == ps;
    schedule := AllStarted(u);
    schedule := Then(u, schedule, Mid(p0, 0, n, [], w), Acquire(b), Mid(p1, 1, n, [], w));
    schedule := Then(u, schedule, Mid(p1, 1, n, [], w), Work(b), Mid(p2, 1, n, [], w));
    schedule := Then(u, schedule, Mid(p2, 1, n, [], w), Work(b), Mid(ps, 1, n, [], w));
  }

  /** The state in which `b` is parked and the first `k` of the others have run, one after the other. */
  ghost predicate After<V(!new)>(u: Setup<V>, b: nat, k: nat, x: V, y: V, s: State<V>)
    requires b < |u.jobs|
  {
    && |s.phases| == |u.jobs| && Parked(s.phases, b, k, x, y) && s == Mid(s.phases, 1, s.wg, s.results, s.world)
    && Framed(u.run, u.jobs, u.w0, s.world)
    && Seen(CellOf(u.run, s.world, u.jobs[b]), Ran(u.jobs, b, k), x, y)
  }

  lemma {:induction false} OthersRun<V(!new)>(u: Setup<V>, a: nat, b: nat, k: nat, x: V, y: V)
    returns (schedule: seq<Action>)
    requires Apart(u, a, b, x, y) && k <= |u.jobs|
    ensures Exec(u, schedule).Some? && After(u, b, k, x, y, Exec(u, schedule).value)
  {
    if k == 0 {
      var ps;
      schedule, ps := ParkOne(u, a, b, x, y);
      NoneRan(u, a, b, x, y, Exec(u, schedule).value);
    } else {
      var i := k - 1;
      schedule := OthersRun(u, a, b, i, x, y);
      if i == b {
        SkipParked(u, b, x, y, Exec(u, schedule).value);
      } else {
        schedule := OneRuns(u, a, b, i, x, y, schedule);
      }
    }
  }

  lemma NoneRan<V(!new)>(u: Setup<V>, a: nat, b: nat, x: V, y: V, s: State<V>)
    requires Apart(u, a, b, x, y) && |s.phases| == |u.jobs| && Parked(s.phases, b, 0, x, y)
    requires s == Mid(s.phases, 1, s.wg, s.results, u.w0)
    ensures After(u, b, 0, x, y, s)
  {
    assert !Ran(u.jobs, b, 0);
  }

  lemma SkipParked<V(!new)>(u: Setup<V>, b: nat, x: V, y: V, s: State<V>)
    requires b < |u.jobs| && After(u, b, b, x, y, s)
    ensures After(u, b, b + 1, x, y, s)
  {
    assert Ran(u.jobs, b, b + 1) <==> Ran(u.jobs, b, b);
  }

  lemma OneRuns<V(!new)>(u: Setup<V>, a: nat, b: nat, k: nat, x: V, y: V, schedule: seq<Action>)
    returns (next: seq<Action>)
    requires Apart(u, a, b, x, y) && k < |u.jobs| && k != b
    requires Exec(u, schedule).Some? && After(u, b, k, x, y, Exec(u, schedule).value)
    ensures Exec(u, next).Some? && After(u, b, k + 1, x, y, Exec(u, next).value)
  {
    var s := Exec(u, schedule).value;
    next := RunAlone(u, schedule, s.phases, s.wg, s.results, s.world, k);
    SeenNext(u, a, b, k, x, y, s.world);
  }

  lemma SeenNext<V(!new)>(u: Setup<V>, a: nat, b: nat, k: nat, x: V, y: V, w: World<V>)
    requires Apart(u, a, b, x, y) && k < |u.jobs| && k != b && Framed(u.run, u.jobs, u.w0, w)
    requires Seen(CellOf(u.run, w, u.jobs[b]), Ran(u.jobs, b, k), x, y)
    ensures var w' := RunJob(u.run, u.jobs[k], w).1;
            && Framed(u.run, u.jobs, u.w0, w')
            && Seen(CellOf(u.run, w', u.jobs[b]), Ran(u.jobs, b, k + 1), x, y)
  {
    var j, ran := u.jobs[b], Ran(u.jobs, b, k);
    assert u.jobs[k] in u.jobs && j in u.jobs;
    RanNext(u.jobs, b, k);
    JobIsOperation(u.run, u.jobs, u.jobs[k], j, u.w0, w);
    OperationSeen(u.run, j, CellOf(u.run, w, j), ran, x, y);
  }

  /** Goroutine `b` finds the record of the others and resolves the divergence it has read the other way. */
  lemma ParkedSwaps<V(!new)>(u: Setup<V>, a: nat, b: nat, x: V, y: V) returns (schedule: seq<Action>)
    requires Apart(u, a, b, x, y)
    ensures Exec(u, schedule).Some? && Over(u, Exec(u, schedule).value, Exec(u, schedule).value.world)
    ensures var c := CellOf(u.run, Exec(u, schedule).value.world, u.jobs[b]);
            c.src == Some(y) && c.tgt == Some(x)
  {
    var n := |u.jobs|;
    schedule := OthersRun(u, a, b, n, x, y);
    var s := Exec(u, schedule).value;
    assert Ran(u.jobs, b, n);
    SwapsInWorld(u, a, b, x, y, s.world);
    schedule := WorkAlone(u, schedule, s.phases, 1, s.wg, s.results, s.world, b, BiSelect(x, y));
    var (ok, w') := RunFrom(u.run, u.jobs[b], BiSelect(x, y), s.world);
    LastIsOver(u, s, b, x, y, ok, w');
  }

  lemma LastIsOver<V>(u: Setup<V>, s: State<V>, b: nat, x: V, y: V, ok: bool, w: World<V>)
    requires |s.phases| == |u.jobs| && b < |u.jobs| && Parked(s.phases, b, |u.jobs|, x, y)
    ensures Over(u, Mid(s.phases[b := Working(Finished(ok))], 1, s.wg, s.results, w), w)
  {}

  lemma SwapsInWorld<V(!new)>(u: Setup<V>, a: nat, b: nat, x: V, y: V, w: World<V>)
    requires Apart(u, a, b, x, y) && Framed(u.run, u.jobs, u.w0, w)
    requires Seen(CellOf(u.run, w, u.jobs[b]), true, x, y)
    ensures var c := CellOf(u.run, RunFrom(u.run, u.jobs[b], BiSelect(x, y), w).1, u.jobs[b]);
            c.src == Some(y) && c.tgt == Some(x)
  {
    var j := u.jobs[b];
    assert j in u.jobs && HasTarget(w, j) == HasTarget(u.w0, j);
    RunFromIsLocal(u.run, u.jobs, j, BiSelect(x, y), u.w0, w);
    SelectSwaps(u.run, j, CellOf(u.run, w, j), x, y);
  }

  lemma SelectSwaps<V(!new)>(run: Run<V>, j: Job, c: Cell<V>, x: V, y: V)
    requires FailureFree(run, j) && StoresAsGiven(run, j) && run.Retries() >= 0 && Seen(c, true, x, y)
    ensures var c' := Finish(run, j, BiSelect(x, y), c).1;
            c'.src == Some(y) && c'.tgt == Some(x)
  {
    assert Attempt(run, j, 0, None) == Attempts(true, true, None);
    BiWriteFinishes(run, j, TargetToSource, x, y, 0, None, c);
    assert Finish(run, j, BiSelect(x, y), c) == Finish(run, j, BiWrite(TargetToSource, x, y, 0, None), c);
  }

  /** No goroutine has work left. */
  ghost predicate Over<V>(u: Setup<V>, s: State<V>, w: World<V>) {
    && |s.phases| == |u.jobs| && s.world == w && !s.main.Spawning?
    && forall i | 0 <= i < |s.phases| :: Verdict(s.phases[i]).Some? && !AtRecord(s.phases[i])
  }

  lemma OverStep<V>(u: Setup<V>, s: State<V>, a: Action, w: World<V>)
    requires Over(u, s, w) && Enabled(u, s, a)
    ensures Over(u, Apply(u, s, a), w)
  {}

  lemma {:induction false} OverStaysOver<V>(u: Setup<V>, schedule: seq<Action>, more: seq<Action>, w: World<V>)
    requires Exec(u, schedule).Some? && Over(u, Exec(u, schedule).value, w) && Exec(u, schedule + more).Some?
    ensures Over(u, Exec(u, schedule + more).value, w)
  {
    if more == [] {
      assert schedule + more == schedule;
    } else {
      var front := more[..|more| - 1];
      assert (schedule + more)[..|schedule + more| - 1] == schedule + front;
      OverStaysOver(u, schedule, front, w);
      OverStep(u, Exec(u, schedule + front).value, more[|more| - 1], w);
    }
  }

  /** With a secret listed more than once and two workers or more, whatever else is listed, a complete run
      exists that swaps the two sides of the secret. */
  lemma RepeatedSecretSwaps<V(!new)>(u: Setup<V>, a: nat, b: nat, x: V, y: V) returns (schedule: seq<Action>)
    requires Apart(u, a, b, x, y)
    ensures Ends(u, schedule)
    ensures Read(Exec(u, schedule).value.world, u.run.source, u.jobs[b].name) == Some(y)
    ensures Read(Exec(u, schedule).value.world, u.jobs[b].target, u.jobs[b].name) == Some(x)
  {
    var swapping := ParkedSwaps(u, a, b, x, y);
    var more := CanComplete(u, swapping);
    schedule := swapping + more;
    OverStaysOver(u, swapping, more, Exec(u, swapping).value.world);
  }

  // ---------------------------------------------------------------- the boundary

  /** A world in which every secret differs between the two sides. */
  function Divided<V>(source: string, target: string, names: set<string>, x: V, y: V): World<V> {
    World(map[source := map n | n in names :: x, target := map n | n in names :: y], Table([], 1))
  }

  /** When all calls work and there are two different values: one run settles every secret, from every world
      and under every schedule, exactly when the secrets are distinct or there is one worker. */
  lemma SettlesIff<V(!new)>(run: Run<V>, jobs: seq<Job>, workers: nat, x: V, y: V)
    requires Works(run, jobs) && workers >= 1 && x != y
    ensures AlwaysSettles(run, jobs, workers) <==> Distinct(jobs) || workers == 1
  {
    if Distinct(jobs) || workers == 1 {
      forall w0: World<V>, schedule |
        var u := Setup(run, jobs, workers, w0); Holds(u) && Ends(u, schedule)
        ensures Agree(Setup(run, jobs, workers, w0), schedule)
      {
        var u := Setup(run, jobs, workers, w0);
        forall j | j in jobs ensures InSyncCell(CellOf(run, Exec(u, schedule).value.world, j)) {
          OneRunSettles(u, schedule, j);
        }
      }
    } else {
      var a, b :| 0 <= a < b < |jobs| && jobs[a] == jobs[b];
      var u := Setup(run, jobs, workers, Divided(run.source, jobs[b].target, set j | j in jobs :: j.name, x, y));
      assert jobs[b] in jobs;
      var schedule := RepeatedSecretSwaps(u, a, b, x, y);
      assert !InSyncCell(CellOf(run, Exec(u, schedule).value.world, jobs[b]));
      assert !Agree(u, schedule);
    }
  }

  /** There are such syncs: secret n between vaults a and b, listed any number of times. */
  lemma WorkingSyncExists(times: nat) returns (run: Run<string>, jobs: seq<Job>)
    ensures Works(run, jobs) && |jobs| == times && forall i | 0 <= i < times :: jobs[i] == Job("b", "n", 0)
  {
    jobs := seq(times, _ => Job("b", "n", 0));
    run := Run("s", "a", Bidirectional, Retry.Policy(0, 0, 0, 1.0), v => Ok(v), v => v, (_, v) => v,
               (_, _) => true, (_, _) => Stored, _ => true, _ => true);
  }
}
