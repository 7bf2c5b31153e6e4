/** Whole concurrent runs of a bidirectional sync, one after the other: two runs without failures settle
    every secret of the run, and from then on the vaults rest. */
module Settling {
  import opened Prelude
  import opened SyncTable
  import opened Jobs
  import opened Locality
  import opened NestedLoop
  import opened Pool
  import opened PoolRefinement
  import opened Recording
  import opened Resolver
  import RunReport
  import Serial

  /** A bidirectional sync that is ready to run. */
  ghost predicate Begins<V>(u: Setup<V>) {
    && u.run.kind == Bidirectional && ValidWorld(u.run, u.w0) && Separate(u.run, u.jobs)
    && forall j | j in u.jobs :: HasTarget(u.w0, j)
  }

  ghost predicate Ends<V>(u: Setup<V>, schedule: seq<Action>) {
    Exec(u, schedule).Some? && Exec(u, schedule).value.main == Returned
  }

  /** No two goroutines bring about the same secret at the same time: the secrets are distinct, or there is
      one worker. */
  ghost predicate Unrivalled<V>(u: Setup<V>) { Distinct(u.jobs) || u.workers == 1 }

  ghost predicate Complete<V>(u: Setup<V>, schedule: seq<Action>) {
    Begins(u) && Unrivalled(u) && Ends(u, schedule)
  }

  /** The next run of the same sync over the same secrets, on the world the last run has left.  What the
      vaults answer may differ from run to run. */
  ghost predicate Follows<V>(u: Setup<V>, schedule: seq<Action>, next: Setup<V>)
    requires Ends(u, schedule)
  {
    && next.run.syncId == u.run.syncId && next.run.source == u.run.source && next.jobs == u.jobs
    && next.w0 == Exec(u, schedule).value.world
  }

  // ---------------------------------------------------------------- a run is a number of operations

  function Times(jobs: seq<Job>, j: Job): (n: nat)
    ensures j in jobs <==> n >= 1
  {
    if jobs == [] then 0
    else Times(jobs[..|jobs| - 1], j) + (if jobs[|jobs| - 1] == j then 1 else 0)
  }

  /** One job of a loop does the operation to its own cell and nothing to the others. */
  lemma JobIsOperation<V>(run: Run<V>, all: seq<Job>, job: Job, j: Job, w0: World<V>, w: World<V>)
    requires run.kind == Bidirectional && ValidWorld(run, w0) && Separate(run, all) && j in all && job in all
    requires Framed(run, all, w0, w) && HasTarget(w0, job)
    ensures var w' := RunJob(run, job, w).1;
            && Framed(run, all, w0, w')
            && CellOf(run, w', j) == if j == job then Bidirect(run, j, CellOf(run, w, j)).1 else CellOf(run, w, j)
  {
    assert HasTarget(w, job) == HasTarget(w0, job);
    RunFromIsLocal(run, all, job, Start(run, true), w0, w);
    StepsAddUp(run, job, CellOf(run, w, job));
  }

  /** A sync that is ready to run over these jobs, and one of them. */
  ghost predicate Among<V>(run: Run<V>, all: seq<Job>, w0: World<V>, j: Job) {
    && run.kind == Bidirectional && ValidWorld(run, w0) && Separate(run, all) && j in all
    && forall i | i in all :: HasTarget(w0, i)
  }

  /** The world has grown out of `w0`, and the cell of the job by `m` operations. */
  ghost predicate Grown<V>(run: Run<V>, all: seq<Job>, w0: World<V>, j: Job, m: nat, w: World<V>) {
    Framed(run, all, w0, w) && CellOf(run, w, j) == Runs(run, j, m, CellOf(run, w0, j))
  }

  lemma GrowsOn<V>(run: Run<V>, all: seq<Job>, job: Job, j: Job, w0: World<V>, m: nat, w: World<V>)
    requires Among(run, all, w0, j) && job in all && Grown(run, all, w0, j, m, w)
    ensures Grown(run, all, w0, j, if job == j then m + 1 else m, RunJob(run, job, w).1)
  {
    JobIsOperation(run, all, job, j, w0, w);
  }

  /** The loop does to the cell of a job the operation as often as the job is listed. */
  lemma {:induction false} LoopRepeats<V>(run: Run<V>, all: seq<Job>, jobs: seq<Job>, w0: World<V>, j: Job)
    requires Among(run, all, w0, j) && forall i | i in jobs :: i in all
    ensures Grown(run, all, w0, j, Times(jobs, j), Sequential(run, jobs, w0).world)
  {
    if jobs == [] {
      assert Runs(run, j, 0, CellOf(run, w0, j)) == CellOf(run, w0, j);
    } else {
      var front, job := jobs[..|jobs| - 1], jobs[|jobs| - 1];
      var m, w := Times(front, j), Sequential(run, front, w0).world;
      LoopRepeats(run, all, front, w0, j);
      GrowsOn(run, all, job, j, w0, m, w);
      assert Times(jobs, j) == if job == j then m + 1 else m;
      assert Sequential(run, jobs, w0).world == RunJob(run, job, w).1;
    }
  }

  lemma SerialIsOperations<V>(u: Setup<V>, schedule: seq<Action>, j: Job) returns (m: nat)
    requires Begins(u) && Ends(u, schedule) && u.workers == 1 && j in u.jobs
    ensures m >= 1
    ensures CellOf(u.run, Exec(u, schedule).value.world, j) == Runs(u.run, j, m, CellOf(u.run, u.w0, j))
  {
    var order := Serial.OneWorkerIsSerial(u, schedule);
    var jobs := Serial.Ordered(u.jobs, order);
    m := Times(jobs, j);
    SameJobs(u.jobs, order);
    LoopRepeats(u.run, u.jobs, jobs, u.w0, j);
  }

  lemma SameJobs(jobs: seq<Job>, order: seq<nat>)
    requires Serial.Indices(order, |jobs|) && forall i | 0 <= i < |jobs| :: i in order
    ensures forall j :: j in Serial.Ordered(jobs, order) <==> j in jobs
  {
    var ordered := Serial.Ordered(jobs, order);
    forall j | j in jobs ensures j in ordered {
      var i: nat :| i < |jobs| && jobs[i] == j;
      assert i in order;
      var k :| 0 <= k < |order| && order[k] == i;
      assert ordered[k] == j;
    }
    forall j | j in ordered ensures j in jobs {
      var k :| 0 <= k < |ordered| && ordered[k] == j;
      assert order[k] in order;
    }
  }

  /** A complete run does to the cell of each job the operation, at least once; once when the secrets are
      distinct. */
  lemma RunIsOperations<V>(u: Setup<V>, schedule: seq<Action>, j: Job) returns (m: nat)
    requires Complete(u, schedule) && j in u.jobs
    ensures m >= 1 && (Distinct(u.jobs) ==> m == 1)
    ensures CellOf(u.run, Exec(u, schedule).value.world, j) == Runs(u.run, j, m, CellOf(u.run, u.w0, j))
  {
    if Distinct(u.jobs) {
      m := 1;
      Reachable(u, schedule);
      AllReported(u, Exec(u, schedule).value);
      StepsAddUp(u.run, j, CellOf(u.run, u.w0, j));
      var i :| 0 <= i < |u.jobs| && u.jobs[i] == j;
      assert Runs(u.run, j, 0, CellOf(u.run, u.w0, j)) == CellOf(u.run, u.w0, j);
    } else {
      m := SerialIsOperations(u, schedule, j);
    }
  }

  // ---------------------------------------------------------------- two runs settle

  lemma {:induction false} RunsAlmostThere<V(!new)>(run: Run<V>, j: Job, m: nat, c: Cell<V>, canon: V -> V)
    requires Stabilising(run, j, canon) && c.src.Some? && m >= 1
    ensures AlmostThere(Runs(run, j, m, c), canon)
  {
    if m == 1 {
      assert Runs(run, j, 0, c) == c;
      FirstRun(run, j, c, canon);
    } else {
      RunsAlmostThere(run, j, m - 1, c, canon);
      FirstRun(run, j, Runs(run, j, m - 1, c), canon);
    }
  }

  lemma RunsSettle<V(!new)>(run: Run<V>, j: Job, m: nat, c: Cell<V>, canon: V -> V)
    requires Stabilising(run, j, canon) && AlmostThere(c, canon) && m >= 1
    ensures InSyncCell(Runs(run, j, m, c))
  {
    if m == 1 {
      assert Runs(run, j, 0, c) == c;
    } else {
      RunsAlmostThere(run, j, m - 1, c, canon);
    }
    SecondRun(run, j, Runs(run, j, m - 1, c), canon);
  }

  /** Whatever the schedules, and whatever the vaults and the table held: after two complete runs without
      failures both sides of the job's secret read equal. */
  lemma {:induction false} TwoRunsSettle<V(!new)>(u: Setup<V>, schedule: seq<Action>,
                                                  next: Setup<V>, schedule': seq<Action>, j: Job, canon: V -> V)
    requires Complete(u, schedule) && Complete(next, schedule') && Follows(u, schedule, next)
    requires j in u.jobs && Stabilising(u.run, j, canon) && Stabilising(next.run, j, canon)
    requires Read(u.w0, u.run.source, j.name).Some?
    ensures InSyncCell(CellOf(next.run, Exec(next, schedule').value.world, j))
  {
    var m := RunIsOperations(u, schedule, j);
    var n := RunIsOperations(next, schedule', j);
    RunsAlmostThere(u.run, j, m, CellOf(u.run, u.w0, j), canon);
    RunsSettle(next.run, j, n, CellOf(next.run, next.w0, j), canon);
  }

  /** Vaults that give back what was written need one run only. */
  lemma {:induction false} OneRunSettles<V(!new)>(u: Setup<V>, schedule: seq<Action>, j: Job)
    requires Complete(u, schedule) && j in u.jobs && StoresAsGiven(u.run, j)
    requires Injective(u.run.hash) && NoTransforms(u.run) && FailureFree(u.run, j) && u.run.Retries() >= 0
    requires Read(u.w0, u.run.source, j.name).Some?
    ensures InSyncCell(CellOf(u.run, Exec(u, schedule).value.world, j))
  {
    var m := RunIsOperations(u, schedule, j);
    RunsAlmostThere(u.run, j, m, CellOf(u.run, u.w0, j), v => v);
  }

  // ---------------------------------------------------------------- settled vaults rest

  /** Every secret of the run reads the same on both sides. */
  ghost predicate Settled<V>(u: Setup<V>) {
    && u.run.kind == Bidirectional
    && forall j | j in u.jobs :: InSyncCell(CellOf(u.run, u.w0, j)) && u.run.readOk(j, 0) && u.run.readOk(j, 1)
  }

  /** What a goroutine does over a settled secret. */
  predicate Resting<V(==)>(p: Phase<V>, c: Cell<V>) {
    match p
    case Working(pc) =>
      (match pc
       case BiReadSource => true
       case BiReadTarget(v) => c.src == Some(v)
       case Update(_, ok) => ok
       case Insert(_, ok) => ok
       case Finished(ok) => ok
       case _ => false)
    case Releasing(ok) => ok
    case Signalling(ok) => ok
    case Gone(ok) => ok
    case _ => true
  }

  ghost predicate AllRest<V>(u: Setup<V>, s: State<V>) {
    && |s.phases| == |u.jobs| && s.world.vaults == u.w0.vaults
    && forall i | 0 <= i < |u.jobs| :: Resting(s.phases[i], CellOf(u.run, u.w0, u.jobs[i]))
  }

  lemma RestNext<V>(run: Run<V>, job: Job, pc: Pc<V>, c: Cell<V>, c0: Cell<V>)
    requires run.readOk(job, 0) && run.readOk(job, 1) && InSyncCell(c0) && c.src == c0.src && c.tgt == c0.tgt
    requires Resting(Working(pc), c0)
    ensures var (pc', e) := Next(run, job, pc, c);
            Resting(Working(pc'), c0) && !e.Put?
  {}

  lemma RestStep<V>(u: Setup<V>, s: State<V>, a: Action)
    requires Settled(u) && AllRest(u, s) && Enabled(u, s, a)
    ensures AllRest(u, Apply(u, s, a))
  {
    if a.Work? {
      var job := u.jobs[a.j];
      assert job in u.jobs;
      RestNext(u.run, job, s.phases[a.j].pc, CellOf(u.run, s.world, job), CellOf(u.run, u.w0, job));
    }
  }

  lemma {:induction false} RestAlways<V>(u: Setup<V>, schedule: seq<Action>)
    requires Settled(u) && Exec(u, schedule).Some?
    ensures AllRest(u, Exec(u, schedule).value)
  {
    if schedule != [] {
      RestAlways(u, schedule[..|schedule| - 1]);
      RestStep(u, Exec(u, schedule[..|schedule| - 1]).value, schedule[|schedule| - 1]);
    }
  }

  /** A run that finds all its secrets settled, and can read them, leaves every vault exactly as it is at
      every step and has no failures: for any jobs, any number of workers and any table, and whether or not
      the database works. */
  lemma {:induction false} SettledRunRests<V>(u: Setup<V>, schedule: seq<Action>)
    requires Settled(u) && Exec(u, schedule).Some?
    ensures Exec(u, schedule).value.world.vaults == u.w0.vaults
    ensures Ends(u, schedule) ==> Exec(u, schedule).value.failure == 0
  {
    RestAlways(u, schedule);
    if Ends(u, schedule) {
      Totals(u, schedule);
    }
  }

  // ---------------------------------------------------------------- a refused record

  /** A run of one bidirectional job whose sides are equal and whose record is refused. */
  ghost predicate OneRefusedJob<V>(u: Setup<V>, j: Job) {
    u.workers >= 1 && u.jobs == [j] && Settled(u) && u.w0.table.Valid() && !u.run.recordOk(j)
  }

  /** Such a run can be brought to its end, has no failures, and leaves a failed row failed. */
  lemma FailedRowStays<V>(u: Setup<V>, j: Job) returns (schedule: seq<Action>)
    requires OneRefusedJob(u, j) && CountsAsFailed(RowOf(u, u.w0, j))
    ensures Ends(u, schedule) && Exec(u, schedule).value.failure == 0
    ensures CountsAsFailed(RowOf(u, Exec(u, schedule).value.world, j))
  {
    schedule := CanComplete(u, []);
    assert [] + schedule == schedule;
    SettledRunRests(u, schedule);
    RunReport.CleanRunFailedJob(u, schedule, j);
  }

  /** And there is one: secret n is v in both vaults, its row is from a failed run. */
  lemma RefusedJobExists() returns (u: Setup<string>, j: Job)
    ensures OneRefusedJob(u, j) && CountsAsFailed(RowOf(u, u.w0, j))
  {
    j := Job("b", "n", 0);
    var run := Run("s", "a", Bidirectional, Retry.Policy(0, 0, 0, 1.0), v => Ok(v), v => v, (_, v) => v,
                   (_, _) => true, (_, _) => Stored, _ => true, _ => false);
    var row := Row(1, run.KeyOf(j), SyncObject("v", "v", Failed, "refused", SourceToTarget));
    var w0 := World(map["a" := map["n" := "v"], "b" := map["n" := "v"]], Table([row], 2));
    u := Setup(run, [j], 1, w0);
  }
}
