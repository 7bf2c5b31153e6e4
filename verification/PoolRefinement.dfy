/** Every schedule of the worker pool ends where the plain nested loop ends. */
module PoolRefinement {
  import opened Prelude
  import opened Jobs
  import opened SyncTable
  import opened Locality
  import opened NestedLoop
  import opened Counting
  import opened Pool

  /** Every goroutine is gone and reported the fate of its job. */
  lemma AllReported<V>(u: Setup<V>, s: State<V>)
    requires Protocol(u, s) && Data(u, s) && s.main == Returned
    ensures forall i | 0 <= i < |u.jobs| ::
              && s.phases[i] == Gone(Fate(u.run, u.w0, u.jobs[i]).0)
              && CellOf(u.run, s.world, u.jobs[i]) == Fate(u.run, u.w0, u.jobs[i]).1
  {
    forall i | 0 <= i < |u.jobs|
      ensures s.phases[i] == Gone(Fate(u.run, u.w0, u.jobs[i]).0)
      ensures CellOf(u.run, s.world, u.jobs[i]) == Fate(u.run, u.w0, u.jobs[i]).1
    {
      assert OnCourse(u, s, i);
    }
  }

  lemma {:induction false} GoneCount<V>(run: Run<V>, w0: World<V>, jobs: seq<Job>, phases: seq<Phase<V>>)
    requires |phases| == |jobs|
    requires forall i | 0 <= i < |jobs| :: phases[i] == Gone(Fate(run, w0, jobs[i]).0)
    ensures Sum(phases, SentOk) == CountOk(run, w0, jobs)
    ensures Sum(phases, Sent) == |jobs|
  {
    if jobs != [] {
      GoneCount(run, w0, jobs[..|jobs| - 1], phases[..|jobs| - 1]);
    }
  }

  lemma SameFates<V>(u: Setup<V>, w1: World<V>, w2: World<V>)
    requires Met(u.run, u.jobs, |u.jobs|, u.w0, w1) && Met(u.run, u.jobs, |u.jobs|, u.w0, w2)
    ensures SameUpToIds(w1, w2)
  {
    forall j | j in u.jobs ensures CellOf(u.run, w1, j) == CellOf(u.run, w2, j) {
      var i :| 0 <= i < |u.jobs| && u.jobs[i] == j;
    }
    CellsDetermineWorld(u.run, u.jobs, u.w0, w1, w2);
  }

  /** For fixed answers of the vaults every interleaving of the job steps ends with the vault contents, the
      rows (up to ids) and the counts of the nested loop; in a bidirectional run the secrets are distinct, in a
      unidirectional one secrets and targets may repeat. */
  lemma {:induction false} ConcurrentRefinesSequential<V>(u: Setup<V>, schedule: seq<Action>)
    requires Ready(u.run, u.jobs, u.w0)
    requires Exec(u, schedule).Some? && Exec(u, schedule).value.main == Returned
    ensures var s := Exec(u, schedule).value;
            var t := Sequential(u.run, u.jobs, u.w0);
            && SameUpToIds(s.world, t.world)
            && s.success == t.success && s.failure == t.failure
            && s.success + s.failure == |u.jobs|
  {
    var s := Exec(u, schedule).value;
    var t := Sequential(u.run, u.jobs, u.w0);
    Reachable(u, schedule);
    AllReported(u, s);
    GoneCount(u.run, u.w0, u.jobs, s.phases);
    assert u.jobs[..|u.jobs|] == u.jobs;
    SequentialFates(u.run, u.jobs, |u.jobs|, u.w0);
    SameFates(u, s.world, t.world);
  }

  /** At every moment of a run, whatever its jobs: secrets and rows of no job are as they were, and nothing
      was deleted. */
  lemma {:induction false} RunKeepsFrame<V>(u: Setup<V>, schedule: seq<Action>)
    requires u.w0.table.Valid() && Exec(u, schedule).Some?
    ensures Framed(u.run, u.jobs, u.w0, Exec(u, schedule).value.world)
  {
    Reachable(u, schedule);
  }

  /** Rows of other syncs and of other sources are left alone at every moment of a run. */
  lemma RunKeepsOtherSyncs<V>(u: Setup<V>, schedule: seq<Action>, k: Key)
    requires u.w0.table.Valid() && Exec(u, schedule).Some?
    requires k.syncId != u.run.syncId || k.source != u.run.source
    ensures Find(Exec(u, schedule).value.world.table.rows, k) == Find(u.w0.table.rows, k)
  {
    RunKeepsFrame(u, schedule);
    assert !OwnsRow(u.run, u.jobs, k);
  }

  /** Any two complete schedules, with any numbers of workers, agree. */
  lemma {:induction false} SchedulesAgree<V>(u1: Setup<V>, u2: Setup<V>, schedule1: seq<Action>, schedule2: seq<Action>)
    requires u2 == u1.(workers := u2.workers) && Ready(u1.run, u1.jobs, u1.w0)
    requires Exec(u1, schedule1).Some? && Exec(u1, schedule1).value.main == Returned
    requires Exec(u2, schedule2).Some? && Exec(u2, schedule2).value.main == Returned
    ensures SameUpToIds(Exec(u1, schedule1).value.world, Exec(u2, schedule2).value.world)
    ensures Exec(u1, schedule1).value.success == Exec(u2, schedule2).value.success
  {
    ConcurrentRefinesSequential(u1, schedule1);
    ConcurrentRefinesSequential(u2, schedule2);
  }

  /** The jobs of a unidirectional run are ready to run concurrently, with secrets and targets listed any
      number of times, as long as the source is not among the targets. */
  lemma UnidirectionalReady<V>(run: Run<V>, secrets: seq<string>, targets: seq<string>, w0: World<V>)
    requires run.kind == Unidirectional && ValidWorld(run, w0)
    requires run.source !in targets
    ensures Ready(run, JobsOf(secrets, targets), w0)
  {}

  /** Likewise for a bidirectional run and its one target. */
  lemma BidirectionalReady<V>(run: Run<V>, secrets: seq<string>, target: string, w0: World<V>)
    requires run.kind == Bidirectional && ValidWorld(run, w0)
    requires Distinct(secrets) && target != run.source && target in w0.vaults
    ensures Ready(run, JobsOf(secrets, [target]), w0)
  {
    JobsOfDistinct(secrets, [target]);
  }
}
