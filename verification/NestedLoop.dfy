/** The same jobs run one after the other, in the order of the loops that start them
    (sync/engine.go:476-477, 538). */
module NestedLoop {
  import opened Prelude
  import opened Jobs
  import opened Locality
  import Resolver

  /** The jobs in the order the loops start them: every target for the first secret, then the next. */
  function JobsOf(secrets: seq<string>, targets: seq<string>): (jobs: seq<Job>)
    ensures |jobs| == |secrets| * |targets|
    ensures forall j :: j in jobs <==> j.name in secrets && j.target in targets && j.copy == 0
  {
    if secrets == [] then []
    else
      var first := seq(|targets|, i requires 0 <= i < |targets| => Job(targets[i], secrets[0], 0));
      assert forall i | 0 <= i < |targets| :: first[i] in first && first[i] == Job(targets[i], secrets[0], 0);
      assert forall j :: j in first <==> j.name == secrets[0] && j.target in targets && j.copy == 0;
      assert |secrets| * |targets| == |targets| + |secrets[1..]| * |targets|;
      first + JobsOf(secrets[1..], targets)
  }

  lemma {:induction false} JobsOfDistinct(secrets: seq<string>, targets: seq<string>)
    requires Distinct(secrets) && Distinct(targets)
    ensures Distinct(JobsOf(secrets, targets))
  {
    if secrets != [] {
      var first := seq(|targets|, i requires 0 <= i < |targets| => Job(targets[i], secrets[0], 0));
      var rest := JobsOf(secrets[1..], targets);
      JobsOfDistinct(secrets[1..], targets);
      forall i, j | 0 <= i < j < |first + rest| ensures (first + rest)[i] != (first + rest)[j] {
        if i < |first| <= j {
          assert rest[j - |first|] in rest;
        }
      }
    }
  }

  /** One job run to its end on the world. */
  function RunFrom<V>(run: Run<V>, job: Job, pc: Pc<V>, w: World<V>): (bool, World<V>)
    decreases Rank(run, pc)
  {
    if pc.Finished? then (pc.ok, w)
    else
      var c := CellOf(run, w, job);
      RankDecreases(run, job, pc, c);
      var (pc', e) := Next(run, job, pc, c);
      RunFrom(run, job, pc', OnWorld(run, job, w, e))
  }

  function RunJob<V>(run: Run<V>, job: Job, w: World<V>): (bool, World<V>) {
    RunFrom(run, job, Start(run, HasTarget(w, job)), w)
  }

  datatype Tally<V> = Tally(world: World<V>, success: nat, failure: nat)

  /** The loop. */
  function Sequential<V>(run: Run<V>, jobs: seq<Job>, w: World<V>): Tally<V> {
    if jobs == [] then Tally(w, 0, 0)
    else
      var t := Sequential(run, jobs[..|jobs| - 1], w);
      var (ok, w') := RunJob(run, jobs[|jobs| - 1], t.world);
      Tally(w', t.success + (if ok then 1 else 0), t.failure + (if ok then 0 else 1))
  }

  /** The starting point of a job is a legal program point, and it is the end for a missing target. */
  predicate Possible<V>(run: Run<V>, pc: Pc<V>, hasTarget: bool) {
    Legal(run, pc) && (!hasTarget ==> pc == Finished(false))
  }

  /** What a job does alone is decided by its cell; it keeps the frame and the other cells. */
  lemma {:induction false} RunFromIsLocal<V>(run: Run<V>, jobs: seq<Job>, job: Job, pc: Pc<V>,
                                             w0: World<V>, w: World<V>)
    requires Separate(run, jobs) && job in jobs && Framed(run, jobs, w0, w) && run.source in w.vaults
    requires Possible(run, pc, HasTarget(w, job))
    ensures var (ok, w') := RunFrom(run, job, pc, w);
            && (ok, CellOf(run, w', job)) == Finish(run, job, pc, CellOf(run, w, job))
            && Framed(run, jobs, w0, w')
            && forall other | other in jobs && other != job :: CellOf(run, w', other) == CellOf(run, w, other)
    decreases Rank(run, pc)
  {
    if !pc.Finished? {
      var c := CellOf(run, w, job);
      RankDecreases(run, job, pc, c);
      var (pc', e) := Next(run, job, pc, c);
      LegalNext(run, job, pc, c);
      OwnCell(run, job, w, e);
      FramedStep(run, jobs, job, w0, w, e);
      forall other | other in jobs && other != job
        ensures CellOf(run, OnWorld(run, job, w, e), other) == CellOf(run, w, other)
      {
        OtherCell(run, jobs, job, other, w, e);
      }
      RunFromIsLocal(run, jobs, job, pc', w0, OnWorld(run, job, w, e));
    }
  }

  /** A job keeps the frame, whatever the other jobs are. */
  lemma {:induction false} RunFromKeepsFrame<V>(run: Run<V>, jobs: seq<Job>, job: Job, pc: Pc<V>,
                                                w0: World<V>, w: World<V>)
    requires job in jobs && Framed(run, jobs, w0, w) && Legal(run, pc)
    ensures Framed(run, jobs, w0, RunFrom(run, job, pc, w).1)
    decreases Rank(run, pc)
  {
    if !pc.Finished? {
      var c := CellOf(run, w, job);
      RankDecreases(run, job, pc, c);
      var (pc', e) := Next(run, job, pc, c);
      LegalNext(run, job, pc, c);
      FramedStep(run, jobs, job, w0, w, e);
      RunFromKeepsFrame(run, jobs, job, pc', w0, OnWorld(run, job, w, e));
    }
  }

  lemma {:induction false} LoopKeepsFrame<V>(run: Run<V>, all: seq<Job>, jobs: seq<Job>, w0: World<V>)
    requires w0.table.Valid() && forall j | j in jobs :: j in all
    ensures Framed(run, all, w0, Sequential(run, jobs, w0).world)
  {
    if jobs != [] {
      var front, job := jobs[..|jobs| - 1], jobs[|jobs| - 1];
      LoopKeepsFrame(run, all, front, w0);
      var w := Sequential(run, front, w0).world;
      RunFromKeepsFrame(run, all, job, Start(run, HasTarget(w, job)), w0, w);
      assert Sequential(run, jobs, w0).world == RunJob(run, job, w).1;
    }
  }

  lemma {:induction false} TallyAddsUp<V>(run: Run<V>, jobs: seq<Job>, w: World<V>)
    ensures Sequential(run, jobs, w).success + Sequential(run, jobs, w).failure == |jobs|
  {
    if jobs != [] {
      TallyAddsUp(run, jobs[..|jobs| - 1], w);
    }
  }

  /** What the run makes of one job, from the world the run started in. */
  function Fate<V>(run: Run<V>, w0: World<V>, job: Job): (bool, Cell<V>) {
    Outcomes(run, HasTarget(w0, job), job, CellOf(run, w0, job))
  }

  function CountOk<V>(run: Run<V>, w0: World<V>, jobs: seq<Job>): (n: nat)
    ensures n <= |jobs|
  {
    if jobs == [] then 0
    else CountOk(run, w0, jobs[..|jobs| - 1]) + (if Fate(run, w0, jobs[|jobs| - 1]).0 then 1 else 0)
  }

  /** The first `done` jobs have met their fates, the others have not been touched. */
  ghost predicate Met<V>(run: Run<V>, jobs: seq<Job>, done: nat, w0: World<V>, w: World<V>)
    requires done <= |jobs|
  {
    && Framed(run, jobs, w0, w)
    && forall j | j in jobs ::
         CellOf(run, w, j) == if j in jobs[..done] then Fate(run, w0, j).1 else CellOf(run, w0, j)
  }

  /** A unidirectional job that is run again finds its fate and meets it again. */
  lemma FateAgain<V>(run: Run<V>, w0: World<V>, job: Job)
    requires run.kind == Unidirectional
    ensures Outcomes(run, HasTarget(w0, job), job, Fate(run, w0, job).1) == Fate(run, w0, job)
  {
    var pc := Start(run, HasTarget(w0, job));
    Resolver.StepsAddUp(run, job, CellOf(run, w0, job));
    Resolver.FinishMoves(run, job, pc, CellOf(run, w0, job), Fate(run, w0, job).1);
  }

  lemma MeetsNext<V>(run: Run<V>, jobs: seq<Job>, k: nat, w0: World<V>, w: World<V>)
    requires Ready(run, jobs, w0) && k < |jobs| && Met(run, jobs, k, w0, w)
    ensures RunJob(run, jobs[k], w).0 == Fate(run, w0, jobs[k]).0
    ensures Met(run, jobs, k + 1, w0, RunJob(run, jobs[k], w).1)
  {
    var job := jobs[k];
    assert HasTarget(w, job) == HasTarget(w0, job);
    RunFromIsLocal(run, jobs, job, Start(run, HasTarget(w, job)), w0, w);
    if run.kind == Unidirectional {
      FateAgain(run, w0, job);
    } else {
      assert job !in jobs[..k];
    }
    var w' := RunJob(run, job, w).1;
    assert jobs[..k + 1] == jobs[..k] + [job];
    forall j | j in jobs
      ensures CellOf(run, w', j) == if j in jobs[..k + 1] then Fate(run, w0, j).1 else CellOf(run, w0, j)
    {
      assert j in jobs[..k + 1] <==> j in jobs[..k] || j == job;
    }
  }

  lemma LoopNext<V>(run: Run<V>, jobs: seq<Job>, k: nat, w0: World<V>)
    requires k < |jobs|
    ensures var t := Sequential(run, jobs[..k], w0);
            var (ok, w) := RunJob(run, jobs[k], t.world);
            Sequential(run, jobs[..k + 1], w0) ==
            Tally(w, t.success + (if ok then 1 else 0), t.failure + (if ok then 0 else 1))
    ensures CountOk(run, w0, jobs[..k + 1]) ==
            CountOk(run, w0, jobs[..k]) + (if Fate(run, w0, jobs[k]).0 then 1 else 0)
  {
    assert jobs[..k + 1][..k] == jobs[..k];
  }

  /** After the loop every job has met its fate, as if it had been alone; a unidirectional run may list a
      secret or a target more than once. */
  lemma {:induction false} SequentialFates<V>(run: Run<V>, jobs: seq<Job>, done: nat, w0: World<V>)
    requires Ready(run, jobs, w0) && done <= |jobs|
    ensures var t := Sequential(run, jobs[..done], w0);
            && Met(run, jobs, done, w0, t.world)
            && t.success == CountOk(run, w0, jobs[..done])
            && t.success + t.failure == done
    decreases done
  {
    if done == 0 {
      assert jobs[..0] == [];
    } else {
      SequentialFates(run, jobs, done - 1, w0);
      FatesNext(run, jobs, done - 1, w0, Sequential(run, jobs[..done - 1], w0), Sequential(run, jobs[..done], w0));
    }
  }

  lemma FatesNext<V>(run: Run<V>, jobs: seq<Job>, k: nat, w0: World<V>, t: Tally<V>, t': Tally<V>)
    requires Ready(run, jobs, w0) && k < |jobs| && Met(run, jobs, k, w0, t.world)
    requires t == Sequential(run, jobs[..k], w0) && t' == Sequential(run, jobs[..k + 1], w0)
    requires t.success == CountOk(run, w0, jobs[..k]) && t.success + t.failure == k
    ensures Met(run, jobs, k + 1, w0, t'.world)
    ensures t'.success == CountOk(run, w0, jobs[..k + 1]) && t'.success + t'.failure == k + 1
  {
    LoopNext(run, jobs, k, w0);
    MeetsNext(run, jobs, k, w0, t.world);
  }
}
