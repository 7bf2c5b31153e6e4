/** What is reported about a run: its recorded totals and status (sync/engine.go:118-127), and the status
    page computed from the rows (sync/runner.go:126-156). */
module RunReport {
  import opened Prelude
  import opened SyncTable
  import opened Jobs
  import opened Locality
  import opened NestedLoop
  import opened Pool
  import opened PoolRefinement
  import opened Recording
  import Engine

  /** The jobs of the two loops, with any answers for each of them. */
  ghost predicate Lists(jobs: seq<Job>, names: seq<string>, targets: seq<string>) {
    var pairs := JobsOf(names, targets);
    |jobs| == |pairs| && forall i | 0 <= i < |jobs| :: SamePair(jobs[i], pairs[i])
  }

  /** After any complete schedule, whatever the jobs, the totals add up to them, one per secret and target;
      the run is a success when there was a job and every goroutine sent true, failed when none did. */
  lemma {:induction false} RunAccounting<V>(u: Setup<V>, schedule: seq<Action>,
                                            names: seq<string>, targets: seq<string>)
    requires Lists(u.jobs, names, targets)
    requires Exec(u, schedule).Some? && Exec(u, schedule).value.main == Returned
    ensures var s := Exec(u, schedule).value;
            var status := Engine.StatusOf(s.success, s.failure);
            && s.success + s.failure == |names| * |targets|
            && (forall i | 0 <= i < |s.phases| :: s.phases[i].Gone?)
            && (status == Engine.RunSuccess <==>
                  u.jobs != [] && forall i | 0 <= i < |s.phases| :: s.phases[i] == Gone(true))
            && (status == Engine.RunFailed <==> forall i | 0 <= i < |s.phases| :: s.phases[i] == Gone(false))
  {
    Totals(u, schedule);
  }

  lemma {:induction false} CountOkExtremes<V>(run: Run<V>, w0: World<V>, jobs: seq<Job>)
    ensures CountOk(run, w0, jobs) == |jobs| <==> forall i | 0 <= i < |jobs| :: Fate(run, w0, jobs[i]).0
    ensures CountOk(run, w0, jobs) == 0 <==> forall i | 0 <= i < |jobs| :: !Fate(run, w0, jobs[i]).0
  {
    if jobs != [] {
      CountOkExtremes(run, w0, jobs[..|jobs| - 1]);
    }
  }

  lemma SuccessesAreFates<V>(u: Setup<V>, schedule: seq<Action>)
    requires Ready(u.run, u.jobs, u.w0)
    requires Exec(u, schedule).Some? && Exec(u, schedule).value.main == Returned
    ensures Exec(u, schedule).value.success == CountOk(u.run, u.w0, u.jobs)
    ensures Exec(u, schedule).value.success + Exec(u, schedule).value.failure == |u.jobs|
  {
    ConcurrentRefinesSequential(u, schedule);
    SequentialFates(u.run, u.jobs, |u.jobs|, u.w0);
    assert u.jobs[..|u.jobs|] == u.jobs;
  }

  /** When the jobs are distinct, what the goroutines sent is what the jobs make of the world alone. */
  lemma {:induction false} FateAccounting<V>(u: Setup<V>, schedule: seq<Action>)
    requires Ready(u.run, u.jobs, u.w0)
    requires Exec(u, schedule).Some? && Exec(u, schedule).value.main == Returned
    ensures var s := Exec(u, schedule).value;
            var status := Engine.StatusOf(s.success, s.failure);
            && (status == Engine.RunSuccess <==>
                  u.jobs != [] && forall i | 0 <= i < |u.jobs| :: Fate(u.run, u.w0, u.jobs[i]).0)
            && (status == Engine.RunFailed <==> forall i | 0 <= i < |u.jobs| :: !Fate(u.run, u.w0, u.jobs[i]).0)
  {
    SuccessesAreFates(u, schedule);
    CountOkExtremes(u.run, u.w0, u.jobs);
  }

  // ---------------------------------------------------------------- the status page

  predicate Synced(r: Row) { r.obj.status == Success || r.obj.status == InSync }

  function CountSynced(rows: seq<Row>): (n: nat)
    ensures n <= |rows|
  {
    if rows == [] then 0 else CountSynced(rows[..|rows| - 1]) + (if Synced(rows[|rows| - 1]) then 1 else 0)
  }

  datatype SyncStatus = SyncStatus(total: nat, synced: nat, failed: nat)

  /** `GetSyncStatus`, as far as it is computed from the rows. */
  method GetSyncStatus(store: SyncObjectStore, syncId: string) returns (r: SyncStatus)
    ensures r.total == |OfSync(store.rows, syncId)|
    ensures r.synced == CountSynced(OfSync(store.rows, syncId))
    ensures r.synced + r.failed == r.total
    ensures r.failed == 0 <==>
              forall x | x in store.rows && x.key.syncId == syncId :: x.obj.status == Success || x.obj.status == InSync
  {
    var objects := store.GetSyncObjectsBySync(syncId);
    var successCount := 0;
    for i := 0 to |objects|
      invariant successCount == CountSynced(objects[..i])
    {
      assert objects[..i + 1][..i] == objects[..i];
      if objects[i].obj.status == Success || objects[i].obj.status == InSync {
        successCount := successCount + 1;
      }
    }
    assert objects[..|objects|] == objects;
    AllSynced(objects);
    r := SyncStatus(|objects|, successCount, |objects| - successCount);
  }

  lemma {:induction false} AllSynced(rows: seq<Row>)
    ensures CountSynced(rows) == |rows| <==> forall x | x in rows :: Synced(x)
  {
    if rows != [] {
      var k := |rows| - 1;
      AllSynced(rows[..k]);
      assert rows == rows[..k] + [rows[k]];
    }
  }

  /** A job that succeeds leaves a row that counts as synced when its record is accepted, and the row
      there was when it is not. */
  lemma OkLeavesSyncedRow<V>(run: Run<V>, w0: World<V>, job: Job)
    requires Fate(run, w0, job).0
    requires run.kind == Bidirectional ==> HasTarget(w0, job)
    ensures run.recordOk(job) ==> Fate(run, w0, job).1.row.Some? && Fate(run, w0, job).1.row.value.status != Failed
    ensures !run.recordOk(job) ==> Fate(run, w0, job).1.row == Content(w0.table.rows, run.KeyOf(job))
  {
    if HasTarget(w0, job) {
      Resolver.StepsAddUp(run, job, CellOf(run, w0, job));
    }
  }

  /** After a run without failures the row of a job counts as failed exactly when every record of its pair
      was refused and the row from before the run counted as failed already. */
  lemma CleanRunFailedJob<V>(u: Setup<V>, schedule: seq<Action>, job: Job)
    requires u.w0.table.Valid() && job in u.jobs
    requires Exec(u, schedule).Some? && Exec(u, schedule).value.main == Returned
    requires Exec(u, schedule).value.failure == 0
    ensures CountsAsFailed(RowOf(u, Exec(u, schedule).value.world, job)) <==>
            AllRefused(u, job) && CountsAsFailed(RowOf(u, u.w0, job))
  {
    Totals(u, schedule);
    RecordedAlways(u, schedule, job);
    if !AllRefused(u, job) {
      var j :| j in u.jobs && SamePair(j, job) && u.run.recordOk(j);
      var i :| 0 <= i < |u.jobs| && u.jobs[i] == j;
      assert Verdict(Exec(u, schedule).value.phases[i]) == Some(true);
    }
  }

  /** After a complete run, whatever its jobs, a goroutine that reported success and whose record was accepted
      has a row among those of the sync, from the source of the run, for its target and its secret. */
  lemma SuccessHasRow<V>(u: Setup<V>, schedule: seq<Action>, i: nat)
    requires u.w0.table.Valid() && i < |u.jobs| && u.run.recordOk(u.jobs[i])
    requires Exec(u, schedule).Some? && Exec(u, schedule).value.main == Returned
    requires Exec(u, schedule).value.phases[i] == Gone(true)
    ensures exists r | r in OfSync(Exec(u, schedule).value.world.table.rows, u.run.syncId) ::
              && r.key.syncId == u.run.syncId && r.key.source == u.run.source
              && r.key.target == u.jobs[i].target && r.key.name == u.jobs[i].name
  {
    RecordedAlways(u, schedule, u.jobs[i]);
    var s := Exec(u, schedule).value;
    assert Present(u.run, u.jobs[i], s.phases[i], RowOf(u, s.world, u.jobs[i]));
    var r := Find(s.world.table.rows, u.run.KeyOf(u.jobs[i])).value;
    assert r in OfSync(s.world.table.rows, u.run.syncId);
  }

  /** The pairs of a run. */
  function Pairs(jobs: seq<Job>): set<(string, string)> { set j | j in jobs :: (j.target, j.name) }

  /** What the status page counts in all is at least one row for every pair of a run without failures whose
      records were accepted. */
  lemma CleanRunTotal<V>(u: Setup<V>, schedule: seq<Action>)
    requires u.w0.table.Valid() && forall j | j in u.jobs :: u.run.recordOk(j)
    requires Exec(u, schedule).Some? && Exec(u, schedule).value.main == Returned
    requires Exec(u, schedule).value.failure == 0
    ensures |OfSync(Exec(u, schedule).value.world.table.rows, u.run.syncId)| >= |Pairs(u.jobs)|
  {
    var rows := OfSync(Exec(u, schedule).value.world.table.rows, u.run.syncId);
    Totals(u, schedule);
    forall p | p in Pairs(u.jobs) ensures exists r | r in rows :: (r.key.target, r.key.name) == p {
      var j :| j in u.jobs && (j.target, j.name) == p;
      var i: nat :| i < |u.jobs| && u.jobs[i] == j;
      SuccessHasRow(u, schedule, i);
    }
    Covered(rows, Pairs(u.jobs));
  }

  lemma {:induction false} Covered(rows: seq<Row>, pairs: set<(string, string)>)
    requires forall p | p in pairs :: exists r | r in rows :: (r.key.target, r.key.name) == p
    ensures |rows| >= |pairs|
  {
    if p :| p in pairs {
      var r :| r in rows && (r.key.target, r.key.name) == p;
    }
    if rows != [] {
      var front, last := rows[..|rows| - 1], rows[|rows| - 1];
      var rest := pairs - {(last.key.target, last.key.name)};
      forall p | p in rest ensures exists r | r in front :: (r.key.target, r.key.name) == p {
        var r :| r in rows && (r.key.target, r.key.name) == p;
        assert rows == front + [last];
        assert r in front;
      }
      Covered(front, rest);
    }
  }

  /** After a run without failures, a row counted as failed belongs to no job of the run whose record was
      accepted; a row of no job at all was there before, the very same. */
  lemma CleanRunFailedRows<V>(u: Setup<V>, schedule: seq<Action>, row: Row)
    requires u.w0.table.Valid()
    requires Exec(u, schedule).Some? && Exec(u, schedule).value.main == Returned
    requires Exec(u, schedule).value.failure == 0
    requires row in Exec(u, schedule).value.world.table.rows && !Synced(row)
    ensures forall j | j in u.jobs && u.run.recordOk(j) :: u.run.KeyOf(j) != row.key
    ensures (forall j | j in u.jobs :: u.run.KeyOf(j) != row.key) ==> row in u.w0.table.rows
  {
    var table := Exec(u, schedule).value.world.table;
    RunKeepsFrame(u, schedule);
    var n :| 0 <= n < |table.rows| && table.rows[n] == row;
    FindUnique(table.rows, table.nextId, n);
    forall j | j in u.jobs && u.run.recordOk(j) ensures u.run.KeyOf(j) != row.key {
      CleanRunFailedJob(u, schedule, j);
    }
    if !OwnsRow(u.run, u.jobs, row.key) {
      assert Find(table.rows, row.key) == Find(u.w0.table.rows, row.key);
    }
  }
}
