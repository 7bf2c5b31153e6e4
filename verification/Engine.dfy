/** The engine's own objects: backends that are written, the store, and the sync operations as they are
    coded, each proved to make the steps of its job and nothing else. */
module Engine {
  import opened Prelude
  import opened SyncTable
  import opened Jobs
  import opened NestedLoop
  import opened Locality
  import Glob
  import Resolver

  /** A vault behind the `Backend` interface (vault/backend.go:21-42).  What a call answers comes from the
      run; what the vault holds is here. */
  class Backend<V(!new)> {
    var secrets: map<string, V>

    constructor (secrets: map<string, V>)
      ensures this.secrets == secrets
    {
      this.secrets := secrets;
    }

    method GetSecret(run: Run<V>, job: Job, call: nat) returns (r: Option<V>)
      ensures r == if run.readOk(job, call) && job.name in secrets then Some(secrets[job.name]) else None
    {
      r := if run.readOk(job, call) && job.name in secrets then Some(secrets[job.name]) else None;
    }

    /** A call that reports success has stored the value; one that fails may have. */
    method SetSecret(run: Run<V>, job: Job, id: string, v: V, attempt: nat) returns (r: Outcome)
      modifies this
      ensures r == run.setOutcome(job, attempt)
      ensures secrets == if r == Stored || r.stored then old(secrets)[job.name := run.canon(id, v)] else old(secrets)
    {
      r := run.setOutcome(job, attempt);
      if r == Stored || r.stored {
        secrets := secrets[job.name := run.canon(id, v)];
      }
    }
  }

  datatype RunStatus = RunSuccess | RunPartial | RunFailed

  datatype SyncRun = SyncRun(syncId: string, status: RunStatus, synced: nat, failed: nat)

  /** The status `ExecuteSync` records (sync/engine.go:119-125). */
  function StatusOf(success: nat, failure: nat): RunStatus {
    if success == 0 then RunFailed else if failure > 0 then RunPartial else RunSuccess
  }

  datatype SyncType = Uni | Bi | Other

  datatype SyncConfig = SyncConfig(syncType: SyncType, targets: seq<string>, filter: Glob.Filter)

  datatype ExecError = NoSource | ListFailed | NoTarget

  /** What the executor works through: nothing when the second listing fails. */
  function JobList(cfg: SyncConfig, secondList: Option<seq<string>>): seq<Job> {
    if secondList.None? || cfg.syncType == Other then []
    else
      var names := Glob.Filtered(secondList.value, cfg.filter);
      JobsOf(names, if cfg.syncType == Bi && cfg.targets != [] then [cfg.targets[0]] else cfg.targets)
  }

  class Engine<V(!new)> {
    const backends: map<string, Backend<V>>
    const store: SyncObjectStore
    var runs: seq<SyncRun>

    constructor (backends: map<string, Backend<V>>, store: SyncObjectStore)
      ensures this.backends == backends && this.store == store && runs == []
    {
      this.backends, this.store, runs := backends, store, [];
    }

    ghost function Objects(): set<object> { backends.Values + {store} }

    /** Each vault has its own backend object, and the table is consistent. */
    ghost predicate Valid()
      reads this, Objects()
    {
      && (forall a, b | a in backends && b in backends && a != b :: backends[a] != backends[b])
      && store.View().Valid()
    }

    ghost function World(): Jobs.World<V>
      reads this, Objects()
    {
      Jobs.World.World(map id | id in backends :: backends[id].secrets, store.View())
    }

    /** One `GetSecret` on a backend is one `Read` of the world. */
    method Get(run: Run<V>, job: Job, id: string, call: nat) returns (r: Option<V>)
      requires id in backends
      ensures r == if run.readOk(job, call) then Read(World(), id, job.name) else None
    {
      r := backends[id].GetSecret(run, job, call);
    }

    /** One `SetSecret` on a backend is one `Store` on the world. */
    method Put(run: Run<V>, job: Job, id: string, v: V, attempt: nat) returns (r: Outcome)
      requires Valid() && id in backends
      modifies Objects()
      ensures Valid() && r == run.setOutcome(job, attempt)
      ensures World() == AfterPut(old(World()), r, id, job.name, run.canon(id, v))
    {
      assert forall a | a in backends && a != id :: backends[a] != backends[id];
      r := backends[id].SetSecret(run, job, id, v, attempt);
      assert World().vaults == AfterPut(old(World()), r, id, job.name, run.canon(id, v)).vaults;
    }

    /** The upsert that ends an operation: the job's last one or two steps. */
    method Record(run: Run<V>, job: Job, obj: SyncObject, ghost ok: bool)
      requires Valid()
      modifies store
      ensures Valid()
      ensures RunFrom(run, job, Update(obj, ok), old(World())) == (ok, World())
    {
      RecordSteps(run, job, obj, ok, World());
      UpsertRefinesMapUpdate(store.View(), run.KeyOf(job), obj, run.KeyOf(job));
      var _ := store.UpsertSyncObject(run.KeyOf(job), obj, run.recordOk(job));
      assert World().vaults == old(World()).vaults;
    }

    /** `syncSecretUnidirectional`. */
    method SyncSecretUnidirectional(run: Run<V>, job: Job, call: nat) returns (ok: bool)
      requires Valid() && run.source in backends
      modifies Objects()
      ensures Valid()
      ensures (ok, World()) ==
              RunFrom(run, job, if job.target in backends then UniReadSource(call) else Finished(false), old(World()))
    {
      if job.target !in backends {
        return false;
      }
      UniReadUnfolds(run, job, call, World());
      var secret := Get(run, job, run.source, call);
      if secret.None? {
        return false;
      }
      var value := run.transform(secret.value);
      if value.Err? {
        return false;
      }
      ok := Copying(run, job, secret.value, value.value);
    }

    /** Its retried write and its record. */
    method Copying(run: Run<V>, job: Job, sv: V, value: V) returns (ok: bool)
      requires Valid() && job.target in backends
      modifies Objects()
      ensures Valid()
      ensures (ok, World()) == RunFrom(run, job, UniWrite(sv, value, 0, None), old(World()))
    {
      ghost var end := RunFrom(run, job, UniWrite(sv, value, 0, None), World());
      var attempt, lastErr := 0, None;
      while attempt <= run.Retries()
        invariant Valid()
        invariant end == RunFrom(run, job, UniWrite(sv, value, attempt, lastErr), World())
      {
        UniWriteUnfolds(run, job, sv, value, attempt, lastErr, World());
        var r := Put(run, job, job.target, value, attempt);
        if r == Stored {
          Record(run, job, SyncObject(run.hash(sv), run.hash(sv), Success, "", SourceToTarget), true);
          return true;
        }
        attempt, lastErr := attempt + 1, Some(r.reason);
      }
      UniWriteUnfolds(run, job, sv, value, attempt, lastErr, World());
      Record(run, job, SyncObject(run.hash(sv), "", Failed, FailText(lastErr), SourceToTarget), false);
      ok := false;
    }

    /** `syncSecretBidirectional`. */
    method SyncSecretBidirectional(run: Run<V>, job: Job) returns (ok: bool)
      requires Valid() && run.source in backends && job.target in backends
      modifies Objects()
      ensures Valid()
      ensures (ok, World()) == RunFrom(run, job, BiReadSource, old(World()))
    {
      BiSourceUnfolds(run, job, World());
      var sourceSecret := Get(run, job, run.source, 0);
      if sourceSecret.None? {
        return false;
      }
      ok := ReadingTarget(run, job, sourceSecret.value);
    }

    /** Its part once the source is read. */
    method ReadingTarget(run: Run<V>, job: Job, sv: V) returns (ok: bool)
      requires Valid() && run.source in backends && job.target in backends
      modifies Objects()
      ensures Valid()
      ensures (ok, World()) == RunFrom(run, job, BiReadTarget(sv), old(World()))
    {
      BiTargetUnfolds(run, job, sv, World());
      var targetSecret := Get(run, job, job.target, 1);
      if targetSecret.None? {
        ok := SyncSecretUnidirectional(run, job, 2);
      } else {
        ok := Comparing(run, job, sv, targetSecret.value);
      }
    }

    /** Its part once both sides are read. */
    method Comparing(run: Run<V>, job: Job, sv: V, tv: V) returns (ok: bool)
      requires Valid() && run.source in backends && job.target in backends
      modifies Objects()
      ensures Valid()
      ensures (ok, World()) == RunFrom(run, job, Compared(run, sv, tv), old(World()))
    {
      if run.hash(sv) == run.hash(tv) {
        Record(run, job, SyncObject(run.hash(sv), run.hash(tv), InSync, "", NoDirection), true);
        return true;
      }
      BiSelectUnfolds(run, job, sv, tv, World());
      if !run.selectOk(job) {
        return false;
      }
      var existing := store.GetSyncObject(run.KeyOf(job));
      var dir := Resolve(if existing.Some? then Some(existing.value.obj) else None);
      assert dir == Resolve(Content(World().table.rows, run.KeyOf(job)));
      ok := Resolving(run, job, dir, sv, tv);
    }

    /** The retried write of a divergence and its record. */
    method Resolving(run: Run<V>, job: Job, dir: Direction, sv: V, tv: V) returns (ok: bool)
      requires Valid() && run.source in backends && job.target in backends
      modifies Objects()
      ensures Valid()
      ensures (ok, World()) == RunFrom(run, job, BiWrite(dir, sv, tv, 0, None), old(World()))
    {
      ghost var end := RunFrom(run, job, BiWrite(dir, sv, tv, 0, None), World());
      var attempt, lastErr := 0, None;
      while attempt <= run.Retries()
        invariant Valid()
        invariant end == RunFrom(run, job, BiWrite(dir, sv, tv, attempt, lastErr), World())
      {
        BiWriteUnfolds(run, job, dir, sv, tv, attempt, lastErr, World());
        var r;
        if dir == SourceToTarget {
          r := Put(run, job, job.target, sv, attempt);
        } else {
          r := Put(run, job, run.source, tv, attempt);
        }
        if r == Stored {
          var sum := run.hash(if dir == SourceToTarget then sv else tv);
          Record(run, job, SyncObject(sum, sum, Success, "", dir), true);
          return true;
        }
        attempt, lastErr := attempt + 1, Some(r.reason);
      }
      BiWriteUnfolds(run, job, dir, sv, tv, attempt, lastErr, World());
      Record(run, job, SyncObject(run.hash(sv), run.hash(tv), Failed, FailText(lastErr), dir), false);
      ok := false;
    }

    /** What one goroutine does between its acquire and its send. */
    method ExecuteJob(run: Run<V>, job: Job) returns (ok: bool)
      requires Valid() && run.source in backends
      requires run.kind == Bidirectional ==> job.target in backends
      modifies Objects()
      ensures Valid()
      ensures (ok, World()) == RunJob(run, job, old(World()))
    {
      if run.kind == Unidirectional {
        ok := SyncSecretUnidirectional(run, job, 0);
      } else {
        ok := SyncSecretBidirectional(run, job);
      }
    }

    /** The executor with its goroutines run one after the other. */
    method ExecuteJobs(run: Run<V>, jobs: seq<Job>) returns (success: nat, failure: nat)
      requires Valid() && run.source in backends
      requires run.kind == Bidirectional ==> forall j | j in jobs :: j.target in backends
      modifies Objects()
      ensures Valid()
      ensures Tally(World(), success, failure) == Sequential(run, jobs, old(World()))
    {
      success, failure := 0, 0;
      for i := 0 to |jobs|
        invariant Valid()
        invariant Tally(World(), success, failure) == Sequential(run, jobs[..i], old(World()))
      {
        assert jobs[..i + 1][..i] == jobs[..i];
        assert jobs[i] in jobs;
        var ok := ExecuteJob(run, jobs[i]);
        if ok {
          success := success + 1;
        } else {
          failure := failure + 1;
        }
      }
      assert jobs[..|jobs|] == jobs;
    }

    /** The executor: it lists the source again, filters, and works off the jobs. */
    method Execute(run: Run<V>, cfg: SyncConfig, secondList: Option<seq<string>>) returns (success: nat, failure: nat)
      requires Valid() && run.source in backends
      requires cfg.syncType == Uni ==> run.kind == Unidirectional
      requires cfg.syncType == Bi ==> run.kind == Bidirectional && cfg.targets != [] && cfg.targets[0] in backends
      modifies Objects()
      ensures Valid()
      ensures Tally(World(), success, failure) == Sequential(run, JobList(cfg, secondList), old(World()))
    {
      if cfg.syncType == Other || secondList.None? {
        return 0, 0;
      }
      var names := Glob.FilterSecrets(secondList.value, cfg.filter);
      var jobs := JobsOf(names, if cfg.syncType == Bi then [cfg.targets[0]] else cfg.targets);
      assert jobs == JobList(cfg, secondList);
      success, failure := ExecuteJobs(run, jobs);
    }

    /** `ExecuteSync`: `lists` are the answers to its two listings of the source.  An error leaves the
        vaults and the table alone; a missing backend is not even recorded as a run; otherwise the jobs of
        the second listing are worked off and the run is recorded with its counts.  What the patterns do not
        let through is left alone; every listed name that passes is counted once for each target; and a
        copying run without failures has copied all of them to all targets. */
    method ExecuteSync(run: Run<V>, cfg: SyncConfig, lists: nat -> Option<seq<string>>) returns (err: Option<ExecError>)
      requires Valid()
      requires cfg.syncType == Uni ==> run.kind == Unidirectional
      requires cfg.syncType == Bi ==> run.kind == Bidirectional && cfg.targets != []
      modifies this`runs, Objects()
      ensures Valid()
      ensures err == if run.source !in backends then Some(NoSource)
                     else if lists(0).None? then Some(ListFailed)
                     else if cfg.syncType == Bi && cfg.targets[0] !in backends then Some(NoTarget)
                     else None
      ensures err.Some? ==> World() == old(World())
      ensures err == Some(ListFailed) ==> runs == old(runs) + [SyncRun(run.syncId, RunFailed, 0, 0)]
      ensures err == Some(NoSource) || err == Some(NoTarget) ==> runs == old(runs)
      ensures err.None? ==>
                var t := Sequential(run, JobList(cfg, lists(1)), old(World()));
                && World() == t.world && runs == old(runs) + [RunOf(run, t)]
                && Lawful(run, cfg, lists(1), old(World()), World(), RunOf(run, t))
    {
      if run.source !in backends {
        return Some(NoSource);
      }
      var secrets := lists(0);
      if secrets.None? {
        runs := runs + [SyncRun(run.syncId, RunFailed, 0, 0)];
        return Some(ListFailed);
      }
      if cfg.syncType == Bi && cfg.targets[0] !in backends {
        return Some(NoTarget);
      }
      WorkOff(run, cfg, lists(1));
      err := None;
    }

    /** Its last part: the executor, and the record of the run. */
    method WorkOff(run: Run<V>, cfg: SyncConfig, list: Option<seq<string>>)
      requires Valid() && run.source in backends
      requires cfg.syncType == Uni ==> run.kind == Unidirectional
      requires cfg.syncType == Bi ==> run.kind == Bidirectional && cfg.targets != [] && cfg.targets[0] in backends
      modifies this`runs, Objects()
      ensures Valid()
      ensures var t := Sequential(run, JobList(cfg, list), old(World()));
              && World() == t.world && runs == old(runs) + [RunOf(run, t)]
              && Lawful(run, cfg, list, old(World()), World(), RunOf(run, t))
    {
      LoopTouches(run, cfg, list, World());
      LoopCopies(run, cfg, list, World());
      ghost var t := Sequential(run, JobList(cfg, list), World());
      var success, failure := Execute(run, cfg, list);
      assert World() == t.world && success == t.success && failure == t.failure;
      runs := runs + [SyncRun(run.syncId, StatusOf(success, failure), success, failure)];
    }
  }

  function RunOf<V>(run: Run<V>, t: Tally<V>): SyncRun {
    SyncRun(run.syncId, StatusOf(t.success, t.failure), t.success, t.failure)
  }

  // ---------------------------------------------------------------- what a run touches

  /** The target holds the transformed value of the source. */
  ghost predicate Copied<V>(run: Run<V>, before: Jobs.World<V>, after: Jobs.World<V>, name: string, target: string) {
    var v := Read(before, run.source, name);
    && v.Some? && run.transform(v.value).Ok?
    && Read(after, target, name) == Some(run.canon(target, run.transform(v.value).value))
  }

  /** What a recorded run has done: it left alone what is not its own; every listed name that passes is
      counted once for each target; and when it copies without failures, all of them are at all targets. */
  ghost predicate Lawful<V>(run: Run<V>, cfg: SyncConfig, list: Option<seq<string>>,
                            w: Jobs.World<V>, w': Jobs.World<V>, r: SyncRun) {
    && LeavesAlone(run, cfg, list, w, w')
    && r.syncId == run.syncId
    && (r.status == RunFailed <==> r.synced == 0) && (r.status == RunSuccess <==> r.synced > 0 && r.failed == 0)
    && r.synced + r.failed ==
       (if list.None? || cfg.syncType == Other then 0
        else Glob.Passing(list.value, cfg.filter) * (if cfg.syncType == Bi then 1 else |cfg.targets|))
    && (cfg.syncType == Uni && list.Some? && run.source !in cfg.targets && r.failed == 0 ==>
          forall n, t | n in list.value && Glob.Passes(cfg.filter, n) && t in cfg.targets :: Copied(run, w, w', n, t))
  }

  lemma JobListMembers(cfg: SyncConfig, list: Option<seq<string>>)
    requires cfg.syncType == Bi ==> cfg.targets != []
    ensures forall j :: j in JobList(cfg, list) <==>
              && list.Some? && cfg.syncType != Other && j.copy == 0
              && j.name in list.value && Glob.Passes(cfg.filter, j.name)
              && j.target in (if cfg.syncType == Bi then [cfg.targets[0]] else cfg.targets)
    ensures |JobList(cfg, list)| ==
            if list.None? || cfg.syncType == Other then 0
            else Glob.Passing(list.value, cfg.filter) * (if cfg.syncType == Bi then 1 else |cfg.targets|)
  {
    if list.Some? {
      forall n ensures n in Glob.Filtered(list.value, cfg.filter) <==> n in list.value && Glob.Passes(cfg.filter, n) {
        Glob.FilteredMembers(list.value, cfg.filter, n);
      }
      Glob.FilteredCount(list.value, cfg.filter);
    }
  }

  /** The name was not listed, or the patterns do not let it through. */
  ghost predicate NotListed(cfg: SyncConfig, list: Option<seq<string>>, name: string) {
    || list.None? || name !in list.value
    || (exists p | p in cfg.filter.exclude :: Glob.MatchPattern(p, name))
    || (cfg.filter.patterns != [] && forall p | p in cfg.filter.patterns :: !Glob.MatchPattern(p, name))
  }

  /** The run has nothing to do with the vault: a target, or in a bidirectional sync the source, it is not. */
  predicate NoSide<V>(run: Run<V>, cfg: SyncConfig, vault: string) {
    if cfg.syncType == Bi then cfg.targets == [] || (vault != cfg.targets[0] && vault != run.source)
    else vault !in cfg.targets
  }

  /** Secrets that are not listed or not let through, vaults that are no side of the sync, and rows of other
      syncs, other sources, other targets or such secrets are as they were. */
  ghost predicate LeavesAlone<V>(run: Run<V>, cfg: SyncConfig, list: Option<seq<string>>,
                                 w: Jobs.World<V>, w': Jobs.World<V>) {
    && (forall v, n | NotListed(cfg, list, n) || NoSide(run, cfg, v) :: Read(w', v, n) == Read(w, v, n))
    && (forall k: Key |
          || k.syncId != run.syncId || k.source != run.source || k.target !in cfg.targets
          || NotListed(cfg, list, k.name) ::
            Find(w'.table.rows, k) == Find(w.table.rows, k))
  }

  /** The loop over the jobs of a sync leaves alone what is not theirs. */
  lemma LoopTouches<V>(run: Run<V>, cfg: SyncConfig, list: Option<seq<string>>, w: Jobs.World<V>)
    requires w.table.Valid() && (cfg.syncType == Bi ==> cfg.targets != [] && run.kind == Bidirectional)
    requires cfg.syncType == Uni ==> run.kind == Unidirectional
    ensures var t := Sequential(run, JobList(cfg, list), w);
            && LeavesAlone(run, cfg, list, w, t.world)
            && t.success + t.failure ==
               if list.None? || cfg.syncType == Other then 0
               else Glob.Passing(list.value, cfg.filter) * (if cfg.syncType == Bi then 1 else |cfg.targets|)
  {
    var jobs := JobList(cfg, list);
    var t := Sequential(run, jobs, w);
    JobListMembers(cfg, list);
    LoopKeepsFrame(run, jobs, jobs, w);
    TallyAddsUp(run, jobs, w);
    forall v, n | NotListed(cfg, list, n) || NoSide(run, cfg, v) ensures Read(t.world, v, n) == Read(w, v, n) {
      assert !OwnsSecret(run, jobs, v, n);
    }
    forall k: Key |
      || k.syncId != run.syncId || k.source != run.source || k.target !in cfg.targets
      || NotListed(cfg, list, k.name)
      ensures Find(t.world.table.rows, k) == Find(w.table.rows, k)
    {
      assert !OwnsRow(run, jobs, k);
    }
  }

  lemma LoopCopies<V>(run: Run<V>, cfg: SyncConfig, list: Option<seq<string>>, w: Jobs.World<V>)
    ensures var t := Sequential(run, JobList(cfg, list), w);
            w.table.Valid() && run.source in w.vaults && run.kind == Unidirectional
            && cfg.syncType == Uni && list.Some? && run.source !in cfg.targets && t.failure == 0 ==>
              forall n, target | n in list.value && Glob.Passes(cfg.filter, n) && target in cfg.targets ::
                Copied(run, w, t.world, n, target)
  {
    var jobs := JobList(cfg, list);
    var t := Sequential(run, jobs, w);
    if w.table.Valid() && run.source in w.vaults && run.kind == Unidirectional
       && cfg.syncType == Uni && list.Some? && run.source !in cfg.targets && t.failure == 0 {
      JobListMembers(cfg, list);
      forall n, target | n in list.value && Glob.Passes(cfg.filter, n) && target in cfg.targets
        ensures Copied(run, w, t.world, n, target)
      {
        assert Job(target, n, 0) in jobs;
        JobCopies(run, jobs, w, Job(target, n, 0));
      }
    }
  }

  lemma JobCopies<V>(run: Run<V>, jobs: seq<Job>, w: Jobs.World<V>, j: Job)
    requires run.kind == Unidirectional && Ready(run, jobs, w) && j in jobs
    requires Sequential(run, jobs, w).failure == 0
    ensures Copied(run, w, Sequential(run, jobs, w).world, j.name, j.target)
  {
    assert jobs[..|jobs|] == jobs;
    SequentialFates(run, jobs, |jobs|, w);
    AllOk(run, w, jobs, j);
    assert CellOf(run, Sequential(run, jobs, w).world, j) == Fate(run, w, j).1;
    Resolver.StepsAddUp(run, j, CellOf(run, w, j));
    Resolver.UnidirectSays(run, j, 0, CellOf(run, w, j));
  }

  lemma {:induction false} AllOk<V>(run: Run<V>, w: Jobs.World<V>, jobs: seq<Job>, j: Job)
    requires CountOk(run, w, jobs) == |jobs| && j in jobs
    ensures Fate(run, w, j).0
  {
    var front, last := jobs[..|jobs| - 1], jobs[|jobs| - 1];
    assert jobs == front + [last];
    if j != last {
      AllOk(run, w, front, j);
    }
  }

  /** The last steps of a job, in one piece. */
  lemma RecordSteps<V>(run: Run<V>, job: Job, obj: SyncObject, ok: bool, w: World<V>)
    ensures RunFrom(run, job, Update(obj, ok), w) ==
            (ok, if run.recordOk(job) then w.(table := Upserted(w.table, run.KeyOf(job), obj)) else w)
  {
    var key := run.KeyOf(job);
    if run.recordOk(job) {
      var w1 := OnWorld(run, job, w, ExecUpdate(obj));
      if Find(w.table.rows, key).None? {
        assert Updated(w.table.rows, key, obj) == w.table.rows by {
          forall i | 0 <= i < |w.table.rows| ensures w.table.rows[i].key != key {}
        }
        assert w1 == w;
        var w2 := OnWorld(run, job, w1, ExecInsert(obj));
        assert RunFrom(run, job, Insert(obj, ok), w1) == RunFrom(run, job, Finished(ok), w2);
      } else {
        assert RunFrom(run, job, Update(obj, ok), w) == RunFrom(run, job, Finished(ok), w1);
      }
    } else {
      assert OnWorld(run, job, w, Nothing) == w;
    }
  }

  // ---------------------------------------------------------------- single steps, spelled out

  function AfterPut<V>(w: World<V>, r: Outcome, id: string, name: string, v: V): World<V> {
    if r == Stored || r.stored then Store(w, id, name, v) else w
  }

  lemma UniReadUnfolds<V>(run: Run<V>, job: Job, call: nat, w: World<V>)
    ensures var src := Read(w, run.source, job.name);
            RunFrom(run, job, UniReadSource(call), w) ==
            if !run.readOk(job, call) || src.None? || run.transform(src.value).Err? then (false, w)
            else RunFrom(run, job, UniWrite(src.value, run.transform(src.value).value, 0, None), w)
  {
    assert RunFrom(run, job, Finished(false), w) == (false, w);
  }

  lemma UniWriteUnfolds<V>(run: Run<V>, job: Job, sv: V, value: V, k: nat, lastErr: Option<string>, w: World<V>)
    ensures RunFrom(run, job, UniWrite(sv, value, k, lastErr), w) ==
            if k > run.Retries() then
              var obj := SyncObject(run.hash(sv), "", Failed, FailText(lastErr), SourceToTarget);
              RunFrom(run, job, Update(obj, false), w)
            else
              var r := run.setOutcome(job, k);
              var w' := AfterPut(w, r, job.target, job.name, run.canon(job.target, value));
              if r == Stored then
                RunFrom(run, job, Update(SyncObject(run.hash(sv), run.hash(sv), Success, "", SourceToTarget), true), w')
              else RunFrom(run, job, UniWrite(sv, value, k + 1, Some(r.reason)), w')
  {}

  lemma BiWriteUnfolds<V>(run: Run<V>, job: Job, dir: Direction, sv: V, tv: V, k: nat, lastErr: Option<string>,
                          w: World<V>)
    ensures RunFrom(run, job, BiWrite(dir, sv, tv, k, lastErr), w) ==
            if k > run.Retries() then
              var obj := SyncObject(run.hash(sv), run.hash(tv), Failed, FailText(lastErr), dir);
              RunFrom(run, job, Update(obj, false), w)
            else
              var r := run.setOutcome(job, k);
              var sum := run.hash(if dir == SourceToTarget then sv else tv);
              var w' := if dir == SourceToTarget then AfterPut(w, r, job.target, job.name, run.canon(job.target, sv))
                        else AfterPut(w, r, run.source, job.name, run.canon(run.source, tv));
              if r == Stored then RunFrom(run, job, Update(SyncObject(sum, sum, Success, "", dir), true), w')
              else RunFrom(run, job, BiWrite(dir, sv, tv, k + 1, Some(r.reason)), w')
  {}

  lemma BiSourceUnfolds<V>(run: Run<V>, job: Job, w: World<V>)
    ensures var src := Read(w, run.source, job.name);
            RunFrom(run, job, BiReadSource, w) ==
            if !run.readOk(job, 0) || src.None? then (false, w)
            else RunFrom(run, job, BiReadTarget(src.value), w)
  {
    assert RunFrom(run, job, Finished(false), w) == (false, w);
  }

  /** Where a job goes on that has read both sides. */
  function Compared<V>(run: Run<V>, sv: V, tv: V): Pc<V> {
    if run.hash(sv) == run.hash(tv) then
      Update(SyncObject(run.hash(sv), run.hash(tv), InSync, "", NoDirection), true)
    else BiSelect(sv, tv)
  }

  lemma BiTargetUnfolds<V>(run: Run<V>, job: Job, sv: V, w: World<V>)
    ensures var tgt := Read(w, job.target, job.name);
            RunFrom(run, job, BiReadTarget(sv), w) ==
            if !run.readOk(job, 1) || tgt.None? then RunFrom(run, job, UniReadSource(2), w)
            else RunFrom(run, job, Compared(run, sv, tgt.value), w)
  {
    var tgt := Read(w, job.target, job.name);
    var end := if !run.readOk(job, 1) || tgt.None? then UniReadSource(2) else Compared(run, sv, tgt.value);
    assert Next(run, job, BiReadTarget(sv), CellOf(run, w, job)) == (end, Nothing);
  }

  lemma BiSelectUnfolds<V>(run: Run<V>, job: Job, sv: V, tv: V, w: World<V>)
    ensures RunFrom(run, job, BiSelect(sv, tv), w) ==
            if !run.selectOk(job) then (false, w)
            else RunFrom(run, job, BiWrite(Resolve(Content(w.table.rows, run.KeyOf(job))), sv, tv, 0, None), w)
  {
    assert RunFrom(run, job, Finished(false), w) == (false, w);
  }
}
