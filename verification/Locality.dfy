/** Where the steps of a job reach: only its own cell of the world. */
module Locality {
  import opened Prelude
  import opened SyncTable
  import opened Jobs

  /** Jobs that share no cell, unless they are the same job listed again: no target is the source, and a
      bidirectional run has one target. */
  ghost predicate Separate<V>(run: Run<V>, jobs: seq<Job>) {
    && (forall i, j | i in jobs && j in jobs :: SamePair(i, j) ==> i == j)
    && (forall j | j in jobs :: j.target != run.source)
    && (run.kind == Bidirectional ==> forall i, j | i in jobs && j in jobs :: i.target == j.target)
  }

  ghost predicate ValidWorld<V>(run: Run<V>, w: World<V>) {
    run.source in w.vaults && w.table.Valid()
  }

  /** What the contents after a run depend on: separate jobs, and in a bidirectional run distinct ones.
      `ExecuteSync` has checked that the source is there, and the target of a bidirectional run. */
  ghost predicate Ready<V>(run: Run<V>, jobs: seq<Job>, w: World<V>) {
    && ValidWorld(run, w)
    && Separate(run, jobs)
    && (run.kind == Bidirectional ==> Distinct(jobs) && forall j | j in jobs :: HasTarget(w, j))
  }

  predicate HasTarget<V>(w: World<V>, job: Job) { job.target in w.vaults }

  /** A unidirectional run never reaches a program point that writes the source. */
  predicate Legal<V>(run: Run<V>, pc: Pc<V>) {
    run.kind == Unidirectional ==> !(pc.BiReadSource? || pc.BiReadTarget? || pc.BiSelect? || pc.BiWrite?)
  }

  lemma LegalNext<V>(run: Run<V>, job: Job, pc: Pc<V>, c: Cell<V>)
    requires Legal(run, pc)
    ensures Legal(run, Next(run, job, pc, c).0)
    ensures run.kind == Unidirectional && Next(run, job, pc, c).1.Put? ==> Next(run, job, pc, c).1.side == TargetSide
  {}

  lemma StoreReads<V>(w: World<V>, vault: string, name: string, v: V, vault2: string, name2: string)
    requires vault in w.vaults
    ensures Read(Store(w, vault, name, v), vault2, name2) ==
            if vault2 == vault && name2 == name then Some(v) else Read(w, vault2, name2)
  {}

  /** The table part of an effect: either the rows are as they were, or the one row of the job changed. */
  lemma TableEffect<V>(run: Run<V>, job: Job, w: World<V>, e: Effect<V>, key: Key)
    requires w.table.Valid()
    ensures OnWorld(run, job, w, e).table.Valid()
    ensures key != run.KeyOf(job) ==> Find(OnWorld(run, job, w, e).table.rows, key) == Find(w.table.rows, key)
    ensures Content(OnWorld(run, job, w, e).table.rows, run.KeyOf(job)) ==
            OnCell(run, job, CellOf(run, w, job), e).row
  {
    match e
    case Nothing =>
    case Put(_, _) =>
    case ExecUpdate(obj) => UpdateEffect(w.table, run.KeyOf(job), obj, key);
    case ExecInsert(obj) => InsertEffect(w.table, run.KeyOf(job), obj, key);
  }

  lemma UpdateEffect(t: Table, own: Key, obj: SyncObject, key: Key)
    requires t.Valid()
    ensures Consistent(Updated(t.rows, own, obj), t.nextId)
    ensures key != own ==> Find(Updated(t.rows, own, obj), key) == Find(t.rows, key)
    ensures Content(Updated(t.rows, own, obj), own) == if Content(t.rows, own).Some? then Some(obj) else None
  {
    FindUpdated(t.rows, own, obj, key);
    FindUpdated(t.rows, own, obj, own);
  }

  lemma InsertEffect(t: Table, own: Key, obj: SyncObject, key: Key)
    requires t.Valid()
    ensures match Inserted(t.rows, t.nextId, own, obj)
            case None => Content(t.rows, own).Some?
            case Some(rows) =>
              && Consistent(rows, t.nextId + 1)
              && (key != own ==> Find(rows, key) == Find(t.rows, key))
              && Content(t.rows, own).None? && Content(rows, own) == Some(obj)
  {
    FindAppended(t.rows, Row(t.nextId, own, obj), key);
    FindAppended(t.rows, Row(t.nextId, own, obj), own);
    if Find(t.rows, own).None? {
      ConsistentAppended(t.rows, t.nextId, own, obj);
    }
  }

  /** A step does to the world, seen through the job's own cell, what it does to the cell. */
  lemma OwnCell<V>(run: Run<V>, job: Job, w: World<V>, e: Effect<V>)
    requires ValidWorld(run, w) && HasTarget(w, job) && job.target != run.source
    ensures CellOf(run, OnWorld(run, job, w, e), job) == OnCell(run, job, CellOf(run, w, job), e)
    ensures ValidWorld(run, OnWorld(run, job, w, e)) && OnWorld(run, job, w, e).vaults.Keys == w.vaults.Keys
  {
    TableEffect(run, job, w, e, run.KeyOf(job));
  }

  /** A step of one job is invisible in the cell of every other job. */
  lemma OtherCell<V>(run: Run<V>, jobs: seq<Job>, job: Job, other: Job, w: World<V>, e: Effect<V>)
    requires ValidWorld(run, w) && Separate(run, jobs) && job in jobs && other in jobs && job != other
    requires HasTarget(w, job)
    requires run.kind == Unidirectional && e.Put? ==> e.side == TargetSide
    ensures CellOf(run, OnWorld(run, job, w, e), other) == CellOf(run, w, other)
  {
    assert !SamePair(job, other);
    TableEffect(run, job, w, e, run.KeyOf(other));
    if e.Put? {
      var vault := if e.side == SourceSide then run.source else job.target;
      var v := run.canon(vault, e.value);
      assert OnWorld(run, job, w, e) == Store(w, vault, job.name, v);
      StoreReads(w, vault, job.name, v, run.source, other.name);
      StoreReads(w, vault, job.name, v, other.target, other.name);
    }
  }

  // ---------------------------------------------------------------- what no job touches

  /** Does some job of the run own this secret of this vault? */
  predicate OwnsSecret<V>(run: Run<V>, jobs: seq<Job>, vault: string, name: string) {
    exists j | j in jobs :: j.name == name && (j.target == vault || (run.kind == Bidirectional && run.source == vault))
  }

  predicate OwnsRow<V>(run: Run<V>, jobs: seq<Job>, key: Key) {
    exists j | j in jobs :: run.KeyOf(j) == key
  }

  /** Secrets and rows that belong to no job are exactly as they were, rows with their ids; no key of
      any vault ever disappears.  The jobs may repeat, and the source may be among the targets. */
  ghost predicate Framed<V>(run: Run<V>, jobs: seq<Job>, w0: World<V>, w: World<V>) {
    && w.table.Valid()
    && w.vaults.Keys == w0.vaults.Keys
    && (forall v, n | !OwnsSecret(run, jobs, v, n) :: Read(w, v, n) == Read(w0, v, n))
    && (forall v, n | Read(w0, v, n).Some? :: Read(w, v, n).Some?)
    && (forall k | !OwnsRow(run, jobs, k) :: Find(w.table.rows, k) == Find(w0.table.rows, k))
  }

  lemma FramedStep<V>(run: Run<V>, jobs: seq<Job>, job: Job, w0: World<V>, w: World<V>, e: Effect<V>)
    requires job in jobs && Framed(run, jobs, w0, w)
    requires run.kind == Unidirectional && e.Put? ==> e.side == TargetSide
    ensures Framed(run, jobs, w0, OnWorld(run, job, w, e))
  {
    var w' := OnWorld(run, job, w, e);
    TableEffect(run, job, w, e, run.KeyOf(job));
    forall k | !OwnsRow(run, jobs, k) ensures Find(w'.table.rows, k) == Find(w0.table.rows, k) {
      TableEffect(run, job, w, e, k);
    }
    forall v, n ensures Read(w', v, n) == Read(w, v, n) || (OwnsSecret(run, jobs, v, n) && Read(w', v, n).Some?) {
      if e.Put? {
        var vault := if e.side == SourceSide then run.source else job.target;
        if vault in w.vaults {
          StoreReads(w, vault, job.name, run.canon(vault, e.value), v, n);
        }
      }
    }
  }

  /** The same vault contents and the same rows, up to the ids of the rows. */
  ghost predicate SameUpToIds<V>(w1: World<V>, w2: World<V>) {
    && w1.vaults == w2.vaults
    && forall k :: Content(w1.table.rows, k) == Content(w2.table.rows, k)
  }

  lemma SameReads<V>(w1: World<V>, w2: World<V>)
    requires w1.vaults.Keys == w2.vaults.Keys
    requires forall v, n :: Read(w1, v, n) == Read(w2, v, n)
    ensures w1.vaults == w2.vaults
  {
    forall v | v in w1.vaults ensures w1.vaults[v] == w2.vaults[v] {
      forall n ensures n in w1.vaults[v] <==> n in w2.vaults[v]
               ensures n in w1.vaults[v] ==> w1.vaults[v][n] == w2.vaults[v][n] {
        assert Read(w1, v, n) == Read(w2, v, n);
      }
    }
  }

  /** Two worlds that grew out of one world agree when they agree on the cells of the jobs. */
  lemma CellsDetermineWorld<V>(run: Run<V>, jobs: seq<Job>, w0: World<V>, w1: World<V>, w2: World<V>)
    requires Framed(run, jobs, w0, w1) && Framed(run, jobs, w0, w2)
    requires forall j | j in jobs :: CellOf(run, w1, j) == CellOf(run, w2, j)
    ensures SameUpToIds(w1, w2)
  {
    forall v, n ensures Read(w1, v, n) == Read(w2, v, n) {
      if OwnsSecret(run, jobs, v, n) {
        var j :| j in jobs && j.name == n && (j.target == v || (run.kind == Bidirectional && run.source == v));
        assert CellOf(run, w1, j) == CellOf(run, w2, j);
      }
    }
    SameReads(w1, w2);
    forall k ensures Content(w1.table.rows, k) == Content(w2.table.rows, k) {
      if OwnsRow(run, jobs, k) {
        var j :| j in jobs && run.KeyOf(j) == k;
        assert CellOf(run, w1, j) == CellOf(run, w2, j);
      }
    }
  }
}
