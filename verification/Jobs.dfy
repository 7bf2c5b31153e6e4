/** One sync job of sync/engine.go as a program of atomic steps: each backend call, each retry, each SQL
    statement is one step.  The same program text is interpreted over the one key the job is about
    (`Cell`) and over the whole world of vaults and rows (`World`). */
module Jobs {
  import opened Prelude
  import opened SyncTable
  import Retry

  /** A job: bring secret `name` to vault `target`.  A pair that is listed more than once is a job for each
      time; those of the same `copy` get the same answers from the vaults and the database. */
  datatype Job = Job(target: string, name: string, copy: nat)

  predicate SamePair(a: Job, b: Job) { a.target == b.target && a.name == b.name }

  datatype Kind = Unidirectional | Bidirectional

  /** What one `SetSecret` call does.  A failing call may still have reached the vault. */
  datatype Outcome = Stored | Refused(stored: bool, reason: string)

  /** Everything fixed for the duration of one run: the sync's configuration and, as functions of the
      job and the number of the call, what the vaults and the database answer. */
  datatype Run<!V> = Run(
    syncId: string,
    source: string,
    kind: Kind,
    policy: Retry.Policy,
    transform: V -> Result<V, string>,       // applyTransforms with the sync's list
    hash: V -> string,
    canon: (string, V) -> V,                 // what a vault's later reads return for a written value
    readOk: (Job, nat) -> bool,              // 0: source, 1: target, 2: source again after a missing target
    setOutcome: (Job, nat) -> Outcome,       // by attempt
    selectOk: Job -> bool,                   // GetSyncObject
    recordOk: Job -> bool)                   // UpsertSyncObject
  {
    function Retries(): int { Retry.Effective(policy).maxRetries }

    function KeyOf(job: Job): Key { Key(syncId, source, job.target, job.name) }
  }

  /** The values and the row a job can see. */
  datatype Cell<V> = Cell(src: Option<V>, tgt: Option<V>, row: Option<SyncObject>)

  datatype Side = SourceSide | TargetSide

  datatype Pc<V> =
    | BiReadSource
    | BiReadTarget(sv: V)
    | BiSelect(sv: V, tv: V)
    | BiWrite(dir: Direction, sv: V, tv: V, attempt: nat, lastErr: Option<string>)
    | UniReadSource(call: nat)
    | UniWrite(sv: V, value: V, attempt: nat, lastErr: Option<string>)
    | Update(obj: SyncObject, ok: bool)
    | Insert(obj: SyncObject, ok: bool)
    | Finished(ok: bool)

  datatype Effect<V> =
    | Nothing
    | Put(side: Side, value: V)
    | ExecUpdate(obj: SyncObject)
    | ExecInsert(obj: SyncObject)

  /** The direction that resolves a divergence: against the last recorded one. */
  function Resolve(row: Option<SyncObject>): (d: Direction)
    ensures d != NoDirection
  {
    match row
    case None => SourceToTarget
    case Some(o) => if o.direction == TargetToSource then SourceToTarget else TargetToSource
  }

  function FailText(lastErr: Option<string>): string { Retry.GiveUp(lastErr) }

  /** One atomic step: the next program point and the effect, given what the job sees now. */
  function Next<V>(run: Run<V>, job: Job, pc: Pc<V>, c: Cell<V>): (Pc<V>, Effect<V>) {
    match pc
    case BiReadSource =>
      if run.readOk(job, 0) && c.src.Some? then (BiReadTarget(c.src.value), Nothing)
      else (Finished(false), Nothing)
    case BiReadTarget(sv) =>
      if !(run.readOk(job, 1) && c.tgt.Some?) then (UniReadSource(2), Nothing)
      else
        var tv := c.tgt.value;
        if run.hash(sv) == run.hash(tv) then
          (Update(SyncObject(run.hash(sv), run.hash(tv), InSync, "", NoDirection), true), Nothing)
        else (BiSelect(sv, tv), Nothing)
    case BiSelect(sv, tv) =>
      if !run.selectOk(job) then (Finished(false), Nothing)
      else (BiWrite(Resolve(c.row), sv, tv, 0, None), Nothing)
    case BiWrite(dir, sv, tv, attempt, lastErr) =>
      if attempt > run.Retries() then
        (Update(SyncObject(run.hash(sv), run.hash(tv), Failed, FailText(lastErr), dir), false), Nothing)
      else
        var put := if dir == SourceToTarget then Put(TargetSide, sv) else Put(SourceSide, tv);
        match run.setOutcome(job, attempt) {
          case Stored =>
            var sum := run.hash(if dir == SourceToTarget then sv else tv);
            (Update(SyncObject(sum, sum, Success, "", dir), true), put)
          case Refused(stored, reason) =>
            (BiWrite(dir, sv, tv, attempt + 1, Some(reason)), if stored then put else Nothing)
        }
    case UniReadSource(call) =>
      if !(run.readOk(job, call) && c.src.Some?) then (Finished(false), Nothing)
      else (match run.transform(c.src.value)
            case Err(_) => (Finished(false), Nothing)
            case Ok(value) => (UniWrite(c.src.value, value, 0, None), Nothing))
    case UniWrite(sv, value, attempt, lastErr) =>
      if attempt > run.Retries() then
        (Update(SyncObject(run.hash(sv), "", Failed, FailText(lastErr), SourceToTarget), false), Nothing)
      else (match run.setOutcome(job, attempt)
            case Stored =>
              var sum := run.hash(sv);
              (Update(SyncObject(sum, sum, Success, "", SourceToTarget), true), Put(TargetSide, value))
            case Refused(stored, reason) =>
              (UniWrite(sv, value, attempt + 1, Some(reason)), if stored then Put(TargetSide, value) else Nothing))
    case Update(obj, ok) =>
      if !run.recordOk(job) then (Finished(ok), Nothing)
      else if c.row.Some? then (Finished(ok), ExecUpdate(obj))
      else (Insert(obj, ok), ExecUpdate(obj))
    case Insert(obj, ok) => (Finished(ok), ExecInsert(obj))
    case Finished(_) => (pc, Nothing)
  }

  /** The effect of a step on the job's own cell. */
  function OnCell<V>(run: Run<V>, job: Job, c: Cell<V>, e: Effect<V>): Cell<V> {
    match e
    case Nothing => c
    case Put(SourceSide, v) => c.(src := Some(run.canon(run.source, v)))
    case Put(TargetSide, v) => c.(tgt := Some(run.canon(job.target, v)))
    case ExecUpdate(obj) => if c.row.Some? then c.(row := Some(obj)) else c
    case ExecInsert(obj) => if c.row.None? then c.(row := Some(obj)) else c
  }

  function Left<V>(run: Run<V>, attempt: nat): nat {
    if attempt > run.Retries() then 0 else run.Retries() + 1 - attempt
  }

  /** A bound on the steps still to come. */
  function Rank<V>(run: Run<V>, pc: Pc<V>): nat {
    match pc
    case BiReadSource => 10 + 2 * Left(run, 0)
    case BiReadTarget(_) => 9 + 2 * Left(run, 0)
    case BiSelect(_, _) => 8 + Left(run, 0)
    case BiWrite(_, _, _, attempt, _) => 3 + Left(run, attempt)
    case UniReadSource(_) => 8 + Left(run, 0)
    case UniWrite(_, _, attempt, _) => 3 + Left(run, attempt)
    case Update(_, _) => 2
    case Insert(_, _) => 1
    case Finished(_) => 0
  }

  lemma RankDecreases<V>(run: Run<V>, job: Job, pc: Pc<V>, c: Cell<V>)
    requires !pc.Finished?
    ensures Rank(run, Next(run, job, pc, c).0) < Rank(run, pc)
  {}

  /** The job run alone to its end: whether it succeeded, and the cell it leaves. */
  function Finish<V>(run: Run<V>, job: Job, pc: Pc<V>, c: Cell<V>): (bool, Cell<V>)
    decreases Rank(run, pc)
  {
    if pc.Finished? then (pc.ok, c)
    else
      RankDecreases(run, job, pc, c);
      var (pc', e) := Next(run, job, pc, c);
      Finish(run, job, pc', OnCell(run, job, c, e))
  }

  function Start<V>(run: Run<V>, hasTarget: bool): Pc<V> {
    match run.kind
    case Unidirectional => if hasTarget then UniReadSource(0) else Finished(false)
    case Bidirectional => BiReadSource
  }

  /** The outcome of one whole job. */
  function Outcomes<V>(run: Run<V>, hasTarget: bool, job: Job, c: Cell<V>): (bool, Cell<V>) {
    Finish(run, job, Start(run, hasTarget), c)
  }

  // ---------------------------------------------------------------- the shared world

  datatype World<V> = World(vaults: map<string, map<string, V>>, table: Table)

  function Read<V>(w: World<V>, vault: string, name: string): Option<V> {
    if vault in w.vaults && name in w.vaults[vault] then Some(w.vaults[vault][name]) else None
  }

  function CellOf<V>(run: Run<V>, w: World<V>, job: Job): Cell<V> {
    Cell(Read(w, run.source, job.name), Read(w, job.target, job.name), Content(w.table.rows, run.KeyOf(job)))
  }

  function Store<V>(w: World<V>, vault: string, name: string, v: V): World<V> {
    if vault in w.vaults then w.(vaults := w.vaults[vault := w.vaults[vault][name := v]]) else w
  }

  /** The same effect on the shared vaults and rows. */
  function OnWorld<V>(run: Run<V>, job: Job, w: World<V>, e: Effect<V>): World<V> {
    match e
    case Nothing => w
    case Put(SourceSide, v) => Store(w, run.source, job.name, run.canon(run.source, v))
    case Put(TargetSide, v) => Store(w, job.target, job.name, run.canon(job.target, v))
    case ExecUpdate(obj) => w.(table := w.table.(rows := Updated(w.table.rows, run.KeyOf(job), obj)))
    case ExecInsert(obj) =>
      match Inserted(w.table.rows, w.table.nextId, run.KeyOf(job), obj) {
        case Some(rows) => w.(table := Table(rows, w.table.nextId + 1))
        case None => w
      }
  }
}
