/** What a run without failures has recorded, pair by pair.  Nothing is assumed of the jobs: a pair may be
    listed several times, so goroutines may race for one row, and each may get answers of its own. */
module Recording {
  import opened Prelude
  import opened SyncTable
  import opened Jobs
  import opened Locality
  import opened Counting
  import opened Pool

  predicate CountsAsFailed(row: Option<SyncObject>) { row.Some? && row.value.status == Failed }

  predicate CountsAsSynced(row: Option<SyncObject>) { row.Some? && row.value.status != Failed }

  function RowOf<V>(u: Setup<V>, w: World<V>, job: Job): Option<SyncObject> {
    Content(w.table.rows, u.run.KeyOf(job))
  }

  // ---------------------------------------------------------------- one goroutine

  /** The verdict a goroutine is going to send, once its record decides it. */
  function Verdict<V>(p: Phase<V>): Option<bool> {
    match p
    case Working(Update(_, ok)) => Some(ok)
    case Working(Insert(_, ok)) => Some(ok)
    case Working(Finished(ok)) => Some(ok)
    case Releasing(ok) => Some(ok)
    case Signalling(ok) => Some(ok)
    case Gone(ok) => Some(ok)
    case _ => None
  }

  predicate AtRecord<V>(p: Phase<V>) { p.Working? && (p.pc.Update? || p.pc.Insert?) }

  /** A goroutine on its way to success carries an object that counts as synced; at its INSERT no failed
      row stands in the way; past its record the row counts as synced. */
  predicate Healthy<V>(run: Run<V>, job: Job, p: Phase<V>, row: Option<SyncObject>) {
    Verdict(p) == Some(true) ==>
      && (AtRecord(p) ==> p.pc.obj.status != Failed)
      && (p.Working? && p.pc.Insert? ==> !CountsAsFailed(row))
      && (!AtRecord(p) && run.recordOk(job) ==> CountsAsSynced(row))
  }

  /** A goroutine that is past an accepted record and going to report success has its row. */
  predicate Present<V>(run: Run<V>, job: Job, p: Phase<V>, row: Option<SyncObject>) {
    Verdict(p) == Some(true) && !AtRecord(p) && run.recordOk(job) ==> row.Some?
  }

  /** An INSERT is reached only by a job whose record is accepted. */
  predicate InsertsAllowed<V>(run: Run<V>, job: Job, p: Phase<V>) {
    p.Working? && p.pc.Insert? ==> run.recordOk(job)
  }

  /** One step of the job itself. */
  lemma OwnStep<V>(run: Run<V>, job: Job, pc: Pc<V>, c: Cell<V>)
    requires !pc.Finished? && InsertsAllowed(run, job, Working(pc))
    ensures var (pc', e) := Next(run, job, pc, c);
            && InsertsAllowed(run, job, Working(pc'))
            && (Verdict(Working(pc)).Some? ==> Verdict(Working(pc')) == Verdict(Working(pc)))
            && (Healthy(run, job, Working(pc), c.row) ==> Healthy(run, job, Working(pc'), OnCell(run, job, c, e).row))
            && Present(run, job, Working(pc'), OnCell(run, job, c, e).row)
            && (c.row.Some? ==> OnCell(run, job, c, e).row.Some?)
            && (!run.recordOk(job) ==> OnCell(run, job, c, e).row == c.row)
  {}

  /** A goroutine of the same pair is not harmed by a step of one that is not on its way to failure. */
  lemma OthersStep<V>(run: Run<V>, job: Job, pc: Pc<V>, c: Cell<V>, other: Job, p: Phase<V>)
    requires !pc.Finished? && Healthy(run, job, Working(pc), c.row) && Healthy(run, other, p, c.row)
    requires Verdict(Working(pc)) != Some(false)
    ensures Healthy(run, other, p, OnCell(run, job, c, Next(run, job, pc, c).1).row)
  {}

  // ---------------------------------------------------------------- all goroutines of a pair

  ghost predicate Failing<V>(u: Setup<V>, s: State<V>, job: Job)
    requires |s.phases| == |u.jobs|
  {
    exists i | 0 <= i < |u.jobs| :: SamePair(u.jobs[i], job) && Verdict(s.phases[i]) == Some(false)
  }

  /** No goroutine of the pair has its record accepted. */
  ghost predicate AllRefused<V>(u: Setup<V>, job: Job) {
    forall j | j in u.jobs && SamePair(j, job) :: !u.run.recordOk(j)
  }

  /** Unless one of them is on its way to failure, all goroutines of the pair are healthy; and if all their
      records are refused, they have not touched the row. */
  ghost predicate Recorded<V>(u: Setup<V>, s: State<V>, job: Job) {
    && |s.phases| == |u.jobs|
    && (forall i | 0 <= i < |u.jobs| && SamePair(u.jobs[i], job) :: InsertsAllowed(u.run, u.jobs[i], s.phases[i]))
    && (|| Failing(u, s, job)
        || forall i | 0 <= i < |u.jobs| && SamePair(u.jobs[i], job) ::
             Healthy(u.run, u.jobs[i], s.phases[i], RowOf(u, s.world, job)))
    && (forall i | 0 <= i < |u.jobs| && SamePair(u.jobs[i], job) ::
          Present(u.run, u.jobs[i], s.phases[i], RowOf(u, s.world, job)))
    && (AllRefused(u, job) ==> RowOf(u, s.world, job) == RowOf(u, u.w0, job))
  }

  /** Steps of other jobs, and all steps that are not of a job itself, leave the row alone. */
  lemma RowUntouched<V>(u: Setup<V>, s: State<V>, a: Action, job: Job)
    requires Framing(u, s) && Enabled(u, s, a) && (a.Work? ==> !SamePair(u.jobs[a.j], job))
    ensures RowOf(u, Apply(u, s, a).world, job) == RowOf(u, s.world, job)
  {
    if a.Work? {
      var own := u.jobs[a.j];
      var e := Next(u.run, own, s.phases[a.j].pc, CellOf(u.run, s.world, own)).1;
      TableEffect(u.run, own, s.world, e, u.run.KeyOf(job));
    }
  }

  /** Outside the work of the job a goroutine keeps its verdict, its health and its permission. */
  lemma PhaseMoves<V>(u: Setup<V>, s: State<V>, a: Action, i: nat, row: Option<SyncObject>)
    requires |s.phases| == |u.jobs| && i < |u.jobs| && Enabled(u, s, a) && !(a.Work? && a.j == i)
    requires NextUnborn(s, i)
    ensures Kept(u.run, u.jobs[i], s.phases[i], Apply(u, s, a).phases[i], row)
  {}

  /** The goroutine has kept its verdict, its health and its permission. */
  predicate Kept<V>(run: Run<V>, job: Job, p: Phase<V>, p': Phase<V>, row: Option<SyncObject>) {
    && (Verdict(p).Some? ==> Verdict(p') == Verdict(p))
    && (Healthy(run, job, p, row) ==> Healthy(run, job, p', row))
    && (Present(run, job, p, row) ==> Present(run, job, p', row))
    && InsertsAllowed(run, job, p) == InsertsAllowed(run, job, p')
  }

  lemma StepAside<V>(u: Setup<V>, s: State<V>, a: Action, job: Job)
    requires Protocol(u, s) && Framing(u, s) && Recorded(u, s, job) && Enabled(u, s, a)
    requires a.Work? ==> !SamePair(u.jobs[a.j], job)
    ensures Recorded(u, Apply(u, s, a), job)
  {
    var s', row := Apply(u, s, a), RowOf(u, s.world, job);
    RowUntouched(u, s, a, job);
    forall i | 0 <= i < |u.jobs| && SamePair(u.jobs[i], job)
      ensures Kept(u.run, u.jobs[i], s.phases[i], s'.phases[i], row)
    {
      PhaseMoves(u, s, a, i, row);
    }
    KeptRecorded(u, s, s', job);
  }

  lemma KeptRecorded<V>(u: Setup<V>, s: State<V>, s': State<V>, job: Job)
    requires Recorded(u, s, job) && |s'.phases| == |u.jobs| && RowOf(u, s'.world, job) == RowOf(u, s.world, job)
    requires forall i | 0 <= i < |u.jobs| && SamePair(u.jobs[i], job) ::
               Kept(u.run, u.jobs[i], s.phases[i], s'.phases[i], RowOf(u, s.world, job))
    ensures Recorded(u, s', job)
  {
    if Failing(u, s, job) {
      var i :| 0 <= i < |u.jobs| && SamePair(u.jobs[i], job) && Verdict(s.phases[i]) == Some(false);
      assert Verdict(s'.phases[i]) == Some(false);
    }
  }

  lemma StepOfPair<V>(u: Setup<V>, s: State<V>, j: nat, job: Job)
    requires Framing(u, s) && j < |u.jobs| && Recorded(u, s, job) && Enabled(u, s, Work(j))
    requires SamePair(u.jobs[j], job)
    ensures Recorded(u, Apply(u, s, Work(j)), job)
  {
    var own, s' := u.jobs[j], Apply(u, s, Work(j));
    var pc, c := s.phases[j].pc, CellOf(u.run, s.world, u.jobs[j]);
    var (pc', e) := Next(u.run, own, pc, c);
    var row' := OnCell(u.run, own, c, e).row;
    OwnStep(u.run, own, pc, c);
    TableEffect(u.run, own, s.world, e, u.run.KeyOf(own));
    assert RowOf(u, s'.world, job) == row' && s'.phases[j] == Working(pc');
    if !Failing(u, s, job) {
      forall i | 0 <= i < |u.jobs| && SamePair(u.jobs[i], job)
        ensures Healthy(u.run, u.jobs[i], s'.phases[i], row')
      {
        if i != j {
          OthersStep(u.run, own, pc, c, u.jobs[i], s.phases[i]);
        }
      }
    }
    PairRecorded(u, s, s', j, job);
  }

  lemma PairRecorded<V>(u: Setup<V>, s: State<V>, s': State<V>, j: nat, job: Job)
    requires Recorded(u, s, job) && j < |u.jobs| && SamePair(u.jobs[j], job) && |s'.phases| == |u.jobs|
    requires forall i | 0 <= i < |u.jobs| && i != j :: s'.phases[i] == s.phases[i]
    requires Verdict(s.phases[j]).Some? ==> Verdict(s'.phases[j]) == Verdict(s.phases[j])
    requires InsertsAllowed(u.run, u.jobs[j], s'.phases[j])
    requires Present(u.run, u.jobs[j], s'.phases[j], RowOf(u, s'.world, job))
    requires RowOf(u, s.world, job).Some? ==> RowOf(u, s'.world, job).Some?
    requires !u.run.recordOk(u.jobs[j]) ==> RowOf(u, s'.world, job) == RowOf(u, s.world, job)
    requires Failing(u, s, job) || forall i | 0 <= i < |u.jobs| && SamePair(u.jobs[i], job) ::
               Healthy(u.run, u.jobs[i], s'.phases[i], RowOf(u, s'.world, job))
    ensures Recorded(u, s', job)
  {
    if Failing(u, s, job) {
      var i :| 0 <= i < |u.jobs| && SamePair(u.jobs[i], job) && Verdict(s.phases[i]) == Some(false);
      assert Verdict(s'.phases[i]) == Some(false);
    }
    assert u.jobs[j] in u.jobs;
  }

  lemma {:induction false} RecordedAlways<V>(u: Setup<V>, schedule: seq<Action>, job: Job)
    requires u.w0.table.Valid() && Exec(u, schedule).Some?
    ensures Recorded(u, Exec(u, schedule).value, job)
  {
    if schedule != [] {
      var front, a := schedule[..|schedule| - 1], schedule[|schedule| - 1];
      var s := Exec(u, front).value;
      RecordedAlways(u, front, job);
      Reachable(u, front);
      if a.Work? && SamePair(u.jobs[a.j], job) {
        StepOfPair(u, s, a.j, job);
      } else {
        StepAside(u, s, a, job);
      }
    }
  }

  // ---------------------------------------------------------------- complete runs

  /** At the end every goroutine is gone, and the counts are the counts of what they sent. */
  lemma Totals<V>(u: Setup<V>, schedule: seq<Action>)
    requires Exec(u, schedule).Some? && Exec(u, schedule).value.main == Returned
    ensures var s := Exec(u, schedule).value;
            && s.success + s.failure == |u.jobs| == |s.phases|
            && (forall i | 0 <= i < |s.phases| :: s.phases[i].Gone?)
            && (s.failure == 0 <==> forall i | 0 <= i < |s.phases| :: s.phases[i] == Gone(true))
            && (s.success == 0 <==> forall i | 0 <= i < |s.phases| :: s.phases[i] == Gone(false))
  {
    var s := Exec(u, schedule).value;
    Reachable(u, schedule);
    SumFull(s.phases, Sent);
    SumFull(s.phases, SentOk);
    SumZero(s.phases, SentOk);
    assert forall i | 0 <= i < |s.phases| :: SentOk(s.phases[i]) == if s.phases[i] == Gone(true) then 1 else 0;
  }
}
