/** The bounded worker pool of sync/engine.go: one goroutine per job, a semaphore channel, a WaitGroup,
    a buffered result channel, a closer goroutine and the collecting main goroutine, as a machine whose
    steps interleave in any order. */
module Pool {
  import opened Prelude
  import opened Jobs
  import opened Locality
  import opened NestedLoop
  import opened Counting

  /** What the executor is started with.  `workers` is at least 1 (sync/engine.go:96-99). */
  datatype Setup<!V> = Setup(run: Run<V>, jobs: seq<Job>, workers: nat, w0: World<V>)

  /** Where the goroutine of a job stands.  At `Working(Finished(ok))` its next step is `results <- ok`;
      the deferred calls then run last in, first out: release the semaphore, then `wg.Done()`. */
  datatype Phase<V> =
    | Unborn
    | Acquiring
    | Working(pc: Pc<V>)
    | Releasing(ok: bool)
    | Signalling(ok: bool)
    | Gone(ok: bool)

  datatype Main = Spawning(next: nat) | Collecting | Leaving | Returned

  datatype Closer = Absent | Waiting | Closing | Ended

  datatype State<V> = State(
    phases: seq<Phase<V>>,
    sem: nat,                  // tokens in the semaphore channel
    semClosed: bool,
    wg: int,
    results: seq<bool>,        // what is buffered in the result channel
    resultsClosed: bool,
    main: Main,
    closer: Closer,
    success: nat,
    failure: nat,
    world: World<V>)

  datatype Action =
    | Spawn                    // wg.Add(1); go func
    | SpawnCloser
    | Acquire(j: nat)          // semaphore <- struct{}{}
    | Work(j: nat)             // one step of the job itself
    | Send(j: nat)             // results <- ok
    | Release(j: nat)          // <-semaphore
    | Signal(j: nat)           // wg.Done()
    | WaitOver                 // wg.Wait() returns
    | CloseResults
    | Receive                  // for result := range results
    | LeaveLoop                // ... which ends on the closed, empty channel
    | CloseSemaphore           // the deferred close

  function Init<V>(u: Setup<V>): State<V> {
    State(seq(|u.jobs|, _ => Unborn), 0, false, 0, [], false, Spawning(0), Absent, 0, 0, u.w0)
  }

  /** Can the goroutine make this step now?  A send blocks on a full channel, but not on a closed one:
      there it panics. */
  predicate Enabled<V>(u: Setup<V>, s: State<V>, a: Action)
    requires |s.phases| == |u.jobs|
  {
    match a
    case Spawn => s.main.Spawning? && s.main.next < |u.jobs|
    case SpawnCloser => s.main.Spawning? && s.main.next >= |u.jobs|
    case Acquire(j) => j < |s.phases| && s.phases[j].Acquiring? && (s.sem < u.workers || s.semClosed)
    case Work(j) => j < |s.phases| && s.phases[j].Working? && !s.phases[j].pc.Finished?
    case Send(j) => j < |s.phases| && AtSend(s.phases[j]) && (|s.results| < |u.jobs| || s.resultsClosed)
    case Release(j) => j < |s.phases| && s.phases[j].Releasing? && (s.sem > 0 || s.semClosed)
    case Signal(j) => j < |s.phases| && s.phases[j].Signalling?
    case WaitOver => s.closer == Waiting && s.wg == 0
    case CloseResults => s.closer == Closing
    case Receive => s.main == Collecting && s.results != []
    case LeaveLoop => s.main == Collecting && s.results == [] && s.resultsClosed
    case CloseSemaphore => s.main == Leaving
  }

  predicate AtSend<V>(p: Phase<V>) { p.Working? && p.pc.Finished? }

  /** Would the step panic: a send on a closed channel, a second close, a negative WaitGroup counter? */
  predicate Panics<V>(s: State<V>, a: Action) {
    match a
    case Acquire(_) => s.semClosed
    case Send(_) => s.resultsClosed
    case Signal(_) => s.wg <= 0
    case CloseResults => s.resultsClosed
    case CloseSemaphore => s.semClosed
    case _ => false
  }

  function Apply<V>(u: Setup<V>, s: State<V>, a: Action): State<V>
    requires |s.phases| == |u.jobs| && Enabled(u, s, a)
  {
    match a
    case Spawn =>
      s.(wg := s.wg + 1, main := Spawning(s.main.next + 1),
         phases := if s.main.next < |s.phases| then s.phases[s.main.next := Acquiring] else s.phases)
    case SpawnCloser => s.(closer := Waiting, main := Collecting)
    case Acquire(j) =>
      s.(sem := s.sem + 1, phases := s.phases[j := Working(Start(u.run, HasTarget(s.world, u.jobs[j])))])
    case Work(j) =>
      var (pc, e) := Next(u.run, u.jobs[j], s.phases[j].pc, CellOf(u.run, s.world, u.jobs[j]));
      s.(phases := s.phases[j := Working(pc)], world := OnWorld(u.run, u.jobs[j], s.world, e))
    case Send(j) =>
      s.(results := s.results + [s.phases[j].pc.ok], phases := s.phases[j := Releasing(s.phases[j].pc.ok)])
    case Release(j) =>
      s.(sem := if s.sem > 0 then s.sem - 1 else 0, phases := s.phases[j := Signalling(s.phases[j].ok)])
    case Signal(j) => s.(wg := s.wg - 1, phases := s.phases[j := Gone(s.phases[j].ok)])
    case WaitOver => s.(closer := Closing)
    case CloseResults => s.(closer := Ended, resultsClosed := true)
    case Receive =>
      if s.results[0] then s.(results := s.results[1..], success := s.success + 1)
      else s.(results := s.results[1..], failure := s.failure + 1)
    case LeaveLoop => s.(main := Leaving)
    case CloseSemaphore => s.(main := Returned, semClosed := true)
  }

  /** The state a schedule leads to; None when it asks for a step that is blocked or panics. */
  function Exec<V>(u: Setup<V>, schedule: seq<Action>): (r: Option<State<V>>)
    ensures r.Some? ==> |r.value.phases| == |u.jobs|
  {
    if schedule == [] then Some(Init(u))
    else
      var last := schedule[|schedule| - 1];
      match Exec(u, schedule[..|schedule| - 1])
      case None => None
      case Some(s) =>
        if Enabled(u, s, last) && !Panics(s, last) then Some(Apply(u, s, last)) else None
  }

  // ---------------------------------------------------------------- what holds in every reachable state

  function Holds<V>(p: Phase<V>): nat { if p.Working? || p.Releasing? then 1 else 0 }
  function Pends<V>(p: Phase<V>): nat { if p.Unborn? || p.Gone? then 0 else 1 }
  function Sent<V>(p: Phase<V>): nat { if p.Releasing? || p.Signalling? || p.Gone? then 1 else 0 }
  function SentOk<V>(p: Phase<V>): nat {
    if (p.Releasing? || p.Signalling? || p.Gone?) && p.ok then 1 else 0
  }
  function One(b: bool): nat { if b then 1 else 0 }

  /** The channels and counters agree with where the goroutines stand. */
  ghost predicate Protocol<V>(u: Setup<V>, s: State<V>) {
    && |s.phases| == |u.jobs|
    && (s.main.Spawning? ==> s.main.next <= |u.jobs|)
    && (forall i | 0 <= i < |s.phases| :: s.phases[i].Unborn? <==> s.main.Spawning? && s.main.next <= i)
    && s.sem == Sum(s.phases, Holds) && s.sem <= u.workers
    && s.wg == Sum(s.phases, Pends)
    && s.success + s.failure + |s.results| == Sum(s.phases, Sent)
    && s.success + Sum(s.results, One) == Sum(s.phases, SentOk)
    && (s.closer == Absent <==> s.main.Spawning?)
    && (s.closer == Closing || s.closer == Ended ==> forall i | 0 <= i < |s.phases| :: s.phases[i].Gone?)
    && (s.resultsClosed <==> s.closer == Ended)
    && (s.main == Leaving || s.main == Returned ==> s.resultsClosed && s.results == [])
    && (s.semClosed <==> s.main == Returned)
  }

  /** Every job is on its way to the fate it would meet alone; one that has not begun would still meet it. */
  ghost predicate OnCourse<V>(u: Setup<V>, s: State<V>, i: nat)
    requires i < |u.jobs| && i < |s.phases|
  {
    var now := CellOf(u.run, s.world, u.jobs[i]);
    var fate := Fate(u.run, u.w0, u.jobs[i]);
    match s.phases[i]
    case Unborn => Outcomes(u.run, HasTarget(u.w0, u.jobs[i]), u.jobs[i], now) == fate
    case Acquiring => Outcomes(u.run, HasTarget(u.w0, u.jobs[i]), u.jobs[i], now) == fate
    case Working(pc) =>
      && Possible(u.run, pc, HasTarget(u.w0, u.jobs[i]))
      && Finish(u.run, u.jobs[i], pc, now) == fate
    case Releasing(ok) => (ok, now) == fate
    case Signalling(ok) => (ok, now) == fate
    case Gone(ok) => (ok, now) == fate
  }

  /** What needs no assumption on the jobs: the frame, and no unidirectional job at a program point that
      writes the source. */
  ghost predicate Framing<V>(u: Setup<V>, s: State<V>) {
    && |s.phases| == |u.jobs|
    && Framed(u.run, u.jobs, u.w0, s.world)
    && forall i | 0 <= i < |s.phases| :: s.phases[i].Working? ==> Legal(u.run, s.phases[i].pc)
  }

  ghost predicate Data<V>(u: Setup<V>, s: State<V>) {
    && Framing(u, s)
    && forall i | 0 <= i < |u.jobs| :: OnCourse(u, s, i)
  }

  lemma InitProtocol<V>(u: Setup<V>)
    ensures Protocol(u, Init(u))
  {
    var ps := Init(u).phases;
    SumZero(ps, Holds);
    SumZero(ps, Pends);
    SumZero(ps, Sent);
    SumZero(ps, SentOk);
  }

  /** What changing one phase does to the four counts. */
  lemma Counts<V>(ps: seq<Phase<V>>, j: nat, p: Phase<V>)
    requires j < |ps|
    ensures Sum(ps[j := p], Holds) == Sum(ps, Holds) - Holds(ps[j]) + Holds(p)
    ensures Sum(ps[j := p], Pends) == Sum(ps, Pends) - Pends(ps[j]) + Pends(p)
    ensures Sum(ps[j := p], Sent) == Sum(ps, Sent) - Sent(ps[j]) + Sent(p)
    ensures Sum(ps[j := p], SentOk) == Sum(ps, SentOk) - SentOk(ps[j]) + SentOk(p)
    ensures Sum(ps, Holds) >= Holds(ps[j]) && Sum(ps, Pends) >= Pends(ps[j])
  {
    SumUpdate(ps, Holds, j, p);
    SumUpdate(ps, Pends, j, p);
    SumUpdate(ps, Sent, j, p);
    SumUpdate(ps, SentOk, j, p);
  }

  lemma AcquireStep<V>(u: Setup<V>, s: State<V>, j: nat)
    requires Protocol(u, s) && Enabled(u, s, Acquire(j)) && !Panics(s, Acquire(j))
    ensures Protocol(u, Apply(u, s, Acquire(j)))
  {
    Counts(s.phases, j, Working(Start(u.run, HasTarget(s.world, u.jobs[j]))));
  }

  lemma WorkStep<V>(u: Setup<V>, s: State<V>, j: nat)
    requires Protocol(u, s) && Enabled(u, s, Work(j))
    ensures Protocol(u, Apply(u, s, Work(j)))
  {
    Counts(s.phases, j, Working(Next(u.run, u.jobs[j], s.phases[j].pc, CellOf(u.run, s.world, u.jobs[j])).0));
  }

  lemma SendStep<V>(u: Setup<V>, s: State<V>, j: nat)
    requires Protocol(u, s) && Enabled(u, s, Send(j)) && !Panics(s, Send(j))
    ensures Protocol(u, Apply(u, s, Send(j)))
  {
    var ok := s.phases[j].pc.ok;
    Counts(s.phases, j, Releasing(ok));
    SumSnoc(s.results, One, ok);
  }

  lemma ReleaseStep<V>(u: Setup<V>, s: State<V>, j: nat)
    requires Protocol(u, s) && Enabled(u, s, Release(j))
    ensures Protocol(u, Apply(u, s, Release(j)))
  {
    Counts(s.phases, j, Signalling(s.phases[j].ok));
  }

  lemma SignalStep<V>(u: Setup<V>, s: State<V>, j: nat)
    requires Protocol(u, s) && Enabled(u, s, Signal(j)) && !Panics(s, Signal(j))
    ensures Protocol(u, Apply(u, s, Signal(j)))
  {
    Counts(s.phases, j, Gone(s.phases[j].ok));
  }

  lemma SpawnStep<V>(u: Setup<V>, s: State<V>)
    requires Protocol(u, s) && Enabled(u, s, Spawn)
    ensures Protocol(u, Apply(u, s, Spawn))
  {
    Counts(s.phases, s.main.next, Acquiring);
  }

  lemma ReceiveStep<V>(u: Setup<V>, s: State<V>)
    requires Protocol(u, s) && Enabled(u, s, Receive)
    ensures Protocol(u, Apply(u, s, Receive))
  {
    SumCons(s.results, One);
  }

  lemma WaitOverStep<V>(u: Setup<V>, s: State<V>)
    requires Protocol(u, s) && Enabled(u, s, WaitOver)
    ensures Protocol(u, Apply(u, s, WaitOver))
  {
    SumZero(s.phases, Pends);
  }

  lemma ClosingStep<V>(u: Setup<V>, s: State<V>, a: Action)
    requires a == SpawnCloser || a == CloseResults || a == LeaveLoop || a == CloseSemaphore
    requires Protocol(u, s) && Enabled(u, s, a)
    ensures Protocol(u, Apply(u, s, a))
  {}

  lemma ProtocolStep<V>(u: Setup<V>, s: State<V>, a: Action)
    requires Protocol(u, s) && Enabled(u, s, a) && !Panics(s, a)
    ensures Protocol(u, Apply(u, s, a))
  {
    match a
    case Spawn => SpawnStep(u, s);
    case Receive => ReceiveStep(u, s);
    case WaitOver => WaitOverStep(u, s);
    case Acquire(j) => AcquireStep(u, s, j);
    case Work(j) => WorkStep(u, s, j);
    case Send(j) => SendStep(u, s, j);
    case Release(j) => ReleaseStep(u, s, j);
    case Signal(j) => SignalStep(u, s, j);
    case _ => ClosingStep(u, s, a);
  }

  /** A step of a job moves it along its course; the other goroutines stay on theirs, those of other jobs
      because they do not see it, those of the same job because it only takes them part of the way. */
  lemma WorkData<V>(u: Setup<V>, s: State<V>, j: nat)
    requires Ready(u.run, u.jobs, u.w0) && Data(u, s) && Enabled(u, s, Work(j))
    ensures forall i | 0 <= i < |u.jobs| :: OnCourse(u, Apply(u, s, Work(j)), i)
  {
    var s' := Apply(u, s, Work(j));
    var job, pc, c := u.jobs[j], s.phases[j].pc, CellOf(u.run, s.world, u.jobs[j]);
    OwnData(u, s, j);
    forall i | 0 <= i < |u.jobs| && i != j ensures OnCourse(u, s', i) {
      assert OnCourse(u, s, i);
      if u.jobs[i] == job {
        TwinData(u, s, j, i);
      } else {
        OtherCell(u.run, u.jobs, job, u.jobs[i], s.world, Next(u.run, job, pc, c).1);
      }
    }
  }

  lemma OwnData<V>(u: Setup<V>, s: State<V>, j: nat)
    requires Ready(u.run, u.jobs, u.w0) && Data(u, s) && Enabled(u, s, Work(j))
    ensures OnCourse(u, Apply(u, s, Work(j)), j)
    ensures CellOf(u.run, Apply(u, s, Work(j)).world, u.jobs[j]) ==
            OnCell(u.run, u.jobs[j], CellOf(u.run, s.world, u.jobs[j]),
                   Next(u.run, u.jobs[j], s.phases[j].pc, CellOf(u.run, s.world, u.jobs[j])).1)
    ensures Legal(u.run, s.phases[j].pc) && HasTarget(u.w0, u.jobs[j])
  {
    var job, pc, c := u.jobs[j], s.phases[j].pc, CellOf(u.run, s.world, u.jobs[j]);
    var e := Next(u.run, job, pc, c).1;
    assert OnCourse(u, s, j);
    RankDecreases(u.run, job, pc, c);
    LegalNext(u.run, job, pc, c);
    OwnCell(u.run, job, s.world, e);
  }

  lemma TwinData<V>(u: Setup<V>, s: State<V>, j: nat, i: nat)
    requires Ready(u.run, u.jobs, u.w0) && Data(u, s) && Enabled(u, s, Work(j))
    requires i < |u.jobs| && i != j && u.jobs[i] == u.jobs[j]
    ensures OnCourse(u, Apply(u, s, Work(j)), i)
  {
    var job, pc, c := u.jobs[j], s.phases[j].pc, CellOf(u.run, s.world, u.jobs[j]);
    var c' := OnCell(u.run, job, c, Next(u.run, job, pc, c).1);
    OwnData(u, s, j);
    assert OnCourse(u, s, j) && OnCourse(u, s, i);
    Resolver.StepMoves(u.run, job, pc, c);
    match s.phases[i]
    case Unborn => Resolver.FinishMoves(u.run, job, Start(u.run, HasTarget(u.w0, job)), c, c');
    case Acquiring => Resolver.FinishMoves(u.run, job, Start(u.run, HasTarget(u.w0, job)), c, c');
    case Working(p) => Resolver.FinishMoves(u.run, job, p, c, c');
    case _ =>
  }

  /** Every other step leaves the world alone. */
  lemma IdleData<V>(u: Setup<V>, s: State<V>, a: Action, i: nat)
    requires |s.phases| == |u.jobs| && i < |u.jobs| && OnCourse(u, s, i) && Enabled(u, s, a) && !a.Work?
    requires NextUnborn(s, i) && HasTarget(s.world, u.jobs[i]) == HasTarget(u.w0, u.jobs[i])
    requires u.run.kind == Bidirectional ==> HasTarget(u.w0, u.jobs[i])
    ensures Apply(u, s, a).world == s.world && OnCourse(u, Apply(u, s, a), i)
  {
    if a == Acquire(i) {
      StartsOnCourse(u, s, i);
    }
  }

  lemma StartsOnCourse<V>(u: Setup<V>, s: State<V>, i: nat)
    requires |s.phases| == |u.jobs| && i < |u.jobs| && OnCourse(u, s, i) && Enabled(u, s, Acquire(i))
    requires HasTarget(s.world, u.jobs[i]) == HasTarget(u.w0, u.jobs[i])
    requires u.run.kind == Bidirectional ==> HasTarget(u.w0, u.jobs[i])
    ensures OnCourse(u, Apply(u, s, Acquire(i)), i)
  {
    var pc := Start(u.run, HasTarget(u.w0, u.jobs[i]));
    assert Apply(u, s, Acquire(i)).phases[i] == Working(pc);
    assert Possible(u.run, pc, HasTarget(u.w0, u.jobs[i]));
  }

  /** The goroutine that is started next has not been started. */
  predicate NextUnborn<V>(s: State<V>, i: nat)
    requires i < |s.phases|
  {
    s.main.Spawning? && s.main.next == i ==> s.phases[i].Unborn?
  }

  lemma FramingStep<V>(u: Setup<V>, s: State<V>, a: Action)
    requires Framing(u, s) && Enabled(u, s, a)
    ensures Framing(u, Apply(u, s, a))
  {
    if a.Work? {
      var job, pc, c := u.jobs[a.j], s.phases[a.j].pc, CellOf(u.run, s.world, u.jobs[a.j]);
      LegalNext(u.run, job, pc, c);
      FramedStep(u.run, u.jobs, job, u.w0, s.world, Next(u.run, job, pc, c).1);
    }
  }

  lemma DataStep<V>(u: Setup<V>, s: State<V>, a: Action)
    requires Ready(u.run, u.jobs, u.w0) && Protocol(u, s) && Data(u, s) && Enabled(u, s, a)
    ensures Data(u, Apply(u, s, a))
  {
    FramingStep(u, s, a);
    if a.Work? {
      WorkData(u, s, a.j);
    } else {
      var s' := Apply(u, s, a);
      assert s'.world == s.world;
      forall i | 0 <= i < |u.jobs| ensures OnCourse(u, s', i) {
        IdleData(u, s, a, i);
      }
    }
  }

  /** Every schedule, from the first step on, keeps the protocol and keeps every job on its course. */
  lemma {:induction false} Reachable<V>(u: Setup<V>, schedule: seq<Action>)
    requires Exec(u, schedule).Some?
    ensures Protocol(u, Exec(u, schedule).value)
    ensures u.w0.table.Valid() ==> Framing(u, Exec(u, schedule).value)
    ensures Ready(u.run, u.jobs, u.w0) ==> Data(u, Exec(u, schedule).value)
  {
    if schedule == [] {
      InitProtocol(u);
    } else {
      Reachable(u, schedule[..|schedule| - 1]);
      var s := Exec(u, schedule[..|schedule| - 1]).value;
      ProtocolStep(u, s, schedule[|schedule| - 1]);
      if u.w0.table.Valid() {
        FramingStep(u, s, schedule[|schedule| - 1]);
      }
      if Ready(u.run, u.jobs, u.w0) {
        DataStep(u, s, schedule[|schedule| - 1]);
      }
    }
  }

  /** Nothing that can happen next panics. */
  lemma NothingPanics<V>(u: Setup<V>, s: State<V>, a: Action)
    requires Protocol(u, s) && Enabled(u, s, a)
    ensures !Panics(s, a)
  {
    match a
    case Signal(j) => Counts(s.phases, j, s.phases[j]);
    case Acquire(j) => assert !s.phases[j].Gone?;
    case Send(j) => assert !s.phases[j].Gone?;
    case _ =>
  }

  /** No send of a result, no release and no `wg.Done()` ever has to wait. */
  lemma NothingWaits<V>(u: Setup<V>, s: State<V>, j: nat)
    requires Protocol(u, s) && j < |s.phases|
    ensures AtSend(s.phases[j]) ==> |s.results| < |u.jobs|
    ensures s.phases[j].Releasing? ==> s.sem > 0
  {
    Counts(s.phases, j, s.phases[j]);
    if AtSend(s.phases[j]) {
      SumFull(s.phases, Sent);
      assert Sent(s.phases[j]) == 0;
    }
  }

  /** At most `workers` jobs hold the semaphore; nothing that can happen next panics; no send of a
      result, no release and no `wg.Done()` has to wait; the result channel is closed only when every
      goroutine has released and signalled, the semaphore only after that. */
  ghost predicate Safe<V>(u: Setup<V>, s: State<V>)
    requires |s.phases| == |u.jobs|
  {
    && Sum(s.phases, Holds) <= u.workers
    && (forall a | Enabled(u, s, a) :: !Panics(s, a))
    && (forall j | 0 <= j < |s.phases| :: Departing(s.phases[j]) ==> Unblocked(u, s, j))
    && (s.resultsClosed ==> s.sem == 0 && s.wg == 0 && forall j | 0 <= j < |s.phases| :: s.phases[j].Gone?)
    && (s.semClosed ==> s.resultsClosed && s.results == [])
  }

  predicate Departing<V>(p: Phase<V>) { AtSend(p) || p.Releasing? || p.Signalling? }

  predicate Unblocked<V>(u: Setup<V>, s: State<V>, j: nat)
    requires |s.phases| == |u.jobs| && j < |s.phases|
  {
    && (AtSend(s.phases[j]) ==> Enabled(u, s, Send(j)))
    && (s.phases[j].Releasing? ==> Enabled(u, s, Release(j)))
    && (s.phases[j].Signalling? ==> Enabled(u, s, Signal(j)))
  }

  lemma ProtocolIsSafe<V>(u: Setup<V>, s: State<V>)
    requires Protocol(u, s)
    ensures Safe(u, s)
  {
    forall a | Enabled(u, s, a) ensures !Panics(s, a) {
      NothingPanics(u, s, a);
    }
    forall j | 0 <= j < |s.phases| ensures Unblocked(u, s, j) {
      NothingWaits(u, s, j);
    }
    if s.resultsClosed {
      SumZero(s.phases, Holds);
      SumZero(s.phases, Pends);
    }
  }

  /** Every reachable state of the pool is safe, whatever the schedule and the number of workers. */
  lemma PoolIsSafe<V>(u: Setup<V>, schedule: seq<Action>)
    requires Exec(u, schedule).Some?
    ensures Safe(u, Exec(u, schedule).value)
  {
    Reachable(u, schedule);
    ProtocolIsSafe(u, Exec(u, schedule).value);
  }

  // ---------------------------------------------------------------- progress and termination

  /** A phase that a goroutine can leave right now. */
  ghost predicate Movable<V>(u: Setup<V>, s: State<V>, j: nat)
    requires |s.phases| == |u.jobs| && j < |s.phases|
  {
    exists a :: && Enabled(u, s, a)
                && (a == Acquire(j) || a == Work(j) || a == Send(j) || a == Release(j) || a == Signal(j))
  }

  /** A goroutine past the semaphore can always move. */
  lemma PastSemaphoreMoves<V>(u: Setup<V>, s: State<V>, j: nat)
    requires Protocol(u, s) && j < |s.phases|
    requires s.phases[j].Working? || s.phases[j].Releasing? || s.phases[j].Signalling?
    ensures Movable(u, s, j)
  {
    NothingWaits(u, s, j);
    match s.phases[j]
    case Working(pc) =>
      if pc.Finished? { assert Enabled(u, s, Send(j)); } else { assert Enabled(u, s, Work(j)); }
    case Releasing(_) => assert Enabled(u, s, Release(j));
    case Signalling(_) => assert Enabled(u, s, Signal(j));
  }

  /** Until the executor has returned, some step can be made: the pool never deadlocks. */
  lemma PoolNeverDeadlocks<V>(u: Setup<V>, schedule: seq<Action>)
    requires u.workers >= 1
    requires Exec(u, schedule).Some? && Exec(u, schedule).value.main != Returned
    ensures exists a :: Enabled(u, Exec(u, schedule).value, a)
  {
    var s := Exec(u, schedule).value;
    Reachable(u, schedule);
    match s.main
    case Spawning(next) => assert Enabled(u, s, Spawn) || Enabled(u, s, SpawnCloser);
    case Leaving => assert Enabled(u, s, CloseSemaphore);
    case Returned =>
    case Collecting => CollectingMoves(u, s);
  }

  lemma CollectingMoves<V>(u: Setup<V>, s: State<V>)
    requires u.workers >= 1 && Protocol(u, s) && s.main == Collecting
    ensures exists a :: Enabled(u, s, a)
  {
    if j :| 0 <= j < |s.phases| && !s.phases[j].Acquiring? && !s.phases[j].Gone? {
      PastSemaphoreMoves(u, s, j);
    } else if j :| 0 <= j < |s.phases| && s.phases[j].Acquiring? {
      SumZero(s.phases, Holds);
      assert Enabled(u, s, Acquire(j));
    } else {
      SumZero(s.phases, Pends);
      match s.closer
      case Waiting => assert Enabled(u, s, WaitOver);
      case Closing => assert Enabled(u, s, CloseResults);
      case Ended => assert Enabled(u, s, Receive) || Enabled(u, s, LeaveLoop);
      case Absent =>
    }
  }

  /** The steps a goroutine still has to make, at most; a sent result is received once more. */
  function PhaseRank<V>(run: Run<V>, p: Phase<V>): nat {
    match p
    case Unborn => 16 + 2 * Left(run, 0)
    case Acquiring => 15 + 2 * Left(run, 0)
    case Working(pc) => 4 + Rank(run, pc)
    case Releasing(_) => 2
    case Signalling(_) => 1
    case Gone(_) => 0
  }

  function MainRank(m: Main): nat {
    match m
    case Spawning(_) => 5
    case Collecting => 2
    case Leaving => 1
    case Returned => 0
  }

  function CloserRank(c: Closer): nat {
    match c
    case Absent => 2
    case Waiting => 2
    case Closing => 1
    case Ended => 0
  }

  function Measure<V>(u: Setup<V>, s: State<V>): nat {
    Sum(s.phases, p => PhaseRank(u.run, p)) + |s.results| + MainRank(s.main) + CloserRank(s.closer)
  }

  lemma WorkDecreases<V>(u: Setup<V>, s: State<V>, j: nat)
    requires |s.phases| == |u.jobs| && Enabled(u, s, Work(j))
    ensures Measure(u, Apply(u, s, Work(j))) < Measure(u, s)
  {
    RankDecreases(u.run, u.jobs[j], s.phases[j].pc, CellOf(u.run, s.world, u.jobs[j]));
    SumUpdate(s.phases, p => PhaseRank(u.run, p), j, Apply(u, s, Work(j)).phases[j]);
  }

  lemma GoroutineDecreases<V>(u: Setup<V>, s: State<V>, a: Action)
    requires a.Acquire? || a.Send? || a.Release? || a.Signal?
    requires |s.phases| == |u.jobs| && Enabled(u, s, a)
    ensures Measure(u, Apply(u, s, a)) < Measure(u, s)
  {
    SumUpdate(s.phases, p => PhaseRank(u.run, p), a.j, Apply(u, s, a).phases[a.j]);
  }

  lemma MeasureDecreases<V>(u: Setup<V>, s: State<V>, a: Action)
    requires Protocol(u, s) && Enabled(u, s, a)
    ensures Measure(u, Apply(u, s, a)) < Measure(u, s)
  {
    match a
    case Spawn => SumUpdate(s.phases, p => PhaseRank(u.run, p), s.main.next, Acquiring);
    case Work(j) => WorkDecreases(u, s, j);
    case Acquire(_) => GoroutineDecreases(u, s, a);
    case Send(_) => GoroutineDecreases(u, s, a);
    case Release(_) => GoroutineDecreases(u, s, a);
    case Signal(_) => GoroutineDecreases(u, s, a);
    case _ =>
  }

  lemma OneMoreStep<V>(u: Setup<V>, schedule: seq<Action>) returns (a: Action)
    requires u.workers >= 1 && Exec(u, schedule).Some? && Exec(u, schedule).value.main != Returned
    ensures Exec(u, schedule + [a]).Some?
    ensures Measure(u, Exec(u, schedule + [a]).value) < Measure(u, Exec(u, schedule).value)
  {
    var s := Exec(u, schedule).value;
    Reachable(u, schedule);
    PoolNeverDeadlocks(u, schedule);
    a :| Enabled(u, s, a);
    NothingPanics(u, s, a);
    MeasureDecreases(u, s, a);
    assert (schedule + [a])[..|schedule|] == schedule;
  }

  /** Every schedule can be extended to a complete one. */
  lemma {:induction false} CanComplete<V>(u: Setup<V>, schedule: seq<Action>) returns (more: seq<Action>)
    requires u.workers >= 1 && Exec(u, schedule).Some?
    ensures Exec(u, schedule + more).Some? && Exec(u, schedule + more).value.main == Returned
    decreases Measure(u, Exec(u, schedule).value)
  {
    var s := Exec(u, schedule).value;
    if s.main == Returned {
      more := [];
      assert schedule + more == schedule;
    } else {
      var a := OneMoreStep(u, schedule);
      var rest := CanComplete(u, schedule + [a]);
      more := [a] + rest;
      Associative(schedule, [a], rest);
    }
  }

  /** Every schedule is finite: its length is bounded before it starts. */
  lemma {:induction false} PoolTerminates<V>(u: Setup<V>, schedule: seq<Action>)
    requires Exec(u, schedule).Some?
    ensures |schedule| + Measure(u, Exec(u, schedule).value) <= Measure(u, Init(u))
  {
    if schedule != [] {
      var front := schedule[..|schedule| - 1];
      PoolTerminates(u, front);
      Reachable(u, front);
      MeasureDecreases(u, Exec(u, front).value, schedule[|schedule| - 1]);
    }
  }
}
