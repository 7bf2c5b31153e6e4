/** A pool with one worker, which is the default (sync/engine.go:96-99), is the nested loop in some order of
    its jobs.  Nothing is assumed of the jobs, the answers or the world. */
module Serial {
  import opened Prelude
  import opened Jobs
  import opened Locality
  import opened NestedLoop
  import opened Counting
  import opened Pool
  import opened Recording

  ghost predicate Indices(order: seq<nat>, n: nat) {
    Distinct(order) && forall i | i in order :: i < n
  }

  /** The jobs in this order. */
  ghost function Ordered(jobs: seq<Job>, order: seq<nat>): seq<Job>
    requires Indices(order, |jobs|)
  {
    seq(|order|, k requires 0 <= k < |order| => assert order[k] in order; jobs[order[k]])
  }

  predicate Idle<V>(ps: seq<Phase<V>>) { forall i | 0 <= i < |ps| :: !ps[i].Working? }

  /** The goroutines that have sent their verdicts did so in this order. */
  ghost predicate Queued<V>(ps: seq<Phase<V>>, order: seq<nat>) {
    && Indices(order, |ps|)
    && |order| == Sum(ps, Sent)
    && forall i | 0 <= i < |ps| :: i in order <==> Sent(ps[i]) == 1
  }

  /** The world is what the loop makes of their jobs; a goroutine that works is about to make of it what the
      loop makes of its job next. */
  ghost predicate Looped<V>(u: Setup<V>, s: State<V>, t: Tally<V>) {
    && |s.phases| == |u.jobs|
    && t.success == Sum(s.phases, SentOk)
    && (forall i | 0 <= i < |u.jobs| && s.phases[i].Working? ::
          RunFrom(u.run, u.jobs[i], s.phases[i].pc, s.world) == RunJob(u.run, u.jobs[i], t.world))
    && (Idle(s.phases) ==> s.world == t.world)
  }

  ghost predicate InOrder<V>(u: Setup<V>, s: State<V>, order: seq<nat>) {
    && |s.phases| == |u.jobs| && Queued(s.phases, order)
    && Looped(u, s, Sequential(u.run, Ordered(u.jobs, order), u.w0))
  }

  lemma OneHolds<V>(ps: seq<Phase<V>>, i: nat, j: nat)
    requires i < |ps| && j < |ps| && i != j && Sum(ps, Holds) <= 1 && ps[i].Working?
    ensures !ps[j].Working?
  {
    SumUpdate(ps, Holds, i, Acquiring);
    SumZero(ps[i := Acquiring], Holds);
    assert Holds(ps[i := Acquiring][j]) == 0;
  }

  lemma LoopSnoc<V>(run: Run<V>, jobs: seq<Job>, order: seq<nat>, j: nat, w0: World<V>)
    requires Indices(order, |jobs|) && j < |jobs| && j !in order
    ensures Indices(order + [j], |jobs|)
    ensures var t := Sequential(run, Ordered(jobs, order), w0);
            var (ok, w) := RunJob(run, jobs[j], t.world);
            Sequential(run, Ordered(jobs, order + [j]), w0) ==
            Tally(w, t.success + (if ok then 1 else 0), t.failure + (if ok then 0 else 1))
  {
    var longer := Ordered(jobs, order + [j]);
    assert longer[..|longer| - 1] == Ordered(jobs, order);
  }

  lemma AcquireInOrder<V>(u: Setup<V>, s: State<V>, j: nat, order: seq<nat>)
    requires u.workers <= 1 && Protocol(u, s) && InOrder(u, s, order)
    requires Enabled(u, s, Acquire(j)) && !Panics(s, Acquire(j))
    ensures InOrder(u, Apply(u, s, Acquire(j)), order)
  {
    SumZero(s.phases, Holds);
    assert Idle(s.phases) by {
      assert forall i | 0 <= i < |s.phases| :: Holds(s.phases[i]) == 0;
    }
    Counts(s.phases, j, Working(Start(u.run, HasTarget(s.world, u.jobs[j]))));
  }

  lemma WorkLooped<V>(u: Setup<V>, s: State<V>, j: nat, t: Tally<V>)
    requires u.workers <= 1 && Protocol(u, s) && Looped(u, s, t) && Enabled(u, s, Work(j))
    ensures Looped(u, Apply(u, s, Work(j)), t)
  {
    var s' := Apply(u, s, Work(j));
    Counts(s.phases, j, s'.phases[j]);
    forall i | 0 <= i < |u.jobs| && i != j ensures !s'.phases[i].Working? {
      OneHolds(s.phases, j, i);
    }
    assert s'.phases[j].Working?;
    assert RunFrom(u.run, u.jobs[j], s'.phases[j].pc, s'.world) == RunFrom(u.run, u.jobs[j], s.phases[j].pc, s.world);
  }

  lemma WorkInOrder<V>(u: Setup<V>, s: State<V>, j: nat, order: seq<nat>)
    requires u.workers <= 1 && Protocol(u, s) && InOrder(u, s, order) && Enabled(u, s, Work(j))
    ensures InOrder(u, Apply(u, s, Work(j)), order)
  {
    Counts(s.phases, j, Apply(u, s, Work(j)).phases[j]);
    WorkLooped(u, s, j, Sequential(u.run, Ordered(u.jobs, order), u.w0));
  }

  lemma SendLooped<V>(u: Setup<V>, s: State<V>, j: nat, t: Tally<V>, t': Tally<V>)
    requires u.workers <= 1 && Protocol(u, s) && Looped(u, s, t) && Enabled(u, s, Send(j))
    requires var (ok, w) := RunJob(u.run, u.jobs[j], t.world);
             t' == Tally(w, t.success + (if ok then 1 else 0), t.failure + (if ok then 0 else 1))
    ensures Looped(u, Apply(u, s, Send(j)), t')
  {
    var s' := Apply(u, s, Send(j));
    var ok := s.phases[j].pc.ok;
    assert RunJob(u.run, u.jobs[j], t.world) == (ok, s.world);
    Counts(s.phases, j, Releasing(ok));
    forall i | 0 <= i < |u.jobs| && i != j ensures !s'.phases[i].Working? {
      OneHolds(s.phases, j, i);
    }
  }

  lemma SendInOrder<V>(u: Setup<V>, s: State<V>, j: nat, order: seq<nat>)
    requires u.workers <= 1 && Protocol(u, s) && InOrder(u, s, order) && Enabled(u, s, Send(j))
    ensures j !in order && InOrder(u, Apply(u, s, Send(j)), order + [j])
  {
    var t := Sequential(u.run, Ordered(u.jobs, order), u.w0);
    Counts(s.phases, j, Releasing(s.phases[j].pc.ok));
    LoopSnoc(u.run, u.jobs, order, j, u.w0);
    SendLooped(u, s, j, t, Sequential(u.run, Ordered(u.jobs, order + [j]), u.w0));
  }

  /** A goroutine that neither works nor sends moves on. */
  lemma MoveInOrder<V>(u: Setup<V>, s: State<V>, s': State<V>, j: nat, p: Phase<V>, order: seq<nat>)
    requires InOrder(u, s, order) && j < |s.phases| && s'.phases == s.phases[j := p] && s'.world == s.world
    requires !p.Working? && !s.phases[j].Working?
    requires Sent(p) == Sent(s.phases[j]) && SentOk(p) == SentOk(s.phases[j])
    ensures InOrder(u, s', order)
  {
    Counts(s.phases, j, p);
    assert Idle(s'.phases) ==> Idle(s.phases) by {
      assert forall i | 0 <= i < |s.phases| :: s'.phases[i].Working? == s.phases[i].Working?;
    }
  }

  lemma QuietInOrder<V>(u: Setup<V>, s: State<V>, a: Action, order: seq<nat>)
    requires Protocol(u, s) && InOrder(u, s, order) && Enabled(u, s, a)
    requires !a.Acquire? && !a.Work? && !a.Send?
    ensures InOrder(u, Apply(u, s, a), order)
  {
    var s' := Apply(u, s, a);
    match a
    case Spawn => MoveInOrder(u, s, s', s.main.next, Acquiring, order);
    case Release(j) => MoveInOrder(u, s, s', j, Signalling(s.phases[j].ok), order);
    case Signal(j) => MoveInOrder(u, s, s', j, Gone(s.phases[j].ok), order);
    case _ =>
  }

  lemma {:induction false} AlwaysInOrder<V>(u: Setup<V>, schedule: seq<Action>) returns (order: seq<nat>)
    requires u.workers <= 1 && Exec(u, schedule).Some?
    ensures InOrder(u, Exec(u, schedule).value, order)
  {
    if schedule == [] {
      order := [];
      InitProtocol(u);
      SumZero(Init(u).phases, Sent);
      SumZero(Init(u).phases, SentOk);
      assert Ordered(u.jobs, order) == [];
    } else {
      var front, a := schedule[..|schedule| - 1], schedule[|schedule| - 1];
      var s := Exec(u, front).value;
      order := AlwaysInOrder(u, front);
      Reachable(u, front);
      match a
      case Acquire(j) => AcquireInOrder(u, s, j, order);
      case Work(j) => WorkInOrder(u, s, j, order);
      case Send(j) =>
        SendInOrder(u, s, j, order);
        order := order + [j];
      case _ => QuietInOrder(u, s, a, order);
    }
  }

  /** Every complete run with one worker ends with the very world, ids of rows included, and the counts of the
      loop over its jobs in some order. */
  lemma OneWorkerIsSerial<V>(u: Setup<V>, schedule: seq<Action>) returns (order: seq<nat>)
    requires u.workers == 1 && Exec(u, schedule).Some? && Exec(u, schedule).value.main == Returned
    ensures Indices(order, |u.jobs|) && forall i | 0 <= i < |u.jobs| :: i in order
    ensures var s := Exec(u, schedule).value;
            Tally(s.world, s.success, s.failure) == Sequential(u.run, Ordered(u.jobs, order), u.w0)
  {
    var s := Exec(u, schedule).value;
    order := AlwaysInOrder(u, schedule);
    Reachable(u, schedule);
    Totals(u, schedule);
    SumFull(s.phases, Sent);
    TallyAddsUp(u.run, Ordered(u.jobs, order), u.w0);
    assert s.results == [];
  }
}
