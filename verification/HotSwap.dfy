/** The configuration reload (the `reloadConfig` closure of main.go): a started runner is swapped in for the
    running one.  The application object comes first, then the same reload step by step, with any number of
    callers contending for the mutex. */
module HotSwap {
  import opened Prelude
  import opened Counting
  import R = Runner

  /** What the API handler has: the configuration and the runner it talks to. */
  datatype View = View(cfg: R.Config, runner: R.State)

  /** How the parts of one reload that are outside this model come out. */
  datatype Outcome = LoadFails | EngineFails | Loaded(cfg: R.Config)

  predicate Starts(parses: R.Parses, cfg: R.Config) { R.Started(parses, R.FRESH, cfg.syncs).1.None? }

  /** What `Start` makes of a new runner, in the terms the steps need. */
  lemma FreshStart(parses: R.Parses, cfg: R.Config)
    ensures var r := R.Started(parses, R.FRESH, cfg.syncs).0;
            r.running == r.ticking == Starts(parses, cfg)
  {
    R.StartMeaning(parses, cfg.syncs);
  }

  /** Every enabled sync with a schedule has one that cron accepts. */
  ghost predicate AllParse(parses: R.Parses, cfg: R.Config) {
    forall s | s in cfg.syncs && s.enabled != Some(false) && s.schedule != "" :: parses(s.schedule)
  }

  /** The runner runs, with the enabled syncs that have a schedule. */
  ghost predicate Scheduled(r: R.State, cfg: R.Config) {
    && r.running && r.ticking
    && forall s :: s in r.entries <==> s in cfg.syncs && s.enabled != Some(false) && s.schedule != ""
  }

  lemma StartSays(parses: R.Parses, cfg: R.Config)
    ensures Starts(parses, cfg) <==> AllParse(parses, cfg)
    ensures Starts(parses, cfg) ==> Scheduled(R.Started(parses, R.FRESH, cfg.syncs).0, cfg)
  {
    R.StartMeaning(parses, cfg.syncs);
    assert forall s :: s in R.Planned(cfg.syncs) <==>
                       s in cfg.syncs && s.enabled != Some(false) && s.schedule != "";
  }

  /** The configuration a reload puts in place, if it gets that far. */
  function Commits(parses: R.Parses, o: Outcome): Option<R.Config> {
    if o.Loaded? && Starts(parses, o.cfg) then Some(o.cfg) else None
  }

  /** What the handler sees after a reload: all of the new configuration, or nothing new. */
  function Reloaded(parses: R.Parses, v: View, committed: Option<R.Config>): View {
    match committed
    case None => v
    case Some(cfg) => View(cfg, R.Started(parses, R.FRESH, cfg.syncs).0)
  }

  /** What the handler sees at start-up; the runner is left alone when there is nothing to schedule. */
  function Initial(parses: R.Parses, cfg: R.Config): View {
    View(cfg, if cfg.syncs != [] then R.Started(parses, R.FRESH, cfg.syncs).0 else R.FRESH)
  }

  // ---------------------------------------------------------------- the application object

  class Handler {
    var runner: R.Runner
    var cfg: R.Config

    constructor (runner: R.Runner, cfg: R.Config)
      ensures this.runner == runner && this.cfg == cfg
    {
      this.runner, this.cfg := runner, cfg;
    }

    method SetConfig(cfg: R.Config)
      modifies this`cfg
      ensures this.cfg == cfg
    {
      this.cfg := cfg;
    }

    method SetRunner(runner: R.Runner)
      modifies this`runner
      ensures this.runner == runner
    {
      this.runner := runner;
    }
  }

  class App {
    const parses: R.Parses
    const handler: Handler
    var runner: R.Runner

    ghost predicate Valid()
      reads this, handler, runner
    {
      handler.runner == runner && runner.parses == parses && runner.ticking == runner.running
    }

    ghost function Visible(): View
      reads this, handler, handler.runner
    {
      View(handler.cfg, handler.runner.View())
    }

    /** Start-up, up to the point where the server listens; `failed` is the exit with an error. */
    constructor (parses: R.Parses, cfg: R.Config)
      ensures Valid() && this.parses == parses && fresh(handler) && fresh(runner)
      ensures Visible().cfg == cfg && Visible().runner == R.FRESH
    {
      this.parses := parses;
      var r := new R.Runner(parses);
      runner := r;
      handler := new Handler(r, cfg);
    }

    method StartUp() returns (failed: bool)
      requires Valid() && Visible().runner == R.FRESH
      modifies runner
      ensures Valid() && runner == old(runner)
      ensures failed <==> handler.cfg.syncs != [] && !Starts(parses, handler.cfg)
      ensures Visible() == Initial(parses, old(handler.cfg))
      ensures failed <==> !AllParse(parses, old(handler.cfg))
      ensures handler.cfg == old(handler.cfg)
      ensures handler.cfg.syncs == [] ==> Visible().runner == R.FRESH
      ensures handler.cfg.syncs != [] && !failed ==> Scheduled(Visible().runner, handler.cfg)
    {
      StartSays(parses, handler.cfg);
      if handler.cfg.syncs != [] {
        FreshStart(parses, handler.cfg);
        var err := runner.Start(handler.cfg);
        return err.Some?;
      }
      return false;
    }

    method ReloadConfig(o: Outcome) returns (ok: bool)
      requires Valid()
      modifies this, handler, runner
      ensures Valid()
      ensures ok <==> Commits(parses, o).Some?
      ensures Visible() == Reloaded(parses, old(Visible()), Commits(parses, o))
      ensures ok ==> fresh(runner) && !old(runner).running && !old(runner).ticking
      ensures !ok ==> runner == old(runner) && unchanged(this, handler, runner)
      ensures ok <==> o.Loaded? && AllParse(parses, o.cfg)
      ensures ok ==> handler.cfg == o.cfg && handler.runner == runner && Scheduled(runner.View(), o.cfg)
    {
      if o.LoadFails? || o.EngineFails? {
        return false;
      }
      var cfg := o.cfg;
      FreshStart(parses, cfg);
      StartSays(parses, cfg);
      var newRunner := new R.Runner(parses);
      var err := newRunner.Start(cfg);
      if err.Some? {
        return false;
      }
      runner.Stop();
      runner := newRunner;
      handler.SetConfig(cfg);
      handler.SetRunner(newRunner);
      ok := true;
    }
  }

  // ---------------------------------------------------------------- step by step

  /** Where a caller of the reload stands. */
  datatype Pc =
    | Waiting
    | Loading
    | Building(cfg: R.Config)
    | Making(cfg: R.Config)
    | Starting(cfg: R.Config, made: nat)
    | Stopping(cfg: R.Config, made: nat)
    | Swapping(cfg: R.Config, made: nat)
    | Publishing(cfg: R.Config, made: nat)
    | Handing(cfg: R.Config, made: nat)
    | Done

  /** All runners ever made, the variable `runner` of main.go, the handler's fields, the mutex, and what the
      reloads that have ended put in place. */
  datatype State = State(
    runners: seq<R.State>,
    current: nat,
    handlerRunner: nat,
    handlerCfg: R.Config,
    mutex: Option<nat>,
    callers: seq<Pc>,
    log: seq<Option<R.Config>>)

  datatype Action =
    | Lock(caller: nat)
    | Load(caller: nat, got: Option<R.Config>)
    | BuildEngine(caller: nat, ok: bool)
    | Proceed(caller: nat)

  predicate Enabled(s: State, a: Action) {
    && a.caller < |s.callers|
    && var pc := s.callers[a.caller];
    match a
    case Lock(_) => pc.Waiting? && s.mutex.None?
    case Load(_, _) => pc.Loading?
    case BuildEngine(_, _) => pc.Building?
    case Proceed(_) =>
      match pc
      case Making(_) => true
      case Starting(_, n) => n < |s.runners|
      case Stopping(_, _) => s.current < |s.runners|
      case Swapping(_, _) => true
      case Publishing(_, _) => true
      case Handing(_, _) => true
      case _ => false
  }

  function Goto(s: State, caller: nat, pc: Pc): State
    requires caller < |s.callers|
  {
    s.(callers := s.callers[caller := pc])
  }

  /** The deferred unlock. */
  function Leave(s: State, caller: nat, committed: Option<R.Config>): State
    requires caller < |s.callers|
  {
    Goto(s, caller, Done).(mutex := None, log := s.log + [committed])
  }

  function Apply(parses: R.Parses, s: State, a: Action): State
    requires Enabled(s, a)
  {
    var t := a.caller;
    match a
    case Lock(_) => Goto(s, t, Loading).(mutex := Some(t))
    case Load(_, got) => if got.Some? then Goto(s, t, Building(got.value)) else Leave(s, t, None)
    case BuildEngine(_, ok) => if ok then Goto(s, t, Making(s.callers[t].cfg)) else Leave(s, t, None)
    case Proceed(_) =>
      match s.callers[t]
      case Making(cfg) => Goto(s, t, Starting(cfg, |s.runners|)).(runners := s.runners + [R.FRESH])
      case Starting(cfg, n) =>
        var (r, err) := R.Started(parses, s.runners[n], cfg.syncs);
        var s' := s.(runners := s.runners[n := r]);
        if err.None? then Goto(s', t, Stopping(cfg, n)) else Leave(s', t, None)
      case Stopping(cfg, n) =>
        var r := s.runners[s.current];
        var r' := if r.running then r.(ticking := false, running := false) else r;
        Goto(s.(runners := s.runners[s.current := r']), t, Swapping(cfg, n))
      case Swapping(cfg, n) => Goto(s.(current := n), t, Publishing(cfg, n))
      case Publishing(cfg, n) => Goto(s.(handlerCfg := cfg), t, Handing(cfg, n))
      case Handing(cfg, n) => Leave(s.(handlerRunner := n), t, Some(cfg))
  }

  function Exec(parses: R.Parses, s: State, acts: seq<Action>): Option<State> {
    if acts == [] then Some(s)
    else
      var before := Exec(parses, s, acts[..|acts| - 1]);
      var a := acts[|acts| - 1];
      if before.Some? && Enabled(before.value, a) then Some(Apply(parses, before.value, a)) else None
  }

  /** The server is up: start-up has succeeded and any number of requests may call for a reload. */
  function Up(parses: R.Parses, cfg: R.Config, callers: nat): State {
    State([Initial(parses, cfg).runner], 0, 0, cfg, None, seq(callers, _ => Waiting), [])
  }

  predicate Boots(parses: R.Parses, cfg: R.Config) { cfg.syncs == [] || Starts(parses, cfg) }

  /** What the handler should see: the last reload that put something in place, else start-up. */
  function Settled(parses: R.Parses, initial: R.Config, log: seq<Option<R.Config>>): View {
    if log == [] then Initial(parses, initial)
    else Reloaded(parses, Settled(parses, initial, log[..|log| - 1]), log[|log| - 1])
  }

  function Visible(s: State): View
    requires s.handlerRunner < |s.runners|
  {
    View(s.handlerCfg, s.runners[s.handlerRunner])
  }

  function Running(s: State): set<nat> { set i: nat | i < |s.runners| && s.runners[i].running }

  // ---------------------------------------------------------------- the invariant

  predicate Inside(pc: Pc) { !pc.Waiting? && !pc.Done? }

  ghost predicate Exclusive(s: State) {
    && (s.mutex.Some? ==> s.mutex.value < |s.callers|)
    && forall t | 0 <= t < |s.callers| :: Inside(s.callers[t]) <==> s.mutex == Some(t)
  }

  function Phase(s: State): Pc {
    if s.mutex.Some? && s.mutex.value < |s.callers| then s.callers[s.mutex.value] else Done
  }

  /** Exactly these runners run, and running is ticking. */
  ghost predicate OnlyRunning(s: State, live: set<nat>) {
    forall i | 0 <= i < |s.runners| :: (s.runners[i].running <==> i in live) && (s.runners[i].ticking <==> i in live)
  }

  ghost predicate Phased(parses: R.Parses, v: View, s: State) {
    var alive := if v.runner.running then {s.current} else {};
    && s.current < |s.runners| && s.handlerRunner < |s.runners|
    && match Phase(s)
       case Starting(cfg, n) =>
         && s.handlerRunner == s.current < n == |s.runners| - 1
         && Visible(s) == v && s.runners[n] == R.FRESH && OnlyRunning(s, alive)
       case Stopping(cfg, n) =>
         && s.handlerRunner == s.current < n == |s.runners| - 1
         && Visible(s) == v && Starts(parses, cfg) && s.runners[n] == Reloaded(parses, v, Some(cfg)).runner
         && OnlyRunning(s, alive + {n})
       case Swapping(cfg, n) =>
         && s.handlerRunner == s.current < n == |s.runners| - 1 && s.handlerCfg == v.cfg
         && Starts(parses, cfg) && s.runners[n] == Reloaded(parses, v, Some(cfg)).runner && OnlyRunning(s, {n})
       case Publishing(cfg, n) =>
         && s.handlerRunner < s.current == n && s.handlerCfg == v.cfg
         && Starts(parses, cfg) && s.runners[n] == Reloaded(parses, v, Some(cfg)).runner && OnlyRunning(s, {n})
       case Handing(cfg, n) =>
         && s.handlerRunner < s.current == n && s.handlerCfg == cfg
         && Starts(parses, cfg) && s.runners[n] == Reloaded(parses, v, Some(cfg)).runner && OnlyRunning(s, {n})
       case _ => s.handlerRunner == s.current && Visible(s) == v && OnlyRunning(s, alive)
  }

  ghost predicate Inv(parses: R.Parses, initial: R.Config, s: State) {
    && Exclusive(s)
    && Phased(parses, Settled(parses, initial, s.log), s)
  }

  lemma ExclusiveStep(parses: R.Parses, s: State, a: Action)
    requires Exclusive(s) && Enabled(s, a)
    ensures Exclusive(Apply(parses, s, a))
    ensures var s' := Apply(parses, s, a);
            Phase(s') == if s'.mutex.None? then Done else s'.callers[a.caller]
    ensures !a.Lock? ==> s.mutex == Some(a.caller) && Phase(s) == s.callers[a.caller]
  {
  }

  lemma SettledNext(parses: R.Parses, initial: R.Config, log: seq<Option<R.Config>>, c: Option<R.Config>)
    ensures Settled(parses, initial, log + [c]) == Reloaded(parses, Settled(parses, initial, log), c)
  {
    assert (log + [c])[..|log|] == log;
  }

  lemma InvStep(parses: R.Parses, initial: R.Config, s: State, a: Action)
    requires Inv(parses, initial, s) && Enabled(s, a)
    ensures Inv(parses, initial, Apply(parses, s, a))
  {
    var v := Settled(parses, initial, s.log);
    ExclusiveStep(parses, s, a);
    SettledNext(parses, initial, s.log, None);
    if a.Proceed? && s.callers[a.caller].Handing? {
      SettledNext(parses, initial, s.log, Some(s.callers[a.caller].cfg));
      HandingStep(parses, v, s, a);
    } else {
      if a.Proceed? {
        FreshStart(parses, s.callers[a.caller].cfg);
      }
      PhasedStep(parses, v, s, a);
    }
  }

  /** A step other than the last of a successful reload. */
  lemma PhasedStep(parses: R.Parses, v: View, s: State, a: Action)
    requires Exclusive(s) && Phased(parses, v, s) && Enabled(s, a)
    requires Exclusive(Apply(parses, s, a))
    requires a.Proceed? ==> !s.callers[a.caller].Handing?
    ensures Phased(parses, v, Apply(parses, s, a))
  {
    ExclusiveStep(parses, s, a);
    if a.Proceed? {
      FreshStart(parses, s.callers[a.caller].cfg);
    }
  }

  lemma HandingStep(parses: R.Parses, v: View, s: State, a: Action)
    requires Exclusive(s) && Phased(parses, v, s) && Enabled(s, a)
    requires a.Proceed? && s.callers[a.caller].Handing?
    ensures Phased(parses, Reloaded(parses, v, Some(s.callers[a.caller].cfg)), Apply(parses, s, a))
  {
    ExclusiveStep(parses, s, a);
    FreshStart(parses, s.callers[a.caller].cfg);
  }

  lemma {:induction false} InvAlways(parses: R.Parses, initial: R.Config, callers: nat, acts: seq<Action>)
    requires Boots(parses, initial) && Exec(parses, Up(parses, initial, callers), acts).Some?
    ensures Inv(parses, initial, Exec(parses, Up(parses, initial, callers), acts).value)
  {
    if acts == [] {
      FreshStart(parses, initial);
    } else {
      InvAlways(parses, initial, callers, acts[..|acts| - 1]);
      InvStep(parses, initial, Exec(parses, Up(parses, initial, callers), acts[..|acts| - 1]).value, acts[|acts| - 1]);
    }
  }

  ghost predicate Reachable(parses: R.Parses, initial: R.Config, s: State) {
    exists callers: nat, acts :: Exec(parses, Up(parses, initial, callers), acts) == Some(s)
  }

  // ---------------------------------------------------------------- the theorems

  /** Has a runner ever been started for good: at start-up, or by a reload that has ended. */
  predicate Alive(parses: R.Parses, initial: R.Config, s: State) {
    Settled(parses, initial, s.log).runner.running
  }

  /** In every reachable state: at most one caller is inside; never more than two runners run; once one has
      been started one runs at every step; between reloads exactly one does and it is the handler's; and the
      handler then has the configuration of the last reload that succeeded, with the runner scheduled from it. */
  lemma ReloadIsSafe(parses: R.Parses, initial: R.Config, s: State)
    requires Boots(parses, initial) && Reachable(parses, initial, s)
    ensures forall t, u | 0 <= t < u < |s.callers| :: !(Inside(s.callers[t]) && Inside(s.callers[u]))
    ensures |Running(s)| <= 2
    ensures Alive(parses, initial, s) ==> |Running(s)| >= 1
    ensures s.mutex.None? ==>
              && s.handlerRunner == s.current < |s.runners|
              && Visible(s) == Settled(parses, initial, s.log)
              && Running(s) == (if Alive(parses, initial, s) then {s.current} else {})
              && LastPut(initial, s.log, s.handlerCfg)
              && (if s.handlerCfg.syncs == [] && (forall i | 0 <= i < |s.log| :: s.log[i].None?)
                  then Visible(s).runner == R.FRESH
                  else Scheduled(Visible(s).runner, s.handlerCfg))
  {
    var callers: nat, acts :| Exec(parses, Up(parses, initial, callers), acts) == Some(s);
    InvAlways(parses, initial, callers, acts);
    LogStarts(parses, initial, callers, acts);
    SettledSays(parses, initial, s.log);
    RunningSet(parses, Settled(parses, initial, s.log), s);
  }

  /** The configuration is that of the last reload that put one in place, else the one of the start-up. */
  ghost predicate LastPut(initial: R.Config, log: seq<Option<R.Config>>, cfg: R.Config) {
    && ((forall i | 0 <= i < |log| :: log[i].None?) ==> cfg == initial)
    && forall i | 0 <= i < |log| && log[i].Some? && (forall k | i < k < |log| :: log[k].None?) :: cfg == log[i].value
  }

  /** Only configurations whose runner starts are put in place. */
  lemma {:induction false} LogStarts(parses: R.Parses, initial: R.Config, callers: nat, acts: seq<Action>)
    requires Boots(parses, initial) && Exec(parses, Up(parses, initial, callers), acts).Some?
    ensures var s := Exec(parses, Up(parses, initial, callers), acts).value;
            forall i | 0 <= i < |s.log| && s.log[i].Some? :: Starts(parses, s.log[i].value)
  {
    if acts != [] {
      var s := Exec(parses, Up(parses, initial, callers), acts[..|acts| - 1]).value;
      LogStarts(parses, initial, callers, acts[..|acts| - 1]);
      InvAlways(parses, initial, callers, acts[..|acts| - 1]);
      ExclusiveStep(parses, s, acts[|acts| - 1]);
    }
  }

  lemma {:induction false} SettledSays(parses: R.Parses, initial: R.Config, log: seq<Option<R.Config>>)
    requires Boots(parses, initial) && forall i | 0 <= i < |log| && log[i].Some? :: Starts(parses, log[i].value)
    ensures var v := Settled(parses, initial, log);
            && LastPut(initial, log, v.cfg)
            && if v.cfg.syncs == [] && (forall i | 0 <= i < |log| :: log[i].None?) then v.runner == R.FRESH
               else Scheduled(v.runner, v.cfg)
  {
    if log == [] {
      StartSays(parses, initial);
    } else {
      var front, last := log[..|log| - 1], log[|log| - 1];
      SettledSays(parses, initial, front);
      if last.Some? {
        StartSays(parses, last.value);
      } else {
        SameSettled(initial, front, Settled(parses, initial, log).cfg);
        assert log == front + [last];
      }
    }
  }

  /** A reload that puts nothing in place does not matter. */
  lemma SameSettled(initial: R.Config, log: seq<Option<R.Config>>, cfg: R.Config)
    requires LastPut(initial, log, cfg)
    ensures LastPut(initial, log + [None], cfg)
    ensures (forall i | 0 <= i < |log| :: log[i].None?) <==>
            forall i | 0 <= i < |log + [None]| :: (log + [None])[i].None?
  {
    var l := log + [None];
    assert forall i | 0 <= i < |log| :: l[i] == log[i];
    forall i | 0 <= i < |l| && l[i].Some? && (forall k | i < k < |l| :: l[k].None?) ensures cfg == l[i].value {
      assert log[i].Some?;
    }
  }

  lemma RunningSet(parses: R.Parses, v: View, s: State)
    requires Phased(parses, v, s)
    ensures |Running(s)| <= 2
    ensures v.runner.running ==> |Running(s)| >= 1
    ensures s.mutex.None? ==> Running(s) == if v.runner.running then {s.current} else {}
  {
    var alive: set<nat> := if v.runner.running then {s.current} else {};
    match Phase(s)
    case Stopping(cfg, n) => assert Running(s) == alive + {n};
    case Swapping(cfg, n) => assert Running(s) == {n};
    case Publishing(cfg, n) => assert Running(s) == {n};
    case Handing(cfg, n) => assert Running(s) == {n};
    case _ => assert Running(s) == alive;
  }

  /** A step never takes the last running runner away. */
  lemma StaysUp(parses: R.Parses, initial: R.Config, s: State, a: Action)
    requires Boots(parses, initial) && Reachable(parses, initial, s) && Enabled(s, a) && Running(s) != {}
    ensures Running(Apply(parses, s, a)) != {}
  {
    var callers: nat, acts :| Exec(parses, Up(parses, initial, callers), acts) == Some(s);
    InvAlways(parses, initial, callers, acts);
    ExclusiveStep(parses, s, a);
    var i :| i in Running(s);
    var s' := Apply(parses, s, a);
    var pc := s.callers[a.caller];
    if a.Proceed? && pc.Stopping? {
      FreshStart(parses, pc.cfg);
      assert pc.made in Running(s');
    } else {
      assert i in Running(s');
    }
  }

  /** Nothing that was there has changed: the old runners, the variable, the handler. */
  ghost predicate Untouched(s: State, s': State) {
    && s.runners <= s'.runners
    && s'.current == s.current && s'.handlerRunner == s.handlerRunner && s'.handlerCfg == s.handlerCfg
  }

  predicate BeforeSwap(pc: Pc) { !pc.Stopping? && !pc.Swapping? && !pc.Publishing? && !pc.Handing? }

  /** As long as no reload has ended and the one under way has not reached `runner.Stop()`. */
  lemma {:induction false} UntouchedSoFar(parses: R.Parses, s: State, acts: seq<Action>)
    requires Exclusive(s) && s.mutex.None? && Exec(parses, s, acts).Some?
    ensures var s' := Exec(parses, s, acts).value;
            && Exclusive(s') && |s'.log| >= |s.log|
            && (s'.log == s.log && BeforeSwap(Phase(s')) ==> Untouched(s, s') && NewBeyond(s, s'))
  {
    if acts != [] {
      var before, a := Exec(parses, s, acts[..|acts| - 1]).value, acts[|acts| - 1];
      UntouchedSoFar(parses, s, acts[..|acts| - 1]);
      ExclusiveStep(parses, before, a);
    }
  }

  /** The runner being started is not one of the old ones. */
  predicate NewBeyond(s: State, s': State) { Phase(s').Starting? ==> |s.runners| <= Phase(s').made }

  /** A reload that fails, at whatever point, has changed nothing that can be seen: neither the handler and
      the variable `runner`, nor any runner there was. */
  lemma FailedReloadChangesNothing(parses: R.Parses, s: State, acts: seq<Action>, last: Action)
    requires Exclusive(s) && s.mutex.None? && Exec(parses, s, acts).Some?
    requires var mid := Exec(parses, s, acts).value;
             mid.log == s.log && Enabled(mid, last) && Apply(parses, mid, last).log == s.log + [None]
    ensures Untouched(s, Apply(parses, Exec(parses, s, acts).value, last))
  {
    UntouchedSoFar(parses, s, acts);
    var mid := Exec(parses, s, acts).value;
    ExclusiveStep(parses, mid, last);
    FailingPoints(parses, mid, last);
  }

  /** Only these three steps end a reload without putting anything in place. */
  lemma FailingPoints(parses: R.Parses, s: State, a: Action)
    requires Enabled(s, a) && Apply(parses, s, a).log == s.log + [None]
    ensures var pc, s' := s.callers[a.caller], Apply(parses, s, a);
            && (pc.Loading? || pc.Building? || pc.Starting?)
            && (pc.Starting? ==>
                  s'.runners == s.runners[pc.made := R.Started(parses, s.runners[pc.made], pc.cfg.syncs).0])
            && (!pc.Starting? ==> s'.runners == s.runners)
            && s'.current == s.current && s'.handlerRunner == s.handlerRunner && s'.handlerCfg == s.handlerCfg
  {
    assert Apply(parses, s, a).log[|s.log|] == None;
  }

  // ---------------------------------------------------------------- progress

  function StepsLeft(pc: Pc): nat {
    match pc
    case Waiting => 9
    case Loading => 8
    case Building(_) => 7
    case Making(_) => 6
    case Starting(_, _) => 5
    case Stopping(_, _) => 4
    case Swapping(_, _) => 3
    case Publishing(_, _) => 2
    case Handing(_, _) => 1
    case Done => 0
  }

  function Work(s: State): nat { Sum(s.callers, StepsLeft) }

  lemma NotStuck(s: State, t: nat)
    requires Exclusive(s) && s.current < |s.runners|
    requires Phase(s).Starting? ==> Phase(s).made < |s.runners|
    requires t < |s.callers| && !s.callers[t].Done?
    ensures exists a :: Enabled(s, a)
  {
    var u := if s.mutex.Some? then s.mutex.value else t;
    assert Inside(s.callers[u]) <==> s.mutex == Some(u);
    var pc := s.callers[u];
    assert Enabled(s, if pc.Waiting? then Lock(u)
                      else if pc.Loading? then Load(u, None)
                      else if pc.Building? then BuildEngine(u, false)
                      else Proceed(u));
  }

  lemma StepUsesWork(parses: R.Parses, s: State, a: Action)
    requires Enabled(s, a)
    ensures Work(Apply(parses, s, a)) < Work(s)
  {
    var pc := Apply(parses, s, a).callers[a.caller];
    assert Apply(parses, s, a).callers == s.callers[a.caller := pc];
    SumUpdate(s.callers, StepsLeft, a.caller, pc);
  }

  /** While a caller is not done some step is possible, and every step uses up work: no caller is stuck
      behind the mutex, and `n` calls are over after at most 9 n steps. */
  lemma ReloadsEnd(parses: R.Parses, initial: R.Config, s: State)
    requires Boots(parses, initial) && Reachable(parses, initial, s)
    ensures (exists t :: 0 <= t < |s.callers| && !s.callers[t].Done?) ==> exists a :: Enabled(s, a)
    ensures forall a | Enabled(s, a) :: Work(Apply(parses, s, a)) < Work(s)
  {
    var callers: nat, acts :| Exec(parses, Up(parses, initial, callers), acts) == Some(s);
    InvAlways(parses, initial, callers, acts);
    if t :| 0 <= t < |s.callers| && !s.callers[t].Done? {
      NotStuck(s, t);
    }
    forall a | Enabled(s, a) ensures Work(Apply(parses, s, a)) < Work(s) {
      StepUsesWork(parses, s, a);
    }
  }
}
