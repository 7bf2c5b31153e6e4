/** The scheduled runner (sync/runner.go): a cron table, an index into it, and a running flag. */
module Runner {
  import opened Prelude

  datatype SyncConfig = SyncConfig(id: string, enabled: Option<bool>, schedule: string) {
    predicate IsEnabled() { enabled.None? || enabled.value }
  }

  datatype Config = Config(vaults: seq<string>, syncs: seq<SyncConfig>)

  /** Does the cron library accept the schedule expression? */
  type Parses = string -> bool

  /** What a runner holds: the entries handed to cron (the id of an entry is its place, counted from 1),
      the entry of each sync, whether cron ticks, and the flag. */
  datatype State = State(entries: seq<SyncConfig>, syncMap: map<string, nat>, ticking: bool, running: bool)

  const FRESH := State([], map[], false, false)

  datatype StartError = AlreadyStarted | BadSchedule(syncId: string)

  predicate Wanted(s: SyncConfig) { s.IsEnabled() && s.schedule != "" }

  /** The syncs that get an entry. */
  function Planned(syncs: seq<SyncConfig>): (r: seq<SyncConfig>)
    ensures forall s :: s in r <==> s in syncs && Wanted(s)
  {
    if syncs == [] then [] else (if Wanted(syncs[0]) then [syncs[0]] else []) + Planned(syncs[1..])
  }

  function Entered(r: State, s: SyncConfig): State {
    r.(entries := r.entries + [s], syncMap := r.syncMap[s.id := |r.entries| + 1])
  }

  /** The rest of `Start` from the head of `syncs` on. */
  function Scheduling(parses: Parses, r: State, syncs: seq<SyncConfig>): (State, Option<StartError>)
    decreases syncs
  {
    if syncs == [] then (r.(ticking := true, running := true), None)
    else if !Wanted(syncs[0]) then Scheduling(parses, r, syncs[1..])
    else if !parses(syncs[0].schedule) then (r, Some(BadSchedule(syncs[0].id)))
    else Scheduling(parses, Entered(r, syncs[0]), syncs[1..])
  }

  function Started(parses: Parses, r: State, syncs: seq<SyncConfig>): (State, Option<StartError>) {
    if r.running then (r, Some(AlreadyStarted)) else Scheduling(parses, r, syncs)
  }

  /** How many of the planned syncs come before the first bad schedule. */
  function GoodPrefix(parses: Parses, planned: seq<SyncConfig>): (n: nat)
    ensures n <= |planned|
    ensures forall i | 0 <= i < n :: parses(planned[i].schedule)
    ensures n < |planned| ==> !parses(planned[n].schedule)
  {
    if planned == [] || !parses(planned[0].schedule) then 0 else 1 + GoodPrefix(parses, planned[1..])
  }

  /** The index leads every id of an entry, and nothing else, to an entry of that id. */
  ghost predicate Indexed(r: State) {
    && (forall id | id in r.syncMap :: 1 <= r.syncMap[id] <= |r.entries| && r.entries[r.syncMap[id] - 1].id == id)
    && (forall s | s in r.entries :: s.id in r.syncMap)
  }

  class Runner {
    const parses: Parses
    var entries: seq<SyncConfig>
    var syncMap: map<string, nat>
    var ticking: bool
    var running: bool

    ghost function View(): State
      reads this
    {
      State(entries, syncMap, ticking, running)
    }

    constructor (parses: Parses)
      ensures this.parses == parses && View() == FRESH
    {
      this.parses := parses;
      entries, syncMap, ticking, running := [], map[], false, false;
    }

    method Start(cfg: Config) returns (err: Option<StartError>)
      modifies this
      ensures (View(), err) == Started(parses, old(View()), cfg.syncs)
      ensures old(entries) <= entries
      ensures forall i | |old(entries)| <= i < |entries| ::
                entries[i] in cfg.syncs && entries[i].enabled != Some(false) && entries[i].schedule != ""
                && parses(entries[i].schedule)
      ensures err.None? ==>
                forall s | s in cfg.syncs && s.enabled != Some(false) && s.schedule != "" :: s in entries
      ensures err == Some(AlreadyStarted) <==> old(running)
      ensures err.None? ==> running && ticking
      ensures err.Some? ==> running == old(running) && ticking == old(ticking)
      ensures err.Some? && err.value.BadSchedule? ==>
                exists s | s in cfg.syncs ::
                  s.id == err.value.syncId && s.enabled != Some(false) && s.schedule != "" && !parses(s.schedule)
    {
      if running {
        return Some(AlreadyStarted);
      }
      for i := 0 to |cfg.syncs|
        invariant Scheduling(parses, View(), cfg.syncs[i..]) == Scheduling(parses, old(View()), cfg.syncs)
        invariant old(entries) <= entries && running == old(running) && ticking == old(ticking)
        invariant forall k | |old(entries)| <= k < |entries| ::
                    entries[k] in cfg.syncs && entries[k].enabled != Some(false) && entries[k].schedule != ""
                    && parses(entries[k].schedule)
        invariant forall k | 0 <= k < i && cfg.syncs[k].enabled != Some(false) && cfg.syncs[k].schedule != "" ::
                    cfg.syncs[k] in entries
      {
        var s := cfg.syncs[i];
        assert cfg.syncs[i..][1..] == cfg.syncs[i + 1..];
        if !s.IsEnabled() {
          continue;
        }
        if s.schedule == "" {
          continue;
        }
        if !parses(s.schedule) {
          return Some(BadSchedule(s.id));
        }
        entries := entries + [s];
        syncMap := syncMap[s.id := |entries|];
      }
      ticking := true;
      running := true;
      err := None;
    }

    method Stop()
      modifies this
      ensures View() == if old(running) then old(View()).(ticking := false, running := false) else old(View())
    {
      if !running {
        return;
      }
      ticking := false;
      running := false;
    }
  }

  // ---------------------------------------------------------------- what `Start` achieves

  lemma EnteredIndexed(r: State, s: SyncConfig)
    requires Indexed(r)
    ensures Indexed(Entered(r, s))
  {
    var e := Entered(r, s);
    assert e.entries[|r.entries|] == s;
    assert forall k | 0 <= k < |r.entries| :: e.entries[k] == r.entries[k];
  }

  lemma {:induction false} SchedulingIndexed(parses: Parses, r: State, syncs: seq<SyncConfig>)
    requires Indexed(r)
    ensures Indexed(Scheduling(parses, r, syncs).0)
    decreases syncs
  {
    if syncs != [] {
      if !Wanted(syncs[0]) {
        SchedulingIndexed(parses, r, syncs[1..]);
      } else if parses(syncs[0].schedule) {
        EnteredIndexed(r, syncs[0]);
        SchedulingIndexed(parses, Entered(r, syncs[0]), syncs[1..]);
      }
    }
  }

  lemma {:induction false} SchedulingMeaning(parses: Parses, r: State, syncs: seq<SyncConfig>)
    ensures Filled(parses, r, Planned(syncs), Scheduling(parses, r, syncs))
    decreases syncs
  {
    if syncs != [] {
      var s, rest := syncs[0], Planned(syncs[1..]);
      if !Wanted(s) {
        SchedulingMeaning(parses, r, syncs[1..]);
        assert Planned(syncs) == rest;
      } else if parses(s.schedule) {
        SchedulingMeaning(parses, Entered(r, s), syncs[1..]);
        FilledFurther(parses, r, s, rest, Scheduling(parses, Entered(r, s), syncs[1..]));
      } else {
        assert ([s] + rest)[..0] == [];
      }
    }
  }

  /** `out` is what a runner `r` becomes by taking the planned syncs up to the first bad schedule. */
  ghost predicate Filled(parses: Parses, r: State, planned: seq<SyncConfig>, out: (State, Option<StartError>)) {
    var n := GoodPrefix(parses, planned);
    && out.0.entries == r.entries + planned[..n]
    && if n == |planned| then out.1.None? && out.0.running && out.0.ticking
       else out.1 == Some(BadSchedule(planned[n].id)) && out.0.running == r.running && out.0.ticking == r.ticking
  }

  lemma FilledFurther(parses: Parses, r: State, s: SyncConfig, rest: seq<SyncConfig>, out: (State, Option<StartError>))
    requires parses(s.schedule) && Filled(parses, Entered(r, s), rest, out)
    ensures Filled(parses, r, [s] + rest, out)
  {
    var n := GoodPrefix(parses, rest);
    PrefixFurther(parses, s, rest);
    assert (r.entries + [s]) + rest[..n] == r.entries + ([s] + rest[..n]);
  }

  lemma PrefixFurther(parses: Parses, s: SyncConfig, rest: seq<SyncConfig>)
    requires parses(s.schedule)
    ensures var n := GoodPrefix(parses, rest);
            && GoodPrefix(parses, [s] + rest) == n + 1
            && ([s] + rest)[..n + 1] == [s] + rest[..n]
  {
    var n := GoodPrefix(parses, rest);
    assert ([s] + rest)[1..] == rest;
  }

  /** A new runner starts exactly when every enabled sync with a schedule has one cron accepts; it then
      holds exactly these syncs in order, each reachable under its id.  Otherwise it does not run, and
      holds the syncs before the first bad one. */
  lemma StartMeaning(parses: Parses, syncs: seq<SyncConfig>)
    ensures var planned := Planned(syncs);
            var out := Started(parses, FRESH, syncs);
            && (out.1.None? <==> forall s | s in planned :: parses(s.schedule))
            && out.0.running == out.0.ticking == out.1.None?
            && (out.1.None? ==> out.0.entries == planned)
            && (out.1.Some? ==>
                  exists n :: 0 <= n < |planned| && out.0.entries == planned[..n] && !parses(planned[n].schedule)
                              && out.1 == Some(BadSchedule(planned[n].id)))
            && Indexed(out.0)
  {
    SchedulingMeaning(parses, FRESH, syncs);
    SchedulingIndexed(parses, FRESH, syncs);
    var planned := Planned(syncs);
    var n := GoodPrefix(parses, planned);
    assert n == |planned| ==> planned[..n] == planned;
    if n < |planned| {
      assert planned[n] in planned;
    }
  }
}
