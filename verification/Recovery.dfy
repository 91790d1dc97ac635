/** pkg/shield/recovery.go: the manager of all shed edges. Its states are keyed by
    the edge key string; each edge evolves as EdgeTrack says. */
module Recovery {
  import opened Common
  import opened Strategy
  import opened EdgeTrack

  datatype EdgeState = EdgeState(source: Id, target: Id, currentShed: real, targetShed: real,
                                 lowRiskCount: nat, active: bool)
  {
    function Key(): string {
      EdgeKey(source, target)
    }

    function Track(): Track {
      EdgeTrack.Track(currentShed, lowRiskCount)
    }
  }

  type States = map<string, EdgeState>

  /** The state of an edge after its decision d. */
  function Decided(cfg: ShieldConfig, states: States, d: Decision): EdgeState {
    var key := EdgeKey(d.source, d.target);
    var st := if key in states then states[key] else EdgeState(d.source, d.target, 0.0, 0.0, 0, false);
    st.(targetShed := d.shedPercent, lowRiskCount := 0, active := true,
        currentShed := RampTo(cfg, st.currentShed, d.shedPercent))
  }

  function DecideAll(cfg: ShieldConfig, states: States, decisions: seq<Decision>): States {
    if |decisions| == 0 then states
    else
      var before := DecideAll(cfg, states, decisions[..|decisions| - 1]);
      var d := decisions[|decisions| - 1];
      before[EdgeKey(d.source, d.target) := Decided(cfg, before, d)]
  }

  function DecidedKeys(decisions: seq<Decision>): set<string> {
    set i | 0 <= i < |decisions| :: EdgeKey(decisions[i].source, decisions[i].target)
  }

  /** What the recovery pass makes of one state: None when it is removed. */
  function Fate(cfg: ShieldConfig, st: EdgeState, decided: bool): Option<EdgeState> {
    if decided || !st.active then Some(st)
    else
      match AfterLow(cfg, st.Track())
      case None => None
      case Some(t) => Some(st.(currentShed := t.shed, lowRiskCount := t.lowCount))
  }

  /** The states once the recovery pass has visited the keys in done. */
  function Recovered(cfg: ShieldConfig, states: States, decided: set<string>, done: set<string>): States {
    map k | k in states && (k in done ==> Fate(cfg, states[k], k in decided).Some?) ::
      if k in done then Fate(cfg, states[k], k in decided).value else states[k]
  }

  /** The states after one control tick. */
  function NextStates(cfg: ShieldConfig, states: States, decisions: seq<Decision>): States {
    var ramped := DecideAll(cfg, states, decisions);
    Recovered(cfg, ramped, DecidedKeys(decisions), ramped.Keys)
  }

  /** The shed rules the states stand for. */
  function Sheds(states: States): map<string, real> {
    map k | k in states :: states[k].currentShed
  }

  /** Effect on a rule table of applying, then removing, listed edges in order. */
  function Applied(rules: map<string, real>, list: seq<EdgeState>): map<string, real> {
    if |list| == 0 then rules
    else
      var st := list[|list| - 1];
      Applied(rules, list[..|list| - 1])[st.Key() := st.currentShed]
  }

  function Removed(rules: map<string, real>, list: seq<EdgeState>): map<string, real> {
    if |list| == 0 then rules
    else Removed(rules, list[..|list| - 1]) - {list[|list| - 1].Key()}
  }

  lemma AppliedAppend(rules: map<string, real>, list: seq<EdgeState>, st: EdgeState)
    ensures Applied(rules, list + [st]) == Applied(rules, list)[st.Key() := st.currentShed]
  {
    assert (list + [st])[..|list|] == list;
  }

  /** Every tracked state is active and stored under its own key. */
  ghost predicate WellKeyed(states: States) {
    forall k :: k in states ==> states[k].active && states[k].Key() == k
  }

  lemma StoreState(states: States, key: string, st: EdgeState)
    requires WellKeyed(states) && st.active && st.Key() == key
    ensures WellKeyed(states[key := st])
    ensures Sheds(states[key := st]) == Sheds(states)[key := st.currentShed]
  {
  }

  lemma {:induction false} DecideAllWellKeyed(cfg: ShieldConfig, states: States, decisions: seq<Decision>)
    requires WellKeyed(states)
    ensures WellKeyed(DecideAll(cfg, states, decisions))
    ensures DecideAll(cfg, states, decisions).Keys == states.Keys + DecidedKeys(decisions)
  {
    if |decisions| > 0 {
      var rest := decisions[..|decisions| - 1];
      var d := decisions[|decisions| - 1];
      DecideAllWellKeyed(cfg, states, rest);
      assert decisions == rest + [d];
      DecidedKeysAppend(rest, d);
    }
  }

  lemma DecidedKeysAppend(decisions: seq<Decision>, d: Decision)
    ensures DecidedKeys(decisions + [d]) == DecidedKeys(decisions) + {EdgeKey(d.source, d.target)}
  {
    var all := decisions + [d];
    assert all[|decisions|] == d;
    forall k
      ensures k in DecidedKeys(all) <==> k in DecidedKeys(decisions) || k == EdgeKey(d.source, d.target)
    {
      if k in DecidedKeys(decisions) {
        var i :| 0 <= i < |decisions| && k == EdgeKey(decisions[i].source, decisions[i].target);
        assert all[i] == decisions[i];
      }
    }
  }

  lemma DecideAllAppend(cfg: ShieldConfig, states: States, decisions: seq<Decision>, d: Decision)
    ensures DecideAll(cfg, states, decisions + [d]) ==
            DecideAll(cfg, states, decisions)[EdgeKey(d.source, d.target) :=
              Decided(cfg, DecideAll(cfg, states, decisions), d)]
  {
    assert (decisions + [d])[..|decisions|] == decisions;
  }

  // ---------------------------------------------------------------------
  // Each edge on its own
  // ---------------------------------------------------------------------

  function TrackAt(states: States, k: string): Option<Track> {
    if k in states then Some(states[k].Track()) else None
  }

  /** The target decided for key k in this tick, if any. */
  function TargetAt(decisions: seq<Decision>, k: string): Option<real> {
    if |decisions| == 0 then None
    else
      var d := decisions[|decisions| - 1];
      if EdgeKey(d.source, d.target) == k then Some(d.shedPercent)
      else TargetAt(decisions[..|decisions| - 1], k)
  }

  lemma {:induction false} TargetAtMeaning(decisions: seq<Decision>, k: string)
    ensures TargetAt(decisions, k).Some? <==> k in DecidedKeys(decisions)
    ensures (forall i :: 0 <= i < |decisions| ==> decisions[i].shedPercent >= 0.0) ==>
            ProperTarget(TargetAt(decisions, k))
  {
    if |decisions| > 0 {
      var rest := decisions[..|decisions| - 1];
      TargetAtMeaning(rest, k);
      assert decisions == rest + [decisions[|decisions| - 1]];
      DecidedKeysAppend(rest, decisions[|decisions| - 1]);
    }
  }

  lemma LastIsFresh(decisions: seq<Decision>)
    requires |decisions| > 0 && DistinctEdges(decisions)
    ensures var d := decisions[|decisions| - 1];
      EdgeKey(d.source, d.target) !in DecidedKeys(decisions[..|decisions| - 1])
  {
    var rest, d := decisions[..|decisions| - 1], decisions[|decisions| - 1];
    forall i | 0 <= i < |rest|
      ensures EdgeKey(rest[i].source, rest[i].target) != EdgeKey(d.source, d.target)
    {
      assert rest[i] == decisions[i];
    }
  }

  /** With one decision per key, the decision pass ramps each decided edge once. */
  lemma {:induction false} DecideAllAt(cfg: ShieldConfig, states: States, decisions: seq<Decision>, k: string)
    requires DistinctEdges(decisions)
    ensures TrackAt(DecideAll(cfg, states, decisions), k) ==
            if TargetAt(decisions, k).Some?
            then Some(AfterDecision(cfg, TrackAt(states, k), TargetAt(decisions, k).value))
            else TrackAt(states, k)
  {
    if |decisions| > 0 {
      var rest := decisions[..|decisions| - 1];
      var d := decisions[|decisions| - 1];
      DecideAllAt(cfg, states, rest, k);
      TargetAtMeaning(rest, k);
      LastIsFresh(decisions);
    }
  }

  /** Projection: with one decision per key, the state of each edge after a tick
      depends on that edge alone, as EdgeTrack.Tick says. */
  lemma NextStatesAt(cfg: ShieldConfig, states: States, decisions: seq<Decision>, k: string)
    requires WellKeyed(states) && DistinctEdges(decisions)
    ensures TrackAt(NextStates(cfg, states, decisions), k) == Tick(cfg, TrackAt(states, k), TargetAt(decisions, k))
  {
    DecideAllAt(cfg, states, decisions, k);
    DecideAllWellKeyed(cfg, states, decisions);
    TargetAtMeaning(decisions, k);
  }

  lemma NextStatesWellKeyed(cfg: ShieldConfig, states: States, decisions: seq<Decision>)
    requires WellKeyed(states)
    ensures WellKeyed(NextStates(cfg, states, decisions))
  {
    DecideAllWellKeyed(cfg, states, decisions);
  }

  /** The states after a run of ticks. */
  function RunTicks(cfg: ShieldConfig, states: States, ticks: seq<seq<Decision>>): States {
    if |ticks| == 0 then states
    else NextStates(cfg, RunTicks(cfg, states, ticks[..|ticks| - 1]), ticks[|ticks| - 1])
  }

  function TargetsAt(ticks: seq<seq<Decision>>, k: string): (targets: seq<Option<real>>)
    ensures |targets| == |ticks|
  {
    if |ticks| == 0 then [] else TargetsAt(ticks[..|ticks| - 1], k) + [TargetAt(ticks[|ticks| - 1], k)]
  }

  /** So every law of EdgeTrack about runs holds of each edge of the manager. */
  lemma {:induction false} RunTicksAt(cfg: ShieldConfig, states: States, ticks: seq<seq<Decision>>, k: string)
    requires WellKeyed(states)
    requires forall i :: 0 <= i < |ticks| ==> DistinctEdges(ticks[i])
    ensures WellKeyed(RunTicks(cfg, states, ticks))
    ensures TrackAt(RunTicks(cfg, states, ticks), k) == EdgeTrack.Run(cfg, TrackAt(states, k), TargetsAt(ticks, k))
  {
    if |ticks| > 0 {
      var rest := ticks[..|ticks| - 1];
      RunTicksAt(cfg, states, rest, k);
      NextStatesAt(cfg, RunTicks(cfg, states, rest), ticks[|ticks| - 1], k);
      NextStatesWellKeyed(cfg, RunTicks(cfg, states, rest), ticks[|ticks| - 1]);
      assert TargetsAt(ticks, k)[..|ticks| - 1] == TargetsAt(rest, k);
    }
  }

  /** In every one of these ticks key k is decided with the same target. */
  ghost predicate AlwaysDecided(ticks: seq<seq<Decision>>, k: string, target: real) {
    forall i :: 0 <= i < |ticks| ==> DistinctEdges(ticks[i]) && TargetAt(ticks[i], k) == Some(target)
  }

  lemma {:induction false} TargetsAlike(ticks: seq<seq<Decision>>, k: string, target: real)
    requires AlwaysDecided(ticks, k, target)
    ensures TargetsAt(ticks, k) == Repeat(Some(target), |ticks|)
  {
    if |ticks| > 0 {
      TargetsAlike(ticks[..|ticks| - 1], k, target);
    }
  }

  /** Convergence of the manager: n ticks that all decide target T for an edge take its
      shed s, 0 if it is not tracked, to max(s - n * rampDown, T) from above and to
      min(s + n * rampUp, T, maxShed) from below, whatever happens to other edges. */
  lemma DecidedConverges(cfg: ShieldConfig, states: States, ticks: seq<seq<Decision>>, k: string, target: real)
    requires EdgeTrack.Proper(cfg) && WellKeyed(states) && AllSafe(cfg, states)
    requires |ticks| >= 1 && target >= 0.0 && AlwaysDecided(ticks, k, target)
    ensures var s := if k in states then states[k].currentShed else 0.0;
      var after := RunTicks(cfg, states, ticks);
      k in after && after[k].lowRiskCount == 0 && Converged(cfg, s, target, |ticks|, after[k].currentShed)
  {
    hide RunTicks, EdgeTrack.Run, Converged, EdgeTrack.Safe;
    TargetsAlike(ticks, k, target);
    RunTicksAt(cfg, states, ticks, k);
    assert SafeIfTracked(cfg, TrackAt(states, k));
    if k in states {
      RampFrom(cfg, states[k].Track(), target, |ticks|);
    } else {
      FirstDecisions(cfg, target, |ticks|);
      RampFrom(cfg, Track(0.0, 0), target, |ticks|);
    }
  }

  /** Every tracked edge is within its safety bounds. */
  ghost predicate AllSafe(cfg: ShieldConfig, states: States) {
    forall k :: SafeIfTracked(cfg, TrackAt(states, k))
  }

  ghost predicate NonNegative(decisions: seq<Decision>) {
    forall i :: 0 <= i < |decisions| ==> decisions[i].shedPercent >= 0.0
  }

  lemma {:induction false} DecideAllSafe(cfg: ShieldConfig, states: States, decisions: seq<Decision>, k: string)
    requires EdgeTrack.Proper(cfg) && NonNegative(decisions)
    requires forall x :: SafeIfTracked(cfg, TrackAt(states, x))
    ensures SafeIfTracked(cfg, TrackAt(DecideAll(cfg, states, decisions), k))
  {
    if |decisions| == 0 {
      assert SafeIfTracked(cfg, TrackAt(states, k));
    } else {
      var d := decisions[|decisions| - 1];
      var before := DecideAll(cfg, states, decisions[..|decisions| - 1]);
      DecideAllSafe(cfg, states, decisions[..|decisions| - 1], k);
      TickSafe(cfg, TrackAt(before, k), Some(d.shedPercent));
    }
  }

  /** Safety survives every tick, even one in which edges are decided twice. */
  lemma NextStatesSafe(cfg: ShieldConfig, states: States, decisions: seq<Decision>)
    requires EdgeTrack.Proper(cfg) && NonNegative(decisions) && AllSafe(cfg, states)
    ensures AllSafe(cfg, NextStates(cfg, states, decisions))
  {
    forall k
      ensures SafeIfTracked(cfg, TrackAt(NextStates(cfg, states, decisions), k))
    {
      DecideAllSafe(cfg, states, decisions, k);
      TickSafe(cfg, TrackAt(DecideAll(cfg, states, decisions), k), None);
    }
  }

  /** With one decision per key no edge changes faster than the rate limits. */
  lemma NextStatesRateLimited(cfg: ShieldConfig, states: States, decisions: seq<Decision>, k: string)
    requires EdgeTrack.Proper(cfg) && NonNegative(decisions) && AllSafe(cfg, states) && WellKeyed(states)
    requires DistinctEdges(decisions)
    ensures RateLimited(cfg, TrackAt(states, k), TrackAt(NextStates(cfg, states, decisions), k))
  {
    assert SafeIfTracked(cfg, TrackAt(states, k));
    TargetAtMeaning(decisions, k);
    NextStatesAt(cfg, states, decisions, k);
    TickRateLimited(cfg, TrackAt(states, k), TargetAt(decisions, k));
  }

  // ---------------------------------------------------------------------
  // Bookkeeping of the recovery pass
  // ---------------------------------------------------------------------

  /** The rules once the kept edges among done have been applied anew; dropped
      edges still show their old value. */
  function Touched(cfg: ShieldConfig, states: States, decided: set<string>, done: set<string>): map<string, real> {
    map k | k in states ::
      if k in done && Fate(cfg, states[k], k in decided).Some?
      then Fate(cfg, states[k], k in decided).value.currentShed
      else states[k].currentShed
  }

  function Dropped(cfg: ShieldConfig, states: States, decided: set<string>, done: set<string>): set<string> {
    set k | k in done && k in states && Fate(cfg, states[k], k in decided).None?
  }

  function RemovedKeys(list: seq<EdgeState>): set<string> {
    if |list| == 0 then {} else RemovedKeys(list[..|list| - 1]) + {list[|list| - 1].Key()}
  }

  lemma RemovedKeysAppend(list: seq<EdgeState>, st: EdgeState)
    ensures RemovedKeys(list + [st]) == RemovedKeys(list) + {st.Key()}
  {
    assert (list + [st])[..|list|] == list;
  }

  lemma {:induction false} RemovedIsSubtraction(rules: map<string, real>, list: seq<EdgeState>)
    ensures Removed(rules, list) == rules - RemovedKeys(list)
  {
    if |list| > 0 {
      RemovedIsSubtraction(rules, list[..|list| - 1]);
    }
  }

  lemma RecoveredStart(cfg: ShieldConfig, states: States, decided: set<string>)
    ensures Recovered(cfg, states, decided, states.Keys - states.Keys) == states
    ensures Touched(cfg, states, decided, states.Keys - states.Keys) == Sheds(states)
    ensures Dropped(cfg, states, decided, states.Keys - states.Keys) == {}
  {
  }

  /** Visiting one more key changes only that key. */
  lemma RecoveredStep(cfg: ShieldConfig, states: States, decided: set<string>, done: set<string>, key: string)
    requires key in states && key !in done
    ensures key in Recovered(cfg, states, decided, done) && Recovered(cfg, states, decided, done)[key] == states[key]
    ensures var fate := Fate(cfg, states[key], key in decided);
      && Recovered(cfg, states, decided, done + {key}) ==
         (if fate.Some? then Recovered(cfg, states, decided, done)[key := fate.value]
          else Recovered(cfg, states, decided, done) - {key})
      && Touched(cfg, states, decided, done + {key}) ==
         (if fate.Some? then Touched(cfg, states, decided, done)[key := fate.value.currentShed]
          else Touched(cfg, states, decided, done))
      && Dropped(cfg, states, decided, done + {key}) ==
         (if fate.Some? then Dropped(cfg, states, decided, done) else Dropped(cfg, states, decided, done) + {key})
  {
  }

  lemma RecoveryComplete(cfg: ShieldConfig, states: States, decided: set<string>)
    ensures Touched(cfg, states, decided, states.Keys) - Dropped(cfg, states, decided, states.Keys) ==
            Sheds(Recovered(cfg, states, decided, states.Keys))
  {
  }

  /** What is returned of an edge that is removed: at the low limit with its shed and
      target cleared, and before that, when its shed has run out, still as active. */
  function Leaving(cfg: ShieldConfig, st: EdgeState): EdgeState {
    var low := st.(lowRiskCount := st.lowRiskCount + 1, currentShed := 0.0);
    if low.lowRiskCount >= cfg.lowIntervals then low.(active := false, targetShed := 0.0) else low
  }

  ghost predicate LeftAt(cfg: ShieldConfig, states: States, st: EdgeState) {
    st.Key() in states && st == Leaving(cfg, states[st.Key()])
  }

  /** The recovery pass with rest still to be visited: states, applied rules and
      removed keys all agree. */
  ghost predicate Recovering(cfg: ShieldConfig, start: States, decided: set<string>, rules: map<string, real>,
                             rest: set<string>, states: States, toApply: seq<EdgeState>, toRemove: seq<EdgeState>)
  {
    var done := start.Keys - rest;
    && rest <= start.Keys && WellKeyed(start)
    && states == Recovered(cfg, start, decided, done)
    && Applied(rules, toApply) == Touched(cfg, start, decided, done)
    && RemovedKeys(toRemove) == Dropped(cfg, start, decided, done)
    && (forall st :: st in toRemove ==> LeftAt(cfg, start, st))
    && Reported(states, toApply, done + decided)
  }

  /** Those of these keys that are tracked are handed over with their states. */
  ghost predicate Reported(states: States, toApply: seq<EdgeState>, keys: set<string>) {
    forall k :: k in states && k in keys ==> states[k] in toApply
  }

  /** What is handed over for a decision. */
  ghost predicate ReportedFor(d: Decision, st: EdgeState) {
    st.Key() == EdgeKey(d.source, d.target) && st.targetShed == d.shedPercent && st.active && st.lowRiskCount == 0
  }

  lemma RecoveringStart(cfg: ShieldConfig, start: States, decided: set<string>, rules: map<string, real>,
                        toApply: seq<EdgeState>)
    requires WellKeyed(start) && Applied(rules, toApply) == Sheds(start) && Reported(start, toApply, decided)
    ensures Recovering(cfg, start, decided, rules, start.Keys, start, toApply, [])
  {
    RecoveredStart(cfg, start, decided);
  }

  /** The next state to visit is still as it was. */
  lemma NextToRecover(cfg: ShieldConfig, start: States, decided: set<string>, rules: map<string, real>,
                      rest: set<string>, states: States, toApply: seq<EdgeState>, toRemove: seq<EdgeState>, key: string)
    requires Recovering(cfg, start, decided, rules, rest, states, toApply, toRemove) && key in rest
    ensures key in start && key in states && states[key] == start[key] && states[key].active && states[key].Key() == key
  {
    RecoveredStep(cfg, start, decided, start.Keys - rest, key);
  }

  lemma VisitDone(start: States, rest: set<string>, key: string)
    requires key in rest && rest <= start.Keys
    ensures start.Keys - (rest - {key}) == start.Keys - rest + {key}
  {
  }

  /** Visiting an edge with a decision. */
  lemma RecoverSkips(cfg: ShieldConfig, start: States, decided: set<string>, rules: map<string, real>,
                     rest: set<string>, states: States, toApply: seq<EdgeState>, toRemove: seq<EdgeState>, key: string)
    requires Recovering(cfg, start, decided, rules, rest, states, toApply, toRemove) && key in rest && key in decided
    ensures Recovering(cfg, start, decided, rules, rest - {key}, states, toApply, toRemove)
  {
    var done := start.Keys - rest;
    VisitDone(start, rest, key);
    RecoveredStep(cfg, start, decided, done, key);
    assert Recovered(cfg, start, decided, done)[key := start[key]] == Recovered(cfg, start, decided, done);
    TouchedUnvisited(cfg, start, decided, done, key);
  }

  lemma TouchedUnvisited(cfg: ShieldConfig, start: States, decided: set<string>, done: set<string>, key: string)
    requires key in start && key !in done
    ensures Touched(cfg, start, decided, done)[key := start[key].currentShed] == Touched(cfg, start, decided, done)
  {
  }

  /** Visiting an edge that stays, with its new state. */
  lemma RecoverKeeps(cfg: ShieldConfig, start: States, decided: set<string>, rules: map<string, real>,
                     rest: set<string>, states: States, toApply: seq<EdgeState>, toRemove: seq<EdgeState>,
                     key: string, st: EdgeState)
    requires Recovering(cfg, start, decided, rules, rest, states, toApply, toRemove) && key in rest
    requires Fate(cfg, start[key], key in decided) == Some(st) && st.Key() == key
    ensures Recovering(cfg, start, decided, rules, rest - {key}, states[key := st], toApply + [st], toRemove)
  {
    VisitDone(start, rest, key);
    RecoveredStep(cfg, start, decided, start.Keys - rest, key);
    AppliedAppend(rules, toApply, st);
  }

  /** Visiting an edge that goes. */
  lemma RecoverDrops(cfg: ShieldConfig, start: States, decided: set<string>, rules: map<string, real>,
                     rest: set<string>, states: States, toApply: seq<EdgeState>, toRemove: seq<EdgeState>, key: string)
    requires Recovering(cfg, start, decided, rules, rest, states, toApply, toRemove) && key in rest
    requires Fate(cfg, start[key], key in decided).None?
    ensures Recovering(cfg, start, decided, rules, rest - {key}, states - {key}, toApply,
                       toRemove + [Leaving(cfg, start[key])])
  {
    VisitDone(start, rest, key);
    RecoveredStep(cfg, start, decided, start.Keys - rest, key);
    RemovedKeysAppend(toRemove, Leaving(cfg, start[key]));
    assert LeftAt(cfg, start, Leaving(cfg, start[key]));
  }

  lemma RecoveringEnd(cfg: ShieldConfig, start: States, decided: set<string>, rules: map<string, real>,
                      states: States, toApply: seq<EdgeState>, toRemove: seq<EdgeState>)
    requires Recovering(cfg, start, decided, rules, {}, states, toApply, toRemove)
    ensures states == Recovered(cfg, start, decided, start.Keys)
    ensures Removed(Applied(rules, toApply), toRemove) == Sheds(states)
    ensures forall st :: st in toRemove ==> LeftAt(cfg, start, st)
    ensures Reported(states, toApply, states.Keys)
  {
    assert start.Keys - {} == start.Keys;
    RemovedIsSubtraction(Applied(rules, toApply), toRemove);
    RecoveryComplete(cfg, start, decided);
  }

  lemma LeftWithNothing(cfg: ShieldConfig, states: States, st: EdgeState)
    requires WellKeyed(states) && LeftAt(cfg, states, st)
    ensures st.currentShed == 0.0 && (st.active <==> st.lowRiskCount < cfg.lowIntervals)
  {
  }

  lemma NothingDecided(cfg: ShieldConfig, states: States)
    ensures DecideAll(cfg, states, []) == states && Applied(Sheds(states), []) == Sheds(states)
    ensures Reported(states, [], DecidedKeys([]))
  {
  }

  lemma DecidedReported(cfg: ShieldConfig, states: States, d: Decision)
    requires WellKeyed(states)
    ensures ReportedFor(d, Decided(cfg, states, d))
  {
  }

  lemma ReportedAppend(states: States, toApply: seq<EdgeState>, keys: set<string>, key: string, st: EdgeState)
    requires Reported(states, toApply, keys)
    ensures Reported(states[key := st], toApply + [st], keys + {key})
  {
  }

  // ---------------------------------------------------------------------
  // The manager
  // ---------------------------------------------------------------------

  class RecoveryManager {
    const cfg: ShieldConfig
    var states: States

    ghost predicate Valid()
      reads this
    {
      WellKeyed(states)
    }

    constructor (cfg: ShieldConfig)
      ensures Valid() && this.cfg == cfg && states == map[]
    {
      this.cfg := cfg;
      states := map[];
    }

    /** Creates or updates the state of a decided edge and ramps it. */
    method Ramp(key: string, d: Decision) returns (state: EdgeState)
      requires key == EdgeKey(d.source, d.target)
      ensures state == Decided(cfg, states, d)
    {
      state := if key in states then states[key] else EdgeState(d.source, d.target, 0.0, 0.0, 0, false);
      state := state.(targetShed := d.shedPercent, lowRiskCount := 0, active := true);
      if state.currentShed < state.targetShed {
        var newShed := state.currentShed + cfg.rampUp;
        if newShed > state.targetShed {
          newShed := state.targetShed;
        }
        if newShed > cfg.maxShed {
          newShed := cfg.maxShed;
        }
        state := state.(currentShed := newShed);
      } else if state.currentShed > state.targetShed {
        var newShed := state.currentShed - cfg.rampDown;
        if newShed < state.targetShed {
          newShed := state.targetShed;
        }
        state := state.(currentShed := newShed);
      }
    }

    /** The first loop of ProcessDecisions. */
    method RampDecided(decisions: seq<Decision>) returns (toApply: seq<EdgeState>)
      requires WellKeyed(states)
      modifies this
      ensures states == DecideAll(cfg, old(states), decisions)
      ensures Applied(Sheds(old(states)), toApply) == Sheds(states)
      ensures |toApply| == |decisions|
      ensures forall i :: 0 <= i < |decisions| ==> ReportedFor(decisions[i], toApply[i])
      ensures Reported(states, toApply, DecidedKeys(decisions))
    {
      hide DecideAll, Applied, Sheds, Decided, Reported, DecidedKeys, WellKeyed;
      toApply := [];
      ghost var start := states;
      NothingDecided(cfg, start);
      for i := 0 to |decisions|
        invariant states == DecideAll(cfg, start, decisions[..i])
        invariant WellKeyed(states)
        invariant Applied(Sheds(start), toApply) == Sheds(states)
        invariant |toApply| == i
        invariant forall j :: 0 <= j < i ==> ReportedFor(decisions[j], toApply[j])
        invariant Reported(states, toApply, DecidedKeys(decisions[..i]))
      {
        var d := decisions[i];
        assert decisions[..i + 1] == decisions[..i] + [d];
        DecideAllAppend(cfg, start, decisions[..i], d);
        var key := EdgeKey(d.source, d.target);
        var state := Ramp(key, d);
        AppliedAppend(Sheds(start), toApply, state);
        DecidedReported(cfg, states, d);
        StoreState(states, key, state);
        DecidedKeysAppend(decisions[..i], d);
        ReportedAppend(states, toApply, DecidedKeys(decisions[..i]), key, state);
        states := states[key := state];
        toApply := toApply + [state];
      }
      assert decisions[..|decisions|] == decisions;
    }

    /** The second loop of ProcessDecisions: edges without a decision, in any
        order. */
    method RecoverOthers(decided: set<string>, toApply0: seq<EdgeState>, ghost rules: map<string, real>)
      returns (toApply: seq<EdgeState>, toRemove: seq<EdgeState>)
      requires WellKeyed(states) && Applied(rules, toApply0) == Sheds(states)
      requires Reported(states, toApply0, decided)
      modifies this
      ensures states == Recovered(cfg, old(states), decided, old(states).Keys)
      ensures Removed(Applied(rules, toApply), toRemove) == Sheds(states)
      ensures forall st :: st in toRemove ==> LeftAt(cfg, old(states), st)
      ensures toApply0 <= toApply && Reported(states, toApply, states.Keys)
    {
      hide Recovering, Recovered, Fate, Reported;
      toApply, toRemove := toApply0, [];
      ghost var start := states;
      var rest := states.Keys;
      RecoveringStart(cfg, start, decided, rules, toApply);
      while rest != {}
        invariant Recovering(cfg, start, decided, rules, rest, states, toApply, toRemove)
        invariant toApply0 <= toApply
        decreases rest
      {
        var key :| key in rest;
        NextToRecover(cfg, start, decided, rules, rest, states, toApply, toRemove, key);
        var state := states[key];
        if !state.active || key in decided {
          RecoverSkips(cfg, start, decided, rules, rest, states, toApply, toRemove, key);
        } else {
          var kept;
          kept, state := RecoverEdge(state);
          if kept {
            RecoverKeeps(cfg, start, decided, rules, rest, states, toApply, toRemove, key, state);
            states := states[key := state];
            toApply := toApply + [state];
          } else {
            RecoverDrops(cfg, start, decided, rules, rest, states, toApply, toRemove, key);
            states := states - {key};
            toRemove := toRemove + [state];
          }
        }
        rest := rest - {key};
      }
      RecoveringEnd(cfg, start, decided, rules, states, toApply, toRemove);
    }

    /** A low tick of one edge: whether it is kept, and the state to report. */
    method RecoverEdge(state0: EdgeState) returns (kept: bool, state: EdgeState)
      requires state0.active
      ensures Fate(cfg, state0, false) == if kept then Some(state) else None
      ensures state.Key() == state0.Key()
      ensures !kept ==> state == Leaving(cfg, state0)
    {
      state := state0.(lowRiskCount := state0.lowRiskCount + 1);
      if state.lowRiskCount >= cfg.lowIntervals {
        state := state.(active := false, currentShed := 0.0, targetShed := 0.0);
        return false, state;
      }
      var newShed := state.currentShed - cfg.rampDown;
      if newShed < 0.0 {
        newShed := 0.0;
      }
      state := state.(currentShed := newShed);
      return newShed > 0.0, state;
    }

    method ProcessDecisions(decisions: seq<Decision>) returns (toApply: seq<EdgeState>, toRemove: seq<EdgeState>)
      requires Valid()
      modifies this
      ensures Valid() && states == NextStates(cfg, old(states), decisions)
      ensures EdgeTrack.Proper(cfg) && NonNegative(decisions) && AllSafe(cfg, old(states)) ==> AllSafe(cfg, states)
      ensures Removed(Applied(Sheds(old(states)), toApply), toRemove) == Sheds(states)
      ensures forall st :: st in toRemove ==> LeftAt(cfg, DecideAll(cfg, old(states), decisions), st)
      ensures forall st :: st in toRemove ==>
        st.currentShed == 0.0 && (st.active <==> st.lowRiskCount < cfg.lowIntervals)
      ensures |decisions| <= |toApply|
      ensures forall i :: 0 <= i < |decisions| ==> ReportedFor(decisions[i], toApply[i])
      ensures forall k :: k in states ==> states[k] in toApply
    {
      hide DecideAll, Applied, Removed, Sheds, Recovered, DecidedKeys, WellKeyed, AllSafe, NonNegative, LeftAt;
      ghost var rules := Sheds(states);
      if EdgeTrack.Proper(cfg) && NonNegative(decisions) && AllSafe(cfg, states) {
        NextStatesSafe(cfg, states, decisions);
      }
      NextStatesWellKeyed(cfg, states, decisions);
      DecideAllWellKeyed(cfg, states, decisions);
      toApply := RampDecided(decisions);
      ghost var ramped := states;
      toApply, toRemove := RecoverOthers(DecidedKeys(decisions), toApply, rules);
      forall st | st in toRemove
        ensures st.currentShed == 0.0 && (st.active <==> st.lowRiskCount < cfg.lowIntervals)
      {
        LeftWithNothing(cfg, ramped, st);
      }
    }

    method ActiveEdgeCount() returns (count: nat)
      requires Valid()
      ensures count == |states|
    {
      count := 0;
      var rest := states.Keys;
      while rest != {}
        invariant rest <= states.Keys && count == |states.Keys| - |rest|
        decreases rest
      {
        var key :| key in rest;
        if states[key].active {
          count := count + 1;
        }
        rest := rest - {key};
      }
    }

    /** The edges being shed, with their fractions: all tracked edges but those
        still held at zero. */
    method ActiveSheddingStates() returns (result: map<string, real>)
      requires Valid()
      ensures result == map k | k in states && states[k].currentShed > 0.0 :: states[k].currentShed
    {
      result := map[];
      var rest := states.Keys;
      while rest != {}
        invariant rest <= states.Keys
        invariant result == map k | k in states && k !in rest && states[k].currentShed > 0.0 :: states[k].currentShed
        decreases rest
      {
        var key :| key in rest;
        if states[key].active && states[key].currentShed > 0.0 {
          result := result[key := states[key].currentShed];
        }
        rest := rest - {key};
      }
    }

    method Reset()
      requires Valid()
      modifies this
      ensures Valid() && states == map[]
    {
      states := map[];
    }
  }
}
