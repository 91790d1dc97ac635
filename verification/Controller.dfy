/** pkg/shield/actuator.go and pkg/shield/controller.go: the audit log of the
    dry-run actuator and the control loop that drives it. */
module Controller {
  import opened Common
  import opened Engine
  import opened Strategy
  import opened EdgeTrack
  import opened Recovery

  datatype AuditEntry =
    | ApplyEntry(source: Id, target: Id, shedPercent: real)
    | RemoveEntry(source: Id, target: Id)
    | RemoveAllEntry

  /** One log entry seen as an update of the rule table. */
  function Effective(rules: map<string, real>, e: AuditEntry): map<string, real> {
    match e
    case ApplyEntry(s, t, p) => rules[EdgeKey(s, t) := p]
    case RemoveEntry(s, t) => rules - {EdgeKey(s, t)}
    case RemoveAllEntry => map[]
  }

  /** The rules in force after a log: for each key its last applied value, unless
      removed since. */
  function Replay(log: seq<AuditEntry>): map<string, real> {
    if |log| == 0 then map[] else Effective(Replay(log[..|log| - 1]), log[|log| - 1])
  }

  lemma ReplayAppend(log: seq<AuditEntry>, e: AuditEntry)
    ensures Replay(log + [e]) == Effective(Replay(log), e)
  {
    assert (log + [e])[..|log|] == log;
  }

  class LogActuator {
    var actions: seq<AuditEntry>

    constructor ()
      ensures actions == []
    {
      actions := [];
    }

    method Apply(source: Id, target: Id, shedPercent: real)
      modifies this
      ensures actions == old(actions) + [ApplyEntry(source, target, shedPercent)]
      ensures Replay(actions) == Replay(old(actions))[EdgeKey(source, target) := shedPercent]
    {
      ReplayAppend(actions, ApplyEntry(source, target, shedPercent));
      actions := actions + [ApplyEntry(source, target, shedPercent)];
    }

    method Remove(source: Id, target: Id)
      modifies this
      ensures actions == old(actions) + [RemoveEntry(source, target)]
      ensures Replay(actions) == Replay(old(actions)) - {EdgeKey(source, target)}
    {
      ReplayAppend(actions, RemoveEntry(source, target));
      actions := actions + [RemoveEntry(source, target)];
    }

    method RemoveAll()
      modifies this
      ensures actions == old(actions) + [RemoveAllEntry] && Replay(actions) == map[]
    {
      ReplayAppend(actions, RemoveAllEntry);
      actions := actions + [RemoveAllEntry];
    }

    /** Replays the whole log into a set of active edges and counts it. */
    method ActiveRules() returns (n: nat)
      ensures n == |Replay(actions)|
    {
      var active: set<string> := {};
      for i := 0 to |actions|
        invariant active == Replay(actions[..i]).Keys
      {
        assert actions[..i + 1][..i] == actions[..i];
        match actions[i] {
          case ApplyEntry(s, t, _) => active := active + {EdgeKey(s, t)};
          case RemoveEntry(s, t) => active := active - {EdgeKey(s, t)};
          case RemoveAllEntry => active := {};
        }
      }
      assert actions[..|actions|] == actions;
      n := |active|;
      assert |Replay(actions)| == |Replay(actions).Keys|;
    }
  }

  lemma ShedsSize(states: States)
    ensures |Sheds(states)| == |states|
  {
    assert Sheds(states).Keys == states.Keys;
    assert |Sheds(states)| == |Sheds(states).Keys| && |states| == |states.Keys|;
  }

  class Controller {
    const cfg: ShieldConfig
    const actuator: LogActuator
    const recovery: RecoveryManager

    /** Log and state machine agree: replaying the whole log gives exactly the
        tracked edges with their current shed values. */
    ghost predicate Valid()
      reads this, actuator, recovery
    {
      && recovery.cfg == cfg && recovery.Valid()
      && (EdgeTrack.Proper(cfg) ==> AllSafe(cfg, recovery.states))
      && Replay(actuator.actions) == Sheds(recovery.states)
    }

    constructor (cfg: ShieldConfig)
      ensures Valid() && fresh(actuator) && fresh(recovery)
      ensures this.cfg == cfg && recovery.states == map[] && actuator.actions == []
    {
      this.cfg := cfg;
      actuator := new LogActuator();
      recovery := new RecoveryManager(cfg);
    }

    /** One iteration of the control loop on the latest report, if there is one. */
    method Tick(report: Option<NodeResults>) returns (ghost decisions: seq<Decision>, ghost origins: seq<Id>)
      requires Valid() && AllMeasurable(ResultsOf(report), cfg)
      modifies actuator, recovery
      ensures Valid()
      ensures report.None? ==>
        decisions == [] && recovery.states == old(recovery.states) && actuator.actions == old(actuator.actions)
      ensures report.Some? ==>
        && DecidedFrom(report.value, cfg, decisions, origins)
        && recovery.states == NextStates(cfg, old(recovery.states), decisions)
      ensures Replay(actuator.actions).Keys == recovery.states.Keys
      ensures forall k :: k in recovery.states ==> Replay(actuator.actions)[k] == recovery.states[k].currentShed
      ensures report.Some? && OwnTargets(report.value) && EdgeTrack.Proper(cfg) ==>
        forall k :: RateLimited(cfg, TrackAt(old(recovery.states), k), TrackAt(recovery.states, k))
    {
      decisions, origins := [], [];
      if report.None? {
        return;
      }
      var shedding := ComputeSheddingStrategy(report, cfg);
      decisions := shedding;
      origins :| DecidedFrom(report.value, cfg, decisions, origins);
      DecisionsNonNegative(report.value, decisions, origins);
      ghost var before := recovery.states;
      var toApply, toRemove := recovery.ProcessDecisions(shedding);
      Actuate(toApply, toRemove);
      if OwnTargets(report.value) && EdgeTrack.Proper(cfg) {
        OwnTargetsDistinct(report.value, cfg, decisions, origins);
        forall k
          ensures RateLimited(cfg, TrackAt(before, k), TrackAt(recovery.states, k))
        {
          NextStatesRateLimited(cfg, before, decisions, k);
        }
      }
    }

    lemma DecisionsNonNegative(results: NodeResults, decisions: seq<Decision>, origins: seq<Id>)
      requires AllMeasurable(results, cfg) && DecidedFrom(results, cfg, decisions, origins)
      ensures NonNegative(decisions)
    {
      forall i | 0 <= i < |decisions|
        ensures decisions[i].shedPercent >= 0.0
      {
        ShedFractionBounds(results[origins[i]].riskScore, cfg);
      }
    }

    /** The two loops that hand the lists to the actuator. */
    method Actuate(toApply: seq<EdgeState>, toRemove: seq<EdgeState>)
      modifies actuator
      ensures Replay(actuator.actions) == Removed(Applied(Replay(old(actuator.actions)), toApply), toRemove)
    {
      ghost var rules := Replay(actuator.actions);
      for i := 0 to |toApply|
        invariant Replay(actuator.actions) == Applied(rules, toApply[..i])
      {
        assert toApply[..i + 1][..i] == toApply[..i];
        actuator.Apply(toApply[i].source, toApply[i].target, toApply[i].currentShed);
      }
      assert toApply[..|toApply|] == toApply;
      ghost var applied := Replay(actuator.actions);
      for i := 0 to |toRemove|
        invariant Replay(actuator.actions) == Removed(applied, toRemove[..i])
      {
        assert toRemove[..i + 1][..i] == toRemove[..i];
        actuator.Remove(toRemove[i].source, toRemove[i].target);
      }
      assert toRemove[..|toRemove|] == toRemove;
    }

    /** Removes every rule and forgets every edge. */
    method KillSwitch()
      requires Valid()
      modifies actuator, recovery
      ensures Valid() && recovery.states == map[] && Replay(actuator.actions) == map[]
    {
      actuator.RemoveAll();
      recovery.Reset();
    }

    /** On cancellation; also reports the rules left, of which there are none. */
    method Shutdown() returns (activeRules: nat)
      requires Valid()
      modifies actuator, recovery
      ensures Valid() && recovery.states == map[] && activeRules == 0
    {
      actuator.RemoveAll();
      recovery.Reset();
      activeRules := actuator.ActiveRules();
    }

    /** The control loop over any sequence of ticks, up to cancellation. */
    method Run(reports: seq<Option<NodeResults>>)
      requires Valid()
      requires forall i :: 0 <= i < |reports| ==> AllMeasurable(ResultsOf(reports[i]), cfg)
      modifies actuator, recovery
      ensures Valid() && Replay(actuator.actions) == map[]
    {
      for i := 0 to |reports|
        invariant Valid()
      {
        var _, _ := Tick(reports[i]);
      }
      var left := Shutdown();
    }

    /** The number of tracked edges is the number of rules in force by the log. */
    method ActiveSheddingCount() returns (n: nat)
      requires Valid()
      ensures n == |recovery.states| == |Replay(actuator.actions)|
    {
      ShedsSize(recovery.states);
      n := recovery.ActiveEdgeCount();
    }
  }
}
