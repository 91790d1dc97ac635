/** The whole pipeline: the live graph feeds the simulation loop of
    pkg/simulator/engine.go, whose latest report feeds the control loop of
    pkg/shield/controller.go. */
module Pipeline {
  import opened Common
  import opened Snapshots
  import opened Cascade
  import opened Risk
  import opened Engine
  import opened Strategy
  import opened EdgeTrack
  import opened Recovery
  import Graph
  import Controller

  /** The simulation engine with its latest report. */
  class Oracle {
    const cfg: SimConfig
    const dag: Graph.DAG
    var latestReport: Option<NodeResults>
    /** The snapshot the latest report was computed from. */
    ghost var source: Snapshot

    ghost predicate Valid()
      reads this
    {
      cfg.topPaths >= 0 &&
      (latestReport.Some? ==>
         && InDegreesCounted(source)
         && IsReport(source, cfg, latestReport.value))
    }

    constructor (cfg: SimConfig, dag: Graph.DAG)
      requires cfg.topPaths >= 0
      ensures Valid() && this.cfg == cfg && this.dag == dag && latestReport == None
    {
      this.cfg, this.dag, latestReport := cfg, dag, None;
      source := Snapshot(map[], map[]);
    }

    /** One tick of the simulation loop; an empty graph is skipped and the old
        report stays. */
    method SimulationTick(perturbations: map<Id, seq<Effect>>)
      requires Valid() && dag.Valid()
      requires dag.nodes.Keys <= perturbations.Keys
      modifies this
      ensures Valid()
      ensures dag.nodes == map[] ==> latestReport == old(latestReport) && source == old(source)
      ensures dag.nodes != map[] ==>
        && latestReport.Some? && source.nodes.Keys == dag.nodes.Keys
        && (forall s, t :: Graph.CopiedAt(source, dag.edges, s, t))
        && (|dag.nodes| < dag.maxNodes ==> SourcesListed(source))
    {
      hide Valid, InDegreesCounted, SourcesListed;
      hide Graph.CopiedAt, Graph.Into, Graph.OutOf, Graph.Pairs;
      var snap := dag.TakeSnapshot();
      if |snap.nodes| == 0 {
        NoKeys(dag.nodes, snap.nodes);
        return;
      }
      Simulate(snap, perturbations);
    }

    method Simulate(snap: Snapshot, perturbations: map<Id, seq<Effect>>)
      requires Valid() && InDegreesCounted(snap) && snap.nodes.Keys <= perturbations.Keys
      modifies this
      ensures Valid() && latestReport.Some? && source == snap
    {
      hide InDegreesCounted, IsReport, SimulatedOn;
      var report := RunSimulation(snap, perturbations, cfg);
      latestReport := Some(report);
      source := snap;
    }

    lemma NoKeys<A, B>(m: map<Id, A>, n: map<Id, B>)
      requires m.Keys == n.Keys && |n| == 0
      ensures m == map[]
    {
      assert n == map[];
      assert m.Keys == {};
    }
  }

  /** One tick of the control loop on the latest report: each decision sheds a call
      that the simulated graph has, toward the node at risk; a graph with too few
      nodes is never shed; and every shed value stays within its rate limits. */
  method ControlTick(oracle: Oracle, controller: Controller.Controller)
    returns (ghost decisions: seq<Decision>, ghost origins: seq<Id>)
    requires oracle.Valid() && controller.Valid()
    requires controller.cfg.shedThreshold != 1.0 || SourcesListed(oracle.source)
    modifies controller.actuator, controller.recovery
    ensures controller.Valid() && oracle.Valid()
    ensures oracle.latestReport.None? ==> decisions == []
    ensures forall i :: 0 <= i < |decisions| ==> RealCut(oracle.source, decisions[i])
    ensures |decisions| > 0 && SourcesListed(oracle.source) ==>
      Reachable(|oracle.source.nodes|, controller.cfg.shedThreshold)
    ensures NamesArrowFree(oracle.source) && EdgeTrack.Proper(controller.cfg) ==>
      forall k :: RateLimited(controller.cfg, TrackAt(old(controller.recovery.states), k),
                              TrackAt(controller.recovery.states, k))
  {
    hide IsReport, DecidedFrom, OwnTargets, Reachable, RealCut, NamesArrowFree,
         InDegreesCounted, SourcesListed;
    if oracle.latestReport.Some? && NamesArrowFree(oracle.source) {
      CleanReport(oracle.source, oracle.cfg, oracle.latestReport.value);
    }
    if oracle.latestReport.Some? && controller.cfg.shedThreshold == 1.0 {
      ReportMeasurable(oracle.source, oracle.cfg, oracle.latestReport.value, controller.cfg);
    }
    decisions, origins := controller.Tick(oracle.latestReport);
    if oracle.latestReport.Some? {
      DecisionsReal(oracle.source, oracle.cfg, oracle.latestReport.value, controller.cfg, decisions, origins);
    }
  }

  lemma DecisionsReal(snap: Snapshot, sim: SimConfig, results: NodeResults, cfg: ShieldConfig,
                      decisions: seq<Decision>, origins: seq<Id>)
    requires InDegreesCounted(snap) && AllMeasurable(results, cfg)
    requires IsReport(snap, sim, results) && DecidedFrom(results, cfg, decisions, origins)
    ensures forall i :: 0 <= i < |decisions| ==> RealCut(snap, decisions[i])
    ensures |decisions| > 0 && SourcesListed(snap) ==> Reachable(|snap.nodes|, cfg.shedThreshold)
  {
    hide Reachable, Simulated;
    CutEdgesRealAndUnique(snap, sim, results, cfg, decisions, origins);
    if |decisions| > 0 && SourcesListed(snap) {
      SheddingNeedsNodes(snap, sim, results, cfg, decisions, origins);
    }
  }

  /** The decision names a call between two different nodes, into a listed node. */
  ghost predicate RealCut(snap: Snapshot, d: Decision) {
    d.source != d.target && d.target in snap.nodes && Calls(snap, d.source, d.target)
  }
}
