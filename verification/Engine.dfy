/** pkg/simulator/engine.go: simulation of every node, with the random draws as
    inputs. The order of nodes is free; FanOut shows that running them
    concurrently leaves the same map. */
module Engine {
  import opened Common
  import opened Snapshots
  import opened Cascade
  import opened Risk
  import opened Sorting
  import opened Report
  import FanOut

  type NodeResults = map<Id, NodeResult>

  /** result is what simulating origin on snap yields for some perturbations. */
  ghost predicate Simulated(snap: Snapshot, cfg: SimConfig, origin: Id, result: NodeResult)
  {
    exists runs: seq<CascadeRun>, all: seq<CascadePath> ::
      SimulatedBy(snap, cfg, origin, result, runs, all)
  }

  ghost predicate SimulatedBy(snap: Snapshot, cfg: SimConfig, origin: Id, result: NodeResult,
                              runs: seq<CascadeRun>, all: seq<CascadePath>)
  {
    && CascadesFrom(snap, cfg, origin, runs)
    && IsRiskScore(origin, runs, snap, result.riskScore)
    && IsNodeResult(origin, runs, cfg, result.riskScore, result, all)
  }

  /** The run that one perturbation of the origin causes. */
  ghost predicate RunOf(snap: Snapshot, cfg: SimConfig, origin: Id, injected: Effect, run: CascadeRun) {
    exists t: Trace :: IsCascade(snap, cfg, origin, injected, run, t)
  }

  /** One run per perturbation, in order. */
  ghost predicate RunsOf(snap: Snapshot, cfg: SimConfig, origin: Id, perturbations: seq<Effect>,
                         runs: seq<CascadeRun>)
  {
    |runs| == |perturbations| &&
    forall i :: 0 <= i < |runs| ==> RunOf(snap, cfg, origin, perturbations[i], runs[i])
  }

  /** result is what simulating origin on snap yields for these perturbations. */
  ghost predicate SimulatedOn(snap: Snapshot, cfg: SimConfig, origin: Id, perturbations: seq<Effect>,
                              result: NodeResult)
  {
    exists runs: seq<CascadeRun>, all: seq<CascadePath> ::
      RunsOf(snap, cfg, origin, perturbations, runs) && SimulatedBy(snap, cfg, origin, result, runs, all)
  }

  /** One entry per node of the snapshot, each a simulation of that node. */
  ghost predicate IsReport(snap: Snapshot, cfg: SimConfig, results: NodeResults)
  {
    && results.Keys == snap.nodes.Keys
    && forall id :: id in results ==> Simulated(snap, cfg, id, results[id])
  }

  method SimulateNode(snap: Snapshot, origin: Id, perturbations: seq<Effect>, cfg: SimConfig)
    returns (result: NodeResult)
    requires cfg.topPaths >= 0
    ensures Simulated(snap, cfg, origin, result) && SimulatedOn(snap, cfg, origin, perturbations, result)
  {
    hide IsCascade, IsRiskScore;
    var runs: seq<CascadeRun> := [];
    for i := 0 to |perturbations|
      invariant CascadesFrom(snap, cfg, origin, runs)
      invariant RunsOf(snap, cfg, origin, perturbations[..i], runs)
    {
      assert perturbations[..i + 1] == perturbations[..i] + [perturbations[i]];
      var run := PropagateCascade(snap, origin, perturbations[i].latencyMs, perturbations[i].errorRate, cfg);
      assert perturbations[i] == Effect(perturbations[i].latencyMs, perturbations[i].errorRate);
      assert RunOf(snap, cfg, origin, perturbations[i], run) && CascadeOf(snap, cfg, origin, run);
      runs := runs + [run];
    }
    assert perturbations[..|perturbations|] == perturbations;
    var riskScore := ComputeRiskScore(origin, runs, snap);
    result := BuildNodeResult(origin, runs, cfg, riskScore);
    ghost var all :| IsNodeResult(origin, runs, cfg, riskScore, result, all);
    assert SimulatedBy(snap, cfg, origin, result, runs, all);
  }

  method RunSimulation(snap: Snapshot, perturbations: map<Id, seq<Effect>>, cfg: SimConfig)
    returns (results: NodeResults)
    requires cfg.topPaths >= 0
    requires snap.nodes.Keys <= perturbations.Keys
    ensures IsReport(snap, cfg, results)
    ensures forall id :: id in results ==> SimulatedOn(snap, cfg, id, perturbations[id], results[id])
  {
    hide Simulated, SimulatedOn;
    results := map[];
    var rest := snap.nodes.Keys;
    while rest != {}
      invariant rest <= snap.nodes.Keys
      invariant results.Keys == snap.nodes.Keys - rest
      invariant forall id :: id in results ==>
        Simulated(snap, cfg, id, results[id]) && SimulatedOn(snap, cfg, id, perturbations[id], results[id])
      decreases rest
    {
      var id :| id in rest;
      var result := SimulateNode(snap, id, perturbations[id], cfg);
      results := results[id := result];
      rest := rest - {id};
    }
  }

  /** The concurrent loop: any completed interleaving of the bounded fan-out, over
      workers that each simulate their own node, leaves a report. */
  lemma InterleavingIsReport(snap: Snapshot, cfg: SimConfig, bound: nat, outcome: NodeResults, acts: seq<FanOut.Action>)
    requires snap.nodes.Keys <= outcome.Keys
    requires forall id :: id in snap.nodes ==> Simulated(snap, cfg, id, outcome[id])
    requires FanOut.Run(snap.nodes.Keys, bound, outcome, acts).Some?
    requires FanOut.Run(snap.nodes.Keys, bound, outcome, acts).value.returned
    ensures IsReport(snap, cfg, FanOut.Run(snap.nodes.Keys, bound, outcome, acts).value.results)
  {
    hide Simulated;
    FanOut.ResultsComplete(snap.nodes.Keys, bound, outcome, acts);
  }

  /** The leading path of a simulated node starts at the node itself, and its
      second element is a caller of the node in the snapshot. */
  lemma LeadingPath(snap: Snapshot, cfg: SimConfig, origin: Id, result: NodeResult)
    requires Simulated(snap, cfg, origin, result)
    requires |result.topPaths| > 0
    ensures result.nodeID == origin
    ensures var path := result.topPaths[0].path;
      |path| >= 2 && path[0] == origin && path[1] != origin && Calls(snap, path[1], path[0])
  {
    var runs: seq<CascadeRun>, all: seq<CascadePath> :| SimulatedBy(snap, cfg, origin, result, runs, all);
    var cp := result.topPaths[0];
    assert Stands(runs, cp) by {
      assert all[0] == cp && cp in all;
    }
    hide IsNodeResult, IsRiskScore, KeyCount, KeyTimed, KeyTime;
    var i :| 0 <= i < |runs| && runs[i].path == cp.path;
    assert CascadeOf(snap, cfg, origin, runs[i]);
    SecondIsCaller(snap, cfg, origin, runs[i]);
  }

  lemma SecondIsCaller(snap: Snapshot, cfg: SimConfig, origin: Id, run: CascadeRun)
    requires CascadeOf(snap, cfg, origin, run) && |run.path| >= 2
    ensures run.path[0] == origin && run.path[1] != origin && Calls(snap, run.path[1], origin)
  {
    hide IsCascade;
    var injected: Effect, t: Trace :| IsCascade(snap, cfg, origin, injected, run, t);
    PathFollowsCalls(snap, cfg, origin, injected, run, t, 1);
  }

  /** A simulated score never reaches 1. */
  lemma SimulatedScoreBelowOne(snap: Snapshot, cfg: SimConfig, origin: Id, result: NodeResult)
    requires Simulated(snap, cfg, origin, result)
    requires InDegreesCounted(snap) && origin in snap.nodes && SourcesListed(snap)
    ensures result.riskScore < 1.0
  {
    var runs: seq<CascadeRun>, all: seq<CascadePath> :| SimulatedBy(snap, cfg, origin, result, runs, all);
    hide IsNodeResult, IsRiskScore, CascadesFrom, InDegreesCounted;
    ScoreBound(snap, cfg, origin, runs, result.riskScore);
  }

  /** The score bound, for a simulated node. */
  lemma SimulatedScoreNeedsNodes(snap: Snapshot, cfg: SimConfig, origin: Id, result: NodeResult, threshold: real)
    requires Simulated(snap, cfg, origin, result)
    requires InDegreesCounted(snap) && origin in snap.nodes && SourcesListed(snap)
    requires result.riskScore >= threshold
    ensures Reachable(|snap.nodes|, threshold)
  {
    var runs: seq<CascadeRun>, all: seq<CascadePath> :| SimulatedBy(snap, cfg, origin, result, runs, all);
    ScoreNeedsNodes(snap, cfg, origin, runs, result.riskScore, threshold);
  }
}
