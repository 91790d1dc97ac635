/** pkg/shield/strategy.go: from a simulation report to shedding decisions. */
module Strategy {
  import opened Common
  import opened Snapshots
  import opened Cascade
  import opened Risk
  import opened Report
  import opened PathKeys
  import opened Engine

  datatype ShieldConfig = ShieldConfig(
    shedThreshold: real, recoveryThreshold: real, lowIntervals: int,
    maxShed: real, rampUp: real, rampDown: real)

  const DEFAULTS := ShieldConfig(0.7, 0.3, 3, 0.8, 0.15, 0.10)

  /** The smallest fraction a decision asks for. */
  const MIN_SHED := 0.05

  datatype Decision = Decision(source: Id, target: Id, shedPercent: real)

  function EdgeKey(source: Id, target: Id): string {
    source + [ARROW] + target
  }

  lemma EdgeKeyInjective(s: Id, t: Id, s': Id, t': Id)
    requires ArrowFree(t) && ArrowFree(t') && EdgeKey(s, t) == EdgeKey(s', t')
    ensures s == s' && t == t'
  {
    SplitAtLastArrow(s, t, s', t');
  }

  lemma EdgeKeysDiffer(s: Id, t: Id, s': Id, t': Id)
    requires ArrowFree(t) && ArrowFree(t') && t != t'
    ensures EdgeKey(s, t) != EdgeKey(s', t')
  {
    if EdgeKey(s, t) == EdgeKey(s', t') {
      EdgeKeyInjective(s, t, s', t');
    }
  }

  /** How far a score is over the threshold, as a share of the room above it. */
  function Overshoot(score: real, cfg: ShieldConfig): real
    requires cfg.shedThreshold != 1.0
  {
    (score - cfg.shedThreshold) / (1.0 - cfg.shedThreshold)
  }

  /** Shed fraction for a risk score at or above the threshold. */
  function ShedFraction(score: real, cfg: ShieldConfig): real
    requires cfg.shedThreshold != 1.0
  {
    var overshoot := Overshoot(score, cfg);
    var capped := if overshoot > cfg.maxShed then cfg.maxShed else overshoot;
    if capped < MIN_SHED then MIN_SHED else capped
  }

  /** The fraction of this result is a number: only a score that reaches a threshold
      of 1 makes the computation divide by zero. */
  predicate Measurable(result: NodeResult, cfg: ShieldConfig) {
    cfg.shedThreshold == 1.0 ==> result.riskScore < 1.0
  }

  ghost predicate AllMeasurable(results: NodeResults, cfg: ShieldConfig) {
    forall id :: id in results ==> Measurable(results[id], cfg)
  }

  /** The decision one node result leads to, if any. */
  function DecisionFor(result: NodeResult, cfg: ShieldConfig): Option<Decision>
    requires Measurable(result, cfg)
  {
    if result.riskScore < cfg.shedThreshold then None
    else if |result.topPaths| == 0 || |result.topPaths[0].path| < 2 then None
    else
      var path := result.topPaths[0].path;
      Some(Decision(path[1], path[0], ShedFraction(result.riskScore, cfg)))
  }

  /** decisions[i] comes from node origins[i]; every node that leads to a decision
      is there once. */
  ghost predicate DecidedFrom(results: NodeResults, cfg: ShieldConfig, decisions: seq<Decision>, origins: seq<Id>)
    requires AllMeasurable(results, cfg)
  {
    && |origins| == |decisions| && NoDuplicates(origins)
    && (forall i :: 0 <= i < |origins| ==>
          origins[i] in results && DecisionFor(results[origins[i]], cfg) == Some(decisions[i]))
    && (forall id :: id in results && DecisionFor(results[id], cfg).Some? ==> id in origins)
  }

  function ResultsOf(report: Option<NodeResults>): NodeResults {
    if report.Some? then report.value else map[]
  }

  method ComputeSheddingStrategy(report: Option<NodeResults>, cfg: ShieldConfig)
    returns (decisions: seq<Decision>)
    requires AllMeasurable(ResultsOf(report), cfg)
    ensures exists origins :: DecidedFrom(ResultsOf(report), cfg, decisions, origins)
  {
    decisions := [];
    ghost var origins: seq<Id> := [];
    if report.None? {
      assert DecidedFrom(ResultsOf(report), cfg, [], origins);
      return;
    }
    var results := report.value;
    var rest := results.Keys;
    while rest != {}
      invariant rest <= results.Keys
      invariant DecidedFrom(map id | id in results && id !in rest :: results[id], cfg, decisions, origins)
      decreases rest
    {
      var id :| id in rest;
      var result := results[id];
      ghost var seen := map x | x in results && x !in rest :: results[x];
      rest := rest - {id};
      ghost var seen' := map x | x in results && x !in rest :: results[x];
      assert seen' == seen[id := result];
      assert forall i :: 0 <= i < |origins| ==> origins[i] in seen;
      if result.riskScore < cfg.shedThreshold {
        continue;
      }
      if |result.topPaths| == 0 || |result.topPaths[0].path| < 2 {
        continue;
      }
      var path := result.topPaths[0].path;
      var cutSource := path[1];
      var cutTarget := path[0];
      var shedPercent := ShedFraction(result.riskScore, cfg);
      decisions := decisions + [Decision(cutSource, cutTarget, shedPercent)];
      origins := origins + [id];
    }
    assert results == map id | id in results && id !in rest :: results[id];
    assert DecidedFrom(ResultsOf(report), cfg, decisions, origins);
  }

  /** Every decision asks for at least 5% and, beyond that floor, for no more than
      the configured maximum. */
  lemma ShedFractionBounds(score: real, cfg: ShieldConfig)
    requires cfg.shedThreshold != 1.0
    ensures MIN_SHED <= ShedFraction(score, cfg) <= MaxReal(MIN_SHED, cfg.maxShed)
  {
  }

  /** The documented formula is the smaller of overshoot and maximum. The code follows
      it exactly when that is at least the floor, and keeps to the maximum exactly
      when the maximum is at least the floor. */
  lemma ShedFormulaIff(score: real, cfg: ShieldConfig)
    requires cfg.shedThreshold != 1.0
    ensures ShedFraction(score, cfg) == MinReal(cfg.maxShed, Overshoot(score, cfg)) <==>
            MinReal(cfg.maxShed, Overshoot(score, cfg)) >= MIN_SHED
    ensures ShedFraction(score, cfg) <= cfg.maxShed <==> cfg.maxShed >= MIN_SHED
  {
  }

  /** The fraction is linear in the score: it is the floor up to 5% of the room above
      the threshold, then the share of that room the score takes, up to the maximum. */
  lemma ShedFractionLinear(score: real, cfg: ShieldConfig)
    requires cfg.shedThreshold < 1.0 && MIN_SHED <= cfg.maxShed
    ensures var over, room := score - cfg.shedThreshold, 1.0 - cfg.shedThreshold;
      && (over <= 0.05 * room ==> ShedFraction(score, cfg) == 0.05)
      && (0.05 * room <= over <= cfg.maxShed * room ==> ShedFraction(score, cfg) * room == over)
      && (over >= cfg.maxShed * room ==> ShedFraction(score, cfg) == cfg.maxShed)
  {
    var over, room := score - cfg.shedThreshold, 1.0 - cfg.shedThreshold;
    SharesOf(over, room, Overshoot(score, cfg));
    ShareAgainst(over, room, Overshoot(score, cfg), 0.05);
    ShareAgainst(over, room, Overshoot(score, cfg), cfg.maxShed);
    hide Overshoot;
  }

  lemma ShareAgainst(over: real, room: real, share: real, bound: real)
    requires room > 0.0 && share * room == over
    ensures share <= bound <==> over <= bound * room
    ensures share >= bound <==> over >= bound * room
  {
    if share < bound {
      StrictProduct(room, share, bound);
    } else if share > bound {
      StrictProduct(room, bound, share);
    }
  }

  /** The fraction never falls as the risk rises; it is the floor at the threshold
      and the configured maximum at a risk of 1. */
  lemma ShedFractionProportional(score: real, score': real, cfg: ShieldConfig)
    requires cfg.shedThreshold < 1.0 && score <= score'
    ensures ShedFraction(score, cfg) <= ShedFraction(score', cfg)
    ensures ShedFraction(cfg.shedThreshold, cfg) == MIN_SHED
    ensures ShedFraction(1.0, cfg) == MaxReal(MIN_SHED, MinReal(1.0, cfg.maxShed))
  {
    var room := 1.0 - cfg.shedThreshold;
    QuotientMonotone(room, score - cfg.shedThreshold, score' - cfg.shedThreshold);
    OverItself(room);
  }

  /** No two decisions of one tick share an edge. */
  ghost predicate DistinctEdges(decisions: seq<Decision>) {
    forall i, j :: 0 <= i < j < |decisions| ==>
      EdgeKey(decisions[i].source, decisions[i].target) != EdgeKey(decisions[j].source, decisions[j].target)
  }

  ghost predicate NamesArrowFree(snap: Snapshot) {
    forall id :: id in snap.nodes ==> ArrowFree(id)
  }

  /** Cut edges are real and unique, end to end: each decision drawn from a report
      names a call edge of the snapshot that ends at the high-risk node itself,
      and no two of them share an edge or even a key. */
  lemma CutEdgesRealAndUnique(snap: Snapshot, sim: SimConfig, results: NodeResults, cfg: ShieldConfig,
                              decisions: seq<Decision>, origins: seq<Id>)
    requires IsReport(snap, sim, results) && AllMeasurable(results, cfg)
    requires DecidedFrom(results, cfg, decisions, origins)
    ensures forall i :: 0 <= i < |decisions| ==>
      var d := decisions[i];
      && d.target == origins[i] && results[d.target].riskScore >= cfg.shedThreshold
      && d.source != d.target && Calls(snap, d.source, d.target)
    ensures forall i, j :: 0 <= i < j < |decisions| ==> decisions[i].target != decisions[j].target
    ensures NamesArrowFree(snap) ==> DistinctEdges(decisions)
  {
    hide ShedFraction, EdgeKey, Simulated;
    forall i | 0 <= i < |decisions|
      ensures decisions[i].target == origins[i] && origins[i] in snap.nodes
      ensures decisions[i].source != decisions[i].target && Calls(snap, decisions[i].source, decisions[i].target)
    {
      LeadingPath(snap, sim, origins[i], results[origins[i]]);
    }
    if NamesArrowFree(snap) {
      forall i, j | 0 <= i < j < |decisions|
        ensures EdgeKey(decisions[i].source, decisions[i].target) != EdgeKey(decisions[j].source, decisions[j].target)
      {
        EdgeKeysDiffer(decisions[i].source, decisions[i].target, decisions[j].source, decisions[j].target);
      }
    }
  }

  /** A report in which every leading path belongs to its own node: what RunSimulation
      yields for arrow-free names (see CleanReport). */
  ghost predicate OwnTargets(results: NodeResults) {
    forall id :: id in results ==> ArrowFree(id) && LeadsAtSelf(results[id], id)
  }

  ghost predicate LeadsAtSelf(result: NodeResult, id: Id) {
    |result.topPaths| > 0 && |result.topPaths[0].path| > 0 ==> result.topPaths[0].path[0] == id
  }

  lemma CleanReport(snap: Snapshot, sim: SimConfig, results: NodeResults)
    requires IsReport(snap, sim, results) && NamesArrowFree(snap)
    ensures OwnTargets(results)
  {
    forall id | id in results
      ensures ArrowFree(id) && LeadsAtSelf(results[id], id)
    {
      if |results[id].topPaths| > 0 {
        LeadingPath(snap, sim, id, results[id]);
      }
    }
  }

  lemma OwnTargetsDistinct(results: NodeResults, cfg: ShieldConfig, decisions: seq<Decision>, origins: seq<Id>)
    requires AllMeasurable(results, cfg) && OwnTargets(results) && DecidedFrom(results, cfg, decisions, origins)
    ensures DistinctEdges(decisions)
  {
    forall i, j | 0 <= i < j < |decisions|
      ensures EdgeKey(decisions[i].source, decisions[i].target) != EdgeKey(decisions[j].source, decisions[j].target)
    {
      EdgeKeysDiffer(decisions[i].source, decisions[i].target, decisions[j].source, decisions[j].target);
    }
  }

  /** Below node capacity no simulated score reaches 1, so whatever the threshold no
      decision divides by zero. */
  lemma ReportMeasurable(snap: Snapshot, sim: SimConfig, results: NodeResults, cfg: ShieldConfig)
    requires InDegreesCounted(snap) && SourcesListed(snap) && IsReport(snap, sim, results)
    ensures AllMeasurable(results, cfg)
  {
    forall id | id in results
      ensures Measurable(results[id], cfg)
    {
      SimulatedScoreBelowOne(snap, sim, id, results[id]);
    }
  }

  lemma DecisionMeansHighRisk(results: NodeResults, cfg: ShieldConfig, decisions: seq<Decision>, origins: seq<Id>)
    returns (id: Id)
    requires AllMeasurable(results, cfg) && DecidedFrom(results, cfg, decisions, origins) && |decisions| > 0
    ensures id in results && results[id].riskScore >= cfg.shedThreshold
  {
    id := origins[0];
  }

  /** Any decision needs at least 1 / (1 - threshold) nodes; with the default
      threshold of 0.7 no graph of three or fewer nodes is ever shed. */
  lemma SheddingNeedsNodes(snap: Snapshot, sim: SimConfig, results: NodeResults, cfg: ShieldConfig,
                           decisions: seq<Decision>, origins: seq<Id>)
    requires InDegreesCounted(snap) && SourcesListed(snap)
    requires IsReport(snap, sim, results) && AllMeasurable(results, cfg)
    requires DecidedFrom(results, cfg, decisions, origins)
    requires |decisions| > 0
    ensures Reachable(|snap.nodes|, cfg.shedThreshold)
  {
    var id := DecisionMeansHighRisk(results, cfg, decisions, origins);
    HighRiskNeedsNodes(snap, sim, results, id, cfg.shedThreshold);
  }

  lemma HighRiskNeedsNodes(snap: Snapshot, sim: SimConfig, results: NodeResults, id: Id, threshold: real)
    requires InDegreesCounted(snap) && SourcesListed(snap)
    requires IsReport(snap, sim, results) && id in results && results[id].riskScore >= threshold
    ensures Reachable(|snap.nodes|, threshold)
  {
    SimulatedScoreNeedsNodes(snap, sim, id, results[id], threshold);
  }
}
