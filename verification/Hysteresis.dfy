/** The removal promise of pkg/shield/recovery.go and pkg/shield/config.go: an edge is
    given up only after its target's risk has stayed below the recovery threshold
    for all low intervals. */
module Hysteresis {
  import opened Common
  import opened PathKeys
  import opened Risk
  import opened Sorting
  import opened Report
  import opened Engine
  import opened Strategy
  import opened EdgeTrack
  import opened Recovery

  /** The leading path of a result continues with s. */
  predicate LeadsTo(result: NodeResult, s: Id) {
    |result.topPaths| > 0 && |result.topPaths[0].path| >= 2 && result.topPaths[0].path[1] == s
  }

  /** The result asks to shed the calls of s. */
  predicate ShedsVia(result: NodeResult, cfg: ShieldConfig, s: Id) {
    result.riskScore >= cfg.shedThreshold && LeadsTo(result, s)
  }

  /** What a report decides about the edge from s to t. */
  function EdgeDecision(results: NodeResults, cfg: ShieldConfig, s: Id, t: Id): Option<real>
    requires t in results ==> Measurable(results[t], cfg)
  {
    if t in results && ShedsVia(results[t], cfg, s) then Some(ShedFraction(results[t].riskScore, cfg)) else None
  }

  lemma {:induction false} TargetAtIndex(decisions: seq<Decision>, i: nat, k: string)
    requires DistinctEdges(decisions) && i < |decisions|
    requires EdgeKey(decisions[i].source, decisions[i].target) == k
    ensures TargetAt(decisions, k) == Some(decisions[i].shedPercent)
  {
    if i < |decisions| - 1 {
      TargetAtIndex(decisions[..|decisions| - 1], i, k);
    }
  }

  /** Who is decided: the edge from s to t gets a decision exactly when t has a result
      at or above the threshold whose leading path continues with s. So it gets none
      when t has no result, is below the threshold, has no path of two nodes, or
      leads to another caller, however high its risk. */
  lemma EdgeDecidedIff(results: NodeResults, cfg: ShieldConfig, decisions: seq<Decision>, origins: seq<Id>,
                       s: Id, t: Id)
    requires AllMeasurable(results, cfg) && OwnTargets(results) && ArrowFree(t)
    requires DecidedFrom(results, cfg, decisions, origins)
    ensures TargetAt(decisions, EdgeKey(s, t)) == EdgeDecision(results, cfg, s, t)
    ensures TargetAt(decisions, EdgeKey(s, t)).Some? <==>
      && t in results && results[t].riskScore >= cfg.shedThreshold
      && |results[t].topPaths| > 0 && |results[t].topPaths[0].path| >= 2 && results[t].topPaths[0].path[1] == s
  {
    OwnTargetsDistinct(results, cfg, decisions, origins);
    DecidedOnlyVia(results, cfg, decisions, origins, s, t);
    if t in results && ShedsVia(results[t], cfg, s) {
      assert DecisionFor(results[t], cfg).Some?;
      var i :| 0 <= i < |origins| && origins[i] == t;
      DecidedAt(results, cfg, decisions, origins, i);
      TargetAtIndex(decisions, i, EdgeKey(s, t));
    }
  }

  lemma DecidedOnlyVia(results: NodeResults, cfg: ShieldConfig, decisions: seq<Decision>, origins: seq<Id>,
                       s: Id, t: Id)
    requires AllMeasurable(results, cfg) && OwnTargets(results) && ArrowFree(t)
    requires DecidedFrom(results, cfg, decisions, origins)
    ensures TargetAt(decisions, EdgeKey(s, t)).Some? ==> t in results && ShedsVia(results[t], cfg, s)
  {
    var k := EdgeKey(s, t);
    TargetAtMeaning(decisions, k);
    if TargetAt(decisions, k).Some? {
      var i :| 0 <= i < |decisions| && k == EdgeKey(decisions[i].source, decisions[i].target);
      DecidedAt(results, cfg, decisions, origins, i);
      EdgeKeyInjective(s, t, decisions[i].source, decisions[i].target);
    }
  }

  lemma DecidedAt(results: NodeResults, cfg: ShieldConfig, decisions: seq<Decision>, origins: seq<Id>, i: nat)
    requires AllMeasurable(results, cfg) && OwnTargets(results)
    requires DecidedFrom(results, cfg, decisions, origins) && i < |decisions|
    ensures var d := decisions[i];
      && d.target == origins[i] && d.target in results && ArrowFree(d.target)
      && ShedsVia(results[d.target], cfg, d.source) && d.shedPercent == ShedFraction(results[d.target].riskScore, cfg)
  {
    assert DecisionFor(results[origins[i]], cfg) == Some(decisions[i]);
    assert LeadsAtSelf(results[origins[i]], origins[i]);
  }

  /** So one tick of the manager on a report takes each edge through one tick of its
      own, with the decision that its target's result leads to. */
  lemma EdgeTick(results: NodeResults, cfg: ShieldConfig, decisions: seq<Decision>, origins: seq<Id>,
                 states: States, s: Id, t: Id)
    requires AllMeasurable(results, cfg) && OwnTargets(results) && ArrowFree(t) && WellKeyed(states)
    requires DecidedFrom(results, cfg, decisions, origins)
    ensures TrackAt(NextStates(cfg, states, decisions), EdgeKey(s, t)) ==
            Tick(cfg, TrackAt(states, EdgeKey(s, t)), EdgeDecision(results, cfg, s, t))
  {
    OwnTargetsDistinct(results, cfg, decisions, origins);
    EdgeDecidedIff(results, cfg, decisions, origins, s, t);
    NextStatesAt(cfg, states, decisions, EdgeKey(s, t));
  }

  /** A result for node t with this risk, led by caller s. */
  function ResultFor(t: Id, score: real, s: Id): NodeResult {
    NodeResult(t, score, Low, 0, 0.0, [CascadePath([t, s], 1, 0)], [])
  }

  /** When the leading caller of a node changes, the edge from the former caller ramps
      down although its target's risk is as high as ever. */
  lemma SwitchedCallerRampsDown()
    ensures var results := map["t" := ResultFor("t", 0.9, "u")];
      && results["t"].riskScore >= DEFAULTS.shedThreshold
      && EdgeDecision(results, DEFAULTS, "s", "t").None?
      && Tick(DEFAULTS, Some(Track(0.5, 0)), EdgeDecision(results, DEFAULTS, "s", "t")) == Some(Track(0.4, 1))
  {
  }

  // ---------------------------------------------------------------------
  // The recovery threshold, which the code never reads
  // ---------------------------------------------------------------------

  /** A result whose leading path continues with s counts as low for the edge from s
      only below the recovery threshold. */
  ghost predicate LowOnlyBelow(cfg: ShieldConfig, result: NodeResult, s: Id) {
    0.0 <= result.riskScore <= 1.0 && LeadsTo(result, s) && !ShedsVia(result, cfg, s) ==>
      result.riskScore < cfg.recoveryThreshold
  }

  /** It counts as low exactly below the recovery threshold. */
  ghost predicate LowExactlyBelow(cfg: ShieldConfig, result: NodeResult, s: Id) {
    0.0 <= result.riskScore <= 1.0 && LeadsTo(result, s) ==>
      (!ShedsVia(result, cfg, s) <==> result.riskScore < cfg.recoveryThreshold)
  }

  /** Low ticks are counted below the shed threshold instead. For scores in [0,1] this
      counts only scores below the recovery threshold if and only if no score lies
      between the two, and exactly those if and only if the two thresholds separate
      the scores alike. */
  lemma RecoveryThresholdIff(cfg: ShieldConfig)
    ensures var (shed, recovery) := (cfg.shedThreshold, cfg.recoveryThreshold);
      && ((forall result, s :: LowOnlyBelow(cfg, result, s)) <==> shed <= recovery || shed <= 0.0 || recovery > 1.0)
      && ((forall result, s :: LowExactlyBelow(cfg, result, s)) <==>
            shed == recovery || (shed <= 0.0 && recovery <= 0.0) || (shed > 1.0 && recovery > 1.0))
  {
    var between := ResultFor("t", MaxReal(0.0, MinReal(cfg.shedThreshold, cfg.recoveryThreshold)), "s");
    if !(cfg.shedThreshold <= cfg.recoveryThreshold || cfg.shedThreshold <= 0.0 || cfg.recoveryThreshold > 1.0) {
      assert !LowOnlyBelow(cfg, between, "s");
    }
    if !(cfg.shedThreshold == cfg.recoveryThreshold || (cfg.shedThreshold <= 0.0 && cfg.recoveryThreshold <= 0.0) ||
         (cfg.shedThreshold > 1.0 && cfg.recoveryThreshold > 1.0))
    {
      assert !LowExactlyBelow(cfg, between, "s");
    }
  }

  /** With the defaults a risk of 0.5 counts as low, though it is above 0.3. */
  lemma DefaultsCountMediumRiskAsLow()
    ensures !LowOnlyBelow(DEFAULTS, ResultFor("t", 0.5, "s"), "s")
  {
  }

  // ---------------------------------------------------------------------
  // The promise as a whole
  // ---------------------------------------------------------------------

  /** The decision for an edge whose target has this score and leads to its source. */
  function TargetFor(cfg: ShieldConfig, score: real): Option<real>
    requires cfg.shedThreshold < 1.0
  {
    if score >= cfg.shedThreshold then Some(ShedFraction(score, cfg)) else None
  }

  function TargetsFor(cfg: ShieldConfig, scores: seq<real>): (targets: seq<Option<real>>)
    requires cfg.shedThreshold < 1.0
    ensures |targets| == |scores|
    ensures forall i :: 0 <= i < |scores| ==> targets[i] == TargetFor(cfg, scores[i])
  {
    seq(|scores|, i requires 0 <= i < |scores| => TargetFor(cfg, scores[i]))
  }

  ghost predicate Scores(scores: seq<real>) {
    forall i :: 0 <= i < |scores| ==> 0.0 <= scores[i] <= 1.0
  }

  /** The last n scores are all below the recovery threshold. */
  ghost predicate LowFor(cfg: ShieldConfig, scores: seq<real>, n: nat) {
    n <= |scores| && forall i :: |scores| - n <= i < |scores| ==> scores[i] < cfg.recoveryThreshold
  }

  /** An edge that was shed and is not any more has had low risk for all intervals. */
  ghost predicate RemovedOnlyWhenLow(cfg: ShieldConfig, scores: seq<real>)
    requires cfg.shedThreshold < 1.0
  {
    var targets := TargetsFor(cfg, scores);
    TrailingLow(targets) < |targets| && Run(cfg, None, targets).None? ==> LowFor(cfg, scores, Patience(cfg))
  }

  ghost predicate PromiseKept(cfg: ShieldConfig)
    requires cfg.shedThreshold < 1.0
  {
    forall scores: seq<real> :: Scores(scores) ==> RemovedOnlyWhenLow(cfg, scores)
  }

  lemma {:induction false} TrailingAreNone(targets: seq<Option<real>>, i: nat)
    requires |targets| - TrailingLow(targets) <= i < |targets|
    ensures targets[i].None?
  {
    if i < |targets| - 1 {
      TrailingAreNone(targets[..|targets| - 1], i);
    }
  }

  /** With equal thresholds and a shed that outlasts the intervals the promise holds. */
  lemma KeptWhenOutlasting(cfg: ShieldConfig, scores: seq<real>)
    requires EdgeTrack.Proper(cfg) && Outlasts(cfg) && cfg.recoveryThreshold == cfg.shedThreshold < 1.0
    ensures RemovedOnlyWhenLow(cfg, scores)
  {
    var targets := TargetsFor(cfg, scores);
    if TrailingLow(targets) < |targets| && Run(cfg, None, targets).None? {
      assert AtFloor(targets) by {
        forall i | 0 <= i < |targets| && targets[i].Some?
          ensures targets[i].value >= MIN_SHED
        {
          ShedFractionBounds(scores[i], cfg);
        }
      }
      if TrailingLow(targets) < Patience(cfg) {
        OutlastingIsKept(cfg, targets);
      }
      forall i | |scores| - Patience(cfg) <= i < |scores|
        ensures scores[i] < cfg.recoveryThreshold
      {
        TrailingAreNone(targets, i);
      }
    }
  }

  /** One score at the threshold, then k lower ones. */
  function OneHigh(cfg: ShieldConfig, low: real, k: nat): seq<real> {
    [cfg.shedThreshold] + seq(k, _ => low)
  }

  lemma OneHighTargets(cfg: ShieldConfig, low: real, k: nat)
    requires low < cfg.shedThreshold < 1.0
    ensures TargetsFor(cfg, OneHigh(cfg, low, k)) == OneDecision(MIN_SHED, k)
    ensures TrailingLow(TargetsFor(cfg, OneHigh(cfg, low, k))) == k
  {
    ShedFractionProportional(cfg.shedThreshold, cfg.shedThreshold, cfg);
    OneDecisionLow(MIN_SHED, k);
  }

  lemma BrokenBetween(cfg: ShieldConfig)
    requires cfg.recoveryThreshold < cfg.shedThreshold && 0.0 < cfg.shedThreshold < 1.0
    ensures !PromiseKept(cfg)
  {
    var low := MaxReal(0.0, cfg.recoveryThreshold);
    var p := Patience(cfg);
    var scores := OneHigh(cfg, low, p);
    OneHighTargets(cfg, low, p);
    RunConcat(cfg, None, [Some(MIN_SHED)], Repeat(None, p));
    GoneAfterPatience(cfg, Run(cfg, None, [Some(MIN_SHED)]), p);
    assert scores[p] == low;
    assert !RemovedOnlyWhenLow(cfg, scores);
  }

  lemma BrokenEarly(cfg: ShieldConfig)
    requires EdgeTrack.Proper(cfg) && !Outlasts(cfg)
    requires cfg.recoveryThreshold == cfg.shedThreshold && 0.0 < cfg.shedThreshold < 1.0
    ensures !PromiseKept(cfg)
  {
    var p := Patience(cfg);
    var scores := OneHigh(cfg, 0.0, p - 1);
    OneHighTargets(cfg, 0.0, p - 1);
    OneDecisionGone(cfg, p - 1);
    assert scores[0] == cfg.shedThreshold;
    assert !RemovedOnlyWhenLow(cfg, scores);
  }

  /** The removal promise for an edge whose target keeps leading to its source. With
      thresholds as documented, the recovery threshold not above the shed threshold,
      the code keeps it if and only if the two are equal and even the least shed
      outlasts the low intervals. */
  lemma RemovalPromiseIff(cfg: ShieldConfig)
    requires EdgeTrack.Proper(cfg)
    requires cfg.recoveryThreshold <= cfg.shedThreshold && 0.0 < cfg.shedThreshold < 1.0
    ensures PromiseKept(cfg) <==> cfg.recoveryThreshold == cfg.shedThreshold && Outlasts(cfg)
  {
    if cfg.recoveryThreshold < cfg.shedThreshold {
      BrokenBetween(cfg);
    } else if !Outlasts(cfg) {
      BrokenEarly(cfg);
    } else {
      forall scores: seq<real> | Scores(scores)
        ensures RemovedOnlyWhenLow(cfg, scores)
      {
        KeptWhenOutlasting(cfg, scores);
      }
    }
  }

  /** With the defaults one interval at risk 0.5 removes an edge decided at 0.7. */
  lemma DefaultsBreakRemovalPromise()
    ensures !RemovedOnlyWhenLow(DEFAULTS, [0.7, 0.5]) && !PromiseKept(DEFAULTS)
  {
    assert OneHigh(DEFAULTS, 0.5, 1) == [0.7, 0.5];
    OneHighTargets(DEFAULTS, 0.5, 1);
    MultipleIsProduct(1, DEFAULTS.rampDown);
    OneDecisionGone(DEFAULTS, 1);
    assert Scores([0.7, 0.5]);
  }
}
