/** pkg/simulator/risk.go: the risk score of one origin node. */
module Risk {
  import opened Common
  import opened FailureModels
  import opened Snapshots
  import opened Cascade

  datatype RiskLevel = Low | Medium | High | Critical

  function ClassifyRisk(score: real, cfg: SimConfig): RiskLevel {
    if score >= cfg.riskHigh then Critical
    else if score >= cfg.riskMedium then High
    else if score >= cfg.riskLow then Medium
    else Low
  }

  predicate ExhaustedIn(run: CascadeRun, id: Id) {
    id in run.nodeStates && run.nodeStates[id] == Exhausted
  }

  predicate TimedIn(run: CascadeRun, id: Id) {
    ExhaustedIn(run, id) && id in run.timeToFailure && run.timeToFailure[id] > 0
  }

  /** Runs in which id was exhausted, those of them with a failure time, and the
      sum of these times. */
  function ExhaustedCount(runs: seq<CascadeRun>, id: Id): nat {
    if |runs| == 0 then 0
    else ExhaustedCount(runs[..|runs| - 1], id) + (if ExhaustedIn(runs[|runs| - 1], id) then 1 else 0)
  }

  function TimedCount(runs: seq<CascadeRun>, id: Id): nat {
    if |runs| == 0 then 0
    else TimedCount(runs[..|runs| - 1], id) + (if TimedIn(runs[|runs| - 1], id) then 1 else 0)
  }

  function TimedSum(runs: seq<CascadeRun>, id: Id): nat {
    if |runs| == 0 then 0
    else TimedSum(runs[..|runs| - 1], id) +
         (if TimedIn(runs[|runs| - 1], id) then runs[|runs| - 1].timeToFailure[id] else 0)
  }

  /** The nodes other than the origin that a run exhausted. */
  function ExhaustedNodes(origin: Id, run: CascadeRun): set<Id> {
    set id | id in run.nodeStates && id != origin && run.nodeStates[id] == Exhausted
  }

  /** The nodes other than the origin that some run exhausted. */
  function Affected(origin: Id, runs: seq<CascadeRun>): set<Id> {
    if |runs| == 0 then {}
    else Affected(origin, runs[..|runs| - 1]) + ExhaustedNodes(origin, runs[|runs| - 1])
  }

  lemma {:induction false} AffectedMeaning(origin: Id, runs: seq<CascadeRun>, id: Id)
    ensures id in Affected(origin, runs) <==> id != origin && ExhaustedCount(runs, id) > 0
  {
    if |runs| > 0 {
      AffectedMeaning(origin, runs[..|runs| - 1], id);
    }
  }

  lemma {:induction false} CountsWithinRuns(runs: seq<CascadeRun>, id: Id)
    ensures TimedCount(runs, id) <= ExhaustedCount(runs, id) <= |runs|
  {
    if |runs| > 0 {
      CountsWithinRuns(runs[..|runs| - 1], id);
    }
  }

  /** The counts are numbers of runs: those that exhausted the node, and those of them
      that gave it a failure time. */
  lemma {:induction false} CountsAreRuns(runs: seq<CascadeRun>, id: Id)
    ensures ExhaustedCount(runs, id) ==
            |set i | 0 <= i < |runs| && id in runs[i].nodeStates && runs[i].nodeStates[id] == Exhausted|
    ensures TimedCount(runs, id) == |set i | 0 <= i < |runs| && TimedIn(runs[i], id)|
  {
    if |runs| > 0 {
      var before := runs[..|runs| - 1];
      CountsAreRuns(before, id);
      OneElement(set i | 0 <= i < |before| && id in before[i].nodeStates && before[i].nodeStates[id] == Exhausted,
                 set i | 0 <= i < |runs| && id in runs[i].nodeStates && runs[i].nodeStates[id] == Exhausted, |before|);
      OneElement(set i | 0 <= i < |before| && TimedIn(before[i], id),
                 set i | 0 <= i < |runs| && TimedIn(runs[i], id), |before|);
    }
  }

  /** The largest in-degree, and at least 1. */
  ghost predicate IsMaxInDegree(nodes: map<Id, NodeInfo>, m: int) {
    && m >= 1
    && (forall id :: id in nodes ==> nodes[id].inDegree <= m)
    && (m == 1 || exists id :: id in nodes && nodes[id].inDegree == m)
  }

  method MaxInDegree(nodes: map<Id, NodeInfo>) returns (m: int)
    ensures IsMaxInDegree(nodes, m)
  {
    m := 1;
    var rest := nodes.Keys;
    while rest != {}
      invariant rest <= nodes.Keys && m >= 1
      invariant forall id :: id in nodes && id !in rest ==> nodes[id].inDegree <= m
      invariant m == 1 || exists id :: id in nodes && nodes[id].inDegree == m
      decreases rest
    {
      var id :| id in rest;
      if nodes[id].inDegree > m {
        m := nodes[id].inDegree;
      }
      rest := rest - {id};
    }
  }

  /** How urgent a cascade is: the inverse of the mean failure time in seconds,
      at most 10, and 1 when no time is known. */
  function Urgency(sum: nat, count: nat): real {
    if count > 0 && sum / count > 0 then MinReal(10.0, 1.0 / ((sum / count) as real / 1_000_000_000.0))
    else 1.0
  }

  function Impact(snap: Snapshot, id: Id, maxIn: int): real
    requires maxIn >= 1
  {
    if id in snap.nodes then (snap.nodes[id].inDegree + 1) as real / (maxIn + 1) as real else 1.0
  }

  function Contribution(runs: seq<CascadeRun>, snap: Snapshot, maxIn: int, id: Id): real
    requires |runs| > 0 && maxIn >= 1
  {
    Weighted(ExhaustedCount(runs, id) as real / |runs| as real, Impact(snap, id, maxIn),
             Urgency(TimedSum(runs, id), TimedCount(runs, id)))
  }

  function Weighted(share: real, impact: real, urgency: real): real {
    share * impact * urgency
  }

  ghost function Contributions(runs: seq<CascadeRun>, snap: Snapshot, maxIn: int, ids: set<Id>): map<Id, real>
    requires |runs| > 0 && maxIn >= 1
  {
    map id | id in ids :: Contribution(runs, snap, maxIn, id)
  }

  /** The score before clamping: the sum of all contributions over ten times the
      number of nodes. */
  ghost function RawScore(origin: Id, runs: seq<CascadeRun>, snap: Snapshot, maxIn: int): real
    requires |runs| > 0 && maxIn >= 1
  {
    Normalised(Sum(Contributions(runs, snap, maxIn, Affected(origin, runs))), |snap.nodes|)
  }

  function Normalised(total: real, n: nat): real {
    var maxPossible := n as real * 10.0;
    if maxPossible > 0.0 then total / maxPossible else total
  }

  ghost predicate IsRiskScore(origin: Id, runs: seq<CascadeRun>, snap: Snapshot, score: real) {
    if |runs| == 0 || Affected(origin, runs) == {} then score == 0.0
    else exists m :: IsMaxInDegree(snap.nodes, m) && score == Clamp(RawScore(origin, runs, snap, m), 0.0, 1.0)
  }

  /** The three counters the scoring loop keeps per node. */
  datatype Tally = Tally(exhausted: map<Id, nat>, ttfSum: map<Id, nat>, ttfCount: map<Id, nat>)

  ghost predicate TallyAt(tally: Tally, origin: Id, runs: seq<CascadeRun>, id: Id) {
    && (id in tally.exhausted <==> id != origin && ExhaustedCount(runs, id) > 0)
    && (id in tally.exhausted ==> tally.exhausted[id] == ExhaustedCount(runs, id))
    && (id in tally.ttfCount <==> id != origin && TimedCount(runs, id) > 0)
    && (id in tally.ttfCount ==> tally.ttfCount[id] == TimedCount(runs, id))
    && (id in tally.ttfSum <==> id in tally.ttfCount)
    && (id in tally.ttfSum ==> tally.ttfSum[id] == TimedSum(runs, id))
  }

  function Bump(m: map<Id, nat>, id: Id, amount: nat): map<Id, nat> {
    m[id := (if id in m then m[id] else 0) + amount]
  }

  lemma CountsAppend(before: seq<CascadeRun>, run: CascadeRun, id: Id)
    ensures ExhaustedCount(before + [run], id) == ExhaustedCount(before, id) + (if ExhaustedIn(run, id) then 1 else 0)
    ensures TimedCount(before + [run], id) == TimedCount(before, id) + (if TimedIn(run, id) then 1 else 0)
    ensures TimedSum(before + [run], id) ==
            TimedSum(before, id) + (if TimedIn(run, id) then run.timeToFailure[id] else 0)
  {
    assert (before + [run])[..|before|] == before;
  }

  lemma {:induction false} NoTimesNoSum(runs: seq<CascadeRun>, id: Id)
    ensures TimedCount(runs, id) == 0 ==> TimedSum(runs, id) == 0
    ensures ExhaustedCount(runs, id) == 0 ==> TimedCount(runs, id) == 0
  {
    if |runs| > 0 {
      NoTimesNoSum(runs[..|runs| - 1], id);
    }
  }

  ghost predicate SameAt(a: Tally, b: Tally, id: Id) {
    && (id in a.exhausted <==> id in b.exhausted) && (id in a.exhausted ==> a.exhausted[id] == b.exhausted[id])
    && (id in a.ttfSum <==> id in b.ttfSum) && (id in a.ttfSum ==> a.ttfSum[id] == b.ttfSum[id])
    && (id in a.ttfCount <==> id in b.ttfCount) && (id in a.ttfCount ==> a.ttfCount[id] == b.ttfCount[id])
  }

  /** Adds one node of one run to the counters. */
  method TallyNode(origin: Id, run: CascadeRun, tally0: Tally, nodeID: Id, ghost before: seq<CascadeRun>)
    returns (tally: Tally)
    requires nodeID in run.nodeStates && TallyAt(tally0, origin, before, nodeID)
    ensures TallyAt(tally, origin, before + [run], nodeID)
    ensures forall id :: id != nodeID ==> SameAt(tally0, tally, id)
  {
    CountsAppend(before, run, nodeID);
    NoTimesNoSum(before, nodeID);
    tally := tally0;
    if nodeID == origin {
      return;
    }
    if run.nodeStates[nodeID] == Exhausted {
      tally := tally.(exhausted := Bump(tally.exhausted, nodeID, 1));
      if nodeID in run.timeToFailure && run.timeToFailure[nodeID] > 0 {
        tally := tally.(ttfSum := Bump(tally.ttfSum, nodeID, run.timeToFailure[nodeID]),
                        ttfCount := Bump(tally.ttfCount, nodeID, 1));
      }
    }
  }

  /** While a run is being added, nodes not yet reached are still as before. */
  ghost predicate Midway(tally: Tally, origin: Id, before: seq<CascadeRun>, run: CascadeRun, rest: set<Id>, id: Id) {
    TallyAt(tally, origin, if id in rest then before else before + [run], id)
  }

  /** Adds one run to the counters, its nodes in any order. */
  method TallyRun(origin: Id, run: CascadeRun, tally0: Tally, ghost before: seq<CascadeRun>) returns (tally: Tally)
    requires forall id :: TallyAt(tally0, origin, before, id)
    ensures forall id :: TallyAt(tally, origin, before + [run], id)
  {
    tally := tally0;
    var rest := run.nodeStates.Keys;
    forall id
      ensures Midway(tally, origin, before, run, rest, id)
    {
      assert TallyAt(tally0, origin, before, id);
      CountsAppend(before, run, id);
    }
    while rest != {}
      invariant rest <= run.nodeStates.Keys
      invariant forall id :: Midway(tally, origin, before, run, rest, id)
      decreases rest
    {
      var nodeID :| nodeID in rest;
      assert Midway(tally, origin, before, run, rest, nodeID);
      ghost var was, restBefore := tally, rest;
      tally := TallyNode(origin, run, tally, nodeID, before);
      rest := rest - {nodeID};
      forall id
        ensures Midway(tally, origin, before, run, rest, id)
      {
        assert Midway(was, origin, before, run, restBefore, id);
        assert id != nodeID ==> SameAt(was, tally, id);
      }
    }
    forall id
      ensures TallyAt(tally, origin, before + [run], id)
    {
      assert Midway(tally, origin, before, run, rest, id);
    }
  }

  method ComputeRiskScore(origin: Id, runs: seq<CascadeRun>, snap: Snapshot) returns (score: real)
    ensures IsRiskScore(origin, runs, snap, score)
  {
    if |runs| == 0 {
      return 0.0;
    }
    var maxInDegree := MaxInDegree(snap.nodes);
    var tally := Tally(map[], map[], map[]);
    for i := 0 to |runs|
      invariant forall id :: TallyAt(tally, origin, runs[..i], id)
    {
      assert runs[..i + 1] == runs[..i] + [runs[i]];
      tally := TallyRun(origin, runs[i], tally, runs[..i]);
    }
    assert runs[..|runs|] == runs;
    TallyIsAffected(tally, origin, runs);
    if |tally.exhausted| == 0 {
      return 0.0;
    }
    var riskScore := SumContributions(origin, runs, snap, maxInDegree, tally);
    riskScore := Normalised(riskScore, |snap.nodes|);
    score := MinReal(1.0, MaxReal(0.0, riskScore));
    assert score == Clamp(RawScore(origin, runs, snap, maxInDegree), 0.0, 1.0);
  }

  lemma TallyIsAffected(tally: Tally, origin: Id, runs: seq<CascadeRun>)
    requires forall id :: TallyAt(tally, origin, runs, id)
    ensures tally.exhausted.Keys == Affected(origin, runs)
    ensures |tally.exhausted| == 0 <==> Affected(origin, runs) == {}
  {
    forall id
      ensures id in tally.exhausted <==> id in Affected(origin, runs)
    {
      assert TallyAt(tally, origin, runs, id);
      AffectedMeaning(origin, runs, id);
    }
    assert |tally.exhausted| == |tally.exhausted.Keys|;
  }

  /** The scoring loop, over the affected nodes in any order. */
  method SumContributions(origin: Id, runs: seq<CascadeRun>, snap: Snapshot, maxInDegree: int, tally: Tally)
    returns (riskScore: real)
    requires |runs| > 0 && maxInDegree >= 1
    requires forall id :: TallyAt(tally, origin, runs, id)
    ensures riskScore == Sum(Contributions(runs, snap, maxInDegree, tally.exhausted.Keys))
  {
    riskScore := 0.0;
    var rest := tally.exhausted.Keys;
    ghost var done: set<Id> := {};
    while rest != {}
      invariant rest + done == tally.exhausted.Keys && rest !! done
      invariant riskScore == Sum(Contributions(runs, snap, maxInDegree, done))
      decreases rest
    {
      var nodeID :| nodeID in rest;
      assert TallyAt(tally, origin, runs, nodeID);
      var term := ContributionOf(runs, snap, maxInDegree, tally, nodeID, origin);
      ghost var all := Contributions(runs, snap, maxInDegree, done);
      SumInsert(all, nodeID, term);
      assert Contributions(runs, snap, maxInDegree, done + {nodeID}) == all[nodeID := term];
      riskScore := riskScore + term;
      rest := rest - {nodeID};
      done := done + {nodeID};
    }
    assert done == tally.exhausted.Keys;
  }

  method ContributionOf(runs: seq<CascadeRun>, snap: Snapshot, maxInDegree: int, tally: Tally, nodeID: Id,
                        ghost origin: Id)
    returns (term: real)
    requires |runs| > 0 && maxInDegree >= 1 && nodeID in tally.exhausted
    requires TallyAt(tally, origin, runs, nodeID)
    ensures term == Contribution(runs, snap, maxInDegree, nodeID)
  {
    var pCascade := tally.exhausted[nodeID] as real / |runs| as real;
    var impact := Impact(snap, nodeID, maxInDegree);
    var urgency := 1.0;
    if nodeID in tally.ttfCount {
      var meanTTF := tally.ttfSum[nodeID] / tally.ttfCount[nodeID];
      if meanTTF > 0 {
        urgency := MinReal(10.0, 1.0 / (meanTTF as real / 1_000_000_000.0));
      }
    }
    term := Weighted(pCascade, impact, urgency);
  }

  // ---------------------------------------------------------------------
  // Bounds
  // ---------------------------------------------------------------------

  lemma ShareBound(part: int, whole: int)
    requires 0 <= part <= whole && whole > 0
    ensures 0.0 <= part as real / whole as real <= 1.0
  {
  }

  lemma UrgencyBound(sum: nat, count: nat)
    ensures 0.0 <= Urgency(sum, count) <= 10.0
  {
    if count > 0 && sum / count > 0 {
      var seconds := (sum / count) as real / 1_000_000_000.0;
      assert seconds > 0.0;
      assert 1.0 / seconds > 0.0;
    }
  }

  lemma FractionOf(a: real, b: real, top: real)
    requires 0.0 <= a <= 1.0 && 0.0 <= b <= top
    ensures 0.0 <= a * b <= top
  {
    ProductMonotone(b, 0.0, a);
    ProductMonotone(b, a, 1.0);
  }

  lemma ProductBound(a: real, b: real, c: real)
    requires 0.0 <= a <= 1.0 && 0.0 <= b <= 1.0 && 0.0 <= c <= 10.0
    ensures 0.0 <= Weighted(a, b, c) <= 10.0
  {
    FractionOf(a, b, 1.0);
    FractionOf(a * b, c, 10.0);
  }

  // ---------------------------------------------------------------------
  // What the score measures
  // ---------------------------------------------------------------------

  /** Levels cut the scores at the three thresholds. */
  lemma LevelMeaning(score: real, cfg: SimConfig)
    requires cfg.riskLow <= cfg.riskMedium <= cfg.riskHigh
    ensures ClassifyRisk(score, cfg) == Low <==> score < cfg.riskLow
    ensures ClassifyRisk(score, cfg) == Medium <==> cfg.riskLow <= score < cfg.riskMedium
    ensures ClassifyRisk(score, cfg) == High <==> cfg.riskMedium <= score < cfg.riskHigh
    ensures ClassifyRisk(score, cfg) == Critical <==> score >= cfg.riskHigh
  {
  }

  /** Urgency is 10 up to a mean of a tenth of a second, beyond that the inverse of the
      mean in seconds, and 1 without a mean. */
  lemma UrgencyMeaning(sum: nat, count: nat)
    ensures count == 0 || sum < count ==> Urgency(sum, count) == 1.0
    ensures count > 0 && sum >= count ==>
      var mean := sum / count;
      && mean >= 1
      && (mean <= 100_000_000 ==> Urgency(sum, count) == 10.0)
      && (mean >= 100_000_000 ==> Urgency(sum, count) * mean as real == 1_000_000_000.0)
  {
    if count > 0 {
      DivAtLeastOne(sum, count);
      if sum >= count {
        InverseSeconds((sum / count) as real);
      }
    }
  }

  lemma DivAtLeastOne(sum: nat, count: nat)
    requires count > 0
    ensures sum / count >= 1 <==> sum >= count
  {
  }

  lemma InverseSeconds(mean: real)
    requires mean > 0.0
    ensures 1.0 / (mean / 1_000_000_000.0) * mean == 1_000_000_000.0
    ensures mean <= 100_000_000.0 <==> 1.0 / (mean / 1_000_000_000.0) >= 10.0
  {
    var seconds := mean / 1_000_000_000.0;
    var inverse := 1.0 / seconds;
    SharesOf(1.0, seconds, inverse);
    assert inverse * mean == inverse * seconds * 1_000_000_000.0;
    if seconds <= 0.1 {
      if inverse < 10.0 {
        PositiveProduct(seconds, 10.0 - inverse);
      }
    } else {
      if inverse >= 10.0 {
        ProductMonotone(seconds, 10.0, inverse);
      }
    }
  }

  /** A shorter mean is never less urgent. */
  lemma UrgencyFalls(sum: nat, sum': nat, count: nat)
    requires count <= sum' <= sum
    ensures Urgency(sum, count) <= Urgency(sum', count)
  {
    UrgencyMeaning(sum, count);
    UrgencyMeaning(sum', count);
    UrgencyBound(sum, count);
    UrgencyBound(sum', count);
    hide Urgency;
    if count > 0 {
      var m, m', u, u' := sum / count, sum' / count, Urgency(sum, count), Urgency(sum', count);
      DivMonotone(sum', sum, count);
      if m' > 100_000_000 {
        InverseFalls(m as real, m' as real, u, u', 1_000_000_000.0);
      }
    }
  }

  lemma InverseFalls(m: real, m': real, u: real, u': real, k: real)
    requires 0.0 < m' <= m && 0.0 <= u && u * m == k && u' * m' == k
    ensures u <= u'
  {
    if u > u' {
      StrictProduct(m', u', u);
      ProductMonotone(u, m', m);
    }
  }

  /** Impact is in-degree plus one over the maximum plus one, and 1 off the snapshot. */
  lemma ImpactMeaning(snap: Snapshot, id: Id, maxIn: int)
    requires maxIn >= 1
    ensures if id in snap.nodes
      then Impact(snap, id, maxIn) * (maxIn + 1) as real == (snap.nodes[id].inDegree + 1) as real
      else Impact(snap, id, maxIn) == 1.0
  {
    if id in snap.nodes {
      SharesOf((snap.nodes[id].inDegree + 1) as real, (maxIn + 1) as real, Impact(snap, id, maxIn));
    }
  }

  /** A contribution is impact times urgency, for the share of runs that exhausted the
      node. */
  lemma ContributionMeaning(runs: seq<CascadeRun>, snap: Snapshot, maxIn: int, id: Id) returns (share: real)
    requires |runs| > 0 && maxIn >= 1
    ensures share * |runs| as real == ExhaustedCount(runs, id) as real
    ensures Contribution(runs, snap, maxIn, id) ==
            share * Impact(snap, id, maxIn) * Urgency(TimedSum(runs, id), TimedCount(runs, id))
  {
    hide Impact, Urgency, ExhaustedCount, TimedSum, TimedCount;
    share := ExhaustedCount(runs, id) as real / |runs| as real;
    SharesOf(ExhaustedCount(runs, id) as real, |runs| as real, share);
  }

  /** Ten times the number of nodes, times the score, is the sum of contributions. */
  lemma RawScoreMeaning(origin: Id, runs: seq<CascadeRun>, snap: Snapshot, maxIn: int)
    requires |runs| > 0 && maxIn >= 1 && |snap.nodes| > 0
    ensures RawScore(origin, runs, snap, maxIn) * (10.0 * |snap.nodes| as real) ==
            Sum(map id | id in Affected(origin, runs) :: Contribution(runs, snap, maxIn, id))
  {
    hide Sum, Affected, Normalised, Contribution;
    assert Contributions(runs, snap, maxIn, Affected(origin, runs)) ==
           map id | id in Affected(origin, runs) :: Contribution(runs, snap, maxIn, id);
    NormalisedMeaning(Sum(Contributions(runs, snap, maxIn, Affected(origin, runs))), |snap.nodes|);
  }

  lemma NormalisedMeaning(total: real, n: nat)
    requires n > 0
    ensures Normalised(total, n) * (10.0 * n as real) == total
  {
    SharesOf(total, n as real * 10.0, Normalised(total, n));
  }

  /** The maximum in-degree is unique. */
  lemma MaxUnique(nodes: map<Id, NodeInfo>, m: int, m': int)
    requires IsMaxInDegree(nodes, m) && IsMaxInDegree(nodes, m')
    ensures m == m'
  {
  }

  /** Runs that exhaust the same nodes as often, with no larger total of times. */
  ghost predicate NoSlowerAt(runs: seq<CascadeRun>, runs': seq<CascadeRun>, id: Id) {
    && ExhaustedCount(runs', id) == ExhaustedCount(runs, id)
    && TimedCount(runs', id) == TimedCount(runs, id)
    && TimedSum(runs', id) <= TimedSum(runs, id)
  }

  lemma {:induction false} TimedSumAtLeast(runs: seq<CascadeRun>, id: Id)
    ensures TimedCount(runs, id) <= TimedSum(runs, id)
  {
    if |runs| > 0 {
      TimedSumAtLeast(runs[..|runs| - 1], id);
    }
  }

  lemma ContributionRises(runs: seq<CascadeRun>, runs': seq<CascadeRun>, snap: Snapshot, maxIn: int, id: Id)
    requires |runs| == |runs'| > 0 && maxIn >= 1 && NoSlowerAt(runs, runs', id) && InDegreesCounted(snap)
    ensures Contribution(runs, snap, maxIn, id) <= Contribution(runs', snap, maxIn, id)
  {
    TimedSumAtLeast(runs', id);
    UrgencyFalls(TimedSum(runs, id), TimedSum(runs', id), TimedCount(runs, id));
    var share, impact := ExhaustedCount(runs, id) as real / |runs| as real, Impact(snap, id, maxIn);
    CountsWithinRuns(runs, id);
    ShareBound(ExhaustedCount(runs, id), |runs|);
    ImpactNotNegative(snap, id, maxIn);
    hide Impact, Urgency, ExhaustedCount, TimedSum, TimedCount;
    WeightedRises(share, impact, Urgency(TimedSum(runs, id), TimedCount(runs, id)),
                  Urgency(TimedSum(runs', id), TimedCount(runs', id)));
  }

  lemma ImpactNotNegative(snap: Snapshot, id: Id, maxIn: int)
    requires maxIn >= 1 && InDegreesCounted(snap)
    ensures Impact(snap, id, maxIn) >= 0.0
  {
  }

  lemma WeightedRises(share: real, impact: real, u: real, u': real)
    requires share >= 0.0 && impact >= 0.0 && u <= u'
    ensures Weighted(share, impact, u) <= Weighted(share, impact, u')
  {
    ProductMonotone(share, 0.0, impact);
    ProductMonotone(share * impact, u, u');
  }

  /** A faster cascade never scores lower: with the same nodes exhausted as often, shorter
      failure times leave the score or raise it. */
  lemma FasterNeverScoresLower(origin: Id, runs: seq<CascadeRun>, runs': seq<CascadeRun>, snap: Snapshot,
                               score: real, score': real)
    requires |runs| == |runs'| && InDegreesCounted(snap) && forall id :: NoSlowerAt(runs, runs', id)
    requires IsRiskScore(origin, runs, snap, score) && IsRiskScore(origin, runs', snap, score')
    ensures score <= score'
  {
    hide RawScore, Affected, InDegreesCounted, NoSlowerAt;
    SameAffected(origin, runs, runs');
    if |runs| > 0 && Affected(origin, runs) != {} {
      var m :| IsMaxInDegree(snap.nodes, m) && score == Clamp(RawScore(origin, runs, snap, m), 0.0, 1.0);
      var m' :| IsMaxInDegree(snap.nodes, m') && score' == Clamp(RawScore(origin, runs', snap, m'), 0.0, 1.0);
      MaxUnique(snap.nodes, m, m');
      RawScoreRises(origin, runs, runs', snap, m);
    }
  }

  lemma SameAffected(origin: Id, runs: seq<CascadeRun>, runs': seq<CascadeRun>)
    requires forall id :: NoSlowerAt(runs, runs', id)
    ensures Affected(origin, runs) == Affected(origin, runs')
  {
    forall id
      ensures id in Affected(origin, runs) <==> id in Affected(origin, runs')
    {
      AffectedMeaning(origin, runs, id);
      AffectedMeaning(origin, runs', id);
      assert NoSlowerAt(runs, runs', id);
    }
  }

  lemma RawScoreRises(origin: Id, runs: seq<CascadeRun>, runs': seq<CascadeRun>, snap: Snapshot, maxIn: int)
    requires |runs| == |runs'| > 0 && maxIn >= 1 && InDegreesCounted(snap)
    requires forall id :: NoSlowerAt(runs, runs', id)
    ensures RawScore(origin, runs, snap, maxIn) <= RawScore(origin, runs', snap, maxIn)
  {
    SameAffected(origin, runs, runs');
    var ids := Affected(origin, runs);
    var m, m' := Contributions(runs, snap, maxIn, ids), Contributions(runs', snap, maxIn, ids);
    forall id | id in m
      ensures m[id] <= m'[id]
    {
      assert NoSlowerAt(runs, runs', id);
      ContributionRises(runs, runs', snap, maxIn, id);
    }
    SumMonotone(m, m');
    if |snap.nodes| > 0 {
      QuotientMonotone(|snap.nodes| as real * 10.0, Sum(m), Sum(m'));
    }
  }

  /** The documented impact is in-degree over the maximum; the code adds 1 to both,
      which is higher for every node but those with the maximum. */
  lemma DocumentedImpactIff(snap: Snapshot, id: Id, maxIn: int)
    requires id in snap.nodes && 0 <= snap.nodes[id].inDegree <= maxIn && maxIn >= 1
    ensures var documented := snap.nodes[id].inDegree as real / maxIn as real;
      && documented <= Impact(snap, id, maxIn)
      && (documented == Impact(snap, id, maxIn) <==> snap.nodes[id].inDegree == maxIn)
  {
    AddedToBoth(snap.nodes[id].inDegree, maxIn);
  }

  lemma AddedToBoth(k: int, m: int)
    requires 0 <= k <= m && m >= 1
    ensures k as real / m as real <= (k + 1) as real / (m + 1) as real
    ensures k as real / m as real == (k + 1) as real / (m + 1) as real <==> k == m
  {
    RatioOfNext(k as real, m as real, (k + 1) as real, (m + 1) as real, k as real / m as real,
                (k + 1) as real / (m + 1) as real);
  }

  lemma RatioOfNext(k: real, m: real, k': real, m': real, a: real, b: real)
    requires 0.0 <= k <= m && m > 0.0 && k' == k + 1.0 && m' == m + 1.0 && a == k / m && b == k' / m'
    ensures a <= b && (a == b <==> k == m)
  {
    SharesOf(k, m, a);
    SharesOf(k', m', b);
    if k == m {
      OverItself(m);
      OverItself(m');
    } else {
      LessThanOne(k, m, a);
      NextTimes(a, m, m');
      CancelRealFactor(m', a, b);
    }
  }

  lemma LessThanOne(k: real, m: real, a: real)
    requires 0.0 <= k < m && m * a == k
    ensures a < 1.0
  {
    if a >= 1.0 {
      ProductMonotone(m, 1.0, a);
    }
  }

  lemma NextTimes(a: real, m: real, m': real)
    requires m' == m + 1.0
    ensures m' * a == m * a + a
  {
  }

  ghost predicate InDegreesCounted(snap: Snapshot) {
    forall id :: id in snap.nodes ==> snap.nodes[id].inDegree >= 0
  }

  lemma ContributionBound(runs: seq<CascadeRun>, snap: Snapshot, maxIn: int, id: Id)
    requires |runs| > 0 && IsMaxInDegree(snap.nodes, maxIn) && InDegreesCounted(snap)
    ensures 0.0 <= Contribution(runs, snap, maxIn, id) <= 10.0
  {
    hide Weighted, Urgency;
    CountsWithinRuns(runs, id);
    ShareBound(ExhaustedCount(runs, id), |runs|);
    if id in snap.nodes {
      ShareBound(snap.nodes[id].inDegree + 1, maxIn + 1);
    }
    UrgencyBound(TimedSum(runs, id), TimedCount(runs, id));
    ProductBound(ExhaustedCount(runs, id) as real / |runs| as real, Impact(snap, id, maxIn),
                 Urgency(TimedSum(runs, id), TimedCount(runs, id)));
  }

  lemma RatioBound(total: real, k: nat, n: nat)
    requires n > 0 && 0.0 <= total <= k as real * 10.0
    ensures 0.0 <= Normalised(total, n) <= k as real / n as real
  {
    var d := n as real * 10.0;
    QuotientMonotone(d, 0.0, total);
    QuotientMonotone(d, total, k as real * 10.0);
    assert (k as real * 10.0) / d == k as real / n as real;
  }

  /** Every score is at most the share of affected nodes among the snapshot's
      nodes. */
  lemma RawScoreBound(origin: Id, runs: seq<CascadeRun>, snap: Snapshot, maxIn: int)
    requires |runs| > 0 && IsMaxInDegree(snap.nodes, maxIn) && InDegreesCounted(snap) && |snap.nodes| > 0
    ensures 0.0 <= RawScore(origin, runs, snap, maxIn) <= |Affected(origin, runs)| as real / |snap.nodes| as real
  {
    ContributionsBound(runs, snap, maxIn, Affected(origin, runs));
    RatioBound(Sum(Contributions(runs, snap, maxIn, Affected(origin, runs))), |Affected(origin, runs)|, |snap.nodes|);
  }

  lemma ContributionsBound(runs: seq<CascadeRun>, snap: Snapshot, maxIn: int, ids: set<Id>)
    requires |runs| > 0 && IsMaxInDegree(snap.nodes, maxIn) && InDegreesCounted(snap)
    ensures 0.0 <= Sum(Contributions(runs, snap, maxIn, ids)) <= |ids| as real * 10.0
  {
    var m := Contributions(runs, snap, maxIn, ids);
    forall id | id in m
      ensures 0.0 <= m[id] <= 10.0
    {
      ContributionBound(runs, snap, maxIn, id);
    }
    SumBounds(m, 0.0, 10.0);
    MultipleIsProduct(|m|, 0.0);
    MultipleIsProduct(|m|, 10.0);
    assert m.Keys == ids;
    assert |m| == |m.Keys|;
  }

  /** Every run comes from propagation over this snapshot from this origin. */
  ghost predicate CascadesFrom(snap: Snapshot, cfg: SimConfig, origin: Id, runs: seq<CascadeRun>)
  {
    forall i :: 0 <= i < |runs| ==> CascadeOf(snap, cfg, origin, runs[i])
  }

  ghost predicate CascadeOf(snap: Snapshot, cfg: SimConfig, origin: Id, run: CascadeRun)
  {
    exists injected: Effect, t: Trace :: IsCascade(snap, cfg, origin, injected, run, t)
  }

  /** Every source of an edge is listed as a node. */
  ghost predicate SourcesListed(snap: Snapshot) {
    snap.edges.Keys <= snap.nodes.Keys
  }

  lemma ExhaustedIsSource(snap: Snapshot, cfg: SimConfig, origin: Id, run: CascadeRun, id: Id)
    requires CascadeOf(snap, cfg, origin, run)
    requires ExhaustedIn(run, id) && id != origin
    ensures id in snap.edges
  {
    var injected: Effect, t: Trace :| IsCascade(snap, cfg, origin, injected, run, t);
    UnhealthyIsPath(snap, cfg, origin, injected, run, t, id);
    var i: nat :| i < |run.path| && run.path[i] == id;
    PathFollowsCalls(snap, cfg, origin, injected, run, t, i);
  }

  lemma {:induction false} AffectedAreSources(snap: Snapshot, cfg: SimConfig, origin: Id, runs: seq<CascadeRun>)
    requires CascadesFrom(snap, cfg, origin, runs)
    ensures Affected(origin, runs) <= snap.edges.Keys - {origin}
  {
    if |runs| > 0 {
      var before, run := runs[..|runs| - 1], runs[|runs| - 1];
      AffectedAreSources(snap, cfg, origin, before);
      forall id | id in run.nodeStates && id != origin && ExhaustedIn(run, id)
        ensures id in snap.edges
      {
        ExhaustedIsSource(snap, cfg, origin, run, id);
      }
    }
  }

  /** Risk score bound: when the origin and all edge sources are among the n
      snapshot nodes, the unclamped score already lies in [0, (n-1)/n], so the
      final clamp changes nothing. */
  lemma ClampNeverActive(snap: Snapshot, cfg: SimConfig, origin: Id, runs: seq<CascadeRun>, maxIn: int)
    requires CascadesFrom(snap, cfg, origin, runs) && |runs| > 0
    requires IsMaxInDegree(snap.nodes, maxIn) && InDegreesCounted(snap)
    requires origin in snap.nodes && SourcesListed(snap)
    ensures |snap.nodes| > 0
    ensures 0.0 <= RawScore(origin, runs, snap, maxIn) <= (|snap.nodes| - 1) as real / |snap.nodes| as real < 1.0
  {
    hide RawScore, CascadesFrom, IsMaxInDegree, InDegreesCounted, Affected;
    var nodes := snap.nodes.Keys;
    assert |nodes - {origin}| == |nodes| - 1;
    AffectedAreSources(snap, cfg, origin, runs);
    SubsetSize(Affected(origin, runs), nodes - {origin});
    RawScoreBound(origin, runs, snap, maxIn);
    QuotientOrder(|Affected(origin, runs)|, |nodes| - 1, |nodes|);
  }

  lemma QuotientOrder(k: nat, m: nat, n: nat)
    requires k <= m < n
    ensures k as real / n as real <= m as real / n as real < 1.0
  {
  }

  /** The same bound on the score itself. */
  lemma ScoreBound(snap: Snapshot, cfg: SimConfig, origin: Id, runs: seq<CascadeRun>, score: real)
    requires CascadesFrom(snap, cfg, origin, runs)
    requires InDegreesCounted(snap) && origin in snap.nodes && SourcesListed(snap)
    requires IsRiskScore(origin, runs, snap, score)
    ensures |snap.nodes| > 0
    ensures 0.0 <= score <= (|snap.nodes| - 1) as real / |snap.nodes| as real
    ensures score < 1.0
  {
    hide RawScore, Affected, InDegreesCounted, CascadesFrom, SourcesListed;
    assert |snap.nodes.Keys| > 0;
    if |runs| > 0 && Affected(origin, runs) != {} {
      var m :| IsMaxInDegree(snap.nodes, m) && score == Clamp(RawScore(origin, runs, snap, m), 0.0, 1.0);
      ClampNeverActive(snap, cfg, origin, runs, m);
    }
  }

  /** n nodes are enough for a score to reach the threshold: at least
      1 / (1 - threshold) of them, so at least four for the default of 0.7. */
  ghost predicate Reachable(n: nat, threshold: real) {
    n as real * (1.0 - threshold) >= 1.0 && (threshold == 0.7 ==> n >= 4)
  }

  /** Consequently a score that reaches a threshold below 1 needs at least
      1 / (1 - threshold) nodes. */
  lemma ScoreNeedsNodes(snap: Snapshot, cfg: SimConfig, origin: Id, runs: seq<CascadeRun>, score: real, threshold: real)
    requires CascadesFrom(snap, cfg, origin, runs)
    requires InDegreesCounted(snap) && origin in snap.nodes && SourcesListed(snap)
    requires IsRiskScore(origin, runs, snap, score)
    requires score >= threshold
    ensures Reachable(|snap.nodes|, threshold)
  {
    ScoreBound(snap, cfg, origin, runs, score);
    ThresholdArithmetic(|snap.nodes|, score, threshold);
  }

  lemma ThresholdArithmetic(n: nat, score: real, threshold: real)
    requires n > 0 && threshold <= score <= (n - 1) as real / n as real
    ensures Reachable(n, threshold)
  {
    var r := (n - 1) as real / n as real;
    assert r * n as real == (n - 1) as real;
    ProductMonotone(n as real, threshold, r);
  }
}
