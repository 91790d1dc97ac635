/** pkg/simulator/report.go: aggregation of the runs of one origin node. */
module Report {
  import opened Common
  import opened FailureModels
  import opened Cascade
  import opened Risk
  import opened PathKeys
  import opened Sorting

  datatype NodeResult = NodeResult(
    nodeID: Id, riskScore: real, riskLevel: RiskLevel, meanTTF: int, cascadeProbability: real,
    topPaths: seq<CascadePath>, affectedNodes: seq<Id>)

  /** What the aggregation loop keeps per path key. */
  datatype PathAggregator = PathAggregator(path: seq<Id>, count: nat, totalTTF: nat, ttfCount: nat)

  predicate Nontrivial(run: CascadeRun) {
    |run.path| > 1
  }

  /** The failure time of the last node of the path, 0 when it has none. */
  function LastTTF(run: CascadeRun): nat {
    if |run.path| > 0 && run.path[|run.path| - 1] in run.timeToFailure &&
       run.timeToFailure[run.path[|run.path| - 1]] > 0
    then run.timeToFailure[run.path[|run.path| - 1]] else 0
  }

  predicate HasPathKey(run: CascadeRun, key: string) {
    Nontrivial(run) && PathKey(run.path) == key
  }

  /** Runs whose non-trivial path has the given key. */
  function KeyCount(runs: seq<CascadeRun>, key: string): nat {
    if |runs| == 0 then 0
    else KeyCount(runs[..|runs| - 1], key) + (if HasPathKey(runs[|runs| - 1], key) then 1 else 0)
  }

  /** Those of them whose last node has a failure time, and the sum of the times. */
  function KeyTimed(runs: seq<CascadeRun>, key: string): nat {
    if |runs| == 0 then 0
    else KeyTimed(runs[..|runs| - 1], key) +
         (if HasPathKey(runs[|runs| - 1], key) && LastTTF(runs[|runs| - 1]) > 0 then 1 else 0)
  }

  function KeyTime(runs: seq<CascadeRun>, key: string): nat {
    if |runs| == 0 then 0
    else KeyTime(runs[..|runs| - 1], key) +
         (if HasPathKey(runs[|runs| - 1], key) then LastTTF(runs[|runs| - 1]) else 0)
  }

  /** The same over all non-trivial runs. */
  datatype Totals = Totals(nontrivial: nat, timed: nat, time: nat, cascades: nat)

  function RunTotals(origin: Id, runs: seq<CascadeRun>): Totals {
    if |runs| == 0 then Totals(0, 0, 0, 0)
    else AddRun(RunTotals(origin, runs[..|runs| - 1]), origin, runs[|runs| - 1])
  }

  function AddRun(t: Totals, origin: Id, run: CascadeRun): Totals {
    Totals(t.nontrivial + (if Nontrivial(run) then 1 else 0),
           t.timed + (if Nontrivial(run) && LastTTF(run) > 0 then 1 else 0),
           t.time + (if Nontrivial(run) then LastTTF(run) else 0),
           t.cascades + (if ExhaustedNodes(origin, run) != {} then 1 else 0))
  }

  ghost predicate Occurs(runs: seq<CascadeRun>, path: seq<Id>) {
    exists i :: 0 <= i < |runs| && runs[i].path == path
  }

  /** The aggregator of a key counts exactly the runs with that key and remembers
      one of their paths. */
  ghost predicate AggregatesAt(counts: map<string, PathAggregator>, runs: seq<CascadeRun>, key: string) {
    && (key in counts <==> KeyCount(runs, key) > 0)
    && (key in counts ==>
          var a := counts[key];
          && a.count == KeyCount(runs, key) && a.ttfCount == KeyTimed(runs, key) && a.totalTTF == KeyTime(runs, key)
          && |a.path| > 1 && PathKey(a.path) == key && Occurs(runs, a.path))
  }

  function MeanOf(total: nat, count: nat): int {
    if count > 0 then total / count else 0
  }

  function ToCascadePath(a: PathAggregator): CascadePath {
    CascadePath(a.path, a.count, MeanOf(a.totalTTF, a.ttfCount))
  }

  /** The counts as weights, to add them up. */
  ghost function Weights(counts: map<string, PathAggregator>): map<string, real> {
    map k | k in counts :: counts[k].count as real
  }

  lemma {:induction false} CountsZero(runs: seq<CascadeRun>, key: string)
    requires KeyCount(runs, key) == 0
    ensures KeyTimed(runs, key) == 0 && KeyTime(runs, key) == 0
  {
    if |runs| > 0 {
      CountsZero(runs[..|runs| - 1], key);
    }
  }

  lemma KeyCountsAppend(before: seq<CascadeRun>, run: CascadeRun, key: string)
    ensures KeyCount(before + [run], key) == KeyCount(before, key) + (if HasPathKey(run, key) then 1 else 0)
    ensures KeyTimed(before + [run], key) ==
            KeyTimed(before, key) + (if HasPathKey(run, key) && LastTTF(run) > 0 then 1 else 0)
    ensures KeyTime(before + [run], key) == KeyTime(before, key) + (if HasPathKey(run, key) then LastTTF(run) else 0)
  {
    assert (before + [run])[..|before|] == before;
  }

  lemma OccursAppend(before: seq<CascadeRun>, run: CascadeRun, path: seq<Id>)
    ensures Occurs(before, path) ==> Occurs(before + [run], path)
    ensures Occurs(before + [run], run.path)
  {
    var after := before + [run];
    assert after[|before|] == run;
    if Occurs(before, path) {
      var i :| 0 <= i < |before| && before[i].path == path;
      assert after[i].path == path;
    }
  }

  /** The aggregator of key after one more run. */
  function Aggregated(counts: map<string, PathAggregator>, key: string, run: CascadeRun): PathAggregator {
    var a := if key in counts then counts[key] else PathAggregator([], 0, 0, 0);
    var ttf := LastTTF(run);
    PathAggregator(run.path, a.count + 1, a.totalTTF + ttf, a.ttfCount + (if ttf > 0 then 1 else 0))
  }

  lemma AggregatesAppend(counts: map<string, PathAggregator>, before: seq<CascadeRun>, run: CascadeRun, key: string)
    requires AggregatesAt(counts, before, key)
    ensures AggregatesAt(
      if Nontrivial(run) then counts[PathKey(run.path) := Aggregated(counts, PathKey(run.path), run)] else counts,
      before + [run], key)
  {
    KeyCountsAppend(before, run, key);
    OccursAppend(before, run, if key in counts then counts[key].path else []);
    if key !in counts {
      CountsZero(before, key);
    }
  }

  lemma WeightsAppend(counts: map<string, PathAggregator>, key: string, run: CascadeRun)
    ensures Sum(Weights(counts[key := Aggregated(counts, key, run)])) == Sum(Weights(counts)) + 1.0
  {
    var w := Weights(counts);
    var w' := Weights(counts[key := Aggregated(counts, key, run)]);
    SumExtract(w', key);
    assert w' - {key} == w - {key};
    if key in counts {
      SumExtract(w, key);
    } else {
      assert w - {key} == w;
    }
  }

  /** Aggregates the path of one run. */
  method AggregatePath(run: CascadeRun, counts0: map<string, PathAggregator>, ghost before: seq<CascadeRun>)
    returns (counts: map<string, PathAggregator>)
    requires forall key :: AggregatesAt(counts0, before, key)
    ensures forall key :: AggregatesAt(counts, before + [run], key)
    ensures Sum(Weights(counts)) == Sum(Weights(counts0)) + (if Nontrivial(run) then 1.0 else 0.0)
  {
    counts := counts0;
    if |run.path| > 1 {
      var key := BuildPathKey(run.path);
      WeightsAppend(counts0, key, run);
      counts := counts[key := Aggregated(counts, key, run)];
    }
    forall key
      ensures AggregatesAt(counts, before + [run], key)
    {
      AggregatesAppend(counts0, before, run, key);
    }
  }

  /** The inner loop over the node states of one run. */
  method CollectExhausted(origin: Id, run: CascadeRun, affected0: set<Id>) returns (hadCascade: bool, affected: set<Id>)
    ensures affected == affected0 + ExhaustedNodes(origin, run)
    ensures hadCascade <==> ExhaustedNodes(origin, run) != {}
  {
    hadCascade, affected := false, affected0;
    var rest := run.nodeStates.Keys;
    while rest != {}
      invariant rest <= run.nodeStates.Keys
      invariant affected == affected0 + (ExhaustedNodes(origin, run) - rest)
      invariant hadCascade <==> ExhaustedNodes(origin, run) - rest != {}
      decreases rest
    {
      var nodeID :| nodeID in rest;
      ghost var was := ExhaustedNodes(origin, run) - rest;
      rest := rest - {nodeID};
      ghost var now := ExhaustedNodes(origin, run) - rest;
      if nodeID == origin {
        assert now == was;
        continue;
      }
      if run.nodeStates[nodeID] == Exhausted {
        hadCascade := true;
        affected := affected + {nodeID};
        assert now == was + {nodeID};
      } else {
        assert now == was;
      }
    }
  }

  /** Sum of all frequencies. */
  function TotalFrequency(paths: seq<CascadePath>): nat {
    if |paths| == 0 then 0 else TotalFrequency(paths[..|paths| - 1]) + paths[|paths| - 1].frequency
  }

  /** A complete listing of the aggregated paths, each once. */
  ghost predicate Lists(counts: map<string, PathAggregator>, paths: seq<CascadePath>) {
    && (forall cp :: cp in paths ==> PathKey(cp.path) in counts && cp == ToCascadePath(counts[PathKey(cp.path)]))
    && (forall key :: key in counts ==> ToCascadePath(counts[key]) in paths)
    && (forall cp :: cp in paths ==> multiset(paths)[cp] == 1)
  }

  ghost predicate KeyedByPath(counts: map<string, PathAggregator>) {
    forall key :: key in counts ==> PathKey(counts[key].path) == key
  }

  /** The aggregators already listed. */
  ghost function Listed(counts: map<string, PathAggregator>, rest: set<string>): map<string, PathAggregator> {
    map k | k in counts && k !in rest :: counts[k]
  }

  lemma ListedStep(counts: map<string, PathAggregator>, rest: set<string>, key: string)
    requires key in rest && rest <= counts.Keys && KeyedByPath(counts)
    ensures key !in Listed(counts, rest) && KeyedByPath(Listed(counts, rest)) && PathKey(counts[key].path) == key
    ensures Listed(counts, rest - {key}) == Listed(counts, rest)[key := counts[key]]
  {
  }

  lemma ListedEnds(counts: map<string, PathAggregator>)
    ensures Listed(counts, counts.Keys) == map[] && Listed(counts, {}) == counts
  {
  }

  /** Lists the aggregated paths in any order. */
  method ListPaths(counts: map<string, PathAggregator>) returns (paths: seq<CascadePath>)
    requires KeyedByPath(counts)
    ensures Lists(counts, paths)
    ensures TotalFrequency(paths) as real == Sum(Weights(counts))
  {
    paths := [];
    var rest := counts.Keys;
    ListedEnds(counts);
    assert Weights(map[]) == map[];
    hide Listed, TotalFrequency, Weights;
    while rest != {}
      invariant rest <= counts.Keys
      invariant Lists(Listed(counts, rest), paths)
      invariant TotalFrequency(paths) as real == Sum(Weights(Listed(counts, rest)))
      decreases rest
    {
      hide Lists, KeyedByPath;
      var key :| key in rest;
      ListedStep(counts, rest, key);
      ListsAppend(Listed(counts, rest), paths, key, counts[key]);
      TotalsAppend(Listed(counts, rest), paths, key, counts[key]);
      paths := paths + [ToCascadePath(counts[key])];
      rest := rest - {key};
    }
  }

  lemma ListsAppend(done: map<string, PathAggregator>, paths: seq<CascadePath>, key: string, a: PathAggregator)
    requires KeyedByPath(done) && Lists(done, paths)
    requires key !in done && PathKey(a.path) == key
    ensures Lists(done[key := a], paths + [ToCascadePath(a)])
  {
    var cp := ToCascadePath(a);
    assert cp !in paths;
    assert multiset(paths + [cp]) == multiset(paths) + multiset{cp};
  }

  lemma TotalsAppend(done: map<string, PathAggregator>, paths: seq<CascadePath>, key: string, a: PathAggregator)
    requires key !in done
    ensures TotalFrequency(paths + [ToCascadePath(a)]) == TotalFrequency(paths) + a.count
    ensures Sum(Weights(done[key := a])) == Sum(Weights(done)) + a.count as real
  {
    assert (paths + [ToCascadePath(a)])[..|paths|] == paths;
    assert Weights(done[key := a]) == Weights(done)[key := a.count as real];
    SumInsert(Weights(done), key, a.count as real);
  }

  /** Adding up does not depend on order. */
  lemma {:induction false} TotalFrequencyDelete(paths: seq<CascadePath>, j: nat)
    requires j < |paths|
    ensures TotalFrequency(paths) == TotalFrequency(paths[..j] + paths[j + 1..]) + paths[j].frequency
  {
    var n := |paths| - 1;
    if j == n {
      assert paths[..j] + paths[j + 1..] == paths[..n];
    } else {
      TotalFrequencyDelete(paths[..n], j);
      var d := paths[..j] + paths[j + 1..];
      assert d[..|d| - 1] == paths[..n][..j] + paths[..n][j + 1..];
    }
  }

  lemma {:induction false} TotalFrequencyPermutation(a: seq<CascadePath>, b: seq<CascadePath>)
    requires multiset(a) == multiset(b)
    ensures TotalFrequency(a) == TotalFrequency(b)
    decreases |a|
  {
    assert |a| == |multiset(a)| == |multiset(b)| == |b|;
    if |a| > 0 {
      var n := |a| - 1;
      var x := a[n];
      DeleteElement(a, n);
      assert a[..n] + a[n + 1..] == a[..n];
      assert x in multiset(a);
      assert x in multiset(b);
      var j :| 0 <= j < |b| && b[j] == x;
      DeleteElement(b, j);
      TotalFrequencyPermutation(a[..n], b[..j] + b[j + 1..]);
      TotalFrequencyDelete(b, j);
    }
  }

  lemma ListsPermutation(counts: map<string, PathAggregator>, a: seq<CascadePath>, b: seq<CascadePath>)
    requires Lists(counts, a) && multiset(a) == multiset(b)
    ensures Lists(counts, b)
  {
    forall cp
      ensures cp in a <==> cp in b
    {
      assert cp in a <==> cp in multiset(a);
      assert cp in b <==> cp in multiset(b);
    }
  }

  // ---------------------------------------------------------------------
  // What a node result says
  // ---------------------------------------------------------------------

  /** all is the full ranking of the paths seen in runs: each entry stands for the
      runs with its key, every non-trivial run is covered, no key appears twice,
      and the most frequent come first. */
  ghost predicate Ranking(runs: seq<CascadeRun>, all: seq<CascadePath>) {
    && Descending(all)
    && (forall cp :: cp in all ==> Stands(runs, cp) && multiset(all)[cp] == 1)
    && (forall cp, cp' :: cp in all && cp' in all && PathKey(cp.path) == PathKey(cp'.path) ==> cp == cp')
    && (forall i :: 0 <= i < |runs| && Nontrivial(runs[i]) ==> Covers(all, PathKey(runs[i].path)))
  }

  ghost predicate Stands(runs: seq<CascadeRun>, cp: CascadePath) {
    var key := PathKey(cp.path);
    && |cp.path| > 1 && Occurs(runs, cp.path)
    && cp.frequency == KeyCount(runs, key) > 0
    && cp.meanTTF == MeanOf(KeyTime(runs, key), KeyTimed(runs, key))
  }

  ghost predicate Covers(all: seq<CascadePath>, key: string) {
    exists cp :: cp in all && PathKey(cp.path) == key
  }

  ghost predicate IsNodeResult(origin: Id, runs: seq<CascadeRun>, cfg: SimConfig, riskScore: real,
                               result: NodeResult, all: seq<CascadePath>)
  {
    var totals := RunTotals(origin, runs);
    && result.nodeID == origin && result.riskScore == riskScore && result.riskLevel == ClassifyRisk(riskScore, cfg)
    && Ranking(runs, all) && TotalFrequency(all) == totals.nontrivial
    && result.topPaths == (if |all| > cfg.topPaths >= 0 then all[..cfg.topPaths] else all)
    && Ascending(result.affectedNodes)
    && (forall id :: id in result.affectedNodes <==> id in Affected(origin, runs))
    && result.meanTTF == MeanOf(totals.time, totals.timed)
    && result.cascadeProbability == (if |runs| == 0 then 0.0 else totals.cascades as real / |runs| as real)
  }

  lemma {:induction false} CountedWhenPresent(runs: seq<CascadeRun>, i: nat)
    requires i < |runs| && Nontrivial(runs[i])
    ensures KeyCount(runs, PathKey(runs[i].path)) > 0
  {
    if i < |runs| - 1 {
      CountedWhenPresent(runs[..|runs| - 1], i);
    }
  }

  lemma ListingIsRanking(runs: seq<CascadeRun>, counts: map<string, PathAggregator>, all: seq<CascadePath>)
    requires forall key :: AggregatesAt(counts, runs, key)
    requires Lists(counts, all) && Descending(all)
    ensures Ranking(runs, all)
  {
    forall cp | cp in all
      ensures Stands(runs, cp)
    {
      assert AggregatesAt(counts, runs, PathKey(cp.path));
    }
    forall i | 0 <= i < |runs| && Nontrivial(runs[i])
      ensures Covers(all, PathKey(runs[i].path))
    {
      var key := PathKey(runs[i].path);
      CountedWhenPresent(runs, i);
      assert AggregatesAt(counts, runs, key);
      assert ToCascadePath(counts[key]) in all;
    }
  }

  /** Collects a set into a list in any order. */
  method ListNames(names: set<Id>) returns (list: seq<Id>)
    ensures NoDuplicates(list)
    ensures forall x :: x in list <==> x in names
  {
    list := [];
    var rest := names;
    while rest != {}
      invariant rest <= names && NoDuplicates(list)
      invariant forall x :: x in list <==> x in names - rest
      decreases rest
    {
      var id :| id in rest;
      assert id !in list;
      list := list + [id];
      rest := rest - {id};
    }
  }

  /** The first half of BuildNodeResult: one pass over the runs. */
  method Aggregate(origin: Id, runs: seq<CascadeRun>)
    returns (totals: Totals, affected: set<Id>, counts: map<string, PathAggregator>)
    ensures totals == RunTotals(origin, runs) && affected == Affected(origin, runs)
    ensures forall key :: AggregatesAt(counts, runs, key)
    ensures Sum(Weights(counts)) == totals.nontrivial as real
  {
    totals, affected, counts := Totals(0, 0, 0, 0), {}, map[];
    assert Weights(counts) == map[];
    for i := 0 to |runs|
      invariant totals == RunTotals(origin, runs[..i]) && affected == Affected(origin, runs[..i])
      invariant forall key :: AggregatesAt(counts, runs[..i], key)
      invariant Sum(Weights(counts)) == totals.nontrivial as real
    {
      var run := runs[i];
      assert runs[..i + 1] == runs[..i] + [run];
      assert runs[..i + 1][..i] == runs[..i];
      var hadCascade;
      hadCascade, affected := CollectExhausted(origin, run, affected);
      counts := AggregatePath(run, counts, runs[..i]);
      totals := CountRun(totals, hadCascade, origin, run);
    }
    assert runs[..|runs|] == runs;
  }

  method CountRun(totals0: Totals, hadCascade: bool, ghost origin: Id, run: CascadeRun) returns (totals: Totals)
    requires hadCascade <==> ExhaustedNodes(origin, run) != {}
    ensures totals == AddRun(totals0, origin, run)
  {
    totals := totals0;
    if hadCascade {
      totals := totals.(cascades := totals.cascades + 1);
    }
    if |run.path| > 1 {
      totals := totals.(nontrivial := totals.nontrivial + 1);
      if LastTTF(run) > 0 {
        totals := totals.(time := totals.time + LastTTF(run), timed := totals.timed + 1);
      }
    }
  }

  method BuildNodeResult(origin: Id, runs: seq<CascadeRun>, cfg: SimConfig, riskScore: real)
    returns (result: NodeResult)
    requires cfg.topPaths >= 0
    ensures exists all: seq<CascadePath> :: IsNodeResult(origin, runs, cfg, riskScore, result, all)
  {
    result := NodeResult(origin, riskScore, ClassifyRisk(riskScore, cfg), 0, 0.0, [], []);
    if |runs| == 0 {
      assert IsNodeResult(origin, runs, cfg, riskScore, result, []);
      return;
    }
    var totals, affected, counts := Aggregate(origin, runs);
    var names := ListNames(affected);
    var sortedNames := SortStrings(names);
    var paths := RankPaths(runs, counts, totals.nontrivial);
    ghost var all := paths;
    if |paths| > cfg.topPaths {
      paths := paths[..cfg.topPaths];
    }
    result := result.(cascadeProbability := totals.cascades as real / |runs| as real,
                      meanTTF := MeanOf(totals.time, totals.timed),
                      affectedNodes := sortedNames,
                      topPaths := paths);
    assert IsNodeResult(origin, runs, cfg, riskScore, result, all);
  }

  method RankPaths(ghost runs: seq<CascadeRun>, counts: map<string, PathAggregator>, ghost nontrivial: nat)
    returns (all: seq<CascadePath>)
    requires forall key :: AggregatesAt(counts, runs, key)
    requires Sum(Weights(counts)) == nontrivial as real
    ensures Ranking(runs, all) && TotalFrequency(all) == nontrivial
  {
    forall key | key in counts
      ensures PathKey(counts[key].path) == key
    {
      assert AggregatesAt(counts, runs, key);
    }
    var paths := ListPaths(counts);
    all := SortByFrequency(paths);
    ListsPermutation(counts, paths, all);
    TotalFrequencyPermutation(paths, all);
    ListingIsRanking(runs, counts, all);
  }

  // ---------------------------------------------------------------------
  // Consequences
  // ---------------------------------------------------------------------

  function PathCount(runs: seq<CascadeRun>, path: seq<Id>): nat {
    if |runs| == 0 then 0
    else PathCount(runs[..|runs| - 1], path) + (if runs[|runs| - 1].path == path then 1 else 0)
  }

  /** For arrow-free names a key stands for one path only, so a frequency is the
      exact number of runs with that path. */
  lemma {:induction false} FrequencyIsPathCount(runs: seq<CascadeRun>, path: seq<Id>)
    requires |path| > 1 && ArrowFreePath(path)
    requires forall i :: 0 <= i < |runs| ==> ArrowFreePath(runs[i].path)
    ensures KeyCount(runs, PathKey(path)) == PathCount(runs, path)
  {
    if |runs| > 0 {
      FrequencyIsPathCount(runs[..|runs| - 1], path);
      var last := runs[|runs| - 1].path;
      if |last| > 1 && PathKey(last) == PathKey(path) {
        PathKeyInjective(last, path);
      }
    }
  }

  /** No dropped path is more frequent than a kept one. */
  lemma DroppedNotMoreFrequent(origin: Id, runs: seq<CascadeRun>, cfg: SimConfig, riskScore: real,
                               result: NodeResult, all: seq<CascadePath>, kept: CascadePath, dropped: CascadePath)
    requires cfg.topPaths >= 0 && IsNodeResult(origin, runs, cfg, riskScore, result, all)
    requires kept in result.topPaths && dropped in all && dropped !in result.topPaths
    ensures kept.frequency >= dropped.frequency
  {
    assert Descending(all) && result.topPaths <= all;
    hide IsNodeResult, Descending;
    PrefixMoreFrequent(all, |result.topPaths|, kept, dropped);
  }

  lemma PrefixMoreFrequent(all: seq<CascadePath>, n: nat, kept: CascadePath, dropped: CascadePath)
    requires Descending(all) && n <= |all|
    requires kept in all[..n] && dropped in all && dropped !in all[..n]
    ensures kept.frequency >= dropped.frequency
  {
    hide Descending;
    var i :| 0 <= i < n && all[..n][i] == kept;
    assert all == all[..n] + all[n..];
    var k :| 0 <= k < |all[n..]| && all[n..][k] == dropped;
    DescendingPositions(all, i, n + k);
  }

  /** The path of the run has more than one node and its last node has a failure time. */
  predicate LastFails(run: CascadeRun) {
    |run.path| > 1 &&
    var last := run.path[|run.path| - 1];
    last in run.timeToFailure && run.timeToFailure[last] > 0
  }

  function LastTime(run: CascadeRun): int
    requires LastFails(run)
  {
    run.timeToFailure[run.path[|run.path| - 1]]
  }

  /** All these times lie between lo and hi. */
  ghost predicate TimesWithin(runs: seq<CascadeRun>, lo: int, hi: int) {
    forall i :: 0 <= i < |runs| && LastFails(runs[i]) ==> lo <= LastTime(runs[i]) <= hi
  }

  ghost predicate SomeLastFails(runs: seq<CascadeRun>) {
    exists i :: 0 <= i < |runs| && LastFails(runs[i])
  }

  lemma {:induction false} TotalsWithin(origin: Id, runs: seq<CascadeRun>, lo: int, hi: int)
    requires TimesWithin(runs, lo, hi)
    ensures var t := RunTotals(origin, runs); t.timed * lo <= t.time <= t.timed * hi
    ensures RunTotals(origin, runs).timed > 0 <==> SomeLastFails(runs)
  {
    if |runs| > 0 {
      var before, run := runs[..|runs| - 1], runs[|runs| - 1];
      assert TimesWithin(before, lo, hi);
      TotalsWithin(origin, before, lo, hi);
      OneMoreLast(runs);
      var t := RunTotals(origin, before);
      assert RunTotals(origin, runs) == AddRun(t, origin, run);
      assert LastFails(run) ==> lo <= LastTTF(run) <= hi;
      hide TimesWithin, SomeLastFails, RunTotals;
      assert Nontrivial(run) && LastTTF(run) > 0 <==> LastFails(run);
      if LastFails(run) {
        OneMoreTime(t.timed, t.time, LastTTF(run), lo, hi);
      }
    }
  }

  lemma OneMoreLast(runs: seq<CascadeRun>)
    requires |runs| > 0
    ensures SomeLastFails(runs) <==> SomeLastFails(runs[..|runs| - 1]) || LastFails(runs[|runs| - 1])
  {
    var before := runs[..|runs| - 1];
    if i :| 0 <= i < |runs| && LastFails(runs[i]) {
      assert i < |before| ==> LastFails(before[i]);
    }
    if i :| 0 <= i < |before| && LastFails(before[i]) {
      assert LastFails(runs[i]);
    }
  }

  lemma OneMoreTime(n: nat, time: int, ns: int, lo: int, hi: int)
    requires n * lo <= time <= n * hi && lo <= ns <= hi
    ensures (n + 1) * lo <= time + ns <= (n + 1) * hi
  {
    assert (n + 1) * lo == n * lo + lo && (n + 1) * hi == n * hi + hi;
  }

  lemma MeanBetween(n: nat, time: int, lo: int, hi: int)
    requires n > 0 && n * lo <= time <= n * hi
    ensures lo <= time / n <= hi
  {
    var q := time / n;
    assert time == q * n + time % n;
    assert (q + 1) * n == q * n + n && n * lo == lo * n && n * hi == hi * n;
    CancelFactor(lo, q + 1, n);
    assert (hi + 1) * n == hi * n + n;
    CancelFactor(q, hi + 1, n);
  }

  /** The mean failure time of a node lies between the smallest and the largest failure
      time of the last node of a path, and is 0 exactly when there is none. */
  lemma MeanTimeMeaning(origin: Id, runs: seq<CascadeRun>, cfg: SimConfig, riskScore: real,
                        result: NodeResult, all: seq<CascadePath>, lo: int, hi: int)
    requires IsNodeResult(origin, runs, cfg, riskScore, result, all) && TimesWithin(runs, lo, hi)
    ensures if SomeLastFails(runs) then lo <= result.meanTTF <= hi else result.meanTTF == 0
  {
    TotalsWithin(origin, runs, lo, hi);
    var t := RunTotals(origin, runs);
    hide RunTotals, Ranking, SomeLastFails, TimesWithin;
    if t.timed > 0 {
      MeanBetween(t.timed, t.time, lo, hi);
    }
  }

  /** The runs with the given path key that count for a mean. */
  predicate LastFailsOn(run: CascadeRun, key: string) {
    LastFails(run) && PathKey(run.path) == key
  }

  ghost predicate KeyTimesWithin(runs: seq<CascadeRun>, key: string, lo: int, hi: int) {
    forall i :: 0 <= i < |runs| && LastFailsOn(runs[i], key) ==> lo <= LastTime(runs[i]) <= hi
  }

  ghost predicate SomeFailsOn(runs: seq<CascadeRun>, key: string) {
    exists i :: 0 <= i < |runs| && LastFailsOn(runs[i], key)
  }

  lemma OneMoreOn(runs: seq<CascadeRun>, key: string)
    requires |runs| > 0
    ensures SomeFailsOn(runs, key) <==> SomeFailsOn(runs[..|runs| - 1], key) || LastFailsOn(runs[|runs| - 1], key)
  {
    var before := runs[..|runs| - 1];
    if i :| 0 <= i < |runs| && LastFailsOn(runs[i], key) {
      assert i < |before| ==> LastFailsOn(before[i], key);
    }
    if i :| 0 <= i < |before| && LastFailsOn(before[i], key) {
      assert LastFailsOn(runs[i], key);
    }
  }

  lemma {:induction false} KeyWithin(runs: seq<CascadeRun>, key: string, lo: int, hi: int)
    requires KeyTimesWithin(runs, key, lo, hi)
    ensures KeyTimed(runs, key) * lo <= KeyTime(runs, key) <= KeyTimed(runs, key) * hi
    ensures KeyTimed(runs, key) > 0 <==> SomeFailsOn(runs, key)
  {
    if |runs| > 0 {
      var before, run := runs[..|runs| - 1], runs[|runs| - 1];
      assert KeyTimesWithin(before, key, lo, hi);
      KeyWithin(before, key, lo, hi);
      OneMoreOn(runs, key);
      assert runs == before + [run];
      KeyCountsAppend(before, run, key);
      assert LastFailsOn(run, key) ==> lo <= LastTTF(run) <= hi;
      assert LastFailsOn(run, key) <==> HasPathKey(run, key) && LastTTF(run) > 0;
      hide KeyTimesWithin, SomeFailsOn, KeyTimed, KeyTime, KeyCount, LastFailsOn, LastTTF, HasPathKey;
      if LastFailsOn(run, key) {
        OneMoreTime(KeyTimed(before, key), KeyTime(before, key), LastTTF(run), lo, hi);
      } else {
        assert HasPathKey(run, key) ==> LastTTF(run) == 0;
      }
    }
  }

  /** So does the mean of a listed path, over the runs with its key. */
  lemma PathMeanMeaning(runs: seq<CascadeRun>, cp: CascadePath, lo: int, hi: int)
    requires Stands(runs, cp) && KeyTimesWithin(runs, PathKey(cp.path), lo, hi)
    ensures if SomeFailsOn(runs, PathKey(cp.path)) then lo <= cp.meanTTF <= hi else cp.meanTTF == 0
  {
    var key := PathKey(cp.path);
    KeyWithin(runs, key, lo, hi);
    hide KeyTimed, KeyTime, SomeFailsOn, KeyTimesWithin;
    if KeyTimed(runs, key) > 0 {
      MeanBetween(KeyTimed(runs, key), KeyTime(runs, key), lo, hi);
    }
  }

  /** Some node other than the origin is exhausted. */
  ghost predicate HasCascade(origin: Id, run: CascadeRun) {
    exists id :: id in run.nodeStates && id != origin && run.nodeStates[id] == Exhausted
  }

  lemma HasCascadeIs(origin: Id, run: CascadeRun)
    ensures HasCascade(origin, run) <==> ExhaustedNodes(origin, run) != {}
  {
    if id :| id in run.nodeStates && id != origin && run.nodeStates[id] == Exhausted {
      assert id in ExhaustedNodes(origin, run);
    }
    if id :| id in ExhaustedNodes(origin, run) {
      assert id in run.nodeStates && id != origin && run.nodeStates[id] == Exhausted;
    }
  }

  ghost function CascadeRuns(origin: Id, runs: seq<CascadeRun>): set<int> {
    set i | 0 <= i < |runs| && HasCascade(origin, runs[i])
  }

  /** The runs with a path of more than one node. */
  ghost function PathRuns(runs: seq<CascadeRun>): set<int> {
    set i | 0 <= i < |runs| && |runs[i].path| > 1
  }

  /** The runs with this path. */
  ghost function RunsWithPath(runs: seq<CascadeRun>, path: seq<Id>): set<int> {
    set i | 0 <= i < |runs| && runs[i].path == path
  }

  /** The counts of a result are numbers of runs. */
  lemma {:induction false} CountsAreSizes(origin: Id, runs: seq<CascadeRun>, path: seq<Id>)
    ensures RunTotals(origin, runs).cascades == |CascadeRuns(origin, runs)|
    ensures RunTotals(origin, runs).nontrivial == |PathRuns(runs)|
    ensures PathCount(runs, path) == |RunsWithPath(runs, path)|
  {
    if |runs| > 0 {
      var n := |runs| - 1;
      var before := runs[..n];
      CountsAreSizes(origin, before, path);
      OneElement(CascadeRuns(origin, before), CascadeRuns(origin, runs), n);
      OneElement(PathRuns(before), PathRuns(runs), n);
      OneElement(RunsWithPath(before, path), RunsWithPath(runs, path), n);
      HasCascadeIs(origin, runs[n]);
    }
  }

  /** The cascade probability is the share of runs with a cascade, and the frequencies of
      all paths add up to the runs with a path of more than one node. */
  lemma SharesOfRuns(origin: Id, runs: seq<CascadeRun>, cfg: SimConfig, riskScore: real,
                     result: NodeResult, all: seq<CascadePath>)
    requires IsNodeResult(origin, runs, cfg, riskScore, result, all)
    ensures IsShare(result.cascadeProbability, |CascadeRuns(origin, runs)|, |runs|)
    ensures TotalFrequency(all) == |PathRuns(runs)|
  {
    hide IsShare, RunTotals, CascadeRuns, PathRuns, Ranking, TotalFrequency, Affected;
    CountsAreSizes(origin, runs, []);
    CascadesMeanAffected(origin, runs);
    ShareTimes(RunTotals(origin, runs).cascades, |runs|, result.cascadeProbability);
  }

  /** p is the share c of n. */
  ghost predicate IsShare(p: real, c: nat, n: nat) {
    p * n as real == c as real
  }

  lemma ShareTimes(c: nat, n: nat, p: real)
    requires c <= n && p == if n == 0 then 0.0 else c as real / n as real
    ensures IsShare(p, c, n)
  {
    if n > 0 {
      SharesOf(c as real, n as real, p);
    }
  }

  lemma {:induction false} CascadesMeanAffected(origin: Id, runs: seq<CascadeRun>)
    ensures RunTotals(origin, runs).cascades <= |runs|
    ensures RunTotals(origin, runs).cascades > 0 <==> Affected(origin, runs) != {}
  {
    if |runs| > 0 {
      CascadesMeanAffected(origin, runs[..|runs| - 1]);
    }
  }

  /** The cascade probability lies in [0, 1] and is positive exactly when some
      node is reported as affected. */
  lemma ProbabilityMeaning(origin: Id, runs: seq<CascadeRun>, cfg: SimConfig, riskScore: real,
                           result: NodeResult, all: seq<CascadePath>)
    requires IsNodeResult(origin, runs, cfg, riskScore, result, all)
    ensures 0.0 <= result.cascadeProbability <= 1.0
    ensures result.cascadeProbability > 0.0 <==> |result.affectedNodes| > 0
  {
    CascadesMeanAffected(origin, runs);
    var c := RunTotals(origin, runs).cascades;
    if |runs| > 0 {
      ShareBound(c, |runs|);
      SharePositive(c, |runs|);
    }
    if |result.affectedNodes| > 0 {
      assert result.affectedNodes[0] in Affected(origin, runs);
    }
    if Affected(origin, runs) != {} {
      var id :| id in Affected(origin, runs);
      assert id in result.affectedNodes;
    }
  }

  lemma SharePositive(part: nat, whole: nat)
    requires whole > 0
    ensures part as real / whole as real > 0.0 <==> part > 0
  {
  }
}
