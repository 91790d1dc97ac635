/** pkg/simulator/cascade.go: breadth-first propagation of a failure from one
    degraded service to its callers. */
module Cascade {
  import opened Common
  import opened FailureModels
  import opened RetryModel
  import opened Snapshots

  datatype SimConfig = SimConfig(
    threadPoolSize: int, connPoolSize: int, timeout: int, maxRetries: int, retryBackoff: int,
    maxRetryIterations: int,
    riskLow: real, riskMedium: real, riskHigh: real, topPaths: int)

  datatype CascadeRun = CascadeRun(path: seq<Id>, nodeStates: map<Id, NodeState>, timeToFailure: map<Id, int>)

  /** The extra latency and error rate that callers of a failed node see. */
  datatype Effect = Effect(latencyMs: real, errorRate: real)

  function BuildEdgeParams(snap: Snapshot, caller: Id, cfg: SimConfig): EdgeParams {
    var defaults := EdgeParams(cfg.threadPoolSize, cfg.connPoolSize, cfg.timeout, cfg.maxRetries, cfg.retryBackoff);
    if caller in snap.nodes && snap.nodes[caller].cpuLimitMillis > 0 then
      var cpuCores := snap.nodes[caller].cpuLimitMillis as real / 1000.0;
      var estimatedPool := Trunc(cpuCores * 50.0);
      if estimatedPool > 0 then
        defaults.(threadPoolSize := estimatedPool,
                  connPoolSize := if 10 > estimatedPool / 4 then 10 else estimatedPool / 4)
      else defaults
    else defaults
  }

  /** The CPU limit in thousandths of a core, 0 when none is known. */
  function CpuLimit(snap: Snapshot, caller: Id): int {
    if caller in snap.nodes then snap.nodes[caller].cpuLimitMillis else 0
  }

  /** A CPU limit sets the pools from 20 thousandths of a core on, to one thread per
      20; below that the defaults stay. Up to 180 the floor of ten connections
      exceeds the threads, so only from 200 on does the connection pool fail first. */
  lemma PoolsFromCpuLimit(snap: Snapshot, caller: Id, cfg: SimConfig)
    ensures var p := BuildEdgeParams(snap, caller, cfg);
      && p.timeout == cfg.timeout && p.maxRetries == cfg.maxRetries && p.retryBackoff == cfg.retryBackoff
      && (CpuLimit(snap, caller) < 20 ==> p.threadPoolSize == cfg.threadPoolSize && p.connPoolSize == cfg.connPoolSize)
      && (CpuLimit(snap, caller) >= 20 ==>
            && p.threadPoolSize == CpuLimit(snap, caller) / 20
            && p.connPoolSize == (if CpuLimit(snap, caller) / 80 > 10 then CpuLimit(snap, caller) / 80 else 10)
            && (p.connPoolSize <= p.threadPoolSize <==> CpuLimit(snap, caller) >= 200))
  {
    var limit := CpuLimit(snap, caller);
    if limit > 0 {
      PoolEstimate(limit);
    }
  }

  lemma PoolEstimate(limit: nat)
    ensures Trunc(limit as real / 1000.0 * 50.0) == limit / 20
  {
    var x := limit as real / 1000.0 * 50.0;
    assert x == limit as real / 20.0;
    var q := limit / 20;
    assert q as real <= x < q as real + 1.0;
  }

  /** The outcome of combining several model results. */
  datatype Outcome = Outcome(state: NodeState, ttf: int, latencyMs: real, errorRate: real)

  function Merge(o: Outcome, r: ModelResult): Outcome {
    var worse := r.targetState.Severity() > o.state.Severity();
    Outcome(
      if worse then r.targetState else o.state,
      if worse && r.timeToFailure > 0 then r.timeToFailure else o.ttf,
      if r.queueingDelay > 0 then o.latencyMs + TruncDiv(r.queueingDelay, NS_PER_MS) as real else o.latencyMs,
      if r.additionalLoad > 1.0 then o.errorRate + (r.additionalLoad - 1.0) * 0.1 else o.errorRate)
  }

  function Combined(results: seq<ModelResult>): Outcome {
    if |results| == 0 then Outcome(Healthy, 0, 0.0, 0.0)
    else Merge(Combined(results[..|results| - 1]), results[|results| - 1])
  }

  method CombineResults(results: seq<ModelResult>) returns (o: Outcome)
    ensures o == Combined(results)
  {
    o := Outcome(Healthy, 0, 0.0, 0.0);
    for i := 0 to |results|
      invariant o == Combined(results[..i])
    {
      var r := results[i];
      if r.targetState.Severity() > o.state.Severity() {
        o := o.(state := r.targetState, ttf := if r.timeToFailure > 0 then r.timeToFailure else o.ttf);
      }
      if r.queueingDelay > 0 {
        o := o.(latencyMs := o.latencyMs + TruncDiv(r.queueingDelay, NS_PER_MS) as real);
      }
      if r.additionalLoad > 1.0 {
        o := o.(errorRate := o.errorRate + (r.additionalLoad - 1.0) * 0.1);
      }
      assert results[..i + 1][..i] == results[..i];
    }
    assert results[..|results|] == results;
  }

  /** The combined state is the worst of the results: no result is worse and, when
      it is not healthy, some result reached it. Nothing combined is negative. */
  lemma {:induction false} CombinedIsWorst(results: seq<ModelResult>)
    ensures var o := Combined(results);
      && (forall i :: 0 <= i < |results| ==> results[i].targetState.Severity() <= o.state.Severity())
      && (o.state == Healthy || exists i :: 0 <= i < |results| && results[i].targetState == o.state)
      && o.ttf >= 0 && o.latencyMs >= 0.0 && o.errorRate >= 0.0
  {
    if |results| > 0 {
      var rest := results[..|results| - 1];
      CombinedIsWorst(rest);
      var o := Combined(rest);
      if o.state != Healthy {
        var i :| 0 <= i < |rest| && rest[i].targetState == o.state;
        assert results[i].targetState == o.state;
      }
    }
  }

  /** Requests per second that the threads can serve. A float division by zero gives
      an infinity or no number, which the retry model takes for no capacity, as it
      does 0. */
  function CapacityFor(threadPoolSize: int, latencyMs: real): real {
    var seconds := latencyMs / 1000.0 + 0.001;
    if seconds == 0.0 then 0.0 else threadPoolSize as real / seconds
  }

  /** The error rate handed to the retry model, which is not clamped. */
  function RetryBase(snap: Snapshot, caller: Id, callee: Id, e: Effect): real
    requires Calls(snap, caller, callee)
  {
    snap.edges[caller][callee].errorRate + e.errorRate
  }

  /** The four models applied to one call edge whose callee has effect e. */
  function ModelResults(snap: Snapshot, caller: Id, callee: Id, e: Effect, cfg: SimConfig): seq<ModelResult>
    requires Calls(snap, caller, callee)
  {
    var edge := snap.edges[caller][callee];
    var params := BuildEdgeParams(snap, caller, cfg);
    var latencyMs := edge.latencyP99 + e.latencyMs;
    var capacity := CapacityFor(params.threadPoolSize, latencyMs);
    [ ThreadPoolExhaustion(edge.requestRate, latencyMs, 0.0, params),
      ConnPoolSaturation(edge.requestRate, latencyMs, 0.0, params),
      TimeoutVerdict(latencyMs, params),
      RetryVerdict(edge.requestRate, RetryBase(snap, caller, callee, e), params, capacity, cfg.maxRetryIterations) ]
  }

  /** The setting in which the retry model runs for a call edge. */
  function RetrySettingFor(snap: Snapshot, caller: Id, callee: Id, e: Effect, cfg: SimConfig): Setting
    requires Calls(snap, caller, callee)
  {
    var params := BuildEdgeParams(snap, caller, cfg);
    RetrySetting(snap.edges[caller][callee].requestRate, RetryBase(snap, caller, callee, e), params,
                 CapacityFor(params.threadPoolSize, snap.edges[caller][callee].latencyP99 + e.latencyMs))
  }

  /** An edge with error rate 0.6 whose callee fails half of its requests gives a base
      of 1.1; the first round lowers it to 1, where it stays. */
  lemma PropagatedBaseAboveOne(cfg: SimConfig)
    ensures var snap := Snapshot(map[], map["a" := map["b" := EdgeInfo(20.0, 100.0, 0.6)]]);
      var s := RetrySettingFor(snap, "a", "b", Effect(50.0, 0.5), cfg);
      && Iterate(s, 0).err == 1.1
      && forall k: nat :: k >= 1 ==> Iterate(s, k).err == 1.0
  {
    var snap := Snapshot(map[], map["a" := map["b" := EdgeInfo(20.0, 100.0, 0.6)]]);
    var s := RetrySettingFor(snap, "a", "b", Effect(50.0, 0.5), cfg);
    forall k: nat | k >= 1
      ensures Iterate(s, k).err == 1.0
    {
      AboveOneCollapses(s, k);
    }
  }

  /** What becomes of a caller, and the effect it would pass on. */
  datatype Verdict = Verdict(state: NodeState, ttf: int, passedOn: Effect)

  function PassOn(o: Outcome, e: Effect): Verdict {
    Verdict(o.state, o.ttf,
            Effect(o.latencyMs + e.latencyMs * 0.5, Clamp(o.errorRate + e.errorRate * 0.5, 0.0, 1.0)))
  }

  function Judge(snap: Snapshot, caller: Id, callee: Id, e: Effect, cfg: SimConfig): Verdict
    requires Calls(snap, caller, callee)
  {
    PassOn(Combined(ModelResults(snap, caller, callee, e, cfg)), e)
  }

  /** A caller is judged healthy exactly when all four models say so; a verdict
      always passes on an error rate in [0,1], and no negative latency unless it
      was given one. */
  lemma JudgeMeaning(snap: Snapshot, caller: Id, callee: Id, e: Effect, cfg: SimConfig)
    requires Calls(snap, caller, callee)
    ensures var rs := ModelResults(snap, caller, callee, e, cfg);
      Judge(snap, caller, callee, e, cfg).state == Healthy <==>
      (forall i :: 0 <= i < |rs| ==> rs[i].targetState == Healthy)
    ensures 0.0 <= Judge(snap, caller, callee, e, cfg).passedOn.errorRate <= 1.0
    ensures e.latencyMs >= 0.0 ==> Judge(snap, caller, callee, e, cfg).passedOn.latencyMs >= 0.0
  {
    CombinedIsWorst(ModelResults(snap, caller, callee, e, cfg));
  }

  /** The inner body of the propagation loop. */
  method JudgeCaller(snap: Snapshot, caller: Id, callee: Id, e: Effect, cfg: SimConfig) returns (v: Verdict)
    requires Calls(snap, caller, callee)
    ensures v == Judge(snap, caller, callee, e, cfg)
  {
    var edge := snap.edges[caller][callee];
    var params := BuildEdgeParams(snap, caller, cfg);
    var downstreamLatencyMs := edge.latencyP99 + e.latencyMs;
    var threadResult := ThreadPoolExhaustion(edge.requestRate, downstreamLatencyMs, 0.0, params);
    var connResult := ConnPoolSaturation(edge.requestRate, downstreamLatencyMs, 0.0, params);
    var timeoutResult := EvaluateTimeout(downstreamLatencyMs, params);
    var capacity := CapacityFor(params.threadPoolSize, downstreamLatencyMs);
    var retryResult := RetryAmplification(edge.requestRate, edge.errorRate + e.errorRate, params, capacity,
                                          cfg.maxRetryIterations);
    var o := CombineResults([threadResult, connResult, timeoutResult, retryResult]);
    v := PassOn(o, e);
  }

  // ---------------------------------------------------------------------
  // What a finished propagation is
  // ---------------------------------------------------------------------

  /** The history of one propagation: failed nodes in order, for each the path
      position of the callee that brought it down, and the effect it has. */
  datatype Trace = Trace(path: seq<Id>, parents: seq<nat>, effects: seq<Effect>)

  /** What holds of every effect that the propagation itself puts in the queue. */
  predicate Queued(injected: Effect, e: Effect) {
    0.0 <= e.errorRate <= 1.0 && (injected.latencyMs >= 0.0 ==> e.latencyMs >= 0.0)
  }

  ghost predicate Shaped(t: Trace, origin: Id, injected: Effect) {
    && |t.path| == |t.parents| == |t.effects| >= 1
    && t.path[0] == origin && t.effects[0] == injected
    && (forall i :: 1 <= i < |t.path| ==> Queued(injected, t.effects[i]))
    && (forall i :: 1 <= i < |t.path| ==> t.parents[i] < i)
  }

  /** Caller c survives the failure of callee d under effect e. */
  ghost predicate Spared(snap: Snapshot, cfg: SimConfig, c: Id, d: Id, e: Effect)
  {
    Calls(snap, c, d) ==> Judge(snap, c, d, e, cfg).state == Healthy
  }

  /** Node i of the path calls its parent, was not spared by it, and has the state
      and passes on the effect its parent's verdict gives. */
  ghost predicate Caused(snap: Snapshot, cfg: SimConfig, t: Trace, i: nat)
    requires 1 <= i < |t.path| == |t.parents| == |t.effects| && t.parents[i] < i
  {
    var p := t.parents[i];
    && Calls(snap, t.path[i], t.path[p])
    && var v := Judge(snap, t.path[i], t.path[p], t.effects[p], cfg);
       v.state != Healthy && v.passedOn == t.effects[i]
  }

  function StateAt(snap: Snapshot, cfg: SimConfig, t: Trace, i: nat): Verdict
    requires i < |t.path| == |t.parents| == |t.effects|
    requires i >= 1 ==> t.parents[i] < |t.path|
    requires i >= 1 ==> Calls(snap, t.path[i], t.path[t.parents[i]])
  {
    if i == 0 then Verdict(Degraded, 0, t.effects[0])
    else Judge(snap, t.path[i], t.path[t.parents[i]], t.effects[t.parents[i]], cfg)
  }

  /** Every failed node has a cause, the first one in path order. */
  ghost predicate Explained(snap: Snapshot, cfg: SimConfig, t: Trace, origin: Id, injected: Effect)
  {
    && Shaped(t, origin, injected)
    && NoDuplicates(t.path)
    && (forall i: nat :: 1 <= i < |t.path| ==> Caused(snap, cfg, t, i))
    && (forall i: nat, j: nat :: 1 <= i < |t.path| && j < t.parents[i] ==>
          Spared(snap, cfg, t.path[i], t.path[j], t.effects[j]))
    && (forall i, j :: 1 <= i <= j < |t.path| ==> t.parents[i] <= t.parents[j])
  }

  /** No caller of path node j is overlooked. */
  ghost predicate ClosedAt(snap: Snapshot, cfg: SimConfig, t: Trace, j: nat)
    requires j < |t.path| == |t.effects|
  {
    forall c :: c in t.path || Spared(snap, cfg, c, t.path[j], t.effects[j])
  }

  /** The recorded states and failure times are those of the trace; every other
      node of the snapshot is healthy. */
  ghost predicate Recorded(snap: Snapshot, cfg: SimConfig, t: Trace, run: CascadeRun, origin: Id, injected: Effect)
    requires Explained(snap, cfg, t, origin, injected)
  {
    && run.path == t.path
    && run.nodeStates.Keys == snap.nodes.Keys + (set x | x in t.path)
    && (forall x :: x in run.nodeStates && x !in t.path ==> run.nodeStates[x] == Healthy)
    && (forall x :: x in run.timeToFailure ==> x in t.path)
    && (forall i: nat :: i < |t.path| ==> RecordedAt(snap, cfg, t, run, i))
  }

  ghost predicate RecordedAt(snap: Snapshot, cfg: SimConfig, t: Trace, run: CascadeRun, i: nat)
    requires i < |t.path| == |t.parents| == |t.effects|
    requires i >= 1 ==> t.parents[i] < i && Caused(snap, cfg, t, i)
  {
    var v := StateAt(snap, cfg, t, i);
    && t.path[i] in run.nodeStates && run.nodeStates[t.path[i]] == v.state
    && (t.path[i] in run.timeToFailure <==> v.ttf > 0)
    && (v.ttf > 0 ==> run.timeToFailure[t.path[i]] == v.ttf)
  }

  /** A finished propagation: every failure explained, nothing overlooked, and the
      run records exactly that. */
  ghost predicate IsCascade(snap: Snapshot, cfg: SimConfig, origin: Id, injected: Effect, run: CascadeRun, t: Trace)
  {
    && Explained(snap, cfg, t, origin, injected)
    && (forall j: nat :: j < |t.path| ==> ClosedAt(snap, cfg, t, j))
    && Recorded(snap, cfg, t, run, origin, injected)
  }

  // ---------------------------------------------------------------------
  // Extending a trace
  // ---------------------------------------------------------------------

  function Extend(t: Trace, c: Id, p: nat, e: Effect): Trace {
    Trace(t.path + [c], t.parents + [p], t.effects + [e])
  }

  /** A fresh caller that the node at p brings down, and that every earlier node
      spared, may be appended. */
  lemma ExtendExplained(snap: Snapshot, cfg: SimConfig, t: Trace, origin: Id, injected: Effect, c: Id, p: nat)
    requires Explained(snap, cfg, t, origin, injected)
    requires c !in t.path && p < |t.path| && Calls(snap, c, t.path[p])
    requires Judge(snap, c, t.path[p], t.effects[p], cfg).state != Healthy
    requires forall j: nat :: j < p ==> Spared(snap, cfg, c, t.path[j], t.effects[j])
    requires forall i :: 1 <= i < |t.path| ==> t.parents[i] <= p
    ensures Explained(snap, cfg, Extend(t, c, p, Judge(snap, c, t.path[p], t.effects[p], cfg).passedOn),
                      origin, injected)
  {
    var v := Judge(snap, c, t.path[p], t.effects[p], cfg);
    JudgeMeaning(snap, c, t.path[p], t.effects[p], cfg);
    hide Judge;
    var t' := Extend(t, c, p, v.passedOn);
    var n := |t.path|;
    assert Shaped(t', origin, injected);
    forall i: nat | 1 <= i < |t'.path|
      ensures Caused(snap, cfg, t', i)
    {
      if i < n {
        assert Caused(snap, cfg, t, i);
      }
    }
    forall i: nat, j: nat | 1 <= i < |t'.path| && j < t'.parents[i]
      ensures Spared(snap, cfg, t'.path[i], t'.path[j], t'.effects[j])
    {
      if i < n {
        assert Spared(snap, cfg, t.path[i], t.path[j], t.effects[j]);
      } else {
        assert Spared(snap, cfg, c, t.path[j], t.effects[j]);
      }
    }
  }

  lemma ExtendClosed(snap: Snapshot, cfg: SimConfig, t: Trace, j: nat, c: Id, p: nat, e: Effect)
    requires j < |t.path| == |t.effects|
    requires ClosedAt(snap, cfg, t, j)
    ensures ClosedAt(snap, cfg, Extend(t, c, p, e), j)
  {
    var t' := Extend(t, c, p, e);
    forall x
      ensures x in t'.path || Spared(snap, cfg, x, t'.path[j], t'.effects[j])
    {
      assert x in t.path || Spared(snap, cfg, x, t.path[j], t.effects[j]);
    }
  }

  /** The updates the loop makes for a failed caller. */
  function RecordFailure(run: CascadeRun, c: Id, v: Verdict): CascadeRun {
    CascadeRun(run.path + [c], run.nodeStates[c := v.state],
               if v.ttf > 0 then run.timeToFailure[c := v.ttf] else run.timeToFailure)
  }

  /** The record of an earlier node is left alone, the new one is entered. */
  lemma RecordedAtExtended(snap: Snapshot, cfg: SimConfig, t: Trace, run: CascadeRun, c: Id, p: nat, v: Verdict, i: nat)
    requires |t.path| == |t.parents| == |t.effects| && i <= |t.path| && p < |t.path|
    requires c !in t.path && c !in run.timeToFailure && Calls(snap, c, t.path[p])
    requires v == Judge(snap, c, t.path[p], t.effects[p], cfg) && v.state != Healthy
    requires i < |t.path| && i >= 1 ==>
      t.parents[i] < i && Caused(snap, cfg, t, i)
    requires i < |t.path| ==> RecordedAt(snap, cfg, t, run, i)
    ensures i >= 1 ==> Extend(t, c, p, v.passedOn).parents[i] < i
    ensures i >= 1 ==> Caused(snap, cfg, Extend(t, c, p, v.passedOn), i)
    ensures RecordedAt(snap, cfg, Extend(t, c, p, v.passedOn), RecordFailure(run, c, v), i)
  {
    if i < |t.path| {
      assert t.path[i] in t.path;
    }
  }

  lemma ExtendRecorded(snap: Snapshot, cfg: SimConfig, t: Trace, run: CascadeRun, origin: Id, injected: Effect,
                       c: Id, p: nat, v: Verdict)
    requires Explained(snap, cfg, t, origin, injected)
    requires Recorded(snap, cfg, t, run, origin, injected)
    requires c !in t.path && p < |t.path| && Calls(snap, c, t.path[p])
    requires v == Judge(snap, c, t.path[p], t.effects[p], cfg) && v.state != Healthy
    requires Explained(snap, cfg, Extend(t, c, p, v.passedOn), origin, injected)
    ensures Recorded(snap, cfg, Extend(t, c, p, v.passedOn), RecordFailure(run, c, v), origin, injected)
  {
    var t' := Extend(t, c, p, v.passedOn);
    var run' := RecordFailure(run, c, v);
    forall i: nat | i < |t'.path|
      ensures RecordedAt(snap, cfg, t', run', i)
    {
      if i < |t.path| {
        assert RecordedAt(snap, cfg, t, run, i);
        assert i >= 1 ==> Caused(snap, cfg, t, i);
      }
      RecordedAtExtended(snap, cfg, t, run, c, p, v, i);
    }
    PathMembers(t.path, c);
  }

  lemma PathMembers(path: seq<Id>, c: Id)
    ensures (set x | x in path + [c]) == (set x | x in path) + {c}
    ensures forall x :: x in path + [c] <==> x in path || x == c
  {
  }

  // ---------------------------------------------------------------------
  // The propagation loop
  // ---------------------------------------------------------------------

  function CallersIn(upstreamOf: map<Id, seq<Id>>, d: Id): seq<Id> {
    if d in upstreamOf then upstreamOf[d] else []
  }

  ghost predicate ListsCallers(snap: Snapshot, d: Id, callers: seq<Id>) {
    forall c :: c in callers <==> Calls(snap, c, d)
  }

  /** The reverse adjacency list: for each callee its callers, in any order. */
  method BuildUpstream(snap: Snapshot) returns (upstreamOf: map<Id, seq<Id>>)
    ensures forall d :: ListsCallers(snap, d, CallersIn(upstreamOf, d))
  {
    upstreamOf := map[];
    var sources := snap.edges.Keys;
    while sources != {}
      invariant sources <= snap.edges.Keys
      invariant forall s, d :: (Calls(snap, s, d) && s !in sources) <==> d in upstreamOf && s in upstreamOf[d]
      decreases sources
    {
      var source :| source in sources;
      var targets := snap.edges[source].Keys;
      while targets != {}
        invariant targets <= snap.edges[source].Keys
        invariant forall s, d ::
          (Calls(snap, s, d) && (s !in sources || (s == source && d !in targets))) <==>
          d in upstreamOf && s in upstreamOf[d]
        decreases targets
      {
        var target :| target in targets;
        var callers := CallersIn(upstreamOf, target);
        upstreamOf := upstreamOf[target := callers + [source]];
        targets := targets - {target};
      }
      sources := sources - {source};
    }
  }

  /** What the outer loop knows: path nodes before head have been dequeued and
      their callers dealt with; the rest wait in the queue with their effects. */
  ghost predicate Frontier(snap: Snapshot, cfg: SimConfig, t: Trace, origin: Id, injected: Effect, head: nat)
  {
    && Explained(snap, cfg, t, origin, injected)
    && head <= |t.path|
    && (forall j: nat :: j < head ==> ClosedAt(snap, cfg, t, j))
    && (forall i :: 1 <= i < |t.path| ==> t.parents[i] < head)
  }

  /** Path node p is being processed: callers in done have been dealt with. */
  ghost predicate Sweeping(snap: Snapshot, cfg: SimConfig, t: Trace, origin: Id, injected: Effect, p: nat,
                           done: seq<Id>)
  {
    && Explained(snap, cfg, t, origin, injected)
    && p < |t.path|
    && (forall j: nat :: j < p ==> ClosedAt(snap, cfg, t, j))
    && (forall i :: 1 <= i < |t.path| ==> t.parents[i] <= p)
    && (forall c :: c in done ==> c in t.path || Spared(snap, cfg, c, t.path[p], t.effects[p]))
  }

  lemma SweepFailed(snap: Snapshot, cfg: SimConfig, t: Trace, origin: Id, injected: Effect, p: nat, done: seq<Id>,
                    c: Id)
    requires Sweeping(snap, cfg, t, origin, injected, p, done)
    requires c !in t.path && Calls(snap, c, t.path[p])
    requires Judge(snap, c, t.path[p], t.effects[p], cfg).state != Healthy
    ensures Sweeping(snap, cfg, Extend(t, c, p, Judge(snap, c, t.path[p], t.effects[p], cfg).passedOn),
                     origin, injected, p, done + [c])
  {
    var t' := Extend(t, c, p, Judge(snap, c, t.path[p], t.effects[p], cfg).passedOn);
    forall j: nat | j < p
      ensures Spared(snap, cfg, c, t.path[j], t.effects[j])
    {
      assert ClosedAt(snap, cfg, t, j);
    }
    ExtendExplained(snap, cfg, t, origin, injected, c, p);
    forall j: nat | j < p
      ensures ClosedAt(snap, cfg, t', j)
    {
      ExtendClosed(snap, cfg, t, j, c, p, t'.effects[|t.path|]);
    }
    assert c in t'.path && forall y :: y in t.path ==> y in t'.path;
  }

  lemma SweepDone(snap: Snapshot, cfg: SimConfig, t: Trace, origin: Id, injected: Effect, p: nat, done: seq<Id>)
    requires Sweeping(snap, cfg, t, origin, injected, p, done)
    requires forall c :: Calls(snap, c, t.path[p]) ==> c in done
    ensures Frontier(snap, cfg, t, origin, injected, p + 1)
  {
    assert ClosedAt(snap, cfg, t, p);
  }

  /** The queue lists the path nodes from position head on, with their effects. */
  ghost predicate QueueFrom(queue: seq<(Id, Effect)>, t: Trace, head: nat) {
    && |t.path| == |t.effects|
    && head + |queue| == |t.path|
    && (forall q :: 0 <= q < |queue| ==> queue[q] == (t.path[head + q], t.effects[head + q]))
  }

  /** The state of the inner loop while path node p is processed: trace, recorded
      run, queue and visited set agree, and the callers in done are dealt with. */
  ghost predicate InStep(snap: Snapshot, cfg: SimConfig, t: Trace, origin: Id, injected: Effect, p: nat, done: seq<Id>,
                         run: CascadeRun, queue: seq<(Id, Effect)>, visited: set<Id>)
  {
    && Sweeping(snap, cfg, t, origin, injected, p, done)
    && Recorded(snap, cfg, t, run, origin, injected)
    && QueueFrom(queue, t, p + 1)
    && visited == (set x | x in t.path)
  }

  /** Marking a failed caller keeps everything in step. */
  lemma FailureInStep(snap: Snapshot, cfg: SimConfig, t: Trace, origin: Id, injected: Effect, p: nat, done: seq<Id>,
                      run: CascadeRun, queue: seq<(Id, Effect)>, visited: set<Id>, c: Id, v: Verdict)
    requires InStep(snap, cfg, t, origin, injected, p, done, run, queue, visited)
    requires c !in visited && Calls(snap, c, t.path[p])
    requires v == Judge(snap, c, t.path[p], t.effects[p], cfg) && v.state != Healthy
    ensures InStep(snap, cfg, Extend(t, c, p, v.passedOn), origin, injected, p, done + [c],
                   RecordFailure(run, c, v), queue + [(c, v.passedOn)], visited + {c})
  {
    SweepFailed(snap, cfg, t, origin, injected, p, done, c);
    ExtendRecorded(snap, cfg, t, run, origin, injected, c, p, v);
  }

  /** So does passing over a caller that has failed already or is spared. */
  lemma SkipInStep(snap: Snapshot, cfg: SimConfig, t: Trace, origin: Id, injected: Effect, p: nat, done: seq<Id>,
                   run: CascadeRun, queue: seq<(Id, Effect)>, visited: set<Id>, c: Id)
    requires InStep(snap, cfg, t, origin, injected, p, done, run, queue, visited)
    requires c in visited || Spared(snap, cfg, c, t.path[p], t.effects[p])
    ensures InStep(snap, cfg, t, origin, injected, p, done + [c], run, queue, visited)
  {
  }

  /** What SweepCallers is called on, and leaves for the next node. */
  ghost predicate Waiting(snap: Snapshot, cfg: SimConfig, t: Trace, origin: Id, injected: Effect, head: nat,
                          run: CascadeRun, queue: seq<(Id, Effect)>, visited: set<Id>)
  {
    && Frontier(snap, cfg, t, origin, injected, head)
    && Recorded(snap, cfg, t, run, origin, injected)
    && QueueFrom(queue, t, head)
    && visited == (set x | x in t.path)
  }

  /** Dequeuing starts a sweep with no caller dealt with. */
  lemma Dequeue(snap: Snapshot, cfg: SimConfig, t: Trace, origin: Id, injected: Effect, head: nat,
                run: CascadeRun, queue: seq<(Id, Effect)>, visited: set<Id>)
    requires Waiting(snap, cfg, t, origin, injected, head, run, queue, visited)
    requires |queue| > 0
    ensures InStep(snap, cfg, t, origin, injected, head, [], run, queue[1..], visited)
    ensures queue[0] == (t.path[head], t.effects[head])
  {
  }

  /** A sweep over all callers ends with one more node dealt with. */
  lemma SweepEnds(snap: Snapshot, cfg: SimConfig, t: Trace, origin: Id, injected: Effect, p: nat, done: seq<Id>,
                  run: CascadeRun, queue: seq<(Id, Effect)>, visited: set<Id>)
    requires InStep(snap, cfg, t, origin, injected, p, done, run, queue, visited)
    requires ListsCallers(snap, t.path[p], done)
    ensures Waiting(snap, cfg, t, origin, injected, p + 1, run, queue, visited)
  {
    SweepDone(snap, cfg, t, origin, injected, p, done);
  }

  /** At the start only the origin waits. */
  lemma StartWaiting(snap: Snapshot, cfg: SimConfig, t: Trace, origin: Id, injected: Effect, run: CascadeRun)
    requires t == Trace([origin], [0], [injected])
    requires Explained(snap, cfg, t, origin, injected) && Recorded(snap, cfg, t, run, origin, injected)
    ensures Waiting(snap, cfg, t, origin, injected, 0, run, [(origin, injected)], {origin})
  {
  }

  /** With an empty queue the propagation is finished. */
  lemma Finished(snap: Snapshot, cfg: SimConfig, t: Trace, origin: Id, injected: Effect, head: nat,
                 run: CascadeRun, queue: seq<(Id, Effect)>, visited: set<Id>)
    requires Waiting(snap, cfg, t, origin, injected, head, run, queue, visited)
    requires |queue| == 0
    ensures IsCascade(snap, cfg, origin, injected, run, t)
  {
  }

  /** The inner loop: every caller of one dequeued node is examined. */
  method SweepCallers(snap: Snapshot, cfg: SimConfig, ghost origin: Id, ghost injected: Effect, ghost p: nat,
                      node: Id, effect: Effect, callers: seq<Id>,
                      run0: CascadeRun, ghost t0: Trace, queue0: seq<(Id, Effect)>, visited0: set<Id>)
    returns (run: CascadeRun, ghost t: Trace, queue: seq<(Id, Effect)>, visited: set<Id>)
    requires InStep(snap, cfg, t0, origin, injected, p, [], run0, queue0, visited0)
    requires node == t0.path[p] && effect == t0.effects[p] && ListsCallers(snap, node, callers)
    ensures Waiting(snap, cfg, t, origin, injected, p + 1, run, queue, visited)
    ensures visited0 <= visited <= visited0 + snap.edges.Keys
    ensures visited == visited0 ==> queue == queue0
  {
    hide Recorded, QueueFrom, Frontier;
    run, t, queue, visited := run0, t0, queue0, visited0;
    for k := 0 to |callers|
      invariant InStep(snap, cfg, t, origin, injected, p, callers[..k], run, queue, visited)
      invariant node == t.path[p] && effect == t.effects[p]
      invariant visited0 <= visited <= visited0 + snap.edges.Keys
      invariant visited == visited0 ==> queue == queue0
    {
      var callerId := callers[k];
      assert callers[..k + 1] == callers[..k] + [callerId];
      if callerId in visited {
        SkipInStep(snap, cfg, t, origin, injected, p, callers[..k], run, queue, visited, callerId);
        continue;
      }
      assert Calls(snap, callerId, node);
      var v := JudgeCaller(snap, callerId, node, effect, cfg);
      if v.state != Healthy {
        FailureInStep(snap, cfg, t, origin, injected, p, callers[..k], run, queue, visited, callerId, v);
        visited := visited + {callerId};
        run := RecordFailure(run, callerId, v);
        queue := queue + [(callerId, v.passedOn)];
        t := Extend(t, callerId, p, v.passedOn);
      } else {
        SkipInStep(snap, cfg, t, origin, injected, p, callers[..k], run, queue, visited, callerId);
      }
    }
    assert callers[..|callers|] == callers;
    SweepEnds(snap, cfg, t, origin, injected, p, callers, run, queue, visited);
  }

  /** Only the origin is degraded, every other node is healthy. */
  method StartRun(snap: Snapshot, origin: Id, ghost injected: Effect, cfg: SimConfig)
    returns (run: CascadeRun, ghost t: Trace)
    ensures t == Trace([origin], [0], [injected])
    ensures Explained(snap, cfg, t, origin, injected) && Recorded(snap, cfg, t, run, origin, injected)
  {
    var states := map id | id in snap.nodes :: Healthy;
    run := CascadeRun([origin], states[origin := Degraded], map[]);
    t := Trace([origin], [0], [injected]);
    assert RecordedAt(snap, cfg, t, run, 0);
  }

  /** BFS propagation, on any graph, cyclic or not: it terminates and leaves a run
      in which every failure is explained and no caller is overlooked. */
  method PropagateCascade(snap: Snapshot, origin: Id, injectedLatencyMs: real, injectedErrorRate: real, cfg: SimConfig)
    returns (run: CascadeRun)
    ensures exists t: Trace :: IsCascade(snap, cfg, origin, Effect(injectedLatencyMs, injectedErrorRate), run, t)
  {
    ghost var injected := Effect(injectedLatencyMs, injectedErrorRate);
    hide Frontier, Recorded, InStep, QueueFrom, IsCascade;
    ghost var t;
    run, t := StartRun(snap, origin, injected, cfg);
    var upstreamOf := BuildUpstream(snap);
    var queue := [(origin, Effect(injectedLatencyMs, injectedErrorRate))];
    var visited := {origin};
    ghost var head := 0;
    ghost var reachable := {origin} + snap.edges.Keys;
    StartWaiting(snap, cfg, t, origin, injected, run);

    while |queue| > 0
      invariant Waiting(snap, cfg, t, origin, injected, head, run, queue, visited)
      invariant visited <= reachable
      decreases reachable - visited, |queue|
    {
      Dequeue(snap, cfg, t, origin, injected, head, run, queue, visited);
      var (node, effect) := queue[0];
      var callers := CallersIn(upstreamOf, node);
      run, t, queue, visited :=
        SweepCallers(snap, cfg, origin, injected, head, node, effect, callers, run, t, queue[1..], visited);
      head := head + 1;
    }
    Finished(snap, cfg, t, origin, injected, head, run, queue, visited);
  }

  // ---------------------------------------------------------------------
  // Consequences
  // ---------------------------------------------------------------------

  /** The nodes that end up not healthy are exactly those on the path, and only
      the origin's state is fixed in advance. */
  lemma UnhealthyIsPath(snap: Snapshot, cfg: SimConfig, origin: Id, injected: Effect, run: CascadeRun, t: Trace, id: Id)
    requires IsCascade(snap, cfg, origin, injected, run, t)
    ensures id in run.path <==> id in run.nodeStates && run.nodeStates[id] != Healthy
    ensures origin in run.nodeStates && run.nodeStates[origin] == Degraded && origin !in run.timeToFailure
  {
    assert RecordedAt(snap, cfg, t, run, 0);
    if id in t.path {
      var i: nat :| i < |t.path| && t.path[i] == id;
      assert RecordedAt(snap, cfg, t, run, i);
      assert i >= 1 ==> Caused(snap, cfg, t, i);
    }
  }

  /** Each later element calls an earlier one, so the second calls the origin. */
  lemma PathFollowsCalls(snap: Snapshot, cfg: SimConfig, origin: Id, injected: Effect, run: CascadeRun, t: Trace,
                         i: nat)
    requires IsCascade(snap, cfg, origin, injected, run, t)
    requires 1 <= i < |run.path|
    ensures run.path[0] == origin && run.path[i] != origin
    ensures t.parents[i] < i && Calls(snap, run.path[i], run.path[t.parents[i]])
    ensures i == 1 ==> Calls(snap, run.path[1], origin)
  {
    assert Caused(snap, cfg, t, i);
  }

  /** Completeness: a caller of a failed node is failed too, or all four models
      judged it healthy under that node's effect. */
  lemma NoCallerOverlooked(snap: Snapshot, cfg: SimConfig, origin: Id, injected: Effect, run: CascadeRun, t: Trace,
                           c: Id, j: nat)
    requires IsCascade(snap, cfg, origin, injected, run, t)
    requires j < |run.path| && Calls(snap, c, run.path[j])
    ensures j >= 1 ==> Queued(injected, t.effects[j])
    ensures c in run.path ||
      forall r :: r in ModelResults(snap, c, run.path[j], t.effects[j], cfg) ==> r.targetState == Healthy
  {
    assert ClosedAt(snap, cfg, t, j);
    JudgeMeaning(snap, c, run.path[j], t.effects[j], cfg);
  }

  /** Hops from the origin along the chain of causes. */
  function Depth(parents: seq<nat>, i: nat): nat
    requires i < |parents| && forall k :: 1 <= k < |parents| ==> parents[k] < k
  {
    if i == 0 then 0 else 1 + Depth(parents, parents[i])
  }

  /** The path is in breadth-first order: failures appear by number of hops. */
  lemma {:induction false} BreadthFirst(snap: Snapshot, cfg: SimConfig, t: Trace, origin: Id, injected: Effect,
                                        i: nat, j: nat)
    requires Explained(snap, cfg, t, origin, injected)
    requires i <= j < |t.path|
    ensures Depth(t.parents, i) <= Depth(t.parents, j)
    decreases j
  {
    if i >= 1 {
      BreadthFirst(snap, cfg, t, origin, injected, t.parents[i], t.parents[j]);
    }
  }
}
