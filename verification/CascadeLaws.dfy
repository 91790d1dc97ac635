/** What a finished propagation of pkg/simulator/cascade.go says, in the arithmetic of
    request rates, latencies and pool sizes. */
module CascadeLaws {
  import opened Common
  import opened FailureModels
  import opened RetryModel
  import opened Snapshots
  import opened Cascade

  /** The pools of a caller: configured, or one thread per 20 thousandths of a core and
      a quarter as many connections, at least ten. */
  function Threads(snap: Snapshot, c: Id, cfg: SimConfig): int {
    if CpuLimit(snap, c) >= 20 then CpuLimit(snap, c) / 20 else cfg.threadPoolSize
  }

  function Connections(snap: Snapshot, c: Id, cfg: SimConfig): int {
    if CpuLimit(snap, c) < 20 then cfg.connPoolSize
    else if CpuLimit(snap, c) / 80 > 10 then CpuLimit(snap, c) / 80
    else 10
  }

  /** The latency of a call to d while d has effect e. */
  function SlowedTo(snap: Snapshot, c: Id, d: Id, e: Effect): real
    requires Calls(snap, c, d)
  {
    snap.edges[c][d].latencyP99 + e.latencyMs
  }

  /** The request rate of a call. */
  function RateOf(snap: Snapshot, c: Id, d: Id): real
    requires Calls(snap, c, d)
  {
    snap.edges[c][d].requestRate
  }

  function Timing(cfg: SimConfig): EdgeParams {
    EdgeParams(0, 0, cfg.timeout, cfg.maxRetries, cfg.retryBackoff)
  }

  /** The retry analysis of a call: its own errors plus those of the callee, against the
      requests per second that the caller's threads can serve at the slowed latency. */
  ghost function Retrying(snap: Snapshot, c: Id, d: Id, e: Effect, cfg: SimConfig): ModelResult
    requires Calls(snap, c, d)
  {
    var seconds := SlowedTo(snap, c, d, e) / 1000.0 + 0.001;
    RetryVerdict(RateOf(snap, c, d), snap.edges[c][d].errorRate + e.errorRate, Timing(cfg),
                 if seconds == 0.0 then 0.0 else Threads(snap, c, cfg) as real / seconds, cfg.maxRetryIterations)
  }

  /** Callee d with effect e brings caller c down: more than 80% of a pool is in use, the
      call is too slow, or retries amplify it. */
  ghost predicate Overwhelms(snap: Snapshot, cfg: SimConfig, c: Id, d: Id, e: Effect)
    requires Calls(snap, c, d)
  {
    var rate, latency := RateOf(snap, c, d), SlowedTo(snap, c, d, e);
    || Fills(rate, latency, Threads(snap, c, cfg), 0.8)
    || Fills(rate, latency, Connections(snap, c, cfg), 0.8)
    || TooSlow(latency, Timing(cfg))
    || Retrying(snap, c, d, e, cfg).targetState != Healthy
  }

  /** Pools are at ease and the call is not too slow, so nothing queues. */
  ghost predicate AtEase(snap: Snapshot, cfg: SimConfig, c: Id, d: Id, e: Effect)
    requires Calls(snap, c, d)
  {
    var rate, latency := RateOf(snap, c, d), SlowedTo(snap, c, d, e);
    && !Fills(rate, latency, Threads(snap, c, cfg), 0.8)
    && !Fills(rate, latency, Connections(snap, c, cfg), 0.8)
    && !TooSlow(latency, Timing(cfg))
  }

  /** It exhausts the caller: more than a whole pool is in use, or retries run away. */
  ghost predicate Exhausts(snap: Snapshot, cfg: SimConfig, c: Id, d: Id, e: Effect)
    requires Calls(snap, c, d)
  {
    var rate, latency := RateOf(snap, c, d), SlowedTo(snap, c, d, e);
    || Fills(rate, latency, Threads(snap, c, cfg), 1.0)
    || Fills(rate, latency, Connections(snap, c, cfg), 1.0)
    || Retrying(snap, c, d, e, cfg).targetState == Exhausted
  }

  /** How long the caller takes to fail, 0 when unknown: the time to fill its threads,
      else its connections; for a call that times out with pools at ease, all attempts
      and pauses. */
  ghost predicate FailsAfter(snap: Snapshot, cfg: SimConfig, c: Id, d: Id, e: Effect, ns: int)
    requires Calls(snap, c, d)
  {
    var rate, latency := RateOf(snap, c, d), SlowedTo(snap, c, d, e);
    var threads, conns := Threads(snap, c, cfg), Connections(snap, c, cfg);
    if Fills(rate, latency, threads, 1.0) then FillsAt(rate, threads, latency, ns)
    else if Fills(rate, latency, conns, 1.0) then FillsAt(rate, conns, latency, ns)
    else if !Fills(rate, latency, threads, 0.8) && !Fills(rate, latency, conns, 0.8) && TimesOut(latency, Timing(cfg))
    then
      var waited := Trunc(1_000_000.0 * WaitMs((cfg.timeout / 1_000_000) as real, cfg.retryBackoff, cfg.maxRetries));
      ns == if waited > 0 then waited else 0
    else ns == 0
  }

  /** Whole milliseconds of queueing that the caller adds. */
  ghost function QueuedMs(snap: Snapshot, cfg: SimConfig, c: Id, d: Id, e: Effect): int
    requires Calls(snap, c, d)
  {
    var rate, latency := RateOf(snap, c, d), SlowedTo(snap, c, d, e);
    var active := InUse(rate, latency);
    (if rate > 0.0 then ThreadQueue(active, latency, Threads(snap, c, cfg)) else 0) +
    (if rate > 0.0 then ConnQueue(active, latency, Connections(snap, c, cfg)) else 0) +
    TimeoutQueue(latency, Timing(cfg))
  }

  /** What the caller passes on: its queueing and half of the callee's extra latency;
      a tenth of the load that retries add and half of the callee's errors, within
      [0,1]. */
  ghost function PassedOn(snap: Snapshot, cfg: SimConfig, c: Id, d: Id, e: Effect): Effect
    requires Calls(snap, c, d)
  {
    var load := Retrying(snap, c, d, e, cfg).additionalLoad;
    var errors := (if load > 1.0 then (load - 1.0) * 0.1 else 0.0) + e.errorRate * 0.5;
    Effect(QueuedMs(snap, cfg, c, d, e) as real + e.latencyMs * 0.5,
           if errors < 0.0 then 0.0 else if errors > 1.0 then 1.0 else errors)
  }

  // ---------------------------------------------------------------------
  // One call
  // ---------------------------------------------------------------------

  lemma CombinedFour(a: ModelResult, b: ModelResult, c: ModelResult, d: ModelResult)
    ensures Combined([a, b, c, d]) == Merge(Merge(Merge(Merge(Outcome(Healthy, 0, 0.0, 0.0), a), b), c), d)
  {
    var start := Outcome(Healthy, 0, 0.0, 0.0);
    assert Combined([]) == start;
    assert [a][..0] == [] && [a, b][..1] == [a] && [a, b, c][..2] == [a, b] && [a, b, c, d][..3] == [a, b, c];
    assert Combined([a]) == Merge(start, a);
    assert Combined([a, b]) == Merge(Combined([a]), b);
    assert Combined([a, b, c]) == Merge(Combined([a, b]), c);
    assert Combined([a, b, c, d]) == Merge(Combined([a, b, c]), d);
  }

  /** Only the retry count matters to the retry model, only timing to the timeout model. */
  lemma SameParams(p: EdgeParams, q: EdgeParams, rate: real, base: real, capacity: real, limit: int, latencyMs: real)
    requires p.timeout == q.timeout && p.maxRetries == q.maxRetries && p.retryBackoff == q.retryBackoff
    ensures RetryVerdict(rate, base, p, capacity, limit) == RetryVerdict(rate, base, q, capacity, limit)
    ensures TooSlow(latencyMs, p) == TooSlow(latencyMs, q) && TimesOut(latencyMs, p) == TimesOut(latencyMs, q)
    ensures TimeoutQueue(latencyMs, p) == TimeoutQueue(latencyMs, q)
  {
  }

  /** The four results for one call. */
  ghost predicate FourResults(snap: Snapshot, cfg: SimConfig, c: Id, d: Id, e: Effect,
                              a: ModelResult, b: ModelResult, t: ModelResult, r: ModelResult)
    requires Calls(snap, c, d)
  {
    var rate, latency := RateOf(snap, c, d), SlowedTo(snap, c, d, e);
    var threads, conns := Threads(snap, c, cfg), Connections(snap, c, cfg);
    && (a.targetState == Exhausted <==> Fills(rate, latency, threads, 1.0))
    && (a.targetState != Healthy <==> Fills(rate, latency, threads, 0.8))
    && (if a.targetState == Exhausted then FillsAt(rate, threads, latency, a.timeToFailure) else a.timeToFailure == -1)
    && (b.targetState == Exhausted <==> Fills(rate, latency, conns, 1.0))
    && (b.targetState != Healthy <==> Fills(rate, latency, conns, 0.8))
    && (if b.targetState == Exhausted then FillsAt(rate, conns, latency, b.timeToFailure) else b.timeToFailure == -1)
    && t.targetState != Exhausted && (t.targetState == Degraded <==> TooSlow(latency, Timing(cfg)))
    && t.timeToFailure == (
         if TimesOut(latency, Timing(cfg))
         then Trunc(1_000_000.0 * WaitMs((cfg.timeout / 1_000_000) as real, cfg.retryBackoff, cfg.maxRetries)) else -1)
    && WholeMs(a.queueingDelay) + WholeMs(b.queueingDelay) + WholeMs(t.queueingDelay) == QueuedMs(snap, cfg, c, d, e)
    && a.additionalLoad == b.additionalLoad == t.additionalLoad == 0.0
    && r == Retrying(snap, c, d, e, cfg) && r.timeToFailure == -1 && r.queueingDelay == 0
  }

  lemma PoolsOf(snap: Snapshot, c: Id, cfg: SimConfig)
    ensures var p := BuildEdgeParams(snap, c, cfg);
      && p.threadPoolSize == Threads(snap, c, cfg) && p.connPoolSize == Connections(snap, c, cfg)
      && p.timeout == cfg.timeout && p.maxRetries == cfg.maxRetries && p.retryBackoff == cfg.retryBackoff
  {
    PoolsFromCpuLimit(snap, c, cfg);
    hide BuildEdgeParams, CpuLimit;
  }

  lemma ResultsMeaning(snap: Snapshot, cfg: SimConfig, c: Id, d: Id, e: Effect)
    requires Calls(snap, c, d)
    ensures var rs := ModelResults(snap, c, d, e, cfg);
      |rs| == 4 && FourResults(snap, cfg, c, d, e, rs[0], rs[1], rs[2], rs[3])
  {
    var edge, params := snap.edges[c][d], BuildEdgeParams(snap, c, cfg);
    var rate, latency := edge.requestRate, edge.latencyP99 + e.latencyMs;
    PoolsOf(snap, c, cfg);
    ThreadPoolMeaning(rate, latency, params);
    ConnPoolMeaning(rate, latency, params);
    ExhaustionTime(rate, latency, 0.0, params);
    assert latency + 0.0 == latency;
    TimeoutMeaning(latency, params);
    CapacityIs(snap, c, d, e, cfg);
    SameParams(params, Timing(cfg), rate, edge.errorRate + e.errorRate,
               CapacityFor(params.threadPoolSize, latency), cfg.maxRetryIterations, latency);
    RetryHasNoTime(rate, edge.errorRate + e.errorRate, params,
                   CapacityFor(params.threadPoolSize, latency), cfg.maxRetryIterations);
    hide ThreadPoolExhaustion, ConnPoolSaturation, TimeoutVerdict, RetryVerdict, Fills, FillsAt, TooSlow, TimesOut,
         WholeMs, ThreadQueue, ConnQueue, TimeoutQueue, WaitMs, InUse, BuildEdgeParams, Trunc, CapacityFor, Retrying,
         Threads, Connections;
  }

  lemma CapacityIs(snap: Snapshot, c: Id, d: Id, e: Effect, cfg: SimConfig)
    requires Calls(snap, c, d)
    ensures var edge := snap.edges[c][d];
      Retrying(snap, c, d, e, cfg) ==
      RetryVerdict(edge.requestRate, edge.errorRate + e.errorRate, Timing(cfg),
                   CapacityFor(Threads(snap, c, cfg), edge.latencyP99 + e.latencyMs), cfg.maxRetryIterations)
  {
    hide RetryVerdict, Threads;
  }

  lemma RetryHasNoTime(rate: real, base: real, params: EdgeParams, capacity: real, limit: int)
    ensures var v := RetryVerdict(rate, base, params, capacity, limit); v.timeToFailure == -1 && v.queueingDelay == 0
  {
    hide Iterate, StopRound;
  }

  lemma FillsMore(rate: real, latencyMs: real, pool: int)
    ensures Fills(rate, latencyMs, pool, 1.0) ==> Fills(rate, latencyMs, pool, 0.8)
  {
  }

  /** A time to fail is never negative. */
  lemma FillTimePositive(rate: real, pool: int, latencyMs: real, ns: int)
    requires FillsAt(rate, pool, latencyMs, ns)
    ensures ns >= 0
  {
  }

  lemma JudgedAs(snap: Snapshot, cfg: SimConfig, c: Id, d: Id, e: Effect)
    requires Calls(snap, c, d)
    ensures var v := Judge(snap, c, d, e, cfg);
      && (v.state != Healthy <==> Overwhelms(snap, cfg, c, d, e))
      && (v.state == Exhausted <==> Exhausts(snap, cfg, c, d, e))
      && FailsAfter(snap, cfg, c, d, e, v.ttf)
      && v.passedOn == PassedOn(snap, cfg, c, d, e)
  {
    ResultsMeaning(snap, cfg, c, d, e);
    var rs := ModelResults(snap, c, d, e, cfg);
    assert rs == [rs[0], rs[1], rs[2], rs[3]];
    CombinedFour(rs[0], rs[1], rs[2], rs[3]);
    hide ModelResults, Combined;
    MergedAs(snap, cfg, c, d, e, rs[0], rs[1], rs[2], rs[3]);
  }

  lemma MergedAs(snap: Snapshot, cfg: SimConfig, c: Id, d: Id, e: Effect,
                 a: ModelResult, b: ModelResult, t: ModelResult, r: ModelResult)
    requires Calls(snap, c, d) && FourResults(snap, cfg, c, d, e, a, b, t, r)
    ensures var o := Merge(Merge(Merge(Merge(Outcome(Healthy, 0, 0.0, 0.0), a), b), t), r);
      && (o.state != Healthy <==> Overwhelms(snap, cfg, c, d, e))
      && (o.state == Exhausted <==> Exhausts(snap, cfg, c, d, e))
      && FailsAfter(snap, cfg, c, d, e, o.ttf)
      && PassOn(o, e).passedOn == PassedOn(snap, cfg, c, d, e)
  {
    var rate, latency := RateOf(snap, c, d), SlowedTo(snap, c, d, e);
    FillsMore(rate, latency, Threads(snap, c, cfg));
    FillsMore(rate, latency, Connections(snap, c, cfg));
    if a.targetState == Exhausted {
      FillTimePositive(rate, Threads(snap, c, cfg), latency, a.timeToFailure);
    }
    if b.targetState == Exhausted {
      FillTimePositive(rate, Connections(snap, c, cfg), latency, b.timeToFailure);
    }
    hide Fills, FillsAt, TooSlow, TimesOut, Retrying, QueuedMs, Threads, Connections, WaitMs, Trunc, RateOf, SlowedTo,
         TruncDiv;
  }

  // ---------------------------------------------------------------------
  // The whole propagation
  // ---------------------------------------------------------------------

  /** Who fails: a service other than the origin is on the path if and only if some node
      on the path that it calls overwhelms it. */
  lemma FailsIffOverwhelmed(snap: Snapshot, cfg: SimConfig, origin: Id, injected: Effect, run: CascadeRun, t: Trace,
                            c: Id)
    requires IsCascade(snap, cfg, origin, injected, run, t) && c != origin
    ensures |t.effects| == |run.path|
    ensures c in run.path <==>
      exists j: nat ::
        j < |run.path| && Calls(snap, c, run.path[j]) && Overwhelms(snap, cfg, c, run.path[j], t.effects[j])
  {
    if c in t.path {
      var i: nat :| i < |t.path| && t.path[i] == c;
      var p := t.parents[i];
      assert Caused(snap, cfg, t, i);
      JudgedAs(snap, cfg, c, t.path[p], t.effects[p]);
      assert Calls(snap, c, run.path[p]) && Overwhelms(snap, cfg, c, run.path[p], t.effects[p]);
    } else {
      forall j: nat | j < |t.path| && Calls(snap, c, t.path[j])
        ensures !Overwhelms(snap, cfg, c, t.path[j], t.effects[j])
      {
        assert ClosedAt(snap, cfg, t, j);
        JudgedAs(snap, cfg, c, t.path[j], t.effects[j]);
      }
    }
  }

  /** How it fails: the first path node that overwhelms it brings it down, exhausts it or
      only degrades it, gives its time to failure, and fixes the effect it passes on. */
  lemma FailsAs(snap: Snapshot, cfg: SimConfig, origin: Id, injected: Effect, run: CascadeRun, t: Trace, i: nat)
    requires IsCascade(snap, cfg, origin, injected, run, t) && 1 <= i < |run.path|
    ensures var c, p := run.path[i], t.parents[i];
      && p < i < |t.effects| && Calls(snap, c, run.path[p]) && Overwhelms(snap, cfg, c, run.path[p], t.effects[p])
      && c in run.nodeStates
      && run.nodeStates[c] == (if Exhausts(snap, cfg, c, run.path[p], t.effects[p]) then Exhausted else Degraded)
      && FailsAfter(snap, cfg, c, run.path[p], t.effects[p], if c in run.timeToFailure then run.timeToFailure[c] else 0)
      && t.effects[i] == PassedOn(snap, cfg, c, run.path[p], t.effects[p])
    ensures forall j: nat :: j < t.parents[i] && Calls(snap, run.path[i], run.path[j]) ==>
      !Overwhelms(snap, cfg, run.path[i], run.path[j], t.effects[j])
  {
    var c, p := t.path[i], t.parents[i];
    assert Caused(snap, cfg, t, i);
    assert RecordedAt(snap, cfg, t, run, i);
    JudgedAs(snap, cfg, c, t.path[p], t.effects[p]);
    FailureNotNegative(snap, cfg, c, t.path[p], t.effects[p]);
    forall j: nat | j < p && Calls(snap, c, t.path[j])
      ensures !Overwhelms(snap, cfg, c, t.path[j], t.effects[j])
    {
      assert Spared(snap, cfg, t.path[i], t.path[j], t.effects[j]);
      JudgedAs(snap, cfg, c, t.path[j], t.effects[j]);
    }
  }

  lemma FailureNotNegative(snap: Snapshot, cfg: SimConfig, c: Id, d: Id, e: Effect)
    requires Calls(snap, c, d)
    ensures Judge(snap, c, d, e, cfg).ttf >= 0
  {
    CombinedIsWorst(ModelResults(snap, c, d, e, cfg));
  }

  /** A caller of the origin is exhausted when the slowed calls in flight outnumber its
      connections. */
  lemma CallerOfOriginExhausted(snap: Snapshot, cfg: SimConfig, origin: Id, injected: Effect, run: CascadeRun, t: Trace,
                                c: Id, connections: int)
    requires IsCascade(snap, cfg, origin, injected, run, t) && c != origin && Calls(snap, c, origin)
    requires connections ==
      if c !in snap.nodes || snap.nodes[c].cpuLimitMillis < 20 then cfg.connPoolSize
      else if snap.nodes[c].cpuLimitMillis / 80 > 10 then snap.nodes[c].cpuLimitMillis / 80 else 10
    requires connections > 0 && snap.edges[c][origin].requestRate > 0.0
    requires snap.edges[c][origin].requestRate * (snap.edges[c][origin].latencyP99 + injected.latencyMs) / 1000.0 >
             connections as real
    ensures c in run.nodeStates && run.nodeStates[c] == Exhausted
  {
    Crowded(snap, c, origin, injected, cfg, connections);
    hide Exhausts, Overwhelms, FailsAfter, PassedOn, Connections;
    FailsIffOverwhelmed(snap, cfg, origin, injected, run, t, c);
    assert run.path[0] == origin && t.effects[0] == injected;
    var i: nat :| i < |run.path| && run.path[i] == c;
    FailsAs(snap, cfg, origin, injected, run, t, i);
    assert t.parents[i] == 0;
  }

  lemma Crowded(snap: Snapshot, c: Id, d: Id, e: Effect, cfg: SimConfig, connections: int)
    requires Calls(snap, c, d)
    requires connections ==
      if c !in snap.nodes || snap.nodes[c].cpuLimitMillis < 20 then cfg.connPoolSize
      else if snap.nodes[c].cpuLimitMillis / 80 > 10 then snap.nodes[c].cpuLimitMillis / 80 else 10
    requires connections > 0 && snap.edges[c][d].requestRate > 0.0
    requires snap.edges[c][d].requestRate * (snap.edges[c][d].latencyP99 + e.latencyMs) / 1000.0 > connections as real
    ensures Exhausts(snap, cfg, c, d, e) && Overwhelms(snap, cfg, c, d, e)
  {
    var rate, latency := RateOf(snap, c, d), SlowedTo(snap, c, d, e);
    assert Fills(rate, latency, connections, 1.0) && connections == Connections(snap, c, cfg);
    FillsMore(rate, latency, connections);
    hide Fills;
  }

  /** The same arithmetic under any failed node puts its callers on the path. */
  lemma CallerOfFailedFails(snap: Snapshot, cfg: SimConfig, origin: Id, injected: Effect, run: CascadeRun, t: Trace,
                            c: Id, j: nat, connections: int)
    requires IsCascade(snap, cfg, origin, injected, run, t) && j < |run.path| && Calls(snap, c, run.path[j])
    requires connections ==
      if c !in snap.nodes || snap.nodes[c].cpuLimitMillis < 20 then cfg.connPoolSize
      else if snap.nodes[c].cpuLimitMillis / 80 > 10 then snap.nodes[c].cpuLimitMillis / 80 else 10
    requires connections > 0 && snap.edges[c][run.path[j]].requestRate > 0.0 && |t.effects| == |run.path|
    requires snap.edges[c][run.path[j]].requestRate *
             (snap.edges[c][run.path[j]].latencyP99 + t.effects[j].latencyMs) / 1000.0 > connections as real
    ensures c in run.path
  {
    Crowded(snap, c, run.path[j], t.effects[j], cfg, connections);
    hide Exhausts, Overwhelms, Connections;
    if c == origin {
      assert run.path[0] == c;
    } else {
      FailsIffOverwhelmed(snap, cfg, origin, injected, run, t, c);
    }
  }

  /** A failed node passes on at least half of the latency, and up to 1 half of the
      errors, of the node that brought it down; exactly half when its pools are at ease,
      its calls are not too slow and its retries add no load. */
  lemma EffectsHalve(snap: Snapshot, cfg: SimConfig, origin: Id, injected: Effect, run: CascadeRun, t: Trace, i: nat)
    requires IsCascade(snap, cfg, origin, injected, run, t) && 1 <= i < |run.path|
    ensures t.parents[i] < i < |t.effects| && Calls(snap, run.path[i], run.path[t.parents[i]])
    ensures var c, d, e, passed := run.path[i], run.path[t.parents[i]], t.effects[t.parents[i]], t.effects[i];
      && passed.latencyMs >= e.latencyMs / 2.0
      && passed.errorRate >= MinReal(1.0, e.errorRate / 2.0)
      && (AtEase(snap, cfg, c, d, e) ==> passed.latencyMs == e.latencyMs / 2.0)
      && (Retrying(snap, c, d, e, cfg).additionalLoad <= 1.0 ==>
            passed.errorRate == MaxReal(0.0, MinReal(1.0, e.errorRate / 2.0)))
  {
    var c, p := run.path[i], t.parents[i];
    FailsAs(snap, cfg, origin, injected, run, t, i);
    hide IsCascade, Overwhelms, Exhausts, FailsAfter, Retrying;
    QueuesNotNegative(snap, cfg, c, run.path[p], t.effects[p]);
  }

  lemma QueuesNotNegative(snap: Snapshot, cfg: SimConfig, c: Id, d: Id, e: Effect)
    requires Calls(snap, c, d)
    ensures QueuedMs(snap, cfg, c, d, e) >= 0
    ensures AtEase(snap, cfg, c, d, e) ==> QueuedMs(snap, cfg, c, d, e) == 0
  {
    ResultsMeaning(snap, cfg, c, d, e);
    var rs := ModelResults(snap, c, d, e, cfg);
    hide ModelResults;
    NoQueueAtEase(RateOf(snap, c, d), SlowedTo(snap, c, d, e), Threads(snap, c, cfg), Connections(snap, c, cfg),
                  Timing(cfg));
  }

  lemma NoQueueAtEase(rate: real, latencyMs: real, threads: int, conns: int, params: EdgeParams)
    ensures rate > 0.0 && !Fills(rate, latencyMs, threads, 0.8) ==>
            ThreadQueue(InUse(rate, latencyMs), latencyMs, threads) == 0
    ensures rate > 0.0 && !Fills(rate, latencyMs, conns, 0.8) ==>
            ConnQueue(InUse(rate, latencyMs), latencyMs, conns) == 0
    ensures !TooSlow(latencyMs, params) ==> TimeoutQueue(latencyMs, params) == 0
  {
  }
}
