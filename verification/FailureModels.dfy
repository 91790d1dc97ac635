/** pkg/simulator/models: thread pool, connection pool and timeout models.
    Latencies are reals in milliseconds, durations integers in nanoseconds. */
module FailureModels {
  import opened Common

  datatype NodeState = Healthy | Degraded | Exhausted
  {
    /** The order the propagator compares states by. */
    function Severity(): nat {
      match this
      case Healthy => 0
      case Degraded => 1
      case Exhausted => 2
    }
  }

  datatype ModelResult = ModelResult(targetState: NodeState, timeToFailure: int,
                                     additionalLoad: real, queueingDelay: int)

  datatype EdgeParams = EdgeParams(threadPoolSize: int, connPoolSize: int, timeout: int,
                                   maxRetries: int, retryBackoff: int)

  const HEALTHY := ModelResult(Healthy, -1, 0.0, 0)

  function MsToNs(ms: real): int {
    Trunc(ms * 1_000_000.0)
  }

  function SecondsToNs(s: real): int {
    Trunc(s * 1_000_000_000.0)
  }

  /** Requests in flight, by Little's law. */
  function InFlight(requestRate: real, latencyMs: real): real {
    requestRate * (latencyMs / 1000.0)
  }

  function ThreadPoolExhaustion(requestRate: real, currentLatencyMs: real, injectedLatencyMs: real,
                                params: EdgeParams): ModelResult
  {
    var latency := currentLatencyMs + injectedLatencyMs;
    if requestRate <= 0.0 || params.threadPoolSize <= 0 || latency <= 0.0 then HEALTHY
    else
      var active := InFlight(requestRate, latency);
      var pool := params.threadPoolSize as real;
      if active <= pool * 0.8 then HEALTHY
      else if active <= pool then
        HEALTHY.(targetState := Degraded,
                 queueingDelay := MsToNs((active / (pool - active + 1.0)) * latency))
      else
        HEALTHY.(targetState := Exhausted, timeToFailure := SecondsToNs(pool / requestRate))
  }

  /** Queueing delays of a pool near its limit and beyond it. */
  function UtilizationDelay(utilization: real, holdMs: real): real
    requires utilization <= 1.0
  {
    (utilization / (1.0 - utilization + 0.01)) * holdMs * 0.1
  }

  function ExcessDelay(active: real, pool: real, holdMs: real): real
    requires pool > 0.0
  {
    ((active - pool) / pool) * holdMs
  }

  function ConnPoolSaturation(requestRate: real, currentLatencyMs: real, injectedLatencyMs: real,
                              params: EdgeParams): ModelResult
  {
    var hold := currentLatencyMs + injectedLatencyMs;
    if requestRate <= 0.0 || params.connPoolSize <= 0 || hold <= 0.0 then HEALTHY
    else
      var active := InFlight(requestRate, hold);
      var pool := params.connPoolSize as real;
      if active <= pool * 0.8 then HEALTHY
      else if active <= pool then
        var utilization := active / pool;
        assert utilization <= 1.0;
        HEALTHY.(targetState := Degraded,
                 queueingDelay := MsToNs(UtilizationDelay(utilization, hold)))
      else
        ModelResult(Exhausted, SecondsToNs(pool / requestRate), 0.0,
                    MsToNs(ExcessDelay(active, pool, hold)))
  }

  datatype TimeoutChain = TimeoutChain(timedOut: bool, waitDuration: int, effectiveLatency: int)

  /** Total wait of the first attempt and the given number of retries, in closed
      form: each retry adds the backoff and one more attempt. */
  function TotalWaitMs(perAttemptMs: real, backoffMs: real, retries: int): real {
    perAttemptMs + (if retries <= 0 then 0.0 else retries as real * (backoffMs + perAttemptMs))
  }

  function PerAttemptMs(latencyMs: real, timeoutMs: real): real {
    if latencyMs > timeoutMs then timeoutMs else latencyMs
  }

  /** What TimeoutChainPropagation computes. */
  function ChainResult(latencyMs: real, params: EdgeParams, retries: int): TimeoutChain {
    if params.timeout <= 0 then TimeoutChain(false, MsToNs(latencyMs), MsToNs(latencyMs))
    else
      var timeoutMs := TruncDiv(params.timeout, NS_PER_MS) as real;
      var backoffMs := TruncDiv(params.retryBackoff, NS_PER_MS) as real;
      var wait := MsToNs(TotalWaitMs(PerAttemptMs(latencyMs, timeoutMs), backoffMs, retries));
      if latencyMs > timeoutMs then TimeoutChain(true, wait, params.timeout)
      else TimeoutChain(false, wait, wait)
  }

  /** The retry loop of the timeout model meets the closed form. */
  method TimeoutChainPropagation(downstreamLatencyMs: real, params: EdgeParams, retriesAttempted: int)
    returns (result: TimeoutChain)
    ensures result == ChainResult(downstreamLatencyMs, params, retriesAttempted)
  {
    if params.timeout <= 0 {
      return TimeoutChain(false, MsToNs(downstreamLatencyMs), MsToNs(downstreamLatencyMs));
    }
    var timeoutMs := TruncDiv(params.timeout, NS_PER_MS) as real;
    var perAttemptMs := downstreamLatencyMs;
    if perAttemptMs > timeoutMs {
      perAttemptMs := timeoutMs;
    }
    var backoffMs := TruncDiv(params.retryBackoff, NS_PER_MS) as real;
    var totalWaitMs := perAttemptMs;
    var i := 0;
    while i < retriesAttempted
      invariant 0 <= i && (i <= retriesAttempted || i == 0)
      invariant totalWaitMs == TotalWaitMs(perAttemptMs, backoffMs, i)
    {
      OneMoreRetry(perAttemptMs, backoffMs, i);
      totalWaitMs := totalWaitMs + (backoffMs + perAttemptMs);
      i := i + 1;
    }
    if downstreamLatencyMs > timeoutMs {
      return TimeoutChain(true, MsToNs(totalWaitMs), params.timeout);
    }
    return TimeoutChain(false, MsToNs(totalWaitMs), MsToNs(totalWaitMs));
  }

  lemma OneMoreRetry(perAttemptMs: real, backoffMs: real, i: nat)
    ensures TotalWaitMs(perAttemptMs, backoffMs, i + 1) ==
            TotalWaitMs(perAttemptMs, backoffMs, i) + (backoffMs + perAttemptMs)
  {
    var d := backoffMs + perAttemptMs;
    assert (i + 1) as real * d == i as real * d + d;
  }

  /** The verdict EvaluateTimeout draws from a timeout analysis. */
  function JudgeChain(chain: TimeoutChain, params: EdgeParams): ModelResult {
    if chain.timedOut then ModelResult(Degraded, chain.waitDuration, 0.0, chain.effectiveLatency)
    else if chain.effectiveLatency > TruncDiv(params.timeout, 2) then
      ModelResult(Degraded, -1, 0.0, chain.effectiveLatency)
    else HEALTHY
  }

  function TimeoutVerdict(latencyMs: real, params: EdgeParams): ModelResult {
    JudgeChain(ChainResult(latencyMs, params, params.maxRetries), params)
  }

  method EvaluateTimeout(downstreamLatencyMs: real, params: EdgeParams) returns (result: ModelResult)
    ensures result == TimeoutVerdict(downstreamLatencyMs, params)
  {
    var chain := TimeoutChainPropagation(downstreamLatencyMs, params, params.maxRetries);
    result := JudgeChain(chain, params);
  }

  // ---------------------------------------------------------------------
  // What the verdicts mean, in arithmetic
  // ---------------------------------------------------------------------

  /** Requests in flight, one latency in milliseconds each. */
  ghost function InUse(rate: real, latencyMs: real): real {
    rate * latencyMs / 1000.0
  }

  /** More than this share of a pool is in use at this request rate and latency. */
  ghost predicate Fills(rate: real, latencyMs: real, pool: int, share: real) {
    rate > 0.0 && pool > 0 && InUse(rate, latencyMs) > share * pool as real
  }

  lemma InFlightIs(rate: real, latencyMs: real)
    ensures InFlight(rate, latencyMs) == InUse(rate, latencyMs)
    ensures rate > 0.0 && latencyMs <= 0.0 ==> InFlight(rate, latencyMs) <= 0.0
  {
    if rate > 0.0 && latencyMs <= 0.0 {
      ProductMonotone(rate, latencyMs, 0.0);
    }
  }

  /** The whole milliseconds of a delay; only a positive delay adds to a latency. */
  function WholeMs(delay: int): int {
    if delay > 0 then TruncDiv(delay, NS_PER_MS) else 0
  }

  lemma WholeMsOf(ms: real)
    ensures WholeMs(MsToNs(ms)) == if ms >= 0.0 then ms.Floor else 0
  {
    if ms >= 0.0 {
      var q, n := ms.Floor, (ms * 1_000_000.0).Floor;
      assert q as real <= ms < q as real + 1.0;
      assert 1_000_000 * q <= n < 1_000_000 * q + 1_000_000;
    } else {
      assert (-(ms * 1_000_000.0)).Floor >= 0;
    }
  }

  /** Whole milliseconds that requests queue for a thread when so many are in flight:
      only between 80% and 100% of the pool. */
  function ThreadQueue(active: real, latencyMs: real, pool: int): int {
    if 0.8 * pool as real < active <= pool as real
    then (active / (pool as real - active + 1.0) * latencyMs).Floor else 0
  }

  /** Whole milliseconds that requests queue for a connection: by utilization up to the
      pool size, and by the excess beyond it. */
  function ConnQueue(active: real, latencyMs: real, pool: int): int {
    if pool <= 0 || active <= 0.8 * pool as real then 0
    else if active > pool as real then ((active - pool as real) / pool as real * latencyMs).Floor
    else
      var utilization := active / pool as real;
      if utilization < 1.01 then (utilization / (1.01 - utilization) * latencyMs * 0.1).Floor else 0
  }

  lemma ThreadPoolMeaning(rate: real, latencyMs: real, params: EdgeParams)
    ensures var v, pool := ThreadPoolExhaustion(rate, latencyMs, 0.0, params), params.threadPoolSize;
      && (v.targetState == Exhausted <==> Fills(rate, latencyMs, pool, 1.0))
      && (v.targetState != Healthy <==> Fills(rate, latencyMs, pool, 0.8))
      && WholeMs(v.queueingDelay) == (if rate > 0.0 then ThreadQueue(InUse(rate, latencyMs), latencyMs, pool) else 0)
      && v.additionalLoad == 0.0
  {
    InFlightIs(rate, latencyMs);
    ThreadQueueIs(rate, latencyMs, params);
    hide WholeMs, ThreadQueue, InFlight, InUse, MsToNs;
  }

  lemma ThreadQueueIs(rate: real, latencyMs: real, params: EdgeParams)
    requires rate > 0.0 && latencyMs <= 0.0 ==> InFlight(rate, latencyMs) <= 0.0
    ensures var v := ThreadPoolExhaustion(rate, latencyMs, 0.0, params);
      WholeMs(v.queueingDelay) ==
      if rate > 0.0 then ThreadQueue(InFlight(rate, latencyMs), latencyMs, params.threadPoolSize) else 0
  {
    var active, size := InFlight(rate, latencyMs), params.threadPoolSize as real;
    assert WholeMs(0) == 0;
    hide WholeMs, MsToNs, InFlight;
    if params.threadPoolSize > 0 && latencyMs > 0.0 && 0.8 * size < active <= size {
      WholeMsOf(active / (size - active + 1.0) * latencyMs);
      PositiveShareOf(active, size - active + 1.0, latencyMs);
    }
  }

  lemma ConnPoolMeaning(rate: real, latencyMs: real, params: EdgeParams)
    ensures var v, pool := ConnPoolSaturation(rate, latencyMs, 0.0, params), params.connPoolSize;
      && (v.targetState == Exhausted <==> Fills(rate, latencyMs, pool, 1.0))
      && (v.targetState != Healthy <==> Fills(rate, latencyMs, pool, 0.8))
      && WholeMs(v.queueingDelay) == (if rate > 0.0 then ConnQueue(InUse(rate, latencyMs), latencyMs, pool) else 0)
      && v.additionalLoad == 0.0
  {
    InFlightIs(rate, latencyMs);
    ConnQueueIs(rate, latencyMs, params);
    hide WholeMs, ConnQueue, InFlight, InUse, MsToNs;
  }

  lemma ConnQueueIs(rate: real, latencyMs: real, params: EdgeParams)
    requires rate > 0.0 && latencyMs <= 0.0 ==> InFlight(rate, latencyMs) <= 0.0
    ensures var v := ConnPoolSaturation(rate, latencyMs, 0.0, params);
      WholeMs(v.queueingDelay) ==
      if rate > 0.0 then ConnQueue(InFlight(rate, latencyMs), latencyMs, params.connPoolSize) else 0
  {
    hide InFlight, MsToNs;
    var active, size := InFlight(rate, latencyMs), params.connPoolSize as real;
    if rate <= 0.0 || params.connPoolSize <= 0 || latencyMs <= 0.0 || active <= size * 0.8 {
      assert ConnPoolSaturation(rate, latencyMs, 0.0, params) == HEALTHY;
    } else if active > size {
      hide WholeMs, ConnQueue, ConnPoolSaturation;
      ExcessQueue(rate, latencyMs, params);
    } else {
      hide WholeMs, ConnQueue, ConnPoolSaturation;
      UtilizationQueue(rate, latencyMs, params);
    }
  }

  lemma ExcessQueue(rate: real, latencyMs: real, params: EdgeParams)
    requires rate > 0.0 && params.connPoolSize > 0 && latencyMs > 0.0
    requires InFlight(rate, latencyMs) > params.connPoolSize as real
    ensures WholeMs(ConnPoolSaturation(rate, latencyMs, 0.0, params).queueingDelay) ==
            ConnQueue(InFlight(rate, latencyMs), latencyMs, params.connPoolSize)
  {
    var active, size := InFlight(rate, latencyMs), params.connPoolSize as real;
    ExcessIs(active, latencyMs, params.connPoolSize);
    hide WholeMs, MsToNs, InFlight, ExcessDelay, ConnQueue;
    assert latencyMs + 0.0 == latencyMs;
    WholeMsOf(ExcessDelay(active, size, latencyMs));
  }

  lemma ExcessIs(active: real, latencyMs: real, pool: int)
    requires pool > 0 && latencyMs > 0.0 && active > pool as real
    ensures ExcessDelay(active, pool as real, latencyMs) >= 0.0
    ensures ConnQueue(active, latencyMs, pool) == ExcessDelay(active, pool as real, latencyMs).Floor
  {
    PositiveShareOf(active - pool as real, pool as real, latencyMs);
  }

  lemma UtilizationQueue(rate: real, latencyMs: real, params: EdgeParams)
    requires rate > 0.0 && params.connPoolSize > 0 && latencyMs > 0.0
    requires params.connPoolSize as real * 0.8 < InFlight(rate, latencyMs) <= params.connPoolSize as real
    ensures WholeMs(ConnPoolSaturation(rate, latencyMs, 0.0, params).queueingDelay) ==
            ConnQueue(InFlight(rate, latencyMs), latencyMs, params.connPoolSize)
  {
    var active, size := InFlight(rate, latencyMs), params.connPoolSize as real;
    UtilizationIs(active, latencyMs, params.connPoolSize);
    hide WholeMs, MsToNs, InFlight, UtilizationDelay, ConnQueue;
    assert latencyMs + 0.0 == latencyMs;
    WholeMsOf(UtilizationDelay(active / size, latencyMs));
  }

  lemma UtilizationIs(active: real, latencyMs: real, pool: int)
    requires pool > 0 && latencyMs > 0.0 && 0.8 * pool as real < active <= pool as real
    ensures active / pool as real <= 1.0
    ensures UtilizationDelay(active / pool as real, latencyMs) >= 0.0
    ensures ConnQueue(active, latencyMs, pool) == UtilizationDelay(active / pool as real, latencyMs).Floor
  {
    UtilizationBelowOne(active, pool as real);
    var u := active / pool as real;
    QueueOf(u, latencyMs);
    hide UtilizationDelay;
  }

  lemma QueueOf(u: real, latencyMs: real)
    requires 0.0 < u <= 1.0 && latencyMs > 0.0
    ensures UtilizationDelay(u, latencyMs) == u / (1.01 - u) * latencyMs * 0.1 >= 0.0
  {
    var rest := 1.0 - u + 0.01;
    assert rest == 1.01 - u;
    PositiveShareOf(u, rest, latencyMs);
  }

  lemma UtilizationBelowOne(active: real, size: real)
    requires 0.0 < active <= size
    ensures 0.0 < active / size <= 1.0
  {
  }

  lemma PositiveShareOf(a: real, b: real, latencyMs: real)
    requires a > 0.0 && b > 0.0 && latencyMs > 0.0
    ensures a / b * latencyMs >= 0.0
  {
    ProductMonotone(latencyMs, 0.0, a / b);
  }

  /** Milliseconds spent on all attempts and the pauses between them. */
  function WaitMs(attemptMs: real, backoff: int, retries: int): real {
    var n := if retries > 0 then retries else 0;
    (1 + n) as real * attemptMs + (n * TruncDiv(backoff, 1_000_000)) as real
  }

  /** A call is too slow when one attempt passes the timeout or all of them pass half of
      it; without a timeout, half of the missing one still counts. */
  ghost predicate TooSlow(latencyMs: real, params: EdgeParams) {
    if params.timeout > 0 then
      latencyMs > (params.timeout / 1_000_000) as real ||
      1_000_000.0 * WaitMs(latencyMs, params.retryBackoff, params.maxRetries) >= (params.timeout / 2 + 1) as real
    else if params.timeout >= -1 then 1_000_000.0 * latencyMs >= 1.0
    else 1_000_000.0 * latencyMs > TruncDiv(params.timeout, 2) as real
  }

  ghost predicate TimesOut(latencyMs: real, params: EdgeParams) {
    params.timeout > 0 && latencyMs > (params.timeout / 1_000_000) as real
  }

  /** Whole milliseconds that a slow call adds. */
  ghost function TimeoutQueue(latencyMs: real, params: EdgeParams): int {
    if TimesOut(latencyMs, params) then params.timeout / 1_000_000
    else if !TooSlow(latencyMs, params) then 0
    else
      var wait := if params.timeout > 0 then WaitMs(latencyMs, params.retryBackoff, params.maxRetries) else latencyMs;
      if wait >= 0.0 then wait.Floor else 0
  }

  lemma WaitIsTotal(attemptMs: real, backoff: int, retries: int)
    ensures WaitMs(attemptMs, backoff, retries) ==
            TotalWaitMs(attemptMs, TruncDiv(backoff, NS_PER_MS) as real, retries)
  {
    if retries > 0 {
      var r, b := retries as real, TruncDiv(backoff, NS_PER_MS) as real;
      assert (retries * TruncDiv(backoff, NS_PER_MS)) as real == r * b;
      assert r * (b + attemptMs) == r * b + r * attemptMs;
      assert (1.0 + r) * attemptMs == attemptMs + r * attemptMs;
    }
  }

  /** Dropping the fraction of nanoseconds does not matter to a comparison. */
  lemma TruncAbove(x: real, n: int)
    ensures n >= 0 ==> (Trunc(x) > n <==> x >= (n + 1) as real)
    ensures n < 0 ==> (Trunc(x) > n <==> x > n as real)
  {
    if x >= 0.0 {
      assert x.Floor as real <= x < x.Floor as real + 1.0;
    } else {
      assert (-x).Floor as real <= -x < (-x).Floor as real + 1.0;
    }
  }

  lemma TimeoutMeaning(latencyMs: real, params: EdgeParams)
    ensures var v := TimeoutVerdict(latencyMs, params);
      && v.targetState != Exhausted
      && (v.targetState == Degraded <==> TooSlow(latencyMs, params))
      && WholeMs(v.queueingDelay) == TimeoutQueue(latencyMs, params)
      && v.timeToFailure == (
           if TimesOut(latencyMs, params)
           then Trunc(1_000_000.0 *
                      WaitMs((params.timeout / 1_000_000) as real, params.retryBackoff, params.maxRetries))
           else -1)
      && v.additionalLoad == 0.0
  {
    var timeoutMs := TruncDiv(params.timeout, NS_PER_MS) as real;
    var wait := WaitMs(latencyMs, params.retryBackoff, params.maxRetries);
    WaitIsTotal(latencyMs, params.retryBackoff, params.maxRetries);
    WaitIsTotal(timeoutMs, params.retryBackoff, params.maxRetries);
    TruncAbove(wait * 1_000_000.0, TruncDiv(params.timeout, 2));
    TruncAbove(latencyMs * 1_000_000.0, TruncDiv(params.timeout, 2));
    WholeMsOf(wait);
    WholeMsOf(latencyMs);
    assert WholeMs(0) == 0;
    hide WaitMs, TotalWaitMs, Trunc;
  }

  /** The smaller pool fails first: with no more connections than threads, the
      connection pool is always judged at least as severely as the thread pool. */
  lemma ConnPoolSaturatesFirst(rate: real, latencyMs: real, injectedMs: real, params: EdgeParams)
    requires 0 < params.connPoolSize <= params.threadPoolSize
    ensures ConnPoolSaturation(rate, latencyMs, injectedMs, params).targetState.Severity() >=
            ThreadPoolExhaustion(rate, latencyMs, injectedMs, params).targetState.Severity()
  {
  }

  /** Requests that arrive within ns nanoseconds. */
  ghost function Arrivals(rate: real, ns: int): real {
    rate * (ns as real / 1_000_000_000.0)
  }

  /** ns is the last whole nanosecond at which arrivals still fit the pool, and it
      comes before a request of the given latency can finish. */
  ghost predicate FillsAt(rate: real, pool: int, latencyMs: real, ns: int) {
    && 0 <= ns
    && Arrivals(rate, ns) <= pool as real < Arrivals(rate, ns + 1)
    && ns as real < latencyMs * 1_000_000.0
  }

  lemma FillTime(rate: real, pool: int, latencyMs: real)
    requires rate > 0.0 && pool > 0 && InFlight(rate, latencyMs) > pool as real
    ensures FillsAt(rate, pool, latencyMs, SecondsToNs(pool as real / rate))
  {
    var seconds := pool as real / rate;
    SharesPool(rate, seconds, pool as real);
    var ns := (seconds * 1_000_000_000.0).Floor;
    assert ns == SecondsToNs(seconds);
    LastFitting(rate, seconds, ns);
    CancelRealFactor(rate, seconds, latencyMs / 1000.0);
  }

  lemma SharesPool(rate: real, seconds: real, pool: real)
    requires rate > 0.0 && pool > 0.0 && seconds == pool / rate
    ensures rate * seconds == pool && seconds > 0.0
  {
  }

  lemma LastFitting(rate: real, seconds: real, ns: int)
    requires rate > 0.0 && seconds >= 0.0 && ns == (seconds * 1_000_000_000.0).Floor
    ensures 0 <= ns && Arrivals(rate, ns) <= rate * seconds < Arrivals(rate, ns + 1)
  {
    hide Arrivals;
    ArrivalsBefore(rate, ns, seconds);
    ArrivalsAfter(rate, ns + 1, seconds);
  }

  lemma ArrivalsBefore(rate: real, ns: int, seconds: real)
    requires rate > 0.0 && ns as real / 1_000_000_000.0 <= seconds
    ensures Arrivals(rate, ns) <= rate * seconds
  {
    ProductMonotone(rate, ns as real / 1_000_000_000.0, seconds);
  }

  lemma ArrivalsAfter(rate: real, ns: int, seconds: real)
    requires rate > 0.0 && seconds < ns as real / 1_000_000_000.0
    ensures rate * seconds < Arrivals(rate, ns)
  {
    StrictProduct(rate, seconds, ns as real / 1_000_000_000.0);
  }

  /** The time to failure of an exhausted pool is the time arrivals need to fill
      it, and the pool is full before its first request can have finished. */
  lemma ExhaustionTime(rate: real, currentMs: real, injectedMs: real, params: EdgeParams)
    ensures var r := ThreadPoolExhaustion(rate, currentMs, injectedMs, params);
      if r.targetState == Exhausted then FillsAt(rate, params.threadPoolSize, currentMs + injectedMs, r.timeToFailure)
      else r.timeToFailure == -1
    ensures var r := ConnPoolSaturation(rate, currentMs, injectedMs, params);
      if r.targetState == Exhausted then FillsAt(rate, params.connPoolSize, currentMs + injectedMs, r.timeToFailure)
      else r.timeToFailure == -1
  {
    hide FillsAt;
    if rate > 0.0 {
      var latency := currentMs + injectedMs;
      if params.threadPoolSize > 0 && InFlight(rate, latency) > params.threadPoolSize as real {
        FillTime(rate, params.threadPoolSize, latency);
      }
      if params.connPoolSize > 0 && InFlight(rate, latency) > params.connPoolSize as real {
        FillTime(rate, params.connPoolSize, latency);
      }
    }
  }

  lemma InFlightMonotone(rate: real, l: real, l': real)
    requires rate >= 0.0 && l <= l'
    ensures InFlight(rate, l) <= InFlight(rate, l')
  {
    var d := l' / 1000.0 - l / 1000.0;
    assert rate * d >= 0.0;
  }

  /** More latency never makes either pool look healthier. */
  lemma PoolsMonotoneInLatency(rate: real, l: real, l': real, params: EdgeParams)
    requires l <= l'
    ensures ThreadPoolExhaustion(rate, l, 0.0, params).targetState.Severity() <=
            ThreadPoolExhaustion(rate, l', 0.0, params).targetState.Severity()
    ensures ConnPoolSaturation(rate, l, 0.0, params).targetState.Severity() <=
            ConnPoolSaturation(rate, l', 0.0, params).targetState.Severity()
  {
    if rate > 0.0 {
      InFlightMonotone(rate, l, l');
    }
  }

  lemma MsToNsMonotone(a: real, b: real)
    requires a <= b
    ensures MsToNs(a) <= MsToNs(b)
  {
    var x, y := a * 1_000_000.0, b * 1_000_000.0;
    assert x <= y && -y <= -x;
  }

  lemma WaitMonotone(a: real, b: real, backoffMs: real, retries: int)
    requires a <= b
    ensures TotalWaitMs(a, backoffMs, retries) <= TotalWaitMs(b, backoffMs, retries)
  {
    if retries > 0 {
      ProductMonotone(retries as real, backoffMs + a, backoffMs + b);
    }
  }

  /** Nor does it to the timeout model, and a timed-out call never looks better
      than one that was only slow. */
  lemma TimeoutMonotoneInLatency(l: real, l': real, params: EdgeParams)
    requires l <= l'
    ensures TimeoutVerdict(l, params).targetState.Severity() <= TimeoutVerdict(l', params).targetState.Severity()
    ensures TimeoutVerdict(l, params).targetState != Exhausted
  {
    hide MsToNs, TotalWaitMs;
    if params.timeout <= 0 {
      MsToNsMonotone(l, l');
    } else {
      var timeoutMs := TruncDiv(params.timeout, NS_PER_MS) as real;
      var backoffMs := TruncDiv(params.retryBackoff, NS_PER_MS) as real;
      var a, b := PerAttemptMs(l, timeoutMs), PerAttemptMs(l', timeoutMs);
      WaitMonotone(a, b, backoffMs, params.maxRetries);
      MsToNsMonotone(TotalWaitMs(a, backoffMs, params.maxRetries), TotalWaitMs(b, backoffMs, params.maxRetries));
    }
  }

  /** A service without a timeout is meant to see no timeout-based failure. The code
      keeps that only for latencies below one nanosecond: the half-timeout test
      still runs, against half of the absent timeout. */
  lemma NoTimeoutConfigured(latencyMs: real, params: EdgeParams)
    requires params.timeout <= 0
    ensures TimeoutVerdict(latencyMs, params).targetState == Healthy <==>
            if params.timeout >= -1 then latencyMs * 1_000_000.0 < 1.0
            else latencyMs * 1_000_000.0 <= TruncDiv(params.timeout, 2) as real
  {
    var ns := latencyMs * 1_000_000.0;
    if ns >= 1.0 {
      assert ns.Floor >= 1;
    } else if ns >= 0.0 {
      assert ns.Floor == 0;
    } else {
      assert (-ns).Floor >= 0;
    }
  }

  /** So without a timeout a one-second latency is judged degraded. */
  lemma NoTimeoutStillDegrades()
    ensures TimeoutVerdict(1000.0, EdgeParams(200, 50, 0, 3, 100_000_000)).targetState == Degraded
  {
    NoTimeoutConfigured(1000.0, EdgeParams(200, 50, 0, 3, 100_000_000));
  }
}
