# CascadeShield: a verified model of its algorithms

CascadeShield watches calls between services, keeps a live dependency graph of
them, simulates how a failure of each service would spread to its callers, and
sheds traffic on the calls that would spread it. This project models its
algorithms and proves what they promise.

- **Latency metrics** (`Histogram.dfy`, `Window.dfy`): the log-linear histogram
  answers percentiles to a proved precision; the ring of tumbling buckets is a
  cache of sums over a timestamped log of events.
- **Live graph** (`Graph.dfy`, `ConnectionWalk.dfy`): degree counters stay equal
  to the true degrees through capacity refusals and pruning.
- **Name cache** (`LruCache.dfy`, `LruTheory.dfy`): a map and a recency list of
  shared entries, proved against laws about every history of operations.
- **Simulator** (`FailureModels.dfy`, `RetryModel.dfy`, `Cascade.dfy`, `Risk.dfy`,
  `CascadeLaws.dfy`, `Report.dfy`, `PathKeys.dfy`, `Sorting.dfy`, `Engine.dfy`,
  `FanOut.dfy`): failure models, breadth-first propagation and what a finished
  propagation says in arithmetic over configuration and metrics, risk score,
  aggregation of runs and the bounded concurrent fan-out over nodes.
- **Shield** (`Strategy.dfy`, `EdgeTrack.dfy`, `Recovery.dfy`, `Hysteresis.dfy`,
  `Controller.dfy`): decisions, the per-edge ramp state machine, its removal
  promise, the audit log and the control loop.
- **Pipeline** (`Pipeline.dfy`): graph, simulation loop and control loop together.

Conventions: float64 values are reals, integers and durations (in nanoseconds)
are unbounded, `time.Now()` is a parameter, and Go's random map order is an
arbitrary choice in every loop. Stateful types are classes; ghost fields hold
histories (a log of events, of operations, of recorded values) that the
contracts speak about.

## Where code and documentation disagree

- `pkg/shield/recovery.go:19-21` promises that shedding never falls by more than
  `RampDownStep` in one interval. The code removes an edge at once after the last
  low interval, whatever it still sheds. `EdgeTrack.GentleIff` gives the exact
  condition under which the promise holds, `EdgeTrack.DefaultsAreNotGentle` shows
  that the default configuration fails it, and `EdgeTrack.TickRateLimited` gives
  the bound that does hold.
- `pkg/simulator/models/timeout.go:43` says that without a timeout there is no
  timeout-based failure. `EvaluateTimeout` still compares the wait with half the
  timeout, here zero: `FailureModels.NoTimeoutConfigured` gives the exact
  condition and `FailureModels.NoTimeoutStillDegrades` an input.
- `pkg/shield/recovery.go:22` and `pkg/shield/config.go:40-48` promise full removal
  only after `ConsecutiveLowIntervals` with risk below `RecoveryThreshold`. The
  code removes an edge as soon as its shed reaches zero, and counts an interval as
  low below `ShedThreshold`; nothing reads `RecoveryThreshold`.
  `EdgeTrack.PatientIff` gives the exact condition for the first half,
  `Hysteresis.RecoveryThresholdIff` for the second, `Hysteresis.RemovalPromiseIff`
  for both together. With the defaults one interval at risk 0.5 after a decision at
  0.7 removes the edge (`Hysteresis.DefaultsBreakRemovalPromise`).
- `pkg/shield/recovery.go:118` takes a missing decision for a risk below the
  threshold. `Hysteresis.EdgeDecidedIff` gives all reasons for one; an edge whose
  target's leading path has moved to another caller ramps down at any risk
  (`Hysteresis.SwitchedCallerRampsDown`).
- `pkg/shield/strategy.go:21-24` gives the fraction without the floor of 5% that the
  code applies (`Strategy.ShedFormulaIff`), and names the cut edge along the path;
  the calls shed run the other way, from the second node to the first.
- `pkg/simulator/risk.go:44` gives the impact as in-degree over the maximum; the code
  adds 1 to both (`Risk.DocumentedImpactIff`).
- `pkg/simulator/models/retry.go:23-25` measures the overload against the load, the
  code against the capacity (`RetryModel.DocumentedErrorIff`).
- `pkg/graph/dag.go:246` says pruning cleans up orphaned nodes; the code never
  deletes a node, and the exactness of the degrees relies on that. The result is
  free of orphans exactly when every node was an end of a fresh edge
  (`Graph.NoOrphansIff`); one stale edge leaves two (`Graph.StaleEdgeLeavesOrphans`).
- `pkg/resolver/cache.go:124` documents `Len` as the number of non-expired items. It
  is that exactly when no listed entry has expired (`LruCache.Cache.Len`);
  `LruTheory.ExpiredStillCounted` gives an input.
- The base error rate that `pkg/simulator/cascade.go:99` hands to the retry model
  can exceed 1; then the error iterates fall in the first round
  (`RetryModel.AscentIffProperBase`, `Cascade.PropagatedBaseAboveOne`).

## Model

| member | source | states |
|---|---|---|
| LatencyHistogram.Histogram.constructor | pkg/metrics/histogram.go:47-88 | for every argument, however out of range, the parameters end up clamped as documented and the boundary list is a valid log-linear one that covers all trackable values |
| LatencyHistogram.Histogram.BuildBoundaries | pkg/metrics/histogram.go:66-80 | the boundary loop terminates; boundaries strictly increase, start at the smallest trackable value (at least 1 ns), every gap is exactly one step, and the sentinel lies just above the largest value |
| LatencyHistogram.Histogram.BucketIndex | pkg/metrics/histogram.go:157-168 | binary search finds the one bucket whose boundary is the first not below the value |
| LatencyHistogram.Histogram.RecordNs | pkg/metrics/histogram.go:91-105 | the value, raised to the smallest or cut to the largest trackable one, joins the log of observations and every bucket count stays equal to the number of logged values in its range |
| LatencyHistogram.Histogram.Percentile | pkg/metrics/histogram.go:109-136 | 0 when empty, the first boundary for p at or below 0, otherwise, for q = min(p, 100), the first boundary with at least q percent of all observations at or below it, an accurate upper bound of the order statistic of rank ceil(n q / 100); the fallback after the scan is unreachable |
| LatencyHistogram.Histogram.TargetRank | pkg/metrics/histogram.go:119-124 | for p above 0 and q = min(p, 100) the rank asked for is the least r with 100 r >= n q, between 1 and the number of observations |
| LatencyHistogram.Histogram.Reset | pkg/metrics/histogram.go:139-146 | afterwards the histogram is that of an empty log |
| LatencyHistogram.PercentileAccuracy | pkg/metrics/histogram.go:66-136 | the reported boundary b for rank r bounds the r-th smallest value x: x <= b, and b = x, or (b - x) * 10^sigFigs < x, or x = 0 and b = 1 ns |
| LatencyHistogram.PercentileMonotone | pkg/metrics/histogram.go:109-136 | a higher percentile never reports a lower value |
| LatencyHistogram.BoundariesPerOctave | pkg/metrics/histogram.go:61-80 | any range [v, 2v) holds at most 2 * 10^sigFigs + 1 boundaries |
| LatencyHistogram.RankMeaning | pkg/metrics/histogram.go:119-124 | the rank is the only whole number r with 100 (r - 1) < n q <= 100 r |
| LatencyHistogram.RankCovers | pkg/metrics/histogram.go:119-132 | the first boundary that reaches the rank is the first with at least q percent of the observations at or below it |
| LatencyHistogram.BoundaryGaps | pkg/metrics/histogram.go:66-80 | each gap but the last is the largest whole number of nanoseconds within one part in 10^sigFigs of the boundary below, and at least 1 |
| LatencyHistogram.PowersOfTen | pkg/metrics/histogram.go:57-62 | one to five significant figures are 10 to 100000 parts per doubling |
| SlidingWindow.Window.constructor | pkg/metrics/window.go:56-70 | bucket i starts i slices after the start of the window duration before now, the newest at the current index; with at least one nanosecond per bucket the ring is valid |
| SlidingWindow.SlidesEndIff | pkg/metrics/window.go:79-87 | the slide loop stops if and only if slices have a positive length or the current slice has not ended |
| SlidingWindow.Window.Advance | pkg/metrics/window.go:74-88 | terminates with the current slice holding now, keeps the ring of consecutive slices and every bucket equal to the logged events of its slice |
| SlidingWindow.Window.RecordConnect | pkg/metrics/window.go:91-96 | adds exactly one connect event, stamped now, to the log the ring stands for |
| SlidingWindow.Window.RecordClose | pkg/metrics/window.go:99-108 | adds exactly one close event with its duration and byte counts to the log |
| SlidingWindow.Window.RecordRetransmit | pkg/metrics/window.go:111-116 | adds exactly one retransmit event to the log |
| SlidingWindow.Window.Aggregate | pkg/metrics/window.go:145-164 | every reported counter is the sum over exactly the logged events in (start - (N-1) s, now], with start the slice start determined by creation time and now alone: when the ring slid, and how often, does not matter; the reported duration is the configured one in seconds |
| SlidingWindow.Coverage | pkg/metrics/window.go:41-88 | an aggregate counts every event aged at most (N-1) s and none aged N s or more |
| SlidingWindow.SliceStartUnique | pkg/metrics/window.go:74-88 | slices are aligned: only one slice start lies less than one slice before an instant |
| SlidingWindow.PlacedAfterOpen | pkg/metrics/window.go:79-87 | opening a slice over the oldest bucket keeps start times decreasing by one slice per place back around the ring |
| SlidingWindow.CountedAfterRecord | pkg/metrics/window.go:91-116 | adding an event to the current bucket keeps every bucket equal to the events of its own slice |
| SlidingWindow.RingTotal | pkg/metrics/window.go:153-161 | all buckets together hold exactly the events of the last N slices, wherever the ring currently starts |
| SlidingWindow.TotalsMeaning | pkg/metrics/window.go:91-161 | what one logged event adds to an aggregate: a connect or retransmit counts 1, a close counts 1 and adds its duration and its bytes each way, and an event outside of the interval adds nothing |
| LruCache.Cache.constructor | pkg/resolver/cache.go:38-48 | an empty cache; a capacity at or below 0 becomes 1024 |
| LruCache.Cache.Get | pkg/resolver/cache.go:52-77 | answers what the whole history of operations determines, counts one hit or one miss, and keeps map and list in step with that history |
| LruCache.Cache.GetEntry | pkg/resolver/cache.go:52-77 | a hit moves the entry to the front unchanged, an expired entry is removed and missed, an unknown key changes nothing |
| LruCache.Cache.Set | pkg/resolver/cache.go:81-112 | keeps the cache equal to the run of its history; hit and miss counters stay |
| LruCache.Cache.SetEntry | pkg/resolver/cache.go:81-112 | a known key gets value and expiry rewritten in place and moves to the front, a new key goes to the front after the oldest entry made room at capacity |
| LruCache.Cache.Delete | pkg/resolver/cache.go:115-122 | keeps the cache equal to the run of its history; hit and miss counters stay |
| LruCache.Cache.DeleteEntry | pkg/resolver/cache.go:119-121 | the key is gone, everything else stays in order |
| LruCache.Cache.RemoveElement | pkg/resolver/cache.go:147-151 | list and map lose the same entry and stay in bijection |
| LruCache.Cache.EvictOldest | pkg/resolver/cache.go:138-143 | exactly the last list element goes; an empty list stays empty |
| LruCache.Cache.Len | pkg/resolver/cache.go:124-129 | list length and map size agree and never pass the capacity; at any instant the result is the number of non-expired entries if and only if no listed entry has expired |
| LruTheory.LengthIsLiveIff | pkg/resolver/cache.go:124-129 | a list is as long as its number of non-expired entries exactly when none has expired |
| LruTheory.ExpiredStillCounted | pkg/resolver/cache.go:124-129 | an entry set at 0 with a lifetime of 10 is still counted at 11, against the documentation |
| LruTheory.Inclusion | pkg/resolver/cache.go:52-151 | after every history of Get, Set and Delete the recency list of a smaller cache is a subsequence of a larger one's with equal values and expiries, and the length gap is at most the capacity gap |
| LruTheory.StepKeepsInclusion | pkg/resolver/cache.go:52-122 | every single operation keeps the inclusion relation |
| LruTheory.LargerCacheHitsToo | pkg/resolver/cache.go:52-77 | every hit of the smaller cache is a hit of the larger with the same value |
| LruTheory.RunWithinCapacity | pkg/resolver/cache.go:81-112 | every history leaves at most capacity entries, no two positions with the same key |
| LruTheory.EntryIsLastSet | pkg/resolver/cache.go:52-122 | a key still cached maps to the value and expiry of its last Set, with no Delete since |
| LruTheory.LookupAfterSet | pkg/resolver/cache.go:52-112 | after any history, a Set of k to v at t makes Get answer v up to and including t + ttl, and nothing after; without a ttl always v |
| LruTheory.LookupListed | pkg/resolver/cache.go:52-122 | after any history, Get of a key still listed answers the value of its last Set until the lifetime from that Set has passed, and nothing from then on |
| LruTheory.KeysAfter | pkg/resolver/cache.go:52-151 | what any further operation does to the order of keys, with expiry and Delete: a hit or Set moves its key to the front, a Set beyond capacity loses the last key, a missed Get of an expired key and a Delete take their key out, all others keep their order |
| LruTheory.MostRecentlyTouched | pkg/resolver/cache.go:52-112 | without expiry and Delete the list is exactly the first capacity keys of all distinct keys ordered by last Set or hit |
| Graph.DAG.constructor | pkg/graph/dag.go:25-35 | an empty graph satisfies the invariant |
| Graph.DAG.EnsureNode | pkg/graph/dag.go:144-158 | a node is there afterwards if and only if it was or the graph had room; a known one was last seen at the later of the two times, a new one now, with zero degrees; every other node keeps its object and last-seen time |
| Graph.DAG.RecordConnect | pkg/graph/dag.go:161-195 | nodes are admitted while there is room; the edge exists afterwards if and only if it did or its source had fewer edges than allowed, and then has one more active connection than before; no other edge changes and degrees stay exact |
| Graph.DAG.AddEdge | pkg/graph/dag.go:181-189 | one edge is added and both end degrees are counted up, as far as the ends are nodes |
| Graph.DAG.RecordClose | pkg/graph/dag.go:198-214 | exactly one known edge takes the close: one active connection less unless there was none, bytes and duration added, one more completed connection; an unknown edge is ignored |
| Graph.DAG.RecordRetransmit | pkg/graph/dag.go:217-227 | exactly one known edge has the count added to its retransmits, an unknown edge is ignored |
| Graph.DAG.UpdateEdgeMetrics | pkg/graph/dag.go:234-243 | metrics of a known edge are replaced, nothing else changes; a pruned edge drops the update |
| Graph.DAG.RemoveEdge | pkg/graph/dag.go:257-265 | removing an edge takes one from the degrees of both ends, and the guards against negative degrees never block |
| Graph.DAG.PruneSource | pkg/graph/dag.go:254-271 | the inner loop removes exactly the stale edges of one source, counts each once and drops the table when it is empty |
| Graph.DAG.PruneStaleEdges | pkg/graph/dag.go:247-282 | an edge stays if and only if now minus its last-seen time is at most the timeout, the result is the number of edges gone, no empty table stays, no node is deleted, all degrees stay exact, and a node ends with both degrees 0 if and only if every edge at it was stale |
| Graph.OrphanedIff | pkg/graph/dag.go:254-271 | pruning leaves a node without edges exactly when it was no end of a fresh edge |
| Graph.NoOrphansIff | pkg/graph/dag.go:246-271 | the documented cleanup of orphans holds if and only if every node was an end of a fresh edge before |
| Graph.StaleEdgeLeavesOrphans | pkg/graph/dag.go:246-271 | a graph of one stale edge is left with two orphans, against the documentation |
| Graph.DAG.EdgeCount | pkg/graph/dag.go:124-133 | the number of pairs in the call relation |
| Graph.DAG.TakeSnapshot | pkg/graph/snapshot.go:20-59 | the copy has the same nodes with their true degrees and CPU limits, and exactly the same edges and metrics; below capacity every caller is among its nodes |
| Graph.DAG.DegreesExact | pkg/graph/dag.go:161-271 | in every reachable graph OutDegree of a node is the number of its targets and InDegree the number of sources that call it |
| Graph.DAG.RefusedStaysRefused | pkg/graph/dag.go:150-153 | an edge end that is not a node was refused at capacity, the graph is still full, and so the node can never appear later |
| Graph.DAG.ActiveConnectionsBounds | pkg/graph/dag.go:192-227 | in every reachable graph 0 <= ActiveConnections <= TotalConnections, and ActiveConnections is the largest count of connects minus closes over all suffixes of the edge's history |
| Graph.DAG.TotalsExact | pkg/graph/dag.go:192-227 | in every reachable graph the totals of an edge are the sums over the events since its creation, its connection counts the numbers of connects and closes among them, and its last-seen time that of the latest |
| Graph.ExactAfterAdd | pkg/graph/dag.go:184-189 | counting a new edge at both ends keeps all degrees exact |
| Graph.ExactAfterRemove | pkg/graph/dag.go:257-265 | counting a removed edge down keeps all degrees exact, and both counters were positive |
| ConnectionWalk.WalkIsMaxSuffix | pkg/graph/dag.go:192-227 | a counter that ignores closes at zero is a reflected walk: the maximum over all suffixes of the net count |
| ConnectionWalk.WalkNonNegative | pkg/graph/dag.go:192-227 | it lies between 0 and the number of connects |
| FailureModels.ConnPoolSaturatesFirst | pkg/simulator/models/connpool.go:32-76 | with no more connections than threads the connection pool is never judged healthier than the thread pool |
| FailureModels.PoolsMonotoneInLatency | pkg/simulator/models/threadpool.go:26-69 | more latency never makes either pool look healthier |
| FailureModels.ThreadPoolMeaning | pkg/simulator/models/threadpool.go:26-69 | at a positive rate the pool is exhausted if and only if rate * latency / 1000 exceeds it, degraded if and only if that exceeds 80% of it only, and then queues for active / (pool - active + 1) latencies |
| FailureModels.ConnPoolMeaning | pkg/simulator/models/connpool.go:32-76 | the same thresholds; a tenth of utilization / (1.01 - utilization) latencies of queueing below the pool size and the excess share of the latency above it |
| FailureModels.ExhaustionTime | pkg/simulator/models/threadpool.go:57-68 | the time to failure of an exhausted pool is the last whole nanosecond at which arrivals still fit the pool, before the first request can have finished; otherwise it is -1 |
| FailureModels.TimeoutChainPropagation | pkg/simulator/models/timeout.go:41-83 | the retry loop computes first attempt plus retries times (backoff plus attempt), each attempt capped by the timeout |
| FailureModels.EvaluateTimeout | pkg/simulator/models/timeout.go:87-111 | its verdict is that of the closed form |
| FailureModels.TimeoutMonotoneInLatency | pkg/simulator/models/timeout.go:41-111 | more latency never improves the timeout verdict, and timeouts alone never exhaust a service |
| FailureModels.TimeoutMeaning | pkg/simulator/models/timeout.go:41-111 | degraded if and only if one attempt exceeds the timeout in whole milliseconds or the wait over all attempts and backoffs exceeds half of it; failure time and delay are those waits |
| FailureModels.NoTimeoutConfigured | pkg/simulator/models/timeout.go:42-49 | with no timeout configured the verdict is healthy if and only if the latency is below one nanosecond, or at most half of a timeout of -2 ns or less |
| FailureModels.NoTimeoutStillDegrades | pkg/simulator/models/timeout.go:98-105 | a one-second latency with no timeout is judged degraded, against the documentation |
| RetryModel.RetryAmplification | pkg/simulator/models/retry.go:33-112 | the loop ends at the first settled iterate of the feedback, or at the iteration limit, and classifies it |
| RetryModel.RunRound | pkg/simulator/models/retry.go:53-66 | one pass of the loop applies the feedback function once |
| RetryModel.StopRoundIsFirst | pkg/simulator/models/retry.go:51-81 | the round where the loop leaves is the first settled one, or the limit |
| RetryModel.Ascent | pkg/simulator/models/retry.go:51-81 | for a base error rate in [0,1] the error iterates never fall and stay in [base, 1] |
| RetryModel.BelowFixedPoint | pkg/simulator/models/retry.go:51-81 | they never pass any error rate that the feedback does not raise, so not the least fixed point |
| RetryModel.AmplificationBounds | pkg/simulator/models/retry.go:33-112 | the reported amplification lies between 1 + base * retries and 1 + top * retries for every such rate top |
| RetryModel.AmplificationWithinCapacity | pkg/simulator/models/retry.go:57-66 | when the once-amplified load fits the capacity the amplification is exactly 1 + base * retries |
| RetryModel.VerdictWithinCapacity | pkg/simulator/models/retry.go:33-112 | for a base in [0,1] and rate * (1 + base * retries) within capacity, or no capacity: exhausted if and only if base > 0.9, healthy if and only if base <= 0.5 and base * retries <= 0.5 |
| RetryModel.VerdictBeyondCapacity | pkg/simulator/models/retry.go:57-98 | for a base in [0,1] and rate * (1 + base * retries) beyond twice the capacity the verdict is exhausted |
| RetryModel.VerdictAtExtremes | pkg/simulator/models/retry.go:34-40 | a base above 1 is exhausted; without retries or requests the verdict is healthy with an amplification of 1 |
| RetryModel.VerdictRound | pkg/simulator/models/retry.go:42-81 | the verdict is that of the first round whose load moved by less than 1% of the rate and whose error rate by less than 0.001, or of the last round, the tenth when no limit is given |
| RetryModel.IterateStep | pkg/simulator/models/retry.go:53-76 | a round has load rate * (1 + err * retries) for the error rate before it, and the base error rate up to capacity, a share of the rest linear in the excess up to twice the capacity, and 1 from there on |
| RetryModel.AscentIffProperBase | pkg/simulator/cascade.go:99-111 | the iterates ascend if and only if the base error rate is at most 1 |
| RetryModel.DocumentedErrorIff | pkg/simulator/models/retry.go:23-25 | under overload the error rate is never below the documented one, and equals it exactly for a base of 1 |
| RetryModel.AboveOneCollapses | pkg/simulator/models/retry.go:59-76 | above 1 every iterate from the first round on is exactly 1 |
| Cascade.PropagatedBaseAboveOne | pkg/simulator/cascade.go:97-108 | an edge with error rate 0.6 whose callee fails half of its requests hands over a base of 1.1, which the first round lowers to 1 for good |
| Cascade.PropagateCascade | pkg/simulator/cascade.go:38-153 | on any graph, cyclic or not, with any metrics and any injected effect, propagation terminates; the run is one in which every failed node has a cause earlier on the path, no caller is overlooked, and states and failure times are those the models gave |
| Cascade.SweepCallers | pkg/simulator/cascade.go:80-149 | one dequeued node: every caller ends up failed, failed before, or judged healthy; queue, visited set, path and record stay in step |
| Cascade.BuildUpstream | pkg/simulator/cascade.go:55-60 | the reverse adjacency list holds exactly the callers of each callee |
| Cascade.JudgeCaller | pkg/simulator/cascade.go:86-147 | the verdict on one caller from its four model results and the damped effect passed on |
| Cascade.CombineResults | pkg/simulator/cascade.go:110-131 | the combining loop folds the four results in order |
| Cascade.CombinedIsWorst | pkg/simulator/cascade.go:110-131 | the combined state is the worst of the results and reached by one of them; combined latency, error and time are never negative |
| Cascade.JudgeMeaning | pkg/simulator/cascade.go:101-147 | a caller is healthy exactly when all four models say so; every error rate put in the queue lies in [0,1], and no latency turns negative |
| Cascade.PoolsFromCpuLimit | pkg/simulator/cascade.go:157-180 | a CPU limit gives one thread per 20 thousandths of a core from 20 on and one connection per 80, but at least 10; the defaults stay below 20; the connection pool is no larger than the thread pool exactly from 200 on |
| Cascade.UnhealthyIsPath | pkg/simulator/cascade.go:44-52 | the nodes that end up not healthy are exactly those on the path; the origin is degraded, without a failure time |
| Cascade.PathFollowsCalls | pkg/simulator/cascade.go:76-148 | the path starts at the origin, each later element calls an earlier one, the second calls the origin, and the origin does not recur |
| Cascade.NoCallerOverlooked | pkg/simulator/cascade.go:80-149 | every caller of a failed node is failed itself or was judged healthy by all four models under that node's effect |
| Cascade.BreadthFirst | pkg/simulator/cascade.go:76-148 | failures appear on the path by number of hops from the origin |
| CascadeLaws.FailsIffOverwhelmed | pkg/simulator/cascade.go:76-148 | a service other than the origin fails if and only if it calls a failed one whose extra latency fills more than 80% of its threads or connections, makes its calls too slow, or whose errors make its retries unhealthy |
| CascadeLaws.FailsAs | pkg/simulator/cascade.go:86-147 | the first such callee on the path brings it down: exhausted if a pool overflows or retries exhaust it and degraded otherwise, with its time to failure and the effect it passes on in arithmetic |
| CascadeLaws.CallerOfOriginExhausted | pkg/simulator/cascade.go:86-131 | a caller of the origin is exhausted when rate * (p99 + injected latency) / 1000 exceeds its connections, from the configuration or its CPU limit |
| CascadeLaws.CallerOfFailedFails | pkg/simulator/cascade.go:80-131 | the same arithmetic with the effect of any failed node puts its callers on the path |
| CascadeLaws.EffectsHalve | pkg/simulator/cascade.go:133-147 | an effect is at least half of its cause in latency and, up to 1, in error rate; exactly half when nothing queues and retries add no load |
| Risk.ComputeRiskScore | pkg/simulator/risk.go:48-121 | whatever the map order, the score is the clamped, normalised sum over affected nodes of cascade probability, impact and urgency |
| Risk.MaxInDegree | pkg/simulator/risk.go:55-61 | the largest in-degree, at least 1 |
| Risk.TallyRun | pkg/simulator/risk.go:68-81 | after each run the counters equal, for every node, the runs that exhausted it, those with a failure time and the sum of the times |
| Risk.SumContributions | pkg/simulator/risk.go:87-110 | the scoring loop adds every affected node's contribution once |
| Risk.ContributionBound | pkg/simulator/risk.go:89-110 | each node contributes between 0 and 10 |
| Risk.DocumentedImpactIff | pkg/simulator/risk.go:44 | the impact is never below the documented in-degree over maximum, and equals it exactly for nodes with the maximum |
| Risk.RawScoreBound | pkg/simulator/risk.go:112-118 | the normalised sum is at most the share of affected nodes among the snapshot's nodes |
| Risk.ClampNeverActive | pkg/simulator/risk.go:115-121 | with the origin and all callers listed among n nodes the score lies in [0, (n-1)/n] before clamping, so the clamp changes nothing |
| Risk.ScoreBound | pkg/simulator/risk.go:48-121 | the score itself obeys the same bound |
| Risk.ScoreNeedsNodes | pkg/simulator/risk.go:48-121 | a score that reaches a threshold needs at least 1 / (1 - threshold) nodes, four for the default |
| Risk.FasterNeverScoresLower | pkg/simulator/risk.go:48-121 | for runs that exhaust the same nodes as often, shorter failure times never lower the score |
| Risk.UrgencyMeaning | pkg/simulator/risk.go:99-107 | urgency is 10 up to a mean failure time of a tenth of a second, the inverse of the mean in seconds beyond, and 1 without a mean |
| Risk.UrgencyFalls | pkg/simulator/risk.go:99-107 | a shorter mean is never less urgent |
| Risk.ImpactMeaning | pkg/simulator/risk.go:92-97 | impact times (maximum + 1) is in-degree + 1, and impact is 1 off the snapshot |
| Risk.ContributionMeaning | pkg/simulator/risk.go:89-110 | a contribution is the share of runs that exhausted the node, times impact, times urgency |
| Risk.CountsAreRuns | pkg/simulator/risk.go:68-81 | the counters are the numbers of runs that exhausted the node, and of those that also gave it a failure time |
| Risk.RawScoreMeaning | pkg/simulator/risk.go:112-118 | ten times the number of nodes, times the score before clamping, is the sum of contributions |
| Risk.LevelMeaning | pkg/simulator/risk.go:22-33 | the four levels cut the scores at the three thresholds, each threshold belonging to the level above |
| Report.BuildNodeResult | pkg/simulator/report.go:82-166 | the result ranks the non-trivial paths of the runs by frequency, lists the exhausted nodes other than the origin sorted and once, and reports the mean failure time and the share of runs with a cascade |
| Report.Aggregate | pkg/simulator/report.go:93-131 | one pass over the runs: per path key the number of runs, of timed runs and the time sum, and the same in total |
| Report.AggregatePath | pkg/simulator/report.go:116-130 | adding one run keeps every key's counters exact and raises the sum of all counts by one for a non-trivial path |
| Report.CollectExhausted | pkg/simulator/report.go:101-113 | the run adds exactly its exhausted nodes other than the origin, and counts as a cascade exactly when there is one |
| Report.RankPaths | pkg/simulator/report.go:146-159 | before truncation every key is listed once, most frequent first, and the frequencies add up to the runs with a non-trivial path |
| Report.FrequencyIsPathCount | pkg/simulator/report.go:116-130 | for arrow-free names a path's frequency is exactly the number of runs with that path |
| Report.DroppedNotMoreFrequent | pkg/simulator/report.go:157-163 | no dropped path is more frequent than a kept one |
| Report.ProbabilityMeaning | pkg/simulator/report.go:100-143 | the cascade probability lies in [0,1] and is positive if and only if some node is reported as affected |
| Report.MeanTimeMeaning | pkg/simulator/report.go:93-135 | the mean failure time lies between the least and the largest failure time of the last node of a path, and is 0 exactly when there is none |
| Report.PathMeanMeaning | pkg/simulator/report.go:116-155 | so does the mean of each listed path over the runs with its key |
| Report.CountsAreSizes | pkg/simulator/report.go:93-131 | the totals and the count of a path are the numbers of the runs concerned |
| Report.SharesOfRuns | pkg/simulator/report.go:100-143 | the probability is the number of runs that exhausted some other node over the number of runs; all frequencies add up to the runs with a path of two nodes or more |
| PathKeys.BuildPathKey | pkg/simulator/report.go:177-186 | the key joins the names in order |
| PathKeys.PathKeyInjective | pkg/simulator/report.go:177-186 | keys of arrow-free names identify paths |
| PathKeys.PathKeyCollision | pkg/simulator/report.go:177-186 | names that contain the arrow break this: two different paths with one key |
| Sorting.SortByFrequency | pkg/simulator/report.go:157-159 | what is relied on of the library sort: a permutation with falling frequency |
| Sorting.SortStrings | pkg/simulator/report.go:143 | what is relied on of the library sort: the same names, increasing |
| Sorting.LessMeaning | pkg/simulator/report.go:143 | the order of names is lexicographic by characters |
| Engine.SimulateNode | pkg/simulator/engine.go:143-164 | whatever the random draws, the result aggregates exactly one propagation run from this origin over this snapshot per draw, in order |
| Engine.RunSimulation | pkg/simulator/engine.go:92-139 | the report has exactly one entry per snapshot node, each a simulation of that node on its own draws |
| Engine.InterleavingIsReport | pkg/simulator/engine.go:107-130 | every completed interleaving of the bounded fan-out, over workers that each simulate their own node, leaves such a report |
| Engine.SimulatedScoreBelowOne | pkg/simulator/engine.go:143-164 | a simulated score never reaches 1 |
| Engine.LeadingPath | pkg/simulator/engine.go:143-164 | the leading path of a result starts at its own node and its second element is another node that calls it |
| Engine.SimulatedScoreNeedsNodes | pkg/simulator/engine.go:143-164 | a simulated score that reaches a threshold needs the corresponding number of nodes |
| FanOut.StepInv | pkg/simulator/engine.go:107-127 | every step of dispatcher and workers keeps slots, wait group, mutex and result map consistent |
| FanOut.BoundedInFlight | pkg/simulator/engine.go:107-127 | in every interleaving at most MaxConcurrentNodes simulations run at once |
| FanOut.ProgressIffSlots | pkg/simulator/engine.go:107-127 | some step is always enabled until Wait returns if and only if the bound is at least 1 or there is no node |
| FanOut.ResultsComplete | pkg/simulator/engine.go:117-127 | when Wait has returned the map has exactly one entry per node, the same as sequential execution leaves |
| FanOut.RunLength | pkg/simulator/engine.go:107-127 | every step shortens what is left by one, so no interleaving goes on for ever |
| FanOut.CompletedRunLength | pkg/simulator/engine.go:107-127 | no interleaving takes more than 7 steps per node and one more, and those that have returned took exactly that many |
| Strategy.ComputeSheddingStrategy | pkg/shield/strategy.go:30-80 | one decision for each result at or above the threshold whose leading path has at least two nodes, none for any other, none without a report |
| Strategy.ShedFractionBounds | pkg/shield/strategy.go:61-68 | every decision asks for at least 5% and, beyond that floor, for no more than the maximum |
| Strategy.ShedFractionProportional | pkg/shield/strategy.go:58-68 | the fraction never falls with rising risk, is the floor at the threshold and the maximum at risk 1 |
| Strategy.ShedFractionLinear | pkg/shield/strategy.go:61-68 | the fraction is 5% up to 5% of the room above the threshold, then the share of that room the score takes, up to the maximum |
| Strategy.ShedFormulaIff | pkg/shield/strategy.go:24 | the fraction is the documented smaller of maximum and overshoot exactly when that is at least 5%, and it stays within the maximum exactly when the maximum is at least 5% |
| Strategy.CutEdgesRealAndUnique | pkg/shield/strategy.go:37-80 | every decision drawn from a report names a call edge of the snapshot into the high-risk node itself; no two share a target, nor, for arrow-free names, a key |
| Strategy.ReportMeasurable | pkg/shield/strategy.go:61 | no simulated score below node capacity makes the fraction divide by zero, whatever the threshold |
| Strategy.CleanReport | pkg/simulator/engine.go:92-139 | in reports of simulations over arrow-free names every leading path starts at its own node |
| Strategy.OwnTargetsDistinct | pkg/shield/strategy.go:37-80 | decisions from such reports never share an edge key |
| Strategy.SheddingNeedsNodes | pkg/shield/strategy.go:38-40 | any decision needs at least 1 / (1 - threshold) nodes; by default no graph of three or fewer nodes is ever shed |
| Strategy.EdgeKeyInjective | pkg/shield/recovery.go:42-44 | edge keys identify edges whose target is arrow-free |
| EdgeTrack.RunSafe | pkg/shield/recovery.go:51-136 | after every run of ticks 0 <= shed, shed + lowCount * rampDown <= maxShed and lowCount stays below the removal limit |
| EdgeTrack.TickSafe | pkg/shield/recovery.go:51-136 | every tick, with or without a decision, keeps these bounds |
| EdgeTrack.TickRateLimited | pkg/shield/recovery.go:76-133 | a tick raises shed by at most rampUp, lowers a kept edge by at most rampDown, and a removal drops at most the larger of rampDown and maxShed minus all but the last low interval's steps |
| EdgeTrack.RampConvergence | pkg/shield/recovery.go:76-94 | under a constant target a new edge has shed min(n rampUp, target, maxShed) after n ticks |
| EdgeTrack.RampFrom | pkg/shield/recovery.go:76-94 | under a constant target T, n >= 1 ticks take any safe tracked edge from shed s to max(s - n rampDown, T) from above and min(s + n rampUp, T, maxShed) from below, and clear its low count |
| EdgeTrack.RecoveryClosedForm | pkg/shield/recovery.go:98-133 | k ticks without a decision leave shed minus k steps exactly while k is below the limit and the shed exceeds the steps, otherwise the edge is gone |
| EdgeTrack.GoneAfterPatience | pkg/shield/recovery.go:108-117 | any tracked edge is gone after ConsecutiveLowIntervals ticks in a row without a decision |
| EdgeTrack.GentleIff | pkg/shield/recovery.go:19-22 | the promise that shed never falls by more than rampDown holds if and only if rampUp is 0 or maxShed can be walked down within the low intervals |
| EdgeTrack.PatientIff | pkg/shield/recovery.go:22 | a decided edge stays tracked until all low intervals have passed, for all decisions at or above the floor of 5%, if and only if there is only one interval or the least of rampUp, the floor and maxShed exceeds the steps of all but the last |
| EdgeTrack.OutlastingIsKept | pkg/shield/recovery.go:76-133 | under that condition the low count is the number of intervals since the last decision |
| EdgeTrack.DefaultsRemoveEarly | pkg/shield/recovery.go:127-131 | with the defaults a decision at the floor is gone after one low interval instead of three |
| EdgeTrack.DefaultsAreNotGentle | pkg/shield/config.go:86-101 | with the default configuration the promise fails |
| Recovery.RecoveryManager.ProcessDecisions | pkg/shield/recovery.go:51-136 | the states become exactly those of one tick of every edge, safe if they were and decisions are not negative; each decision is reported in order on its own edge with its target, active and with a cleared low count, every tracked edge is reported to apply, every removed one has shed 0 and is active if and only if its low count is below the limit; applying then removing the lists turns the old shed rules into the new ones |
| Recovery.RecoveryManager.RampDecided | pkg/shield/recovery.go:60-96 | the first loop ramps every decided edge in order and reports it to apply |
| Recovery.RecoveryManager.RecoverOthers | pkg/shield/recovery.go:98-133 | the second loop, in any map order, recovers exactly the edges without a decision |
| Recovery.RecoveryManager.RecoverEdge | pkg/shield/recovery.go:106-132 | one low interval of one edge: kept with its lowered shed, or removed, at the limit cleared and inactive, and before it still active with its target |
| Recovery.RecoveryManager.ActiveEdgeCount | pkg/shield/recovery.go:139-150 | the count of active edges is the number of tracked edges: no inactive one is ever kept |
| Recovery.RecoveryManager.ActiveSheddingStates | pkg/shield/recovery.go:153-164 | the shed fractions of exactly the tracked edges above zero |
| Recovery.RecoveryManager.Reset | pkg/shield/recovery.go:167-172 | nothing is tracked afterwards |
| Recovery.NextStatesAt | pkg/shield/recovery.go:51-136 | with one decision per key each edge evolves on its own, by one tick of its state machine |
| Recovery.RunTicksAt | pkg/shield/recovery.go:51-136 | hence over any run of ticks every law about single edges holds of each tracked edge |
| Recovery.DecidedConverges | pkg/shield/recovery.go:51-136 | convergence of the manager: n ticks that decide target T for an edge take its shed s, 0 if untracked, to max(s - n rampDown, T) from above and min(s + n rampUp, T, maxShed) from below, whatever happens to other edges |
| Recovery.NextStatesSafe | pkg/shield/recovery.go:51-136 | a tick keeps all edges safe even when edges are decided twice |
| Recovery.NextStatesRateLimited | pkg/shield/recovery.go:76-133 | with one decision per key no edge changes faster than the rate limits |
| Hysteresis.EdgeDecidedIff | pkg/shield/strategy.go:37-80 | an edge gets a decision if and only if its target has a result at or above the threshold whose leading path continues with its source; so no result, low risk, a path below two nodes or another leading caller all leave it without one |
| Hysteresis.EdgeTick | pkg/shield/recovery.go:51-136 | one tick on a report takes each edge through one tick of its own with exactly that decision |
| Hysteresis.SwitchedCallerRampsDown | pkg/shield/recovery.go:118 | an edge ramps down although its target is at risk 0.9, because another caller leads now |
| Hysteresis.RecoveryThresholdIff | pkg/shield/config.go:40-48 | for scores in [0,1] low intervals are counted only below the recovery threshold if and only if no score lies between it and the shed threshold, and exactly below it if and only if both separate the scores alike |
| Hysteresis.DefaultsCountMediumRiskAsLow | pkg/shield/config.go:40-48 | with the defaults a risk of 0.5 counts as low |
| Hysteresis.RemovalPromiseIff | pkg/shield/recovery.go:22 | with the recovery threshold not above the shed threshold, an edge is removed only after all intervals below the recovery threshold if and only if both are equal and the least shed outlasts the intervals |
| Hysteresis.DefaultsBreakRemovalPromise | pkg/shield/config.go:86-101 | with the defaults a score of 0.7 and then one of 0.5 remove the edge |
| Controller.LogActuator.Apply | pkg/shield/actuator.go:89-99 | appends one entry, after which replay gives that edge the new fraction |
| Controller.LogActuator.Remove | pkg/shield/actuator.go:101-110 | appends one entry, after which replay has that edge no more |
| Controller.LogActuator.RemoveAll | pkg/shield/actuator.go:112-119 | appends one entry, after which replay is empty |
| Controller.LogActuator.ActiveRules | pkg/shield/actuator.go:121-136 | the number of rules in force by replaying the whole log |
| Controller.Controller.Tick | pkg/shield/controller.go:86-157 | replaying the log stays equal to the tracked edges with their current fractions; without a report nothing changes; on a report whose leading paths start at their own nodes every change is rate-limited (for non-negative steps and maximum) |
| Controller.Controller.Actuate | pkg/shield/controller.go:100-149 | handing both lists to the actuator applies, then removes, them in the replayed log |
| Controller.Controller.KillSwitch | pkg/shield/controller.go:177-188 | no rule and no tracked edge is left, and they agree again |
| Controller.Controller.Shutdown | pkg/shield/controller.go:160-173 | the same, and the reported number of rules is 0 |
| Controller.Controller.Run | pkg/shield/controller.go:54-83 | over any sequence of ticks up to cancellation log and states agree, and no rule survives |
| Controller.Controller.ActiveSheddingCount | pkg/shield/controller.go:191-193 | the number of tracked edges equals the rules in force by the log |
| Pipeline.Oracle.SimulationTick | pkg/simulator/engine.go:58-88 | the latest report is always a simulation of a snapshot that had exactly the nodes and edges of the graph; an empty graph leaves the old report |
| Pipeline.ControlTick | pkg/shield/controller.go:86-157 | end to end: each decision sheds a call of the simulated graph between two different nodes into a listed one, a graph with too few nodes is never shed, and every change stays within the rate limits |

## Left out

- Floating-point rounding and the ranges of int64, uint64 and time.Duration: reals and unbounded integers stand for them.
- Mutexes and concurrent callers of the window, histogram, cache, graph and recovery manager: each operation is one atomic step. A kill switch that runs during a tick is not modelled.
- SlidingWindow.Window.constructor: requires a bucket count of at least 1, since the program divides by it; the other operations require a valid ring, which a slide interval of 0 does not give (their loop then need not end), and a clock that does not go backwards.
- LatencyHistogram.Histogram.Percentile: the histogram is cumulative, as in the program; the per-bucket histograms of pkg/metrics/edge_state.go are never recorded into, so no percentile slides.
- LruCache.Cache: the library list is a sequence of shared entry objects rather than linked nodes; the hit and miss counters are unbounded.
- Graph.DAG: edges are values of the two-level table, since no pointer to one leaves the graph; pods, namespaces and metadata of nodes, the read-only getters and the log of remaining edges are not modelled.
- Recovery.RecoveryManager: edge states are records in the manager's map rather than shared objects, since no pointer to one leaves the manager.
- Recovery.RecoveryManager: the safety and rate laws are about non-negative percentages, which the strategy always gives, and configurations with non-negative steps and maximum, which the program does not check.
- Hysteresis.RemovalPromiseIff: is about shed thresholds strictly between 0 and 1 and no larger recovery threshold; the two halves it joins have no such limit.
- Strategy.ComputeSheddingStrategy: requires that no score reaches a threshold of exactly 1, where the program's fraction is not a number; the wording of the reason is not modelled.
- Report.BuildNodeResult: requires a path limit of at least 0; a negative one makes the program panic.
- Sorting: the two library sorts are stand-ins of which only the contract is used.
- Engine.SimulateNode: the random sampling is a parameter; any latencies and error rates are allowed, which includes all the program draws.
- Engine.RunSimulation: runs nodes one after another; that any bounded concurrent order leaves the same map is FanOut's statement. Timestamps, durations and edge counts of reports are not modelled.
- Controller.Controller.Run: the ticker is a sequence of ticks; logging, the Armed flag (both modes make the same actuator calls) and actuators that return errors are not modelled.
- eBPF probes, the event decoder, Kubernetes and /proc resolution, Prometheus, the terminal UI, the chaos injector, validators and demo services: input and output, or single-branch code that would add only easy members.
