/** pkg/metrics/histogram.go: the log-linear latency histogram. */
module LatencyHistogram {
  import opened Common

  function Pow10(n: nat): (p: nat)
    ensures p >= 1
  {
    if n == 0 then 1 else 10 * Pow10(n - 1)
  }

  lemma PowersOfTen()
    ensures Pow10(1) == 10 && Pow10(2) == 100 && Pow10(3) == 1_000 && Pow10(4) == 10_000 && Pow10(5) == 100_000
  {
    assert Pow10(2) == 10 * Pow10(1);
    assert Pow10(3) == 10 * Pow10(2);
    assert Pow10(4) == 10 * Pow10(3);
  }

  /** Distance from one boundary to the next, never below one nanosecond. */
  function Step(value: int, sub: int): int
    requires sub >= 1
  {
    if 1 > value / sub then 1 else value / sub
  }

  function FirstBoundary(minNs: int): int {
    if minNs > 1 then minNs else 1
  }

  ghost predicate Increasing(b: seq<int>) {
    forall i, j :: 0 <= i < j < |b| ==> b[i] < b[j]
  }

  lemma IncreasingAppend(b: seq<int>, x: int)
    requires Increasing(b) && (|b| > 0 ==> b[|b| - 1] < x)
    ensures Increasing(b + [x])
  {
  }

  ghost predicate StepAt(b: seq<int>, sub: int, i: int) {
    sub >= 1 && 0 < i < |b| && b[i] == b[i - 1] + Step(b[i - 1], sub)
  }

  /** All gaps are steps. */
  ghost predicate Stepped(b: seq<int>, sub: int) {
    forall i :: 0 < i < |b| ==> StepAt(b, sub, i)
  }

  lemma SteppedAppend(b: seq<int>, sub: int, x: int)
    requires Stepped(b, sub) && sub >= 1
    ensures forall i :: 0 < i < |b| ==> StepAt(b + [x], sub, i)
    ensures (|b| > 0 ==> x == b[|b| - 1] + Step(b[|b| - 1], sub)) ==> Stepped(b + [x], sub)
  {
    forall i | 0 < i < |b|
      ensures StepAt(b + [x], sub, i)
    {
      assert StepAt(b, sub, i);
    }
  }

  /** The boundary list: every gap but the last is exactly one step, and the
      last entry is the sentinel just above the largest trackable value. */
  ghost predicate LogLinear(b: seq<int>, minNs: int, maxNs: int, sub: int) {
    && sub >= 1
    && 0 <= minNs < maxNs
    && |b| >= 2
    && b[0] == FirstBoundary(minNs)
    && (forall i :: 0 < i < |b| - 1 ==> StepAt(b, sub, i))
    && b[|b| - 1] == maxNs + 1
    && b[|b| - 2] <= maxNs < b[|b| - 2] + Step(b[|b| - 2], sub)
    && Increasing(b)
  }

  /** Number of recorded values not above v. */
  ghost function CountLe(log: seq<int>, v: int): nat {
    if |log| == 0 then 0
    else CountLe(log[..|log| - 1], v) + (if log[|log| - 1] <= v then 1 else 0)
  }

  lemma CountLeAppend(log: seq<int>, x: int, v: int)
    ensures CountLe(log + [x], v) == CountLe(log, v) + (if x <= v then 1 else 0)
  {
    assert (log + [x])[..|log|] == log;
  }

  lemma {:induction false} CountLeAll(log: seq<int>, v: int)
    requires forall i :: 0 <= i < |log| ==> log[i] <= v
    ensures CountLe(log, v) == |log|
  {
    if |log| > 0 {
      CountLeAll(log[..|log| - 1], v);
    }
  }

  lemma {:induction false} CountLeMonotone(log: seq<int>, v: int, w: int)
    requires v <= w
    ensures CountLe(log, v) <= CountLe(log, w) <= |log|
  {
    if |log| > 0 {
      CountLeMonotone(log[..|log| - 1], v, w);
    }
  }

  /** Taking one element out of the middle lowers the count by its share. */
  lemma {:induction false} CountLeDelete(log: seq<int>, j: nat, v: int)
    requires j < |log|
    ensures CountLe(log, v) == CountLe(log[..j] + log[j + 1..], v) + (if log[j] <= v then 1 else 0)
  {
    hide CountLe;
    var n := |log| - 1;
    assert log == log[..n] + [log[n]];
    CountLeAppend(log[..n], log[n], v);
    if j == n {
      assert log[..j] + log[j + 1..] == log[..n];
    } else {
      var rest := log[..n][..j] + log[..n][j + 1..];
      CountLeDelete(log[..n], j, v);
      assert log[..j] + log[j + 1..] == rest + [log[n]];
      CountLeAppend(rest, log[n], v);
    }
  }

  lemma {:induction false} CountLePermutation(a: seq<int>, b: seq<int>, v: int)
    requires multiset(a) == multiset(b)
    ensures CountLe(a, v) == CountLe(b, v)
    decreases |a|
  {
    assert |a| == |multiset(a)| == |multiset(b)| == |b|;
    if |a| > 0 {
      var n := |a| - 1;
      var x := a[n];
      DeleteElement(a, n);
      assert a[..n] + a[n + 1..] == a[..n];
      assert x in multiset(a);
      assert x in multiset(b);
      var j :| 0 <= j < |b| && b[j] == x;
      DeleteElement(b, j);
      CountLePermutation(a[..n], b[..j] + b[j + 1..], v);
      CountLeDelete(b, j, v);
    }
  }

  ghost predicate Sorted(xs: seq<int>) {
    forall i, j :: 0 <= i < j < |xs| ==> xs[i] <= xs[j]
  }

  /** xs is the recorded sequence put in order. */
  ghost predicate SortedCopy(xs: seq<int>, log: seq<int>) {
    Sorted(xs) && multiset(xs) == multiset(log)
  }

  /** In a sorted list the r-th smallest value is at most v exactly when at
      least r values are. */
  lemma {:induction false} RankInSorted(xs: seq<int>, r: nat, v: int)
    requires Sorted(xs) && 1 <= r <= |xs|
    ensures xs[r - 1] <= v <==> CountLe(xs, v) >= r
  {
    var n := |xs| - 1;
    CountLeMonotone(xs[..n], v, v);
    if xs[n] <= v {
      CountLeAll(xs, v);
    } else if r - 1 < n {
      RankInSorted(xs[..n], r, v);
    }
  }

  function Ceil(x: real): int {
    -((-x).Floor)
  }

  /** p percent of n. */
  function Percent(n: real, p: real): real {
    n * p / 100.0
  }

  /** The rank asked for by percentile p among n observations. */
  function Rank(n: nat, p: real): int {
    Ceil(Percent(n as real, if p >= 100.0 then 100.0 else p))
  }

  lemma RankBounds(n: nat, p: real)
    requires n > 0 && p > 0.0
    ensures 1 <= Rank(n, p) <= n
  {
    var q := if p >= 100.0 then 100.0 else p;
    ShareOf(n as real, q);
    CeilBetween(n as real * q / 100.0, n);
  }

  lemma ShareOf(n: real, q: real)
    requires n > 0.0 && 0.0 < q <= 100.0
    ensures 0.0 < n * q / 100.0 <= n
  {
    assert n * (100.0 - q) >= 0.0;
    assert n * q > 0.0;
  }

  lemma CeilBetween(x: real, n: nat)
    requires 0.0 < x <= n as real
    ensures 1 <= Ceil(x) <= n
  {
  }

  /** r is the smallest whole number that is at least q percent of n. */
  ghost predicate IsRank(n: nat, q: real, r: int) {
    (r - 1) as real * 100.0 < n as real * q <= r as real * 100.0
  }

  lemma RankMeaning(n: nat, p: real)
    ensures IsRank(n, if p >= 100.0 then 100.0 else p, Rank(n, p))
  {
    var q := if p >= 100.0 then 100.0 else p;
    HundredTimes(n as real * q);
  }

  lemma HundredTimes(y: real)
    ensures (Ceil(y / 100.0) - 1) as real * 100.0 < y <= Ceil(y / 100.0) as real * 100.0
  {
    var x := y / 100.0;
    assert x * 100.0 == y;
    assert -x - 1.0 < (-x).Floor as real <= -x;
  }

  lemma RankMonotone(n: nat, p: real, q: real)
    requires p <= q
    ensures Rank(n, p) <= Rank(n, q)
  {
    var p' := if p >= 100.0 then 100.0 else p;
    var q' := if q >= 100.0 then 100.0 else q;
    PartMonotone(n as real, p', q');
    hide Ceil, Percent;
  }

  lemma PartMonotone(n: real, p: real, q: real)
    requires n >= 0.0 && p <= q
    ensures Ceil(Percent(n, p)) <= Ceil(Percent(n, q))
  {
    ProductMonotone(n, p, q);
    CeilMonotone(n * p, n * q);
  }

  lemma CeilMonotone(x: real, y: real)
    requires x <= y
    ensures Ceil(x / 100.0) <= Ceil(y / 100.0)
  {
    assert -(y / 100.0) <= -(x / 100.0);
  }

  /** Bucket i is the first whose cumulative count reaches rank r. */
  ghost predicate ReachesRank(b: seq<int>, log: seq<int>, r: int, i: int) {
    && 0 <= i < |b|
    && CountLe(log, b[i]) >= r
    && (i > 0 ==> CountLe(log, b[i - 1]) < r)
  }

  /** How close a reported boundary is to the value it stands for. */
  ghost predicate Accurate(bound: int, x: int, sub: int) {
    && x <= bound
    && (bound == x || (bound - x) * sub < x || (x == 0 && bound == 1))
  }

  /** A value between two neighbouring boundaries is below the upper one by
      less than one part in sub. */
  lemma GapAccuracy(b: seq<int>, minNs: int, maxNs: int, sub: int, i: nat, x: int)
    requires LogLinear(b, minNs, maxNs, sub)
    requires i < |b| && minNs <= x <= b[i]
    requires i > 0 ==> b[i - 1] < x
    ensures Accurate(b[i], x, sub)
  {
    if i > 0 {
      var low := b[i - 1];
      assert b[0] <= low;
      assert i < |b| - 1 ==> StepAt(b, sub, i);
      if low / sub > 1 {
        PartOf(b[i] - x, low, sub);
      }
    }
  }

  lemma PartOf(gap: int, low: int, sub: int)
    requires sub >= 1 && 0 <= gap < low / sub
    ensures gap * sub < low
  {
    assert (gap + 1) * sub <= (low / sub) * sub;
  }

  /** Percentile accuracy: the boundary reported for rank r bounds the true
      r-th smallest recorded value from above, to sub parts. */
  lemma PercentileAccuracy(b: seq<int>, minNs: int, maxNs: int, sub: int,
                           log: seq<int>, xs: seq<int>, r: int, i: int)
    requires LogLinear(b, minNs, maxNs, sub)
    requires forall k :: 0 <= k < |log| ==> minNs <= log[k] <= maxNs
    requires SortedCopy(xs, log)
    requires 1 <= r <= |log| && ReachesRank(b, log, r, i)
    ensures |xs| == |log| && Accurate(b[i], xs[r - 1], sub)
  {
    assert |xs| == |multiset(xs)| == |multiset(log)| == |log|;
    var x := xs[r - 1];
    assert x in multiset(log);
    var k :| 0 <= k < |log| && log[k] == x;
    CountLePermutation(xs, log, b[i]);
    RankInSorted(xs, r, b[i]);
    if i > 0 {
      CountLePermutation(xs, log, b[i - 1]);
      RankInSorted(xs, r, b[i - 1]);
    }
    GapAccuracy(b, minNs, maxNs, sub, i, x);
  }

  function ToMs(b: seq<int>, i: int): real
    requires 0 <= i < |b|
  {
    b[i] as real / 1_000_000.0
  }

  /** Boundary i answers rank r: it is the first to reach the rank, and it is an
      accurate upper bound of the r-th smallest recorded value. */
  ghost predicate Answers(log: seq<int>, b: seq<int>, sub: int, r: int, i: int) {
    && 1 <= r <= |log|
    && ReachesRank(b, log, r, i)
    && forall xs | SortedCopy(xs, log) :: |xs| == |log| && Accurate(b[i], xs[r - 1], sub)
  }

  /** Boundary i covers q percent of the log, and no earlier boundary does. */
  ghost predicate Covers(log: seq<int>, b: seq<int>, q: real, i: int) {
    && 0 <= i < |b|
    && CountLe(log, b[i]) as real * 100.0 >= |log| as real * q
    && (i > 0 ==> CountLe(log, b[i - 1]) as real * 100.0 < |log| as real * q)
  }

  lemma RankCovers(log: seq<int>, b: seq<int>, q: real, r: int, i: int)
    requires IsRank(|log|, q, r) && ReachesRank(b, log, r, i)
    ensures Covers(log, b, q, i)
  {
    hide CountLe;
    var share := |log| as real * q;
    AtLeast(CountLe(log, b[i]), r, share);
    if i > 0 {
      AtMost(CountLe(log, b[i - 1]), r - 1, share);
    }
  }

  lemma AtLeast(c: int, r: int, share: real)
    requires c >= r && share <= r as real * 100.0
    ensures c as real * 100.0 >= share
  {
  }

  lemma AtMost(c: int, r: int, share: real)
    requires c <= r && r as real * 100.0 < share
    ensures c as real * 100.0 < share
  {
  }

  lemma AnswerAt(b: seq<int>, minNs: int, maxNs: int, sub: int, log: seq<int>, r: int, i: int)
    requires LogLinear(b, minNs, maxNs, sub)
    requires forall k :: 0 <= k < |log| ==> minNs <= log[k] <= maxNs
    requires 1 <= r <= |log| && ReachesRank(b, log, r, i)
    ensures Answers(log, b, sub, r, i)
  {
    forall xs | SortedCopy(xs, log)
      ensures |xs| == |log| && Accurate(b[i], xs[r - 1], sub)
    {
      PercentileAccuracy(b, minNs, maxNs, sub, log, xs, r, i);
    }
  }

  /** A higher percentile never reports a lower boundary. */
  lemma PercentileMonotone(b: seq<int>, log: seq<int>, p: real, q: real, i: int, j: int)
    requires Increasing(b) && p <= q
    requires ReachesRank(b, log, Rank(|log|, p), i)
    requires ReachesRank(b, log, Rank(|log|, q), j)
    ensures i <= j && b[i] <= b[j]
  {
    RankMonotone(|log|, p, q);
    if j < i {
      assert b[j] <= b[i - 1];
      CountLeMonotone(log, b[j], b[i - 1]);
    }
  }

  /** Resolution: k + 1 boundaries that start at or above v and whose last lies
      below 2v number at most 2 * sub + 1. */
  lemma BoundariesPerOctave(b: seq<int>, minNs: int, maxNs: int, sub: int, v: int, i: nat, j: nat)
    requires LogLinear(b, minNs, maxNs, sub)
    requires i <= j < |b| && v <= b[i] && b[j] < 2 * v
    ensures j - i + 1 <= 2 * sub + 1
  {
    if i < j {
      assert b[0] <= b[i];
      StepsAddUp(b, minNs, maxNs, sub, v, i, j - 1);
      StepsInOctave(j - 1 - i, v, sub);
    }
  }

  /** Fewer than v nanoseconds hold at most 2 * sub steps of v / sub each. */
  lemma StepsInOctave(k: int, v: int, sub: int)
    requires sub >= 1 && 0 <= k < v && k * (v / sub) < v
    ensures k < 2 * sub
  {
    var q := v / sub;
    assert v < q * sub + sub;
    if q >= 1 {
      assert k * q < (2 * sub) * q by {
        assert sub <= q * sub;
      }
      CancelFactor(k, 2 * sub, q);
    }
  }

  /** Each gap but the last is the largest whole number of nanoseconds that is at most
      one part in sub of the boundary below it, and at least 1. */
  lemma BoundaryGaps(b: seq<int>, minNs: int, maxNs: int, sub: int, i: nat)
    requires LogLinear(b, minNs, maxNs, sub)
    requires 0 < i < |b| - 1
    ensures var gap := b[i] - b[i - 1];
      gap >= 1 && (gap == 1 || gap * sub <= b[i - 1]) && b[i - 1] < (gap + 1) * sub
  {
    assert StepAt(b, sub, i);
    var low, q := b[i - 1], b[i - 1] / sub;
    assert b[0] <= low;
    assert q * sub <= low < q * sub + sub;
    assert (q + 1) * sub == q * sub + sub;
    if q < 1 {
      AtLeastTwice(q, sub);
    }
  }

  lemma AtLeastTwice(q: int, sub: int)
    requires q <= 0 && sub >= 1
    ensures q * sub + sub <= 2 * sub
  {
  }

  /** Between two boundaries above v every step covers at least v/sub and at
      least one nanosecond. */
  lemma {:induction false} StepsAddUp(b: seq<int>, minNs: int, maxNs: int, sub: int, v: int, i: nat, j: nat)
    requires LogLinear(b, minNs, maxNs, sub)
    requires i <= j < |b| - 1 && v <= b[i]
    ensures b[j] - b[i] >= (j - i) * (v / sub)
    ensures b[j] - b[i] >= j - i
  {
    if i < j {
      StepsAddUp(b, minNs, maxNs, sub, v, i, j - 1);
      assert b[i] <= b[j - 1] && StepAt(b, sub, j);
      DivMonotone(v, b[j - 1], sub);
      assert (j - i) * (v / sub) == (j - 1 - i) * (v / sub) + v / sub;
    }
  }

  class Histogram {
    var counts: array<int>
    var totalCount: int
    var bucketBoundaries: seq<int>
    var minNs: int
    var maxNs: int
    /** Sub-buckets per power of two, ten to the significant figures. */
    ghost var sub: int
    /** Every value recorded since creation or reset, after clamping. */
    ghost var log: seq<int>

    ghost predicate Valid()
      reads this, counts
    {
      && LogLinear(bucketBoundaries, minNs, maxNs, sub)
      && totalCount == |log|
      && (forall k :: 0 <= k < |log| ==> minNs <= log[k] <= maxNs)
      && Tallied(counts[..], log, bucketBoundaries)
    }

    /** Every count is the number of logged values in its bucket. */
    static ghost predicate Tallied(counts: seq<int>, log: seq<int>, b: seq<int>) {
      |counts| == |b| && forall i :: 0 <= i < |b| ==> counts[i] == BucketShare(log, b, i)
    }

    /** How many logged values fall in bucket i. */
    static ghost function BucketShare(log: seq<int>, b: seq<int>, i: int): int
      requires 0 <= i < |b|
    {
      CountLe(log, b[i]) - (if i == 0 then 0 else CountLe(log, b[i - 1]))
    }

    /** Recording v changes the share of exactly the bucket v falls in. */
    static lemma TalliedAfterRecord(counts: seq<int>, log: seq<int>, v: int, b: seq<int>, idx: int)
      requires Tallied(counts, log, b) && Increasing(b) && 0 <= idx < |b|
      requires v <= b[idx] && (idx > 0 ==> b[idx - 1] < v)
      ensures |counts| == |b| && Tallied(counts[idx := counts[idx] + 1], log + [v], b)
    {
      hide CountLe;
      forall i | 0 <= i < |b|
        ensures BucketShare(log + [v], b, i) == BucketShare(log, b, i) + (if i == idx then 1 else 0)
      {
        CountLeAppend(log, v, b[i]);
        if i > 0 {
          CountLeAppend(log, v, b[i - 1]);
        }
      }
    }

    constructor (minMs: int, maxMs: int, sigFigs: int)
      ensures Valid() && log == [] && fresh(counts)
      ensures minNs == (if minMs < 0 then 0 else minMs) * 1_000_000
      ensures maxNs == if maxMs * 1_000_000 <= minNs then minNs + 1_000_000 else maxMs * 1_000_000
      ensures sub == if sigFigs <= 1 then 10 else if sigFigs == 2 then 100 else if sigFigs == 3 then 1_000
                     else if sigFigs == 4 then 10_000 else 100_000
    {
      var minMs := if minMs < 0 then 0 else minMs;
      var maxMs := if maxMs <= minMs then minMs + 1 else maxMs;
      var sigFigs := if sigFigs < 1 then 1 else if sigFigs > 5 then 5 else sigFigs;
      var lo := minMs * NS_PER_MS;
      var hi := maxMs * NS_PER_MS;
      var subBuckets := Pow10(sigFigs);
      PowersOfTen();

      var boundaries := BuildBoundaries(lo, hi, subBuckets);

      counts := new int[|boundaries|](_ => 0);
      totalCount := 0;
      bucketBoundaries := boundaries;
      minNs, maxNs, sub, log := lo, hi, subBuckets, [];
    }

    /** The boundary loop of the constructor. */
    static method BuildBoundaries(lo: int, hi: int, subBuckets: int) returns (boundaries: seq<int>)
      requires 0 <= lo < hi && subBuckets >= 1
      ensures LogLinear(boundaries, lo, hi, subBuckets)
    {
      boundaries := [];
      var value := 1;
      if lo > 1 {
        value := lo;
      }
      while value <= hi
        invariant boundaries == [] ==> value == FirstBoundary(lo)
        invariant boundaries != [] ==>
          && boundaries[0] == FirstBoundary(lo)
          && boundaries[|boundaries| - 1] <= hi
          && value == boundaries[|boundaries| - 1] + Step(boundaries[|boundaries| - 1], subBuckets)
        invariant Stepped(boundaries, subBuckets)
        invariant Increasing(boundaries)
        decreases hi - value
      {
        hide Increasing, Stepped;
        SteppedAppend(boundaries, subBuckets, value);
        IncreasingAppend(boundaries, value);
        boundaries := boundaries + [value];
        value := value + Step(value, subBuckets);
      }
      SteppedAppend(boundaries, subBuckets, hi + 1);
      IncreasingAppend(boundaries, hi + 1);
      hide Increasing, Stepped, StepAt;
      boundaries := boundaries + [hi + 1];
    }

    /** The first bucket whose boundary is not below ns. */
    method BucketIndex(ns: int) returns (lo: int)
      requires Valid() && ns <= maxNs
      ensures 0 <= lo < |bucketBoundaries| && ns <= bucketBoundaries[lo]
      ensures lo > 0 ==> bucketBoundaries[lo - 1] < ns
    {
      var hi := |bucketBoundaries| - 1;
      lo := 0;
      while lo < hi
        invariant 0 <= lo <= hi < |bucketBoundaries|
        invariant lo > 0 ==> bucketBoundaries[lo - 1] < ns
        invariant ns <= bucketBoundaries[hi]
      {
        var mid := (lo + hi) / 2;
        if bucketBoundaries[mid] < ns {
          lo := mid + 1;
        } else {
          hi := mid;
        }
      }
    }

    method RecordNs(ns: int)
      requires Valid()
      modifies this`totalCount, this`log, counts
      ensures Valid() && |log| == |old(log)| + 1 && log[..|old(log)|] == old(log)
      ensures var v := log[|old(log)|];
        v == if ns < minNs then minNs else if ns > maxNs then maxNs else ns
    {
      var v := ns;
      if v < minNs {
        v := minNs;
      }
      if v > maxNs {
        v := maxNs;
      }
      var idx := BucketIndex(v);
      ghost var before := counts[..];
      TalliedAfterRecord(before, log, v, bucketBoundaries, idx);
      hide Tallied, LogLinear;
      counts[idx] := counts[idx] + 1;
      assert counts[..] == before[idx := before[idx] + 1];
      totalCount := totalCount + 1;
      log := log + [v];
    }

    /** The percentile in milliseconds. Besides the two early answers, the result is
        the first boundary that covers the asked percentage of the log, and it is an
        accurate upper bound of the true order statistic at that rank; the fallback
        after the scan is never taken. */
    method Percentile(p: real) returns (ms: real)
      requires Valid()
      ensures log == [] ==> ms == 0.0
      ensures log != [] && p <= 0.0 ==> ms * 1_000_000.0 == bucketBoundaries[0] as real
      ensures log != [] && p > 0.0 ==>
        exists r, i ::
          && Answers(log, bucketBoundaries, sub, r, i) && IsRank(|log|, if p >= 100.0 then 100.0 else p, r)
          && Covers(log, bucketBoundaries, if p >= 100.0 then 100.0 else p, i)
          && ms * 1_000_000.0 == bucketBoundaries[i] as real
    {
      if totalCount == 0 {
        return 0.0;
      }
      if p <= 0.0 {
        return ToMs(bucketBoundaries, 0);
      }
      var target := TargetRank(totalCount, p);
      ghost var q := if p >= 100.0 then 100.0 else p;

      var cumulative := 0;
      for i := 0 to counts.Length
        invariant cumulative == if i == 0 then 0 else CountLe(log, bucketBoundaries[i - 1])
        invariant cumulative < target
      {
        cumulative := cumulative + counts[i];
        if cumulative >= target {
          AnswerAt(bucketBoundaries, minNs, maxNs, sub, log, target, i);
          RankCovers(log, bucketBoundaries, q, target, i);
          return ToMs(bucketBoundaries, i);
        }
      }
      CountLeAll(log, bucketBoundaries[counts.Length - 1]);
      assert false;
    }

    /** The rank computation of Percentile, for p above 0. */
    static method TargetRank(n: nat, p: real) returns (target: int)
      requires n > 0 && p > 0.0
      ensures target == Rank(n, p) && 1 <= target <= n
      ensures IsRank(n, if p >= 100.0 then 100.0 else p, target)
    {
      RankBounds(n, p);
      RankMeaning(n, p);
      var q := p;
      if q >= 100.0 {
        q := 100.0;
      }
      target := Ceil(n as real * q / 100.0);
    }

    method Reset()
      requires Valid()
      modifies this`totalCount, this`log, counts
      ensures Valid() && log == []
    {
      for i := 0 to counts.Length
        invariant forall k :: 0 <= k < i ==> counts[k] == 0
      {
        counts[i] := 0;
      }
      totalCount := 0;
      log := [];
    }
  }
}
