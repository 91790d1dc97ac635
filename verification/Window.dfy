/** pkg/metrics/window.go: the sliding window kept as a ring of tumbling
    buckets, proved equal to a sum over a timestamped log of events. */
module SlidingWindow {
  import opened Common

  /** The counters kept by a bucket and reported by an aggregate. */
  datatype Counter = Connections | Closes | DurationNs | BytesSent | BytesRecv | Retransmits

  datatype Stats = Stats(connections: int, closes: int, durationNs: int,
                         bytesSent: int, bytesRecv: int, retransmits: int)
  {
    function Get(c: Counter): int {
      match c
      case Connections => connections
      case Closes => closes
      case DurationNs => durationNs
      case BytesSent => bytesSent
      case BytesRecv => bytesRecv
      case Retransmits => retransmits
    }
  }

  const ZERO := Stats(0, 0, 0, 0, 0, 0)

  datatype Event =
    | Connect
    | Close(durationNs: int, bytesSent: int, bytesRecv: int)
    | Retransmit
  {
    /** What one event adds to one counter. */
    function Weight(c: Counter): int {
      match (this, c)
      case (Connect, Connections) => 1
      case (Close(_, _, _), Closes) => 1
      case (Close(d, _, _), DurationNs) => d
      case (Close(_, sent, _), BytesSent) => sent
      case (Close(_, _, recv), BytesRecv) => recv
      case (Retransmit, Retransmits) => 1
      case _ => 0
    }
  }

  datatype Stamped = Stamped(at: int, event: Event)

  /** Sum of counter c over the logged events with lo < at <= hi. */
  ghost function SumIn(log: seq<Stamped>, lo: int, hi: int, c: Counter): int {
    if |log| == 0 then 0
    else
      var e := log[|log| - 1];
      SumIn(log[..|log| - 1], lo, hi, c) + (if lo < e.at <= hi then e.event.Weight(c) else 0)
  }

  lemma SumInAppend(log: seq<Stamped>, e: Stamped, lo: int, hi: int, c: Counter)
    ensures SumIn(log + [e], lo, hi, c) ==
            SumIn(log, lo, hi, c) + (if lo < e.at <= hi then e.event.Weight(c) else 0)
  {
    assert (log + [e])[..|log|] == log;
  }

  /** All counters over an interval. */
  ghost function Totals(log: seq<Stamped>, lo: int, hi: int): Stats {
    Stats(SumIn(log, lo, hi, Connections), SumIn(log, lo, hi, Closes), SumIn(log, lo, hi, DurationNs),
          SumIn(log, lo, hi, BytesSent), SumIn(log, lo, hi, BytesRecv), SumIn(log, lo, hi, Retransmits))
  }

  /** What one more event does to the totals: a connect and a retransmit count one, a
      close counts one and adds its duration and bytes, and an event outside of the
      interval adds nothing. */
  lemma TotalsMeaning(log: seq<Stamped>, e: Stamped, lo: int, hi: int)
    ensures Totals([], lo, hi) == Stats(0, 0, 0, 0, 0, 0)
    ensures var before, after := Totals(log, lo, hi), Totals(log + [e], lo, hi);
      after ==
      if !(lo < e.at <= hi) then before
      else match e.event
        case Connect => before.(connections := before.connections + 1)
        case Close(d, sent, recv) =>
          before.(closes := before.closes + 1, durationNs := before.durationNs + d,
                  bytesSent := before.bytesSent + sent, bytesRecv := before.bytesRecv + recv)
        case Retransmit => before.(retransmits := before.retransmits + 1)
  {
    SumInAppend(log, e, lo, hi, Connections);
    SumInAppend(log, e, lo, hi, Closes);
    SumInAppend(log, e, lo, hi, DurationNs);
    SumInAppend(log, e, lo, hi, BytesSent);
    SumInAppend(log, e, lo, hi, BytesRecv);
    SumInAppend(log, e, lo, hi, Retransmits);
  }

  lemma TotalsByCounter(stats: Stats, log: seq<Stamped>, lo: int, hi: int)
    requires forall c: Counter :: stats.Get(c) == SumIn(log, lo, hi, c)
    ensures stats == Totals(log, lo, hi)
  {
    assert stats.Get(Connections) == stats.connections && stats.Get(Closes) == stats.closes;
    assert stats.Get(DurationNs) == stats.durationNs && stats.Get(BytesSent) == stats.bytesSent;
    assert stats.Get(BytesRecv) == stats.bytesRecv && stats.Get(Retransmits) == stats.retransmits;
  }

  lemma {:induction false} SumInSplit(log: seq<Stamped>, lo: int, mid: int, hi: int, c: Counter)
    requires lo <= mid <= hi
    ensures SumIn(log, lo, hi, c) == SumIn(log, lo, mid, c) + SumIn(log, mid, hi, c)
  {
    if |log| > 0 {
      SumInSplit(log[..|log| - 1], lo, mid, hi, c);
    }
  }

  lemma {:induction false} SumInAfterLast(log: seq<Stamped>, lo: int, hi: int, c: Counter)
    requires forall i :: 0 <= i < |log| ==> log[i].at <= lo
    ensures SumIn(log, lo, hi, c) == 0
  {
    if |log| > 0 {
      SumInAfterLast(log[..|log| - 1], lo, hi, c);
    }
  }

  lemma {:induction false} SumInEmpty(log: seq<Stamped>, t: int, c: Counter)
    ensures SumIn(log, t, t, c) == 0
  {
    if |log| > 0 {
      SumInEmpty(log[..|log| - 1], t, c);
    }
  }

  /** Nothing is logged after t, so extending the interval past t adds nothing. */
  lemma SumInUpTo(log: seq<Stamped>, lo: int, t: int, hi: int, c: Counter)
    requires forall i :: 0 <= i < |log| ==> log[i].at <= t
    requires lo <= t <= hi
    ensures SumIn(log, lo, hi, c) == SumIn(log, lo, t, c)
  {
    SumInSplit(log, lo, t, hi, c);
    SumInAfterLast(log, t, hi, c);
  }

  /** k slices of length s, by repeated addition. */
  ghost function Times(k: nat, s: int): int {
    if k == 0 then 0 else Times(k - 1, s) + s
  }

  lemma {:induction false} TimesIsProduct(k: nat, s: int)
    ensures Times(k, s) == k * s
  {
    if k > 0 {
      TimesIsProduct(k - 1, s);
      assert k * s == (k - 1) * s + s;
    }
  }

  /** The start of the slice that holds instant t: slices are the half-open
      intervals (epoch + k*s, epoch + (k+1)*s]. */
  function SliceStart(epoch: int, s: int, t: int): int
    requires s > 0
  {
    epoch + s * ((t - epoch - 1) / s)
  }

  /** The slice start is the only aligned instant less than one slice before t. */
  lemma SliceStartUnique(epoch: int, s: int, t: int, k: nat)
    requires s > 0 && epoch + Times(k, s) < t <= epoch + Times(k, s) + s
    ensures SliceStart(epoch, s, t) == epoch + Times(k, s)
  {
    TimesIsProduct(k, s);
    QuotientUnique(t - epoch - 1, s, k);
  }

  lemma QuotientUnique(d: int, s: int, k: int)
    requires s > 0 && 0 <= d - k * s < s
    ensures d / s == k && s * (d / s) == k * s
  {
    var q := d / s;
    assert q * s <= d < q * s + s;
    CancelFactor(q, k + 1, s);
    CancelFactor(k, q + 1, s);
  }

  /** Window coverage: with n slices of length s, an aggregate taken at t counts
      every event aged at most (n-1)*s and no event aged n*s or more. */
  lemma Coverage(epoch: int, s: int, n: int, t: int, at: int)
    requires s > 0 && n >= 1
    ensures t - at <= (n - 1) * s ==> SliceStart(epoch, s, t) - (n - 1) * s < at
    ensures t - at >= n * s ==> at <= SliceStart(epoch, s, t) - (n - 1) * s
  {
    var q := (t - epoch - 1) / s;
    assert s * q <= t - epoch - 1 < s * q + s;
    assert (n - 1) * s == n * s - s;
  }

  /** The slide loop runs until the end of the current slice, moved on by one slice a
      round, is not before now. It stops if and only if slices have a positive
      length or the end is not before now to begin with. */
  lemma SlidesEndIff(end: int, s: int, now: int)
    ensures (exists k: nat :: now <= end + Times(k, s)) <==> s > 0 || now <= end
  {
    if s > 0 {
      var k: nat := if now > end then now - end else 0;
      TimesIsProduct(k, s);
      LengthenedBy(k, s);
      assert now <= end + Times(k, s);
    } else {
      forall k: nat
        ensures Times(k, s) <= 0
      {
        TimesNotPositive(k, s);
      }
      assert now <= end ==> now <= end + Times(0, s);
    }
  }

  lemma {:induction false} TimesNotPositive(k: nat, s: int)
    requires s <= 0
    ensures Times(k, s) <= 0
  {
    if k > 0 {
      TimesNotPositive(k - 1, s);
    }
  }

  lemma LengthenedBy(k: nat, s: int)
    requires s >= 1
    ensures k * s >= k
  {
  }

  datatype Bucket = Bucket(startTime: int, stats: Stats)

  /** Position i of a ring of n buckets, counted back from the current one. */
  function Back(cur: int, n: int, i: int): (k: nat)
    requires 0 <= cur < n && 0 <= i < n
    ensures k < n
  {
    if i <= cur then cur - i else cur + n - i
  }

  /** The bucket at position i starts as many slices before the newest one as it
      lies places back. */
  ghost predicate PlacedAt(bs: seq<Bucket>, cur: int, s: int, start: int, i: int)
    requires 0 <= cur < |bs|
  {
    0 <= i < |bs| && bs[i].startTime == start - Times(Back(cur, |bs|, i), s)
  }

  ghost predicate Placed(bs: seq<Bucket>, cur: int, s: int, start: int) {
    && s > 0
    && 0 <= cur < |bs|
    && forall i :: 0 <= i < |bs| ==> PlacedAt(bs, cur, s, start, i)
  }

  /** Counter c of a bucket sums the events of the bucket's own slice. */
  ghost predicate SumsSlice(b: Bucket, s: int, log: seq<Stamped>, c: Counter) {
    b.stats.Get(c) == SumIn(log, b.startTime, b.startTime + s, c)
  }

  ghost predicate Counted(bs: seq<Bucket>, s: int, log: seq<Stamped>, c: Counter) {
    forall i :: 0 <= i < |bs| ==> SumsSlice(bs[i], s, log, c)
  }

  lemma NextIndex(cur: int, n: int)
    requires 0 <= cur < n
    ensures (cur + 1) % n == if cur + 1 == n then 0 else cur + 1
  {
  }

  /** Opening a slice moves every kept bucket one place back. */
  lemma PlacedAfterOpen(bs: seq<Bucket>, cur: int, s: int, start: int)
    requires Placed(bs, cur, s, start)
    ensures var next := (cur + 1) % |bs|;
      Placed(bs[next := Bucket(start + s, ZERO)], next, s, start + s)
  {
    var n := |bs|;
    NextIndex(cur, n);
    var next := if cur + 1 == n then 0 else cur + 1;
    var start' := start + s;
    var bs' := bs[next := Bucket(start', ZERO)];
    forall i | 0 <= i < n
      ensures PlacedAt(bs', next, s, start', i)
    {
      if i != next {
        assert PlacedAt(bs, cur, s, start, i);
        assert Back(next, n, i) == Back(cur, n, i) + 1;
      }
    }
  }

  lemma PlacedAfterRecord(bs: seq<Bucket>, cur: int, s: int, start: int, b: Bucket)
    requires Placed(bs, cur, s, start) && b.startTime == bs[cur].startTime
    ensures Placed(bs[cur := b], cur, s, start)
  {
    var bs' := bs[cur := b];
    forall i | 0 <= i < |bs|
      ensures PlacedAt(bs', cur, s, start, i)
    {
      assert PlacedAt(bs, cur, s, start, i);
    }
  }

  /** The new slice lies after every logged event, so its empty bucket is right. */
  lemma CountedAfterOpen(bs: seq<Bucket>, s: int, start: int, next: nat, log: seq<Stamped>, c: Counter)
    requires Counted(bs, s, log, c) && next < |bs|
    requires forall i :: 0 <= i < |log| ==> log[i].at <= start
    ensures Counted(bs[next := Bucket(start, ZERO)], s, log, c)
  {
    SumInAfterLast(log, start, start + s, c);
  }

  /** Adding an event's weight to the bucket of its slice keeps every bucket
      right for the extended log. */
  lemma CountedAfterRecord(bs: seq<Bucket>, cur: int, s: int, start: int, log: seq<Stamped>, e: Stamped,
                           b: Bucket, c: Counter)
    requires Placed(bs, cur, s, start) && Counted(bs, s, log, c)
    requires start < e.at <= start + s
    requires b.startTime == bs[cur].startTime && b.stats.Get(c) == bs[cur].stats.Get(c) + e.event.Weight(c)
    ensures Counted(bs[cur := b], s, log + [e], c)
  {
    var bs' := bs[cur := b];
    forall i | 0 <= i < |bs'|
      ensures SumsSlice(bs'[i], s, log + [e], c)
    {
      assert SumsSlice(bs[i], s, log, c) && PlacedAt(bs, cur, s, start, i);
      SumInAppend(log, e, bs[i].startTime, bs[i].startTime + s, c);
      TimesAtLeast(Back(cur, |bs|, i), s);
    }
  }

  lemma {:induction false} TimesAtLeast(k: nat, s: int)
    requires s > 0
    ensures Times(k, s) >= 0
    ensures k >= 1 ==> Times(k, s) >= s
  {
    if k >= 1 {
      TimesAtLeast(k - 1, s);
    }
  }

  lemma {:induction false} TimesAdds(k: nat, m: nat, s: int)
    ensures Times(k + m, s) == Times(k, s) + Times(m, s)
  {
    if m > 0 {
      TimesAdds(k, m - 1, s);
    }
  }

  /** Sum of counter c over a list of buckets. */
  ghost function Total(bs: seq<Bucket>, c: Counter): int {
    if |bs| == 0 then 0 else Total(bs[..|bs| - 1], c) + bs[|bs| - 1].stats.Get(c)
  }

  lemma {:induction false} TotalConcat(a: seq<Bucket>, b: seq<Bucket>, c: Counter)
    ensures Total(a + b, c) == Total(a, c) + Total(b, c)
  {
    if |b| == 0 {
      assert a + b == a;
    } else {
      TotalConcat(a, b[..|b| - 1], c);
      assert (a + b)[..|a + b| - 1] == a + b[..|b| - 1];
    }
  }

  /** Buckets of consecutive slices, oldest first, the first starting at first. */
  ghost predicate Consecutive(q: seq<Bucket>, first: int, s: int) {
    forall j :: 0 <= j < |q| ==> FollowsAt(q, first, s, j)
  }

  ghost predicate FollowsAt(q: seq<Bucket>, first: int, s: int, j: nat) {
    j < |q| && q[j].startTime == first + Times(j, s)
  }

  /** Consecutive slices add up to one interval. */
  lemma {:induction false} TotalConsecutive(q: seq<Bucket>, first: int, s: int, log: seq<Stamped>, end: int, c: Counter)
    requires s > 0 && Consecutive(q, first, s) && Counted(q, s, log, c)
    requires end == first + Times(|q|, s)
    ensures Total(q, c) == SumIn(log, first, end, c)
  {
    if |q| == 0 {
      SumInEmpty(log, first, c);
    } else {
      var k := |q| - 1;
      forall j: nat | j < k
        ensures FollowsAt(q[..k], first, s, j)
      {
        assert FollowsAt(q, first, s, j);
      }
      assert FollowsAt(q, first, s, k) && SumsSlice(q[k], s, log, c);
      TotalConsecutive(q[..k], first, s, log, end - s, c);
      TimesAtLeast(k, s);
      SumInSplit(log, first, end - s, end, c);
    }
  }

  /** The buckets of a ring from the oldest to the newest. */
  ghost function OldestFirst(bs: seq<Bucket>, cur: int): (q: seq<Bucket>)
    requires 0 <= cur < |bs|
    ensures |q| == |bs|
  {
    bs[cur + 1..] + bs[..cur + 1]
  }

  lemma RingConsecutive(bs: seq<Bucket>, cur: int, s: int, start: int)
    requires Placed(bs, cur, s, start)
    ensures Consecutive(OldestFirst(bs, cur), start - Times(|bs| - 1, s), s)
  {
    var n := |bs|;
    var q := OldestFirst(bs, cur);
    var first := start - Times(n - 1, s);
    forall j: nat | j < n
      ensures FollowsAt(q, first, s, j)
    {
      var i := if j < n - cur - 1 then cur + 1 + j else j - (n - cur - 1);
      assert q[j] == bs[i] && PlacedAt(bs, cur, s, start, i);
      assert Back(cur, n, i) == n - 1 - j;
      TimesAdds(n - 1 - j, j, s);
    }
  }

  lemma RotationTotal(bs: seq<Bucket>, cur: int, c: Counter)
    requires 0 <= cur < |bs|
    ensures Total(bs, c) == Total(OldestFirst(bs, cur), c)
  {
    var a, b := bs[..cur + 1], bs[cur + 1..];
    assert bs == a + b;
    TotalConcat(b, a, c);
    TotalConcat(a, b, c);
  }

  /** All buckets together hold exactly the events of the last |bs| slices. */
  lemma RingTotal(bs: seq<Bucket>, cur: int, s: int, start: int, log: seq<Stamped>, oldest: int, end: int, c: Counter)
    requires Placed(bs, cur, s, start) && Counted(bs, s, log, c)
    requires oldest == start - Times(|bs| - 1, s) && end == start + s
    ensures oldest <= start && Total(bs, c) == SumIn(log, oldest, end, c)
  {
    var q := OldestFirst(bs, cur);
    TimesAtLeast(|bs| - 1, s);
    RingConsecutive(bs, cur, s, start);
    TotalConsecutive(q, oldest, s, log, end, c);
    RotationTotal(bs, cur, c);
  }

  /** The ring at instant now: nothing is logged after now, so the newest slice
      counts up to now only. */
  lemma RingUpTo(bs: seq<Bucket>, cur: int, s: int, start: int, log: seq<Stamped>, oldest: int, now: int, c: Counter)
    requires Placed(bs, cur, s, start) && Counted(bs, s, log, c)
    requires oldest == start - Times(|bs| - 1, s)
    requires start < now <= start + s
    requires forall i :: 0 <= i < |log| ==> log[i].at <= now
    ensures Total(bs, c) == SumIn(log, oldest, now, c)
  {
    RingTotal(bs, cur, s, start, log, oldest, start + s, c);
    SumInUpTo(log, oldest, now, start + s, c);
  }

  /** The oldest instant of a ring of n slices, in closed form. */
  lemma OldestInstant(epoch: int, s: int, n: int, slides: nat, now: int)
    requires n >= 1 && s > 0
    requires epoch + Times(slides, s) < now <= epoch + Times(slides, s) + s
    ensures epoch + Times(slides, s) - Times(n - 1, s) == SliceStart(epoch, s, now) - (n - 1) * s
  {
    SliceStartUnique(epoch, s, now, slides);
    TimesIsProduct(n - 1, s);
  }

  class Window {
    var buckets: array<Bucket>
    var bucketCount: int
    var slideInterval: int
    var windowDuration: int
    var currentIdx: int
    /** Every event recorded since creation, with the instant it was recorded. */
    ghost var log: seq<Stamped>
    /** The latest instant the window has been told about. */
    ghost var clock: int
    /** Start of the newest slice at creation, and the slices slid since. */
    ghost var epoch: int
    ghost var slides: nat

    /** Start of the current slice. */
    ghost function Start(): int
      reads this
    {
      epoch + Times(slides, slideInterval)
    }

    ghost predicate Valid()
      reads this, buckets
    {
      && bucketCount == buckets.Length
      && Placed(buckets[..], currentIdx, slideInterval, Start())
      && (forall c :: Counted(buckets[..], slideInterval, log, c))
      && (forall i :: 0 <= i < |log| ==> log[i].at <= clock && log[i].at <= Start() + slideInterval)
      && Start() < clock
    }

    /** With less than one nanosecond per bucket the slide interval is 0 and the ring
        is not usable: see SlidesEndIff. */
    constructor (count: int, duration: int, now: int)
      requires count > 0
      ensures count <= duration ==> Valid()
      ensures fresh(buckets) && log == [] && clock == now
      ensures bucketCount == buckets.Length == count && currentIdx == count - 1
      ensures slideInterval == TruncDiv(duration, count) && windowDuration == duration
      ensures epoch == now - duration + (count - 1) * slideInterval
      ensures forall i :: 0 <= i < count ==> buckets[i] == Bucket(now - duration + i * slideInterval, ZERO)
    {
      var slide := TruncDiv(duration, count);
      var ring := new Bucket[count];
      for i := 0 to count
        invariant forall k :: 0 <= k < i ==> ring[k] == Bucket(now - duration + k * slide, ZERO)
      {
        ring[i] := Bucket(now - duration + i * slide, ZERO);
      }
      buckets, bucketCount, slideInterval, windowDuration := ring, count, slide, duration;
      currentIdx := count - 1;
      log, clock, slides := [], now, 0;
      epoch := now - duration + (count - 1) * slide;
      new;
      if count <= duration {
        SlidePositive(count, duration);
        forall i | 0 <= i < count
          ensures PlacedAt(buckets[..], currentIdx, slide, Start(), i)
        {
          TimesIsProduct(count - 1 - i, slide);
          SplitProduct(count - 1, i, slide);
        }
      }
    }

    static lemma SlidePositive(count: int, duration: int)
      requires 0 < count <= duration
      ensures duration / count > 0 && (count - 1) * (duration / count) < duration
    {
      var slide := duration / count;
      assert count * slide <= duration < count * slide + count;
      assert count * slide > 0;
      assert (count - 1) * slide == count * slide - slide;
    }

    static lemma SplitProduct(a: int, b: int, s: int)
      ensures a * s - (a - b) * s == b * s
    {
    }

    /** Evicts expired buckets and opens fresh ones up to now. */
    method Advance(now: int)
      requires Valid() && clock <= now
      modifies this`currentIdx, this`slides, this`clock, buckets
      ensures Valid() && clock == now
      ensures Start() < now <= Start() + slideInterval
    {
      clock := now;
      assert PlacedAt(buckets[..], currentIdx, slideInterval, Start(), currentIdx);
      var nextSliceEnd := buckets[currentIdx].startTime + slideInterval;
      while now > nextSliceEnd
        invariant Valid() && clock == now
        invariant nextSliceEnd == Start() + slideInterval
        decreases now - nextSliceEnd
      {
        ghost var was := buckets[..];
        ghost var next := (currentIdx + 1) % bucketCount;
        ghost var slid := was[next := Bucket(nextSliceEnd, ZERO)];
        PlacedAfterOpen(was, currentIdx, slideInterval, Start());
        forall c: Counter
          ensures Counted(slid, slideInterval, log, c)
        {
          CountedAfterOpen(was, slideInterval, nextSliceEnd, next, log, c);
        }
        currentIdx := (currentIdx + 1) % bucketCount;
        buckets[currentIdx] := Bucket(nextSliceEnd, ZERO);
        slides := slides + 1;
        assert buckets[..] == slid;
        nextSliceEnd := nextSliceEnd + slideInterval;
      }
    }

    method RecordConnect(now: int)
      requires Valid() && clock <= now
      modifies this`currentIdx, this`slides, this`clock, this`log, buckets
      ensures Valid() && clock == now && log == old(log) + [Stamped(now, Connect)]
    {
      Advance(now);
      ghost var was := buckets[..];
      var b := buckets[currentIdx];
      buckets[currentIdx] := b.(stats := b.stats.(connections := b.stats.connections + 1));
      Logged(was, Stamped(now, Connect));
    }

    method RecordClose(durationNs: int, bytesSent: int, bytesRecv: int, now: int)
      requires Valid() && clock <= now
      modifies this`currentIdx, this`slides, this`clock, this`log, buckets
      ensures Valid() && clock == now
      ensures log == old(log) + [Stamped(now, Close(durationNs, bytesSent, bytesRecv))]
    {
      Advance(now);
      ghost var was := buckets[..];
      var b := buckets[currentIdx];
      buckets[currentIdx] := b.(stats := b.stats.(
        closes := b.stats.closes + 1,
        durationNs := b.stats.durationNs + durationNs,
        bytesSent := b.stats.bytesSent + bytesSent,
        bytesRecv := b.stats.bytesRecv + bytesRecv));
      Logged(was, Stamped(now, Close(durationNs, bytesSent, bytesRecv)));
    }

    method RecordRetransmit(now: int)
      requires Valid() && clock <= now
      modifies this`currentIdx, this`slides, this`clock, this`log, buckets
      ensures Valid() && clock == now && log == old(log) + [Stamped(now, Retransmit)]
    {
      Advance(now);
      ghost var was := buckets[..];
      var b := buckets[currentIdx];
      buckets[currentIdx] := b.(stats := b.stats.(retransmits := b.stats.retransmits + 1));
      Logged(was, Stamped(now, Retransmit));
    }

    /** Enters e in the log once its weight is in the current bucket. */
    ghost method Logged(was: seq<Bucket>, e: Stamped)
      requires bucketCount == buckets.Length == |was| && 0 <= currentIdx < |was|
      requires Placed(was, currentIdx, slideInterval, Start())
      requires forall c :: Counted(was, slideInterval, log, c)
      requires forall i :: 0 <= i < |log| ==> log[i].at <= clock && log[i].at <= Start() + slideInterval
      requires Start() < e.at <= Start() + slideInterval && e.at == clock
      requires buckets[..] == was[currentIdx := buckets[currentIdx]]
      requires buckets[currentIdx].startTime == was[currentIdx].startTime
      requires forall c :: buckets[currentIdx].stats.Get(c) == was[currentIdx].stats.Get(c) + e.event.Weight(c)
      modifies this`log
      ensures Valid() && log == old(log) + [e]
    {
      PlacedAfterRecord(was, currentIdx, slideInterval, Start(), buckets[currentIdx]);
      forall c: Counter
        ensures Counted(buckets[..], slideInterval, log + [e], c)
      {
        CountedAfterRecord(was, currentIdx, slideInterval, Start(), log, e, buckets[currentIdx], c);
      }
      log := log + [e];
    }

    /** The window is a cache: what it reports at now depends only on the log,
        the creation epoch and now, and is the sum over exactly the events of
        the last bucketCount slices. */
    method Aggregate(now: int) returns (stats: Stats, windowDurationSecs: real)
      requires Valid() && clock <= now
      modifies this`currentIdx, this`slides, this`clock, buckets
      ensures Valid() && clock == now
      ensures stats == Totals(log, SliceStart(epoch, slideInterval, now) - (bucketCount - 1) * slideInterval, now)
      ensures windowDurationSecs == windowDuration as real / 1_000_000_000.0
    {
      Advance(now);
      stats, windowDurationSecs := ZERO, windowDuration as real / 1_000_000_000.0;
      for i := 0 to buckets.Length
        invariant forall c :: stats.Get(c) == Total(buckets[..i], c)
      {
        var b := buckets[i].stats;
        assert buckets[..i + 1][..i] == buckets[..i];
        stats := Stats(stats.connections + b.connections, stats.closes + b.closes,
                       stats.durationNs + b.durationNs, stats.bytesSent + b.bytesSent,
                       stats.bytesRecv + b.bytesRecv, stats.retransmits + b.retransmits);
      }
      assert buckets[..] == buckets[..buckets.Length];
      OldestInstant(epoch, slideInterval, bucketCount, slides, now);
      forall c: Counter
        ensures stats.Get(c) == SumIn(log, Start() - Times(bucketCount - 1, slideInterval), now, c)
      {
        RingUpTo(buckets[..], currentIdx, slideInterval, Start(), log,
                 Start() - Times(bucketCount - 1, slideInterval), now, c);
      }
      TotalsByCounter(stats, log, Start() - Times(bucketCount - 1, slideInterval), now);
    }
  }
}
