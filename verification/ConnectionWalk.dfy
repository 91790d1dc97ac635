/** What an edge of pkg/graph/dag.go counts, from the events it has seen: its
    active connections are a walk that never goes below zero, its totals are sums,
    and it was last seen at the latest of them. */
module ConnectionWalk {
  import opened Common

  datatype EdgeEvent =
    | Created(at: int)
    | Connected(at: int)
    | Closed(at: int, bytesSent: int, bytesRecv: int, durationNs: int)
    | Retransmitted(at: int, count: int)

  function Delta(e: EdgeEvent): int {
    if e.Connected? then 1 else if e.Closed? then -1 else 0
  }

  /** The counter after a history: a close at zero is ignored. */
  function Walk(h: seq<EdgeEvent>): int {
    if |h| == 0 then 0
    else
      var before := Walk(h[..|h| - 1]);
      if h[|h| - 1].Closed? && before <= 0 then before else before + Delta(h[|h| - 1])
  }

  /** Connects minus closes. */
  function Net(h: seq<EdgeEvent>): int {
    if |h| == 0 then 0 else Net(h[..|h| - 1]) + Delta(h[|h| - 1])
  }

  function Connects(h: seq<EdgeEvent>): nat {
    if |h| == 0 then 0 else Connects(h[..|h| - 1]) + (if h[|h| - 1].Connected? then 1 else 0)
  }

  lemma Append(h: seq<EdgeEvent>, e: EdgeEvent)
    ensures Walk(h + [e]) == if e.Closed? && Walk(h) <= 0 then Walk(h) else Walk(h) + Delta(e)
    ensures Connects(h + [e]) == Connects(h) + (if e.Connected? then 1 else 0)
    ensures Net(h + [e]) == Net(h) + Delta(e)
  {
    assert (h + [e])[..|h|] == h;
  }

  /** The net count since position i. */
  function NetSince(h: seq<EdgeEvent>, i: nat): int
    requires i <= |h|
  {
    Net(h[i..])
  }

  lemma NetSinceAppend(h: seq<EdgeEvent>, e: EdgeEvent, i: nat)
    requires i <= |h|
    ensures NetSince(h + [e], i) == NetSince(h, i) + Delta(e)
  {
    assert (h + [e])[i..] == h[i..] + [e];
    Append(h[i..], e);
  }

  /** m is the largest net count over all suffixes, the empty one included. */
  ghost predicate IsMaxSuffix(h: seq<EdgeEvent>, m: int) {
    && (exists i: nat :: i <= |h| && NetSince(h, i) == m)
    && (forall i: nat :: i <= |h| ==> NetSince(h, i) <= m)
  }

  /** The counter is a reflected walk: it equals the largest net count over all
      suffixes of the history, the empty one included. */
  lemma {:induction false} WalkIsMaxSuffix(h: seq<EdgeEvent>)
    ensures IsMaxSuffix(h, Walk(h))
  {
    if |h| == 0 {
      assert NetSince(h, 0) == Walk(h);
    } else {
      var before, e := h[..|h| - 1], h[|h| - 1];
      assert h == before + [e];
      WalkIsMaxSuffix(before);
      forall i: nat | i <= |h|
        ensures NetSince(h, i) <= Walk(h)
      {
        if i <= |before| {
          NetSinceAppend(before, e, i);
        }
        WalkNonNegative(before);
      }
      if e.Closed? && Walk(before) <= 0 {
        WalkNonNegative(before);
        assert NetSince(h, |h|) == Walk(h);
      } else {
        var i: nat :| i <= |before| && NetSince(before, i) == Walk(before);
        NetSinceAppend(before, e, i);
        assert NetSince(h, i) == Walk(h);
      }
    }
  }

  /** It lies between zero and the number of connects. */
  lemma {:induction false} WalkNonNegative(h: seq<EdgeEvent>)
    ensures 0 <= Walk(h) <= Connects(h)
  {
    if |h| > 0 {
      WalkNonNegative(h[..|h| - 1]);
    }
  }

  // ---------------------------------------------------------------------
  // Totals and the last event
  // ---------------------------------------------------------------------

  function RetransmitsIn(e: EdgeEvent): int {
    if e.Retransmitted? then e.count else 0
  }

  function BytesSentIn(e: EdgeEvent): int {
    if e.Closed? then e.bytesSent else 0
  }

  function BytesRecvIn(e: EdgeEvent): int {
    if e.Closed? then e.bytesRecv else 0
  }

  function DurationIn(e: EdgeEvent): int {
    if e.Closed? then e.durationNs else 0
  }

  function ClosesIn(e: EdgeEvent): int {
    if e.Closed? then 1 else 0
  }

  /** The sum of a measure over a history. */
  function Total(h: seq<EdgeEvent>, measure: EdgeEvent -> int): int {
    if |h| == 0 then 0 else Total(h[..|h| - 1], measure) + measure(h[|h| - 1])
  }

  lemma TotalAppend(h: seq<EdgeEvent>, e: EdgeEvent, measure: EdgeEvent -> int)
    ensures Total(h + [e], measure) == Total(h, measure) + measure(e)
  {
    assert (h + [e])[..|h|] == h;
  }

  lemma {:induction false} ClosesCounted(h: seq<EdgeEvent>)
    ensures Total(h, ClosesIn) == |set i | 0 <= i < |h| && h[i].Closed?|
  {
    if |h| > 0 {
      var before := h[..|h| - 1];
      ClosesCounted(before);
      OneElement(set i | 0 <= i < |before| && before[i].Closed?, set i | 0 <= i < |h| && h[i].Closed?, |before|);
    }
  }

  lemma {:induction false} ConnectsCounted(h: seq<EdgeEvent>)
    ensures Connects(h) == |set i | 0 <= i < |h| && h[i].Connected?|
  {
    if |h| > 0 {
      var before := h[..|h| - 1];
      ConnectsCounted(before);
      OneElement(set i | 0 <= i < |before| && before[i].Connected?, set i | 0 <= i < |h| && h[i].Connected?, |before|);
    }
  }

  /** t is the time of the latest event of h. */
  ghost predicate IsLatest(h: seq<EdgeEvent>, t: int) {
    (exists i :: 0 <= i < |h| && h[i].at == t) && (forall i :: 0 <= i < |h| ==> h[i].at <= t)
  }

  lemma LatestAppend(h: seq<EdgeEvent>, e: EdgeEvent, t: int)
    requires IsLatest(h, t)
    ensures IsLatest(h + [e], if e.at > t then e.at else t)
  {
    var h' := h + [e];
    if e.at > t {
      assert h'[|h|].at == e.at;
    } else {
      var i :| 0 <= i < |h| && h[i].at == t;
      assert h'[i].at == t;
    }
  }
}
