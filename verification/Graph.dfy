/** pkg/graph/dag.go: the live service graph. Nodes are shared objects whose degree
    counters are updated in place; edges never leave the graph, which hands out
    copies only, and are values in its two-level table. */
module Graph {
  import opened Common
  import opened Snapshots
  import opened ConnectionWalk
  import opened Risk

  class Node {
    const id: Id
    var lastSeen: int
    var inDegree: int
    var outDegree: int
    var cpuLimitMillis: int

    constructor (id: Id, now: int)
      ensures this.id == id && lastSeen == now && inDegree == outDegree == 0 && cpuLimitMillis == 0
    {
      this.id, lastSeen, inDegree, outDegree, cpuLimitMillis := id, now, 0, 0, 0;
    }

    method UpdateLastSeen(t: int)
      modifies this`lastSeen
      ensures lastSeen == if t > old(lastSeen) then t else old(lastSeen)
    {
      if t > lastSeen {
        lastSeen := t;
      }
    }
  }

  datatype Edge = Edge(lastSeen: int, active: bool, totalConnections: int, activeConnections: int,
                       totalRetransmits: int, totalBytesSent: int, totalBytesRecv: int,
                       totalDurationNs: int, connectionCount: int, metrics: EdgeInfo)
  {
    function Seen(now: int): Edge {
      this.(lastSeen := if now > lastSeen then now else lastSeen, active := true)
    }

    function Connect(now: int): Edge {
      this.(totalConnections := totalConnections + 1, activeConnections := activeConnections + 1).Seen(now)
    }

    function Close(bytesSent: int, bytesRecv: int, durationNs: int, now: int): Edge {
      this.(activeConnections := if activeConnections > 0 then activeConnections - 1 else activeConnections,
            totalBytesSent := totalBytesSent + bytesSent, totalBytesRecv := totalBytesRecv + bytesRecv,
            totalDurationNs := totalDurationNs + durationNs, connectionCount := connectionCount + 1).Seen(now)
    }

    function Retransmit(count: int, now: int): Edge {
      this.(totalRetransmits := totalRetransmits + count).Seen(now)
    }
  }

  function NewEdge(now: int): Edge {
    Edge(now, true, 0, 0, 0, 0, 0, 0, 0, EdgeInfo(0.0, 0.0, 0.0))
  }

  type Pair = (Id, Id)
  type EdgeTable = map<Id, map<Id, Edge>>
  type Histories = map<Pair, seq<EdgeEvent>>

  predicate HasEdge(edges: EdgeTable, s: Id, t: Id) {
    s in edges && t in edges[s]
  }

  /** The call relation the edges stand for. */
  ghost function Pairs(edges: EdgeTable): set<Pair> {
    set s, t | s in edges && t in edges[s] :: (s, t)
  }

  /** The edges by their two ends. */
  ghost function Flat(edges: EdgeTable): map<Pair, Edge> {
    map p | p in Pairs(edges) :: edges[p.0][p.1]
  }

  function Targets(edges: EdgeTable, s: Id): map<Id, Edge> {
    if s in edges then edges[s] else map[]
  }

  function WithEdge(edges: EdgeTable, s: Id, t: Id, e: Edge): EdgeTable {
    edges[s := Targets(edges, s)[t := e]]
  }

  function WithoutEdge(edges: EdgeTable, s: Id, t: Id): EdgeTable {
    edges[s := Targets(edges, s) - {t}]
  }

  lemma FlatKeys(edges: EdgeTable, s: Id, t: Id)
    ensures Flat(edges).Keys == Pairs(edges)
    ensures (s, t) in Pairs(edges) <==> HasEdge(edges, s, t)
    ensures HasEdge(edges, s, t) ==> Flat(edges)[(s, t)] == edges[s][t]
  {
  }

  lemma PairsWithEdge(edges: EdgeTable, s: Id, t: Id, e: Edge)
    ensures Pairs(WithEdge(edges, s, t, e)) == Pairs(edges) + {(s, t)}
  {
    var edges' := WithEdge(edges, s, t, e);
    forall p
      ensures p in Pairs(edges') <==> p in Pairs(edges) || p == (s, t)
    {
      assert HasEdge(edges', p.0, p.1) <==> HasEdge(edges, p.0, p.1) || p == (s, t);
    }
  }

  lemma FlatWithEdge(edges: EdgeTable, s: Id, t: Id, e: Edge)
    ensures Flat(WithEdge(edges, s, t, e)) == Flat(edges)[(s, t) := e]
    ensures Pairs(WithEdge(edges, s, t, e)) == Pairs(edges) + {(s, t)}
  {
    var edges' := WithEdge(edges, s, t, e);
    PairsWithEdge(edges, s, t, e);
    assert Flat(edges').Keys == Flat(edges).Keys + {(s, t)};
  }

  lemma PairsWithoutEdge(edges: EdgeTable, s: Id, t: Id)
    ensures Pairs(WithoutEdge(edges, s, t)) == Pairs(edges) - {(s, t)}
  {
    var edges' := WithoutEdge(edges, s, t);
    forall p
      ensures p in Pairs(edges') <==> p in Pairs(edges) && p != (s, t)
    {
      assert HasEdge(edges', p.0, p.1) <==> HasEdge(edges, p.0, p.1) && p != (s, t);
    }
  }

  lemma FlatWithoutEdge(edges: EdgeTable, s: Id, t: Id)
    ensures Flat(WithoutEdge(edges, s, t)) == Flat(edges) - {(s, t)}
    ensures Pairs(WithoutEdge(edges, s, t)) == Pairs(edges) - {(s, t)}
  {
    var edges' := WithoutEdge(edges, s, t);
    PairsWithoutEdge(edges, s, t);
    assert Flat(edges').Keys == Flat(edges).Keys - {(s, t)};
  }

  /** Adding or dropping an empty target table changes no edge. */
  lemma FlatEmptySource(edges: EdgeTable, s: Id)
    requires s !in edges
    ensures Flat(edges[s := map[]]) == Flat(edges) && Pairs(edges[s := map[]]) == Pairs(edges)
  {
    assert Pairs(edges[s := map[]]) == Pairs(edges);
  }

  lemma FlatDropEmpty(edges: EdgeTable, s: Id)
    requires s in edges && edges[s] == map[]
    ensures Flat(edges - {s}) == Flat(edges) && Pairs(edges - {s}) == Pairs(edges)
  {
    assert Pairs(edges - {s}) == Pairs(edges);
  }

  // ---------------------------------------------------------------------
  // Degrees of a call relation
  // ---------------------------------------------------------------------

  ghost function OutOf(pairs: set<Pair>, k: Id): set<Pair> {
    set p | p in pairs && p.0 == k
  }

  ghost function Into(pairs: set<Pair>, k: Id): set<Pair> {
    set p | p in pairs && p.1 == k
  }

  /** A new edge adds one to exactly two degrees. */
  lemma DegreesWithPair(pairs: set<Pair>, s: Id, t: Id, k: Id)
    requires (s, t) !in pairs
    ensures |OutOf(pairs + {(s, t)}, k)| == |OutOf(pairs, k)| + (if k == s then 1 else 0)
    ensures |Into(pairs + {(s, t)}, k)| == |Into(pairs, k)| + (if k == t then 1 else 0)
  {
    var pairs' := pairs + {(s, t)};
    assert OutOf(pairs', k) == if k == s then OutOf(pairs, k) + {(s, t)} else OutOf(pairs, k);
    assert Into(pairs', k) == if k == t then Into(pairs, k) + {(s, t)} else Into(pairs, k);
  }

  /** Removing an edge takes one from exactly two degrees, which were positive. */
  lemma DegreesWithoutPair(pairs: set<Pair>, s: Id, t: Id, k: Id)
    requires (s, t) in pairs
    ensures |OutOf(pairs - {(s, t)}, k)| == |OutOf(pairs, k)| - (if k == s then 1 else 0)
    ensures |Into(pairs - {(s, t)}, k)| == |Into(pairs, k)| - (if k == t then 1 else 0)
    ensures |OutOf(pairs, s)| > 0 && |Into(pairs, t)| > 0
  {
    var rest := pairs - {(s, t)};
    DegreesWithPair(rest, s, t, k);
    assert rest + {(s, t)} == pairs;
    assert (s, t) in OutOf(pairs, s) && (s, t) in Into(pairs, t);
  }

  /** The number of targets of s is its out-degree. */
  lemma TargetsAreOut(edges: EdgeTable, s: Id)
    ensures |Targets(edges, s)| == |OutOf(Pairs(edges), s)|
  {
    var ts := Targets(edges, s).Keys;
    var outgoing := OutOf(Pairs(edges), s);
    forall t
      ensures t in ts <==> (s, t) in outgoing
    {
      assert (s, t) in Pairs(edges) <==> HasEdge(edges, s, t);
    }
    PairUp(ts, s, outgoing);
    SizeOfKeys(Targets(edges, s));
  }

  function Sources(edges: EdgeTable, t: Id): set<Id> {
    set s | s in edges && t in edges[s]
  }

  /** The number of sources of t is its in-degree. */
  lemma SourcesAreInto(edges: EdgeTable, t: Id)
    ensures |Sources(edges, t)| == |Into(Pairs(edges), t)|
  {
    forall s
      ensures s in Sources(edges, t) <==> (s, t) in Into(Pairs(edges), t)
    {
      FlatKeys(edges, s, t);
    }
    PairUpSources(Sources(edges, t), t, Into(Pairs(edges), t));
  }

  lemma {:induction false} PairUpSources(ss: set<Id>, t: Id, incoming: set<Pair>)
    requires forall p :: p in incoming ==> p.1 == t
    requires forall s :: s in ss <==> (s, t) in incoming
    ensures |ss| == |incoming|
  {
    if ss == {} {
      assert forall p :: p in incoming ==> p == (p.0, t) && p.0 in ss;
    } else {
      var s :| s in ss;
      PairUpSources(ss - {s}, t, incoming - {(s, t)});
    }
  }

  lemma SizeOfKeys<K, V>(m: map<K, V>)
    ensures |m| == |m.Keys|
  {
  }

  lemma {:induction false} PairUp(ts: set<Id>, s: Id, outgoing: set<Pair>)
    requires forall p :: p in outgoing ==> p.0 == s
    requires forall t :: t in ts <==> (s, t) in outgoing
    ensures |ts| == |outgoing|
  {
    if ts == {} {
      assert forall p :: p in outgoing ==> p == (s, p.1) && p.1 in ts;
    } else {
      var t :| t in ts;
      PairUp(ts - {t}, s, outgoing - {(s, t)});
    }
  }

  /** The two counters of a node. */
  datatype Degrees = Degrees(outgoing: int, incoming: int)

  ghost predicate ExactAt(d: Degrees, pairs: set<Pair>, k: Id) {
    d.outgoing == |OutOf(pairs, k)| && d.incoming == |Into(pairs, k)|
  }

  /** Every listed node has its true degrees. */
  ghost predicate Exact(counters: map<Id, Degrees>, pairs: set<Pair>) {
    forall k {:trigger ExactAt(counters[k], pairs, k)} :: k in counters ==> ExactAt(counters[k], pairs, k)
  }

  /** The counters after counting an edge from s to t up or down. */
  ghost function Moved(counters: map<Id, Degrees>, s: Id, t: Id, step: int): map<Id, Degrees> {
    map k | k in counters :: Degrees(counters[k].outgoing + (if k == s then step else 0),
                                     counters[k].incoming + (if k == t then step else 0))
  }

  lemma ExactAfterAdd(counters: map<Id, Degrees>, pairs: set<Pair>, s: Id, t: Id)
    requires Exact(counters, pairs) && (s, t) !in pairs
    ensures Exact(Moved(counters, s, t, 1), pairs + {(s, t)})
  {
    forall k | k in counters
      ensures ExactAt(Moved(counters, s, t, 1)[k], pairs + {(s, t)}, k)
    {
      assert ExactAt(counters[k], pairs, k);
      DegreesWithPair(pairs, s, t, k);
    }
  }

  /** When an edge goes, the counters of its ends are positive, so a guard against
      negative counters never blocks. */
  lemma ExactAfterRemove(counters: map<Id, Degrees>, pairs: set<Pair>, s: Id, t: Id)
    requires Exact(counters, pairs) && (s, t) in pairs
    ensures Exact(Moved(counters, s, t, -1), pairs - {(s, t)})
    ensures s in counters ==> counters[s].outgoing > 0
    ensures t in counters ==> counters[t].incoming > 0
  {
    forall k | k in counters
      ensures ExactAt(Moved(counters, s, t, -1)[k], pairs - {(s, t)}, k)
    {
      assert ExactAt(counters[k], pairs, k);
      DegreesWithoutPair(pairs, s, t, k);
    }
    DegreesWithoutPair(pairs, s, t, s);
    assert s in counters ==> ExactAt(counters[s], pairs, s);
    assert t in counters ==> ExactAt(counters[t], pairs, t);
  }

  lemma ExactInsert(counters: map<Id, Degrees>, pairs: set<Pair>, id: Id)
    requires Exact(counters, pairs)
    requires forall p :: p in pairs ==> p.0 != id && p.1 != id
    ensures Exact(counters[id := Degrees(0, 0)], pairs)
  {
    assert OutOf(pairs, id) == {} && Into(pairs, id) == {};
  }

  // ---------------------------------------------------------------------
  // The rest of the invariant, on values
  // ---------------------------------------------------------------------

  /** A node missing from an edge was refused at capacity, and stays refused. */
  ghost predicate RefusedForGood(names: set<Id>, maxNodes: int, edges: EdgeTable) {
    |names| >= maxNodes || (edges.Keys <= names && forall p :: p in Pairs(edges) ==> p.1 in names)
  }

  /** The node names once id has been asked for. */
  function Admitted(maxNodes: int, names: set<Id>, id: Id): set<Id> {
    if |names| >= maxNodes then names else names + {id}
  }

  /** Two names asked for are both there, or the graph is full. */
  lemma AdmittedBoth(maxNodes: int, names: set<Id>, s: Id, t: Id)
    ensures var both := Admitted(maxNodes, Admitted(maxNodes, names, s), t);
      |both| >= maxNodes || (s in both && t in both)
  {
    var one := Admitted(maxNodes, names, s);
    SubsetSize(names, one);
    SubsetSize(one, Admitted(maxNodes, one, t));
  }

  /** Each edge's counters follow from the events it has seen. */
  ghost predicate Tracked(flat: map<Pair, Edge>, histories: Histories) {
    flat.Keys == histories.Keys &&
    forall p {:trigger TrackedAt(flat[p], histories[p])} :: p in flat ==> TrackedAt(flat[p], histories[p])
  }

  ghost predicate TrackedAt(e: Edge, h: seq<EdgeEvent>) {
    e.activeConnections == Walk(h) && e.totalConnections == Connects(h) && TrafficAt(e, h)
  }

  /** The totals of an edge add up its events, the latest of which set lastSeen. */
  ghost predicate TrafficAt(e: Edge, h: seq<EdgeEvent>) {
    && e.totalRetransmits == Total(h, RetransmitsIn)
    && e.totalBytesSent == Total(h, BytesSentIn) && e.totalBytesRecv == Total(h, BytesRecvIn)
    && e.totalDurationNs == Total(h, DurationIn) && e.connectionCount == Total(h, ClosesIn)
    && e.active && IsLatest(h, e.lastSeen)
  }

  lemma TotalsAppend(h: seq<EdgeEvent>, e: EdgeEvent)
    ensures Total(h + [e], RetransmitsIn) == Total(h, RetransmitsIn) + RetransmitsIn(e)
    ensures Total(h + [e], BytesSentIn) == Total(h, BytesSentIn) + BytesSentIn(e)
    ensures Total(h + [e], BytesRecvIn) == Total(h, BytesRecvIn) + BytesRecvIn(e)
    ensures Total(h + [e], DurationIn) == Total(h, DurationIn) + DurationIn(e)
    ensures Total(h + [e], ClosesIn) == Total(h, ClosesIn) + ClosesIn(e)
  {
    TotalAppend(h, e, RetransmitsIn);
    TotalAppend(h, e, BytesSentIn);
    TotalAppend(h, e, BytesRecvIn);
    TotalAppend(h, e, DurationIn);
    TotalAppend(h, e, ClosesIn);
  }

  lemma NewEdgeTracked(now: int)
    ensures TrackedAt(NewEdge(now), [Created(now)])
  {
    var h: seq<EdgeEvent> := [];
    assert h + [Created(now)] == [Created(now)];
    Append(h, Created(now));
    TotalsAppend(h, Created(now));
    assert [Created(now)][0].at == now;
  }

  lemma TrackedAfter(e: Edge, h: seq<EdgeEvent>, bytesSent: int, bytesRecv: int, durationNs: int, count: int, now: int)
    requires TrackedAt(e, h)
    ensures TrackedAt(e.Connect(now), h + [Connected(now)])
    ensures TrackedAt(e.Close(bytesSent, bytesRecv, durationNs, now),
                      h + [Closed(now, bytesSent, bytesRecv, durationNs)])
    ensures TrackedAt(e.Retransmit(count, now), h + [Retransmitted(now, count)])
  {
    hide Walk, Total, IsLatest;
    EventAppend(h, Connected(now), e.lastSeen);
    EventAppend(h, Closed(now, bytesSent, bytesRecv, durationNs), e.lastSeen);
    EventAppend(h, Retransmitted(now, count), e.lastSeen);
  }

  lemma EventAppend(h: seq<EdgeEvent>, e: EdgeEvent, lastSeen: int)
    requires IsLatest(h, lastSeen)
    ensures Walk(h + [e]) == if e.Closed? && Walk(h) <= 0 then Walk(h) else Walk(h) + Delta(e)
    ensures Connects(h + [e]) == Connects(h) + (if e.Connected? then 1 else 0)
    ensures Total(h + [e], RetransmitsIn) == Total(h, RetransmitsIn) + RetransmitsIn(e)
    ensures Total(h + [e], BytesSentIn) == Total(h, BytesSentIn) + BytesSentIn(e)
    ensures Total(h + [e], BytesRecvIn) == Total(h, BytesRecvIn) + BytesRecvIn(e)
    ensures Total(h + [e], DurationIn) == Total(h, DurationIn) + DurationIn(e)
    ensures Total(h + [e], ClosesIn) == Total(h, ClosesIn) + ClosesIn(e)
    ensures IsLatest(h + [e], if e.at > lastSeen then e.at else lastSeen)
  {
    hide Walk, Connects, Total, IsLatest;
    Append(h, e);
    TotalsAppend(h, e);
    LatestAppend(h, e, lastSeen);
  }

  /** The edges after a CONNECT event. */
  ghost function AfterConnect(flat: map<Pair, Edge>, maxEdgesPerNode: int, s: Id, t: Id, now: int): map<Pair, Edge> {
    if (s, t) in flat then flat[(s, t) := flat[(s, t)].Connect(now)]
    else if |OutOf(flat.Keys, s)| < maxEdgesPerNode then flat[(s, t) := NewEdge(now).Connect(now)]
    else flat
  }

  /** The histories after an event that counted on edge p, or did not; a first
      event has created the edge. */
  ghost function AfterEvent(histories: Histories, p: Pair, e: EdgeEvent, counted: bool): Histories {
    if counted then histories[p := (if p in histories then histories[p] else [Created(e.at)]) + [e]] else histories
  }

  /** The state of a graph as values: node names, edge table, event histories and
      degree counters fit together. */
  datatype Contents = Contents(names: set<Id>, maxNodes: int, edges: EdgeTable, histories: Histories,
                               counters: map<Id, Degrees>)

  ghost predicate Sound(g: Contents) {
    && g.counters.Keys == g.names
    && RefusedForGood(g.names, g.maxNodes, g.edges)
    && Exact(g.counters, Pairs(g.edges))
    && Tracked(Flat(g.edges), g.histories)
  }

  lemma SoundAddNode(g: Contents, id: Id)
    requires Sound(g) && id !in g.names && |g.names| < g.maxNodes
    ensures Sound(g.(names := g.names + {id}, counters := g.counters[id := Degrees(0, 0)]))
  {
    UnlistedHasNoEdge(g, id);
    RefusedAfterAdmit(g.names, g.maxNodes, g.edges, id);
    hide RefusedForGood, Tracked, Flat, Exact, Pairs;
    ExactInsert(g.counters, Pairs(g.edges), id);
  }

  lemma UnlistedHasNoEdge(g: Contents, id: Id)
    requires Sound(g) && id !in g.names && |g.names| < g.maxNodes
    ensures forall p :: p in Pairs(g.edges) ==> p.0 != id && p.1 != id
  {
    hide Exact, Tracked, Flat;
    assert forall p :: p in Pairs(g.edges) ==> p.0 in g.edges;
  }

  lemma RefusedAfterAdmit(names: set<Id>, maxNodes: int, edges: EdgeTable, id: Id)
    requires RefusedForGood(names, maxNodes, edges) && |names| < maxNodes
    ensures RefusedForGood(names + {id}, maxNodes, edges)
  {
    hide Pairs;
  }

  lemma SoundAddEdge(g: Contents, s: Id, t: Id, e: Edge, h: seq<EdgeEvent>)
    requires Sound(g) && !HasEdge(g.edges, s, t) && TrackedAt(e, h)
    requires |g.names| >= g.maxNodes || (s in g.names && t in g.names)
    ensures Sound(g.(edges := WithEdge(g.edges, s, t, e), histories := g.histories[(s, t) := h],
                     counters := Moved(g.counters, s, t, 1)))
  {
    FlatKeys(g.edges, s, t);
    FlatWithEdge(g.edges, s, t, e);
    hide Pairs, Flat, Exact;
    ExactAfterAdd(g.counters, Pairs(g.edges), s, t);
  }

  lemma SoundRemoveEdge(g: Contents, s: Id, t: Id)
    requires Sound(g) && HasEdge(g.edges, s, t)
    ensures s in g.counters ==> g.counters[s].outgoing > 0
    ensures t in g.counters ==> g.counters[t].incoming > 0
    ensures Sound(g.(edges := WithoutEdge(g.edges, s, t), histories := g.histories - {(s, t)},
                     counters := Moved(g.counters, s, t, -1)))
  {
    FlatKeys(g.edges, s, t);
    FlatWithoutEdge(g.edges, s, t);
    hide Pairs, Flat, Exact;
    ExactAfterRemove(g.counters, Pairs(g.edges), s, t);
  }

  lemma SoundUpdateEdge(g: Contents, s: Id, t: Id, e: Edge, h: seq<EdgeEvent>)
    requires Sound(g) && HasEdge(g.edges, s, t) && TrackedAt(e, h)
    ensures Sound(g.(edges := WithEdge(g.edges, s, t, e), histories := g.histories[(s, t) := h]))
  {
    FlatKeys(g.edges, s, t);
    FlatWithEdge(g.edges, s, t, e);
    assert Pairs(g.edges) + {(s, t)} == Pairs(g.edges);
    hide Pairs, Flat, Exact, TrackedAt;
  }

  lemma SoundTouch(g: Contents, s: Id)
    requires Sound(g) && s !in g.edges && (s in g.names || |g.names| >= g.maxNodes)
    ensures Sound(g.(edges := g.edges[s := map[]]))
  {
    FlatEmptySource(g.edges, s);
  }

  lemma SoundDropEmpty(g: Contents, s: Id)
    requires Sound(g) && s in g.edges && g.edges[s] == map[]
    ensures Sound(g.(edges := g.edges - {s}))
  {
    FlatDropEmpty(g.edges, s);
  }

  // ---------------------------------------------------------------------
  // Pruning and copying, on values
  // ---------------------------------------------------------------------

  predicate Stale(e: Edge, now: int, timeout: int) {
    now - e.lastSeen > timeout
  }

  /** The stale edges that leave one of these sources. */
  ghost function StaleFrom(flat: map<Pair, Edge>, now: int, timeout: int, sources: set<Id>): set<Pair> {
    set p | p in flat && p.0 in sources && Stale(flat[p], now, timeout)
  }

  /** All stale edges. */
  ghost function StaleIn(flat: map<Pair, Edge>, now: int, timeout: int): set<Pair> {
    set p | p in flat && Stale(flat[p], now, timeout)
  }

  function StaleTargets(targets: map<Id, Edge>, now: int, timeout: int): set<Id> {
    set t | t in targets && Stale(targets[t], now, timeout)
  }

  ghost function PairsOf(s: Id, targets: set<Id>): set<Pair> {
    set t | t in targets :: (s, t)
  }

  lemma PairsOfSize(s: Id, targets: set<Id>)
    ensures |PairsOf(s, targets)| == |targets|
  {
    PairUp(targets, s, PairsOf(s, targets));
  }

  function Shrunk(edges: EdgeTable, s: Id, gone: set<Id>): EdgeTable
    requires s in edges
  {
    edges[s := edges[s] - gone]
  }

  /** Pruning proceeds one target at a time. */
  lemma ShrunkStep(edges: EdgeTable, s: Id, gone: set<Id>, t: Id)
    requires s in edges && t in edges[s] && t !in gone
    ensures HasEdge(Shrunk(edges, s, gone), s, t) && Shrunk(edges, s, gone)[s][t] == edges[s][t]
    ensures WithoutEdge(Shrunk(edges, s, gone), s, t) == Shrunk(edges, s, gone + {t})
    ensures PairsOf(s, gone + {t}) == PairsOf(s, gone) + {(s, t)}
  {
    assert edges[s] - gone - {t} == edges[s] - (gone + {t});
    assert WithoutEdge(Shrunk(edges, s, gone), s, t) == edges[s := edges[s] - gone - {t}];
  }

  lemma ShrunkEnds(edges: EdgeTable, s: Id, gone: set<Id>)
    requires s in edges
    ensures s in Shrunk(edges, s, gone) && Shrunk(edges, s, gone) - {s} == edges - {s}
    ensures Shrunk(edges, s, {}) == edges && PairsOf(s, {}) == {}
  {
    assert edges[s] - {} == edges[s];
  }

  lemma FlatShrunk(edges: EdgeTable, s: Id, gone: set<Id>)
    requires s in edges
    ensures Flat(Shrunk(edges, s, gone)) == Flat(edges) - PairsOf(s, gone)
  {
    var edges' := Shrunk(edges, s, gone);
    forall p
      ensures p in Pairs(edges') <==> p in Pairs(edges) && p !in PairsOf(s, gone)
    {
      assert HasEdge(edges', p.0, p.1) <==> HasEdge(edges, p.0, p.1) && !(p.0 == s && p.1 in gone);
    }
  }

  /** The stale edges of one source, by target. */
  lemma StaleOfSource(edges: EdgeTable, s: Id, now: int, timeout: int)
    requires s in edges
    ensures StaleFrom(Flat(edges), now, timeout, {s}) == PairsOf(s, StaleTargets(edges[s], now, timeout))
  {
    var targets := StaleTargets(edges[s], now, timeout);
    forall p
      ensures p in StaleFrom(Flat(edges), now, timeout, {s}) <==> p in PairsOf(s, targets)
    {
      FlatKeys(edges, p.0, p.1);
      assert p in PairsOf(s, targets) <==> p.0 == s && p.1 in targets;
    }
  }

  /** Stale edges of one more source: those gone before do not matter to it. */
  lemma StaleOneMore(was: map<Pair, Edge>, flat: map<Pair, Edge>, now: int, timeout: int, done: set<Id>, s: Id)
    requires s !in done && flat == was - StaleFrom(was, now, timeout, done)
    ensures StaleFrom(flat, now, timeout, {s}) == StaleFrom(was, now, timeout, {s})
    ensures StaleFrom(was, now, timeout, done + {s}) ==
            StaleFrom(was, now, timeout, done) + StaleFrom(flat, now, timeout, {s})
    ensures StaleFrom(was, now, timeout, done) !! StaleFrom(flat, now, timeout, {s})
  {
  }

  ghost predicate NoneEmpty(edges: EdgeTable, sources: set<Id>) {
    forall s :: s in edges && s in sources ==> edges[s] != map[]
  }

  lemma StillNoneEmpty(before: EdgeTable, edges: EdgeTable, done: set<Id>, s: Id)
    requires NoneEmpty(before, done) && s in before && edges - {s} == before - {s}
    requires s in edges ==> edges[s] != map[]
    ensures NoneEmpty(edges, done + {s}) && before.Keys - {s} <= edges.Keys <= before.Keys
  {
    forall k | k != s
      ensures (k in edges <==> k in before) && (k in edges ==> edges[k] == before[k])
    {
      assert k in edges <==> k in edges - {s};
      assert k in before <==> k in before - {s};
      assert k in edges ==> (edges - {s})[k] == edges[k] && (before - {s})[k] == before[k];
    }
  }

  /** Pruning one source, with rest still to be looked at. */
  ghost predicate SourceProgress(was: EdgeTable, wasHistories: Histories, edges: EdgeTable, histories: Histories,
                                 s: Id, now: int, timeout: int, rest: set<Id>, count: nat)
  {
    s in was && rest <= was[s].Keys &&
    var gone := StaleTargets(was[s], now, timeout) - rest;
    edges == Shrunk(was, s, gone) && histories == wasHistories - PairsOf(s, gone) && count == |gone|
  }

  lemma SourceStart(was: EdgeTable, wasHistories: Histories, s: Id, now: int, timeout: int)
    requires s in was
    ensures SourceProgress(was, wasHistories, was, wasHistories, s, now, timeout, was[s].Keys, 0)
  {
    ShrunkEnds(was, s, {});
    assert StaleTargets(was[s], now, timeout) - was[s].Keys == {};
    assert wasHistories - {} == wasHistories;
  }

  lemma SourceStep(was: EdgeTable, wasHistories: Histories, edges: EdgeTable, histories: Histories,
                   s: Id, now: int, timeout: int, rest: set<Id>, count: nat, t: Id)
    requires SourceProgress(was, wasHistories, edges, histories, s, now, timeout, rest, count) && t in rest
    ensures HasEdge(edges, s, t)
    ensures if Stale(edges[s][t], now, timeout)
      then SourceProgress(was, wasHistories, WithoutEdge(edges, s, t), histories - {(s, t)}, s, now, timeout,
                          rest - {t}, count + 1)
      else SourceProgress(was, wasHistories, edges, histories, s, now, timeout, rest - {t}, count)
  {
    var stale := StaleTargets(was[s], now, timeout);
    ShrunkStep(was, s, stale - rest, t);
    assert Stale(edges[s][t], now, timeout) <==> t in stale;
    if t in stale {
      assert stale - (rest - {t}) == (stale - rest) + {t};
      assert wasHistories - PairsOf(s, stale - rest) - {(s, t)} == wasHistories - (PairsOf(s, stale - rest) + {(s, t)});
    } else {
      assert stale - (rest - {t}) == stale - rest;
    }
  }

  lemma SourceEnd(was: EdgeTable, wasHistories: Histories, edges: EdgeTable, histories: Histories,
                  s: Id, now: int, timeout: int, count: nat)
    requires SourceProgress(was, wasHistories, edges, histories, s, now, timeout, {}, count)
    ensures s in edges && edges - {s} == was - {s}
    ensures Flat(edges) == Flat(was) - StaleFrom(Flat(was), now, timeout, {s})
    ensures histories == wasHistories - StaleFrom(Flat(was), now, timeout, {s})
    ensures count == |StaleFrom(Flat(was), now, timeout, {s})|
  {
    hide Flat, Pairs, StaleFrom, StaleTargets, PairsOf, Shrunk;
    var gone := StaleTargets(was[s], now, timeout);
    assert gone - {} == gone;
    ShrunkEnds(was, s, gone);
    FlatShrunk(was, s, gone);
    StaleOfSource(was, s, now, timeout);
    PairsOfSize(s, gone);
  }

  /** Pruning all sources, with rest still to be looked at. */
  ghost predicate PruneProgress(was: EdgeTable, wasHistories: Histories, edges: EdgeTable, histories: Histories,
                                now: int, timeout: int, rest: set<Id>, count: nat)
  {
    var gone := StaleFrom(Flat(was), now, timeout, was.Keys - rest);
    && rest <= edges.Keys <= was.Keys && NoneEmpty(edges, was.Keys - rest)
    && Flat(edges) == Flat(was) - gone && histories == wasHistories - gone && count == |gone|
  }

  lemma PruneStart(was: EdgeTable, wasHistories: Histories, now: int, timeout: int)
    ensures PruneProgress(was, wasHistories, was, wasHistories, now, timeout, was.Keys, 0)
  {
    assert was.Keys - was.Keys == {};
    assert StaleFrom(Flat(was), now, timeout, {}) == {};
  }

  lemma PruneReady(was: EdgeTable, wasHistories: Histories, edges: EdgeTable, histories: Histories,
                   now: int, timeout: int, rest: set<Id>, count: nat, s: Id)
    requires PruneProgress(was, wasHistories, edges, histories, now, timeout, rest, count) && s in rest
    ensures s in edges
  {
  }

  lemma PruneStep(was: EdgeTable, wasHistories: Histories, edges: EdgeTable, histories: Histories,
                  edges': EdgeTable, histories': Histories, now: int, timeout: int, rest: set<Id>, count: nat, s: Id)
    requires PruneProgress(was, wasHistories, edges, histories, now, timeout, rest, count) && s in rest
    requires Flat(edges') == Flat(edges) - StaleFrom(Flat(edges), now, timeout, {s})
    requires histories' == histories - StaleFrom(Flat(edges), now, timeout, {s})
    requires edges' - {s} == edges - {s}
    requires s in edges' ==> edges'[s] != map[]
    ensures PruneProgress(was, wasHistories, edges', histories', now, timeout, rest - {s},
                          count + |StaleFrom(Flat(edges), now, timeout, {s})|)
  {
    hide Flat, Pairs, StaleFrom, NoneEmpty;
    var done := was.Keys - rest;
    assert was.Keys - (rest - {s}) == done + {s};
    StaleOneMore(Flat(was), Flat(edges), now, timeout, done, s);
    StillNoneEmpty(edges, edges', done, s);
    var gone, more := StaleFrom(Flat(was), now, timeout, done), StaleFrom(Flat(edges), now, timeout, {s});
    assert wasHistories - gone - more == wasHistories - (gone + more);
    assert Flat(was) - gone - more == Flat(was) - (gone + more);
  }

  lemma PruneEnd(was: EdgeTable, wasHistories: Histories, edges: EdgeTable, histories: Histories,
                 now: int, timeout: int, count: nat)
    requires PruneProgress(was, wasHistories, edges, histories, now, timeout, {}, count)
    ensures Flat(edges) == Flat(was) - StaleIn(Flat(was), now, timeout)
    ensures histories == wasHistories - StaleIn(Flat(was), now, timeout)
    ensures count == |StaleIn(Flat(was), now, timeout)|
    ensures NoneEmpty(edges, edges.Keys)
  {
    assert was.Keys - {} == was.Keys;
    assert StaleFrom(Flat(was), now, timeout, was.Keys) == StaleIn(Flat(was), now, timeout);
  }

  /** What is kept was seen within the timeout, and with what is not makes up the whole. */
  lemma FreshKept(flat: map<Pair, Edge>, now: int, timeout: int)
    ensures var rest := flat - StaleIn(flat, now, timeout);
      && (forall p :: p in rest <==> p in flat && now - flat[p].lastSeen <= timeout)
      && |StaleIn(flat, now, timeout)| == |flat.Keys| - |rest.Keys|
  {
    var rest, stale := flat - StaleIn(flat, now, timeout), StaleIn(flat, now, timeout);
    assert flat.Keys == rest.Keys + stale && rest.Keys !! stale;
  }

  /** k is an end of an edge that is not stale. */
  ghost predicate HasFreshEdge(flat: map<Pair, Edge>, k: Id, now: int, timeout: int) {
    exists p :: p in flat && EndOf(p, k) && !Stale(flat[p], now, timeout)
  }

  predicate EndOf(p: Pair, k: Id) {
    p.0 == k || p.1 == k
  }

  /** No edge leaves or enters k. */
  ghost predicate Orphan(pairs: set<Pair>, k: Id) {
    |OutOf(pairs, k)| == 0 && |Into(pairs, k)| == 0
  }

  lemma OrphanMeaning(pairs: set<Pair>, k: Id)
    ensures Orphan(pairs, k) <==> forall p :: p in pairs ==> !EndOf(p, k)
  {
    if Orphan(pairs, k) {
      forall p | p in pairs
        ensures !EndOf(p, k)
      {
        assert p !in OutOf(pairs, k) && p !in Into(pairs, k);
      }
    } else if p :| p in OutOf(pairs, k) {
      assert EndOf(p, k);
    } else {
      var p :| p in Into(pairs, k);
      assert EndOf(p, k);
    }
  }

  /** Pruning orphans a node exactly when every edge at it was stale. */
  lemma OrphanedIff(flat: map<Pair, Edge>, k: Id, now: int, timeout: int)
    ensures Orphan((flat - StaleIn(flat, now, timeout)).Keys, k) <==> !HasFreshEdge(flat, k, now, timeout)
  {
    var rest := (flat - StaleIn(flat, now, timeout)).Keys;
    OrphanMeaning(rest, k);
    forall p
      ensures p in rest <==> p in flat && !Stale(flat[p], now, timeout)
    {
    }
  }

  /** So it leaves no orphan among some nodes exactly when each of them was an end of
      a fresh edge before. */
  lemma NoOrphansIff(names: set<Id>, flat: map<Pair, Edge>, now: int, timeout: int)
    ensures (forall k :: k in names ==> !Orphan((flat - StaleIn(flat, now, timeout)).Keys, k)) <==>
            (forall k :: k in names ==> HasFreshEdge(flat, k, now, timeout))
  {
    forall k | k in names
      ensures Orphan((flat - StaleIn(flat, now, timeout)).Keys, k) <==> !HasFreshEdge(flat, k, now, timeout)
    {
      OrphanedIff(flat, k, now, timeout);
    }
  }

  /** A graph of one stale edge is left with two orphans. */
  lemma StaleEdgeLeavesOrphans(s: Id, t: Id, e: Edge, now: int, timeout: int)
    requires Stale(e, now, timeout)
    ensures var flat := map[(s, t) := e];
      var rest := (flat - StaleIn(flat, now, timeout)).Keys;
      Orphan(rest, s) && Orphan(rest, t)
  {
    OrphanedIff(map[(s, t) := e], s, now, timeout);
    OrphanedIff(map[(s, t) := e], t, now, timeout);
  }

  /** The edges of all these sources together. */
  ghost function OutOfAll(pairs: set<Pair>, sources: set<Id>): set<Pair> {
    set p | p in pairs && p.0 in sources
  }

  lemma OutOfOneMore(pairs: set<Pair>, sources: set<Id>, s: Id)
    requires s !in sources
    ensures |OutOfAll(pairs, sources + {s})| == |OutOfAll(pairs, sources)| + |OutOf(pairs, s)|
  {
    assert OutOfAll(pairs, sources + {s}) == OutOfAll(pairs, sources) + OutOf(pairs, s);
    assert OutOfAll(pairs, sources) !! OutOf(pairs, s);
  }

  function MetricsOf(targets: map<Id, Edge>): map<Id, EdgeInfo> {
    map t | t in targets :: targets[t].metrics
  }

  /** A snapshot has the same edge between s and t as the graph, or none. */
  predicate CopiedAt(snap: Snapshot, edges: EdgeTable, s: Id, t: Id) {
    (Calls(snap, s, t) <==> HasEdge(edges, s, t)) &&
    (HasEdge(edges, s, t) && Calls(snap, s, t) ==> snap.edges[s][t] == edges[s][t].metrics)
  }

  class DAG {
    const maxNodes: int
    const maxEdgesPerNode: int
    const staleEdgeTimeout: int
    var nodes: map<Id, Node>
    var edges: EdgeTable
    /** The events each present edge has seen since its creation. */
    ghost var histories: Histories

    function NodeObjects(): set<Node>
      reads this`nodes
    {
      nodes.Values
    }

    /** The degree counters as they stand. */
    ghost function Counters(): map<Id, Degrees>
      reads this`nodes, NodeObjects()
    {
      map k | k in nodes :: Degrees(nodes[k].outDegree, nodes[k].inDegree)
    }

    ghost function State(): Contents
      reads this, NodeObjects()
    {
      Contents(nodes.Keys, maxNodes, edges, histories, Counters())
    }

    /** Nodes are filed under their own name, so no two names share an object. */
    ghost predicate NodesFiled()
      reads this`nodes
    {
      forall k :: k in nodes ==> nodes[k].id == k
    }

    ghost predicate Valid()
      reads this, NodeObjects()
    {
      NodesFiled() && Sound(State())
    }

    constructor (maxNodes: int, maxEdgesPerNode: int, staleEdgeTimeout: int)
      ensures Valid() && nodes == map[] && edges == map[] && histories == map[]
      ensures this.maxNodes == maxNodes && this.maxEdgesPerNode == maxEdgesPerNode
      ensures this.staleEdgeTimeout == staleEdgeTimeout
    {
      this.maxNodes, this.maxEdgesPerNode, this.staleEdgeTimeout := maxNodes, maxEdgesPerNode, staleEdgeTimeout;
      nodes, edges, histories := map[], map[], map[];
    }

    /** Finds or creates a node; refuses a new one at capacity. */
    method EnsureNode(id: Id, now: int)
      requires Valid()
      modifies this`nodes, NodeObjects()`lastSeen
      ensures Valid() && nodes.Keys == Admitted(maxNodes, old(nodes.Keys), id)
      ensures id in nodes <==> id in old(nodes) || |old(nodes)| < maxNodes
      ensures id in nodes ==>
        nodes[id].lastSeen == if id in old(nodes) && old(nodes[id].lastSeen) > now then old(nodes[id].lastSeen) else now
      ensures forall k :: k in old(nodes) ==> nodes[k] == old(nodes[k])
      ensures forall k :: k in old(nodes) && k != id ==> nodes[k].lastSeen == old(nodes[k].lastSeen)
      ensures fresh(NodeObjects() - old(NodeObjects()))
    {
      SizeOfKeys(nodes);
      if id in nodes {
        nodes[id].UpdateLastSeen(now);
        assert Counters() == old(Counters());
        return;
      }
      if |nodes| >= maxNodes {
        return;
      }
      AddNode(id, now);
    }

    method AddNode(id: Id, now: int)
      requires Valid() && id !in nodes && |nodes.Keys| < maxNodes
      modifies this`nodes
      ensures Valid() && nodes.Keys == old(nodes.Keys) + {id} && nodes[id].lastSeen == now
      ensures forall k :: k in old(nodes) ==> nodes[k] == old(nodes[k])
      ensures fresh(NodeObjects() - old(NodeObjects()))
    {
      SoundAddNode(State(), id);
      hide Sound, Flat, Pairs, NodesFiled, Counters;
      InsertNode(id, now);
    }

    method InsertNode(id: Id, now: int)
      requires NodesFiled() && id !in nodes
      modifies this`nodes
      ensures NodesFiled() && nodes.Keys == old(nodes.Keys) + {id} && nodes[id].lastSeen == now
      ensures forall k :: k in old(nodes) ==> nodes[k] == old(nodes[k])
      ensures Counters() == old(Counters())[id := Degrees(0, 0)]
      ensures fresh(NodeObjects() - old(NodeObjects()))
    {
      var node := new Node(id, now);
      nodes := nodes[id := node];
    }

    /** Adds one to the degrees at both ends of an edge, where they are nodes. */
    method CountUp(source: Id, target: Id)
      requires NodesFiled()
      modifies NodeObjects()`inDegree, NodeObjects()`outDegree
      ensures Counters() == Moved(old(Counters()), source, target, 1)
    {
      if source in nodes {
        nodes[source].outDegree := nodes[source].outDegree + 1;
      }
      if target in nodes {
        nodes[target].inDegree := nodes[target].inDegree + 1;
      }
    }

    /** Takes one from them, guarded against going negative. */
    method CountDown(source: Id, target: Id)
      requires NodesFiled()
      requires source in nodes ==> nodes[source].outDegree > 0
      requires target in nodes ==> nodes[target].inDegree > 0
      modifies NodeObjects()`inDegree, NodeObjects()`outDegree
      ensures Counters() == Moved(old(Counters()), source, target, -1)
    {
      if source in nodes && nodes[source].outDegree > 0 {
        nodes[source].outDegree := nodes[source].outDegree - 1;
      }
      if target in nodes && nodes[target].inDegree > 0 {
        nodes[target].inDegree := nodes[target].inDegree - 1;
      }
    }

    /** Creates an edge and counts it at both ends, as far as they are nodes. */
    method AddEdge(source: Id, target: Id, now: int)
      requires Valid() && !HasEdge(edges, source, target)
      requires |nodes.Keys| >= maxNodes || (source in nodes && target in nodes)
      modifies this`edges, this`histories, NodeObjects()`inDegree, NodeObjects()`outDegree
      ensures Valid() && edges == WithEdge(old(edges), source, target, NewEdge(now))
      ensures histories == old(histories)[(source, target) := [Created(now)]]
    {
      hide Exact, Tracked, RefusedForGood, Flat, Pairs;
      hide NodesFiled, Counters;
      NewEdgeTracked(now);
      SoundAddEdge(State(), source, target, NewEdge(now), [Created(now)]);
      CountUp(source, target);
      edges := WithEdge(edges, source, target, NewEdge(now));
      histories := histories[(source, target) := [Created(now)]];
      assert Counters() == Moved(old(Counters()), source, target, 1);
    }

    /** Deletes an edge and counts it down at both ends; the guards never block. */
    method RemoveEdge(source: Id, target: Id)
      requires Valid() && HasEdge(edges, source, target)
      modifies this`edges, this`histories, NodeObjects()`inDegree, NodeObjects()`outDegree
      ensures Valid() && edges == WithoutEdge(old(edges), source, target)
      ensures histories == old(histories) - {(source, target)}
    {
      hide Exact, Tracked, RefusedForGood, Flat, Pairs;
      hide NodesFiled, Moved;
      SoundRemoveEdge(State(), source, target);
      assert source in nodes ==> Counters()[source].outgoing == nodes[source].outDegree;
      assert target in nodes ==> Counters()[target].incoming == nodes[target].inDegree;
      CountDown(source, target);
      edges := WithoutEdge(edges, source, target);
      histories := histories - {(source, target)};
      assert Counters() == Moved(old(Counters()), source, target, -1);
    }

    /** Replaces an existing edge by what an event makes of it. */
    method UpdateEdge(source: Id, target: Id, e: Edge, ghost h: seq<EdgeEvent>)
      requires Valid() && HasEdge(edges, source, target) && TrackedAt(e, h)
      modifies this`edges, this`histories
      ensures Valid() && edges == WithEdge(old(edges), source, target, e)
      ensures histories == old(histories)[(source, target) := h]
    {
      hide Exact, Tracked, RefusedForGood, Flat, Pairs;
      SoundUpdateEdge(State(), source, target, e, h);
      edges := WithEdge(edges, source, target, e);
      histories := histories[(source, target) := h];
      assert Counters() == old(Counters());
    }

    /** Creates the target table of a source that has none. */
    method TouchSource(source: Id)
      requires Valid() && (source in nodes || |nodes.Keys| >= maxNodes)
      modifies this`edges
      ensures Valid() && source in edges && edges[source] == Targets(old(edges), source)
      ensures Flat(edges) == Flat(old(edges)) && Pairs(edges) == Pairs(old(edges))
    {
      if source !in edges {
        hide Exact, Tracked, RefusedForGood, Flat, Pairs;
        SoundTouch(State(), source);
        FlatEmptySource(edges, source);
        edges := edges[source := map[]];
      }
    }

    /** A CONNECT event: the nodes are created while there is room, the edge while
        its source has room; a connection on a known or new edge is counted. */
    method RecordConnect(source: Id, target: Id, now: int)
      requires Valid()
      modifies this, NodeObjects()
      ensures Valid()
      ensures nodes.Keys == Admitted(maxNodes, Admitted(maxNodes, old(nodes.Keys), source), target)
      ensures Flat(edges) == AfterConnect(Flat(old(edges)), maxEdgesPerNode, source, target, now)
      ensures HasEdge(edges, source, target) <==>
              HasEdge(old(edges), source, target) || |Targets(old(edges), source)| < maxEdgesPerNode
      ensures HasEdge(edges, source, target) ==>
        edges[source][target].activeConnections ==
        1 + if HasEdge(old(edges), source, target) then old(edges)[source][target].activeConnections else 0
      ensures histories ==
              AfterEvent(old(histories), (source, target), Connected(now), (source, target) in Pairs(edges))
    {
      hide Sound, Flat, Pairs, OutOf, Counters, NodesFiled, Admitted;
      EnsureBoth(source, target, now);
      TouchSource(source);
      TargetsAreOut(edges, source);
      FlatKeys(edges, source, target);
      FlatKeys(old(edges), source, target);
      ConnectEdge(source, target, now);
      FlatKeys(edges, source, target);
    }

    method EnsureBoth(source: Id, target: Id, now: int)
      requires Valid()
      modifies this`nodes, NodeObjects()`lastSeen
      ensures Valid() && nodes.Keys == Admitted(maxNodes, Admitted(maxNodes, old(nodes.Keys), source), target)
      ensures |nodes.Keys| >= maxNodes || (source in nodes && target in nodes)
      ensures fresh(NodeObjects() - old(NodeObjects()))
    {
      hide Sound, Counters, NodesFiled, Admitted;
      AdmittedBoth(maxNodes, nodes.Keys, source, target);
      EnsureNode(source, now);
      EnsureNode(target, now);
    }

    method ConnectEdge(source: Id, target: Id, now: int)
      requires Valid() && source in edges
      requires |nodes.Keys| >= maxNodes || (source in nodes && target in nodes)
      requires |edges[source]| == |OutOf(Pairs(edges), source)|
      modifies this`edges, this`histories, NodeObjects()`inDegree, NodeObjects()`outDegree
      ensures Valid()
      ensures Flat(edges) == AfterConnect(Flat(old(edges)), maxEdgesPerNode, source, target, now)
      ensures histories ==
              AfterEvent(old(histories), (source, target), Connected(now), (source, target) in Pairs(edges))
    {
      HistoriesKeyed();
      FlatKeys(edges, source, target);
      hide Sound, Flat, Pairs, OutOf, Counters, NodesFiled;
      if target in edges[source] {
        CountConnect(source, target, now);
      } else if |edges[source]| < maxEdgesPerNode {
        AddConnected(source, target, now);
      }
    }

    /** A first connection on a new edge. */
    method AddConnected(source: Id, target: Id, now: int)
      requires Valid() && !HasEdge(edges, source, target)
      requires |nodes.Keys| >= maxNodes || (source in nodes && target in nodes)
      modifies this`edges, this`histories, NodeObjects()`inDegree, NodeObjects()`outDegree
      ensures Valid() && (source, target) in Pairs(edges)
      ensures Flat(edges) == Flat(old(edges))[(source, target) := NewEdge(now).Connect(now)]
      ensures histories == old(histories)[(source, target) := [Created(now)] + [Connected(now)]]
    {
      hide Sound, Flat, Pairs, Counters, NodesFiled;
      FlatWithEdge(edges, source, target, NewEdge(now));
      AddEdge(source, target, now);
      CountConnect(source, target, now);
    }

    lemma HistoriesKeyed()
      requires Valid()
      ensures histories.Keys == Pairs(edges)
    {
      assert Flat(edges).Keys == Pairs(edges);
    }

    method CountConnect(source: Id, target: Id, now: int)
      requires Valid() && HasEdge(edges, source, target)
      modifies this`edges, this`histories
      ensures Valid() && HasEdge(edges, source, target)
      ensures Flat(edges) == Flat(old(edges))[(source, target) := old(edges)[source][target].Connect(now)]
      ensures (source, target) in old(histories) && (source, target) in Pairs(edges)
      ensures histories == old(histories)[(source, target) := old(histories)[(source, target)] + [Connected(now)]]
    {
      var e := edges[source][target];
      TrackedEdge(source, target);
      TrackedAfter(e, histories[(source, target)], 0, 0, 0, 0, now);
      FlatWithEdge(edges, source, target, e.Connect(now));
      UpdateEdge(source, target, e.Connect(now), histories[(source, target)] + [Connected(now)]);
    }

    lemma TrackedEdge(s: Id, t: Id)
      requires Valid() && HasEdge(edges, s, t)
      ensures (s, t) in histories && TrackedAt(edges[s][t], histories[(s, t)])
    {
      assert TrackedAt(Flat(edges)[(s, t)], histories[(s, t)]);
    }

    /** A CLOSE event: counted on a known edge, ignored otherwise. */
    method RecordClose(source: Id, target: Id, bytesSent: int, bytesRecv: int, durationNs: int, now: int)
      requires Valid()
      modifies this`edges, this`histories
      ensures Valid()
      ensures Flat(edges) == if HasEdge(old(edges), source, target)
        then Flat(old(edges))[(source, target) :=
               old(edges)[source][target].Close(bytesSent, bytesRecv, durationNs, now)]
        else Flat(old(edges))
      ensures HasEdge(old(edges), source, target) ==> HasEdge(edges, source, target)
      ensures HasEdge(old(edges), source, target) ==>
        var e, was := edges[source][target], old(edges)[source][target];
        && e.activeConnections ==
           (if was.activeConnections > 0 then was.activeConnections - 1 else was.activeConnections)
        && e.totalBytesSent == was.totalBytesSent + bytesSent && e.totalBytesRecv == was.totalBytesRecv + bytesRecv
        && e.totalDurationNs == was.totalDurationNs + durationNs && e.connectionCount == was.connectionCount + 1
      ensures histories == AfterEvent(old(histories), (source, target),
                                      Closed(now, bytesSent, bytesRecv, durationNs),
                                      HasEdge(old(edges), source, target))
    {
      if source in edges && target in edges[source] {
        var e := edges[source][target];
        TrackedEdge(source, target);
        TrackedAfter(e, histories[(source, target)], bytesSent, bytesRecv, durationNs, 0, now);
        FlatWithEdge(edges, source, target, e.Close(bytesSent, bytesRecv, durationNs, now));
        UpdateEdge(source, target, e.Close(bytesSent, bytesRecv, durationNs, now),
                   histories[(source, target)] + [Closed(now, bytesSent, bytesRecv, durationNs)]);
      }
    }

    /** A RETRANSMIT event, likewise. */
    method RecordRetransmit(source: Id, target: Id, count: int, now: int)
      requires Valid()
      modifies this`edges, this`histories
      ensures Valid()
      ensures Flat(edges) == if HasEdge(old(edges), source, target)
        then Flat(old(edges))[(source, target) := old(edges)[source][target].Retransmit(count, now)]
        else Flat(old(edges))
      ensures HasEdge(old(edges), source, target) ==> HasEdge(edges, source, target)
      ensures HasEdge(old(edges), source, target) ==>
        edges[source][target].totalRetransmits == old(edges)[source][target].totalRetransmits + count
      ensures histories ==
              AfterEvent(old(histories), (source, target), Retransmitted(now, count),
                         HasEdge(old(edges), source, target))
    {
      if source in edges && target in edges[source] {
        var e := edges[source][target];
        TrackedEdge(source, target);
        TrackedAfter(e, histories[(source, target)], 0, 0, 0, count, now);
        FlatWithEdge(edges, source, target, e.Retransmit(count, now));
        UpdateEdge(source, target, e.Retransmit(count, now),
                   histories[(source, target)] + [Retransmitted(now, count)]);
      }
    }

    /** Writes computed metrics into an existing edge. */
    method UpdateEdgeMetrics(source: Id, target: Id, m: EdgeInfo)
      requires Valid()
      modifies this`edges, this`histories
      ensures Valid() && histories == old(histories)
      ensures Flat(edges) == if HasEdge(old(edges), source, target)
        then Flat(old(edges))[(source, target) := old(edges)[source][target].(metrics := m)] else Flat(old(edges))
    {
      if source in edges && target in edges[source] {
        var e := edges[source][target].(metrics := m);
        TrackedEdge(source, target);
        FlatWithEdge(edges, source, target, e);
        UpdateEdge(source, target, e, histories[(source, target)]);
      }
    }

    // -------------------------------------------------------------------
    // Pruning
    // -------------------------------------------------------------------

    /** Removes the stale edges of one source, and its table if that is empty. */
    method PruneSource(source: Id, now: int) returns (prunedCount: nat)
      requires Valid() && source in edges
      modifies this`edges, this`histories, NodeObjects()`inDegree, NodeObjects()`outDegree
      ensures Valid()
      ensures Flat(edges) == Flat(old(edges)) - StaleFrom(Flat(old(edges)), now, staleEdgeTimeout, {source})
      ensures histories == old(histories) - StaleFrom(Flat(old(edges)), now, staleEdgeTimeout, {source})
      ensures prunedCount == |StaleFrom(Flat(old(edges)), now, staleEdgeTimeout, {source})|
      ensures edges - {source} == old(edges) - {source}
      ensures source in edges ==> edges[source] != map[]
    {
      hide Sound, Flat, Pairs, Counters, NodesFiled, SourceProgress, StaleFrom, WithoutEdge;
      ghost var was, wasHistories := edges, histories;
      var rest := edges[source].Keys;
      prunedCount := 0;
      SourceStart(was, wasHistories, source, now, staleEdgeTimeout);
      while rest != {}
        invariant Valid()
        invariant SourceProgress(was, wasHistories, edges, histories, source, now, staleEdgeTimeout, rest, prunedCount)
        decreases rest
      {
        var target :| target in rest;
        SourceStep(was, wasHistories, edges, histories, source, now, staleEdgeTimeout, rest, prunedCount, target);
        if Stale(edges[source][target], now, staleEdgeTimeout) {
          RemoveEdge(source, target);
          prunedCount := prunedCount + 1;
        }
        rest := rest - {target};
      }
      SourceEnd(was, wasHistories, edges, histories, source, now, staleEdgeTimeout, prunedCount);
      DropIfEmpty(source);
    }

    method DropIfEmpty(source: Id)
      requires Valid() && source in edges
      modifies this`edges
      ensures Valid() && edges - {source} == old(edges) - {source} && Flat(edges) == Flat(old(edges))
      ensures source in edges ==> edges[source] != map[]
    {
      if |edges[source]| == 0 {
        hide Sound, Flat, Pairs, NodesFiled, Counters;
        SoundDropEmpty(State(), source);
        FlatDropEmpty(edges, source);
        edges := edges - {source};
      }
    }

    /** Exactly the stale edges go, each is counted once, and no source keeps an
        empty table; nodes stay, their degrees exact. */
    method PruneStaleEdges(now: int) returns (prunedCount: nat)
      requires Valid()
      modifies this`edges, this`histories, NodeObjects()`inDegree, NodeObjects()`outDegree
      ensures Valid()
      ensures Flat(edges) == Flat(old(edges)) - StaleIn(Flat(old(edges)), now, staleEdgeTimeout)
      ensures histories == old(histories) - StaleIn(Flat(old(edges)), now, staleEdgeTimeout)
      ensures prunedCount == |StaleIn(Flat(old(edges)), now, staleEdgeTimeout)|
      ensures forall p :: p in Flat(edges) <==>
              p in Flat(old(edges)) && now - Flat(old(edges))[p].lastSeen <= staleEdgeTimeout
      ensures prunedCount == |Flat(old(edges)).Keys| - |Flat(edges).Keys|
      ensures NoneEmpty(edges, edges.Keys)
      ensures forall id :: id in nodes ==>
        (nodes[id].outDegree == nodes[id].inDegree == 0 <==>
         !HasFreshEdge(Flat(old(edges)), id, now, staleEdgeTimeout))
    {
      hide Sound, Flat, Pairs, Counters, NodesFiled, PruneProgress, StaleFrom, StaleIn, NoneEmpty;
      ghost var was, wasHistories := edges, histories;
      var rest := edges.Keys;
      prunedCount := 0;
      PruneStart(was, wasHistories, now, staleEdgeTimeout);
      while rest != {}
        invariant Valid()
        invariant PruneProgress(was, wasHistories, edges, histories, now, staleEdgeTimeout, rest, prunedCount)
        decreases rest
      {
        var source :| source in rest;
        ghost var edges0, histories0, count0 := edges, histories, prunedCount;
        PruneReady(was, wasHistories, edges, histories, now, staleEdgeTimeout, rest, prunedCount, source);
        var pruned := PruneSource(source, now);
        prunedCount := prunedCount + pruned;
        PruneStep(was, wasHistories, edges0, histories0, edges, histories, now, staleEdgeTimeout, rest, count0, source);
        rest := rest - {source};
      }
      PruneEnd(was, wasHistories, edges, histories, now, staleEdgeTimeout, prunedCount);
      FreshKept(Flat(was), now, staleEdgeTimeout);
      forall id | id in nodes
        ensures nodes[id].outDegree == nodes[id].inDegree == 0 <==>
                !HasFreshEdge(Flat(was), id, now, staleEdgeTimeout)
      {
        OrphanedNode(Flat(was), id, now);
      }
    }

    lemma OrphanedNode(flat: map<Pair, Edge>, id: Id, now: int)
      requires Valid() && id in nodes && Flat(edges) == flat - StaleIn(flat, now, staleEdgeTimeout)
      ensures nodes[id].outDegree == nodes[id].inDegree == 0 <==> !HasFreshEdge(flat, id, now, staleEdgeTimeout)
    {
      assert Flat(edges).Keys == Pairs(edges);
      hide Valid, Flat, Pairs, OutOf, Into, StaleIn, HasFreshEdge;
      DegreesExact(id);
      OrphanedIff(flat, id, now, staleEdgeTimeout);
    }

    // -------------------------------------------------------------------
    // Reading
    // -------------------------------------------------------------------

    method EdgeCount() returns (count: nat)
      ensures count == |Pairs(edges)|
    {
      count := 0;
      var rest := edges.Keys;
      ghost var done: set<Id> := {};
      while rest != {}
        invariant rest + done == edges.Keys && rest !! done
        invariant count == |OutOfAll(Pairs(edges), done)|
        decreases rest
      {
        var source :| source in rest;
        TargetsAreOut(edges, source);
        OutOfOneMore(Pairs(edges), done, source);
        count := count + |edges[source]|;
        rest := rest - {source};
        done := done + {source};
      }
      assert OutOfAll(Pairs(edges), done) == Pairs(edges);
    }

    /** What a snapshot keeps of the nodes. */
    ghost function NodeInfos(): map<Id, NodeInfo>
      reads this`nodes, NodeObjects()
    {
      map id | id in nodes :: NodeInfo(nodes[id].inDegree, nodes[id].outDegree, nodes[id].cpuLimitMillis)
    }

    method CopyNodes() returns (copy: map<Id, NodeInfo>)
      ensures copy == NodeInfos()
    {
      copy := map[];
      var rest := nodes.Keys;
      while rest != {}
        invariant rest <= nodes.Keys && copy.Keys == nodes.Keys - rest
        invariant forall id :: id in copy ==>
          copy[id] == NodeInfo(nodes[id].inDegree, nodes[id].outDegree, nodes[id].cpuLimitMillis)
        decreases rest
      {
        var id :| id in rest;
        copy := copy[id := NodeInfo(nodes[id].inDegree, nodes[id].outDegree, nodes[id].cpuLimitMillis)];
        rest := rest - {id};
      }
    }

    method CopyTargets(source: Id) returns (copy: map<Id, EdgeInfo>)
      requires source in edges
      ensures copy == MetricsOf(edges[source])
    {
      copy := map[];
      var rest := edges[source].Keys;
      while rest != {}
        invariant rest <= edges[source].Keys && copy.Keys == edges[source].Keys - rest
        invariant forall t :: t in copy ==> copy[t] == edges[source][t].metrics
        decreases rest
      {
        var target :| target in rest;
        copy := copy[target := edges[source][target].metrics];
        rest := rest - {target};
      }
    }

    method CopyEdges() returns (edgeCopies: map<Id, map<Id, EdgeInfo>>)
      ensures edgeCopies.Keys == edges.Keys
      ensures forall s :: s in edges ==> edgeCopies[s] == MetricsOf(edges[s])
    {
      edgeCopies := map[];
      var rest := edges.Keys;
      while rest != {}
        invariant rest <= edges.Keys && edgeCopies.Keys == edges.Keys - rest
        invariant forall s :: s in edgeCopies ==> edgeCopies[s] == MetricsOf(edges[s])
        decreases rest
      {
        var source :| source in rest;
        var targetMap := CopyTargets(source);
        edgeCopies := edgeCopies[source := targetMap];
        rest := rest - {source};
      }
    }

    /** What the simulator is given: every node with its true in-degree, exactly
        the current edges, and, below capacity, every caller among the nodes. */
    method TakeSnapshot() returns (snap: Snapshot)
      requires Valid()
      ensures snap.nodes.Keys == nodes.Keys
      ensures forall id :: id in nodes ==> snap.nodes[id].inDegree == |Into(Pairs(edges), id)|
      ensures forall id :: id in nodes ==> snap.nodes[id].outDegree == |OutOf(Pairs(edges), id)|
      ensures forall id :: id in nodes ==> snap.nodes[id].cpuLimitMillis == nodes[id].cpuLimitMillis
      ensures forall s, t :: CopiedAt(snap, edges, s, t)
      ensures InDegreesCounted(snap)
      ensures |nodes| < maxNodes ==> SourcesListed(snap)
    {
      var nodeCopies := CopyNodes();
      var edgeCopies := CopyEdges();
      snap := Snapshot(nodeCopies, edgeCopies);
      SnapshotFits(snap);
    }

    /** In every reachable graph the counters of a node are its true degrees. */
    lemma DegreesExact(id: Id)
      requires Valid() && id in nodes
      ensures nodes[id].outDegree == |OutOf(Pairs(edges), id)| == |Targets(edges, id)|
      ensures nodes[id].inDegree == |Into(Pairs(edges), id)| == |Sources(edges, id)|
    {
      assert ExactAt(Counters()[id], Pairs(edges), id);
      TargetsAreOut(edges, id);
      SourcesAreInto(edges, id);
    }

    /** An edge end that is no node was refused by a graph that is still full, so
        no call can create it later. */
    lemma RefusedStaysRefused(s: Id, t: Id)
      requires Valid() && HasEdge(edges, s, t) && (s !in nodes || t !in nodes)
      ensures |nodes.Keys| >= maxNodes
      ensures forall id :: Admitted(maxNodes, nodes.Keys, id) == nodes.Keys
    {
      FlatKeys(edges, s, t);
    }

    lemma SnapshotNodes(snap: Snapshot)
      requires Valid()
      requires snap.nodes == NodeInfos()
      ensures forall id :: id in nodes ==> snap.nodes[id].inDegree == |Into(Pairs(edges), id)|
      ensures forall id :: id in nodes ==> snap.nodes[id].outDegree == |OutOf(Pairs(edges), id)|
      ensures InDegreesCounted(snap)
    {
      hide Valid, Into, OutOf, Pairs;
      forall id | id in nodes
        ensures snap.nodes[id].inDegree == |Into(Pairs(edges), id)|
        ensures snap.nodes[id].outDegree == |OutOf(Pairs(edges), id)|
      {
        DegreesExact(id);
      }
    }

    lemma SnapshotFits(snap: Snapshot)
      requires Valid()
      requires snap.nodes == NodeInfos()
      requires snap.edges.Keys == edges.Keys && forall s :: s in edges ==> snap.edges[s] == MetricsOf(edges[s])
      ensures forall id :: id in nodes ==> snap.nodes[id].inDegree == |Into(Pairs(edges), id)|
      ensures forall id :: id in nodes ==> snap.nodes[id].outDegree == |OutOf(Pairs(edges), id)|
      ensures forall s, t :: CopiedAt(snap, edges, s, t)
      ensures InDegreesCounted(snap)
      ensures |nodes| < maxNodes ==> SourcesListed(snap)
    {
      hide NodesFiled, Counters, Exact, Into, OutOf, Tracked;
      SnapshotNodes(snap);
      SizeOfKeys(nodes);
    }

    /** In every reachable graph the active count of an edge is a reflected walk
        over its history. */
    lemma ActiveConnectionsBounds(s: Id, t: Id)
      requires Valid() && HasEdge(edges, s, t)
      ensures 0 <= edges[s][t].activeConnections <= edges[s][t].totalConnections
      ensures (s, t) in histories && IsMaxSuffix(histories[(s, t)], edges[s][t].activeConnections)
    {
      TrackedEdge(s, t);
      WalkNonNegative(histories[(s, t)]);
      WalkIsMaxSuffix(histories[(s, t)]);
    }

    /** Nothing an edge has seen is lost or counted twice, and it was last seen at
        its latest event. */
    lemma TotalsExact(s: Id, t: Id)
      requires Valid() && HasEdge(edges, s, t)
      ensures (s, t) in histories &&
        var e, h := edges[s][t], histories[(s, t)];
        && e.totalRetransmits == Total(h, RetransmitsIn)
        && e.totalBytesSent == Total(h, BytesSentIn) && e.totalBytesRecv == Total(h, BytesRecvIn)
        && e.totalDurationNs == Total(h, DurationIn)
        && e.connectionCount == |set i | 0 <= i < |h| && h[i].Closed?|
        && e.totalConnections == |set i | 0 <= i < |h| && h[i].Connected?|
        && (exists i :: 0 <= i < |h| && h[i].at == e.lastSeen)
        && (forall i :: 0 <= i < |h| ==> h[i].at <= e.lastSeen)
    {
      TrackedEdge(s, t);
      ClosesCounted(histories[(s, t)]);
      ConnectsCounted(histories[(s, t)]);
    }
  }
}
