/** pkg/graph/snapshot.go: the immutable copy of the graph that the simulator
    reads, reduced to the fields it uses. */
module Snapshots {
  import opened Common

  datatype NodeInfo = NodeInfo(inDegree: int, outDegree: int, cpuLimitMillis: int)

  datatype EdgeInfo = EdgeInfo(latencyP99: real, requestRate: real, errorRate: real)

  /** Edges go from caller to callee: edges[source][target]. */
  datatype Snapshot = Snapshot(nodes: map<Id, NodeInfo>, edges: map<Id, map<Id, EdgeInfo>>)

  predicate Calls(snap: Snapshot, source: Id, target: Id) {
    source in snap.edges && target in snap.edges[source]
  }
}
