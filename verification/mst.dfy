/**
 * Minimum spanning tree edges as the loss kernel reads them: a flat list of
 * `(u, v, distance)` triples, one per edge.
 */
module Mst {

  datatype Edge = Edge(u: nat, v: nat, distance: real)

  /** Both endpoints of every edge name one of the `numNodes` nodes. */
  predicate EndpointsBelow(edges: seq<Edge>, numNodes: nat) {
    forall i | 0 <= i < |edges| :: edges[i].u < numNodes && edges[i].v < numNodes
  }

  /** Edges are listed by ascending distance. */
  predicate SortedByDistance(edges: seq<Edge>) {
    forall i, j | 0 <= i <= j < |edges| :: edges[i].distance <= edges[j].distance
  }

  function Distances(edges: seq<Edge>): (d: seq<real>)
    ensures |d| == |edges|
    ensures forall i | 0 <= i < |edges| :: d[i] == edges[i].distance
  {
    seq(|edges|, i requires 0 <= i < |edges| => edges[i].distance)
  }
}
