/**
 * Pruning a minimum spanning tree of nodes down to a spanning tree of
 * components: every node carries a label naming its component, and an edge
 * is kept only when it joins two components that the edges kept so far have
 * not joined yet.
 */
module PruneMst {
  import opened Results
  import opened DisjointSets
  import opened Mst

  datatype PruneError =
    | UnknownLabel(edge: nat)   // an endpoint of edge `edge` has a label that names no component
    | NotSpanning(kept: nat)    // the kept edges, `kept` of them, do not form a tree over the components

  /** The components' labels, each mapped to its index; a label listed twice maps to its last index. */
  function ComponentIndices(components: seq<int>): (m: map<int, nat>)
    ensures m.Keys == set i | 0 <= i < |components| :: components[i]
    ensures forall c | c in m :: m[c] < |components| && components[m[c]] == c
    ensures forall c | c in m :: forall k | m[c] < k < |components| :: components[k] != c
  {
    if |components| == 0 then map[]
    else
      var last := |components| - 1;
      var m := ComponentIndices(components[..last]);
      assert forall i | 0 <= i < last :: components[..last][i] == components[i];
      m[components[last] := last]
  }

  /** Both endpoints of `e` have a label that names a component. */
  predicate Known(indices: map<int, nat>, labels: seq<int>, e: Edge)
    requires e.u < |labels| && e.v < |labels|
  {
    labels[e.u] in indices && labels[e.v] in indices
  }

  /** The components of both endpoints of `e` are known and in one set of `sets`. */
  predicate Joined(sets: Forest, indices: map<int, nat>, labels: seq<int>, e: Edge)
    requires e.u < |labels| && e.v < |labels|
  {
    && Known(indices, labels, e)
    && indices[labels[e.u]] < Size(sets) && indices[labels[e.v]] < Size(sets)
    && Same(sets, indices[labels[e.u]], indices[labels[e.v]])
  }

  /** Linking two sets keeps joined every edge before edge `n - 1` that was, and joins edge `n - 1`, whose endpoints' components are in those two sets. */
  lemma LinkKeepsJoined(sets: Forest, indices: map<int, nat>, labels: seq<int>, edges: seq<Edge>, n: nat, componentU: nat, componentV: nat)
    requires Valid(sets) && componentU < Size(sets) && componentV < Size(sets)
    requires Find(sets, componentU) != Find(sets, componentV)
    requires EndpointsBelow(edges, |labels|) && 0 < n <= |edges|
    requires forall c | c in indices :: indices[c] < Size(sets)
    requires forall k | 0 <= k < n - 1 :: Joined(sets, indices, labels, edges[k])
    requires Known(indices, labels, edges[n - 1])
    requires indices[labels[edges[n - 1].u]] == componentU && indices[labels[edges[n - 1].v]] == componentV
    ensures forall k | 0 <= k < n ::
              Joined(Link(sets, Find(sets, componentU), Find(sets, componentV)).0, indices, labels, edges[k])
  {
    var a, b := Find(sets, componentU), Find(sets, componentV);
    forall k | 0 <= k < n
      ensures Joined(Link(sets, a, b).0, indices, labels, edges[k])
    {
      if k < n - 1 {
        assert Joined(sets, indices, labels, edges[k]);
      }
      LinkJoins(sets, a, b, indices[labels[edges[k].u]], indices[labels[edges[k].v]]);
    }
  }

  /** `a` is `b` with some elements left out, the rest in their order. */
  predicate Subsequence<T(==)>(a: seq<T>, b: seq<T>)
    decreases |b|
  {
    if |a| == 0 then true
    else if |b| == 0 then false
    else (a[|a| - 1] == b[|b| - 1] && Subsequence(a[..|a| - 1], b[..|b| - 1])) || Subsequence(a, b[..|b| - 1])
  }

  /** A subsequence stays one when the sequence grows by an element, whether or not the subsequence takes it. */
  lemma SubsequenceGrow<T>(a: seq<T>, b: seq<T>, x: T)
    requires Subsequence(a, b)
    ensures Subsequence(a, b + [x]) && Subsequence(a + [x], b + [x])
  {
    assert (b + [x])[..|b|] == b;
    assert (a + [x])[..|a|] == a;
  }

  /** A prefix stays one when the sequence grows by an element. */
  lemma PrefixGrow<T>(a: seq<T>, b: seq<T>, x: T)
    requires a <= b
    ensures a <= b + [x]
  {
    assert (b + [x])[..|a|] == b[..|a|];
  }

  /** Leading a sequence that leads another is leading that other. */
  lemma PrefixTrans<T>(a: seq<T>, b: seq<T>, c: seq<T>)
    requires a <= b && b <= c
    ensures a <= c
  {
    assert c[..|a|] == b[..|a|];
  }

  /** The component sets after a prefix of edges, and the edges kept so far. */
  datatype Pruned = Pruned(sets: Forest, kept: seq<Edge>)

  /**
   * Visits edge `n - 1`, whose endpoint labels name components, after the
   * walk over the edges before it: the edge is dropped when its components
   * are already in one set, and otherwise kept, linking the two sets.
   */
  function Visit(indices: map<int, nat>, numComponents: nat, labels: seq<int>, edges: seq<Edge>, n: nat, prev: Pruned): (r: Pruned)
    requires EndpointsBelow(edges, |labels|) && 0 < n <= |edges|
    requires forall c | c in indices :: indices[c] < numComponents
    requires Known(indices, labels, edges[n - 1])
    requires Valid(prev.sets) && Size(prev.sets) == numComponents
    requires |Roots(prev.sets)| + |prev.kept| == numComponents
    requires forall k | 0 <= k < n - 1 :: Joined(prev.sets, indices, labels, edges[k])
    ensures Valid(r.sets) && Size(r.sets) == numComponents
    ensures |Roots(r.sets)| + |r.kept| == numComponents
    ensures forall k | 0 <= k < n :: Joined(r.sets, indices, labels, edges[k])
    ensures Joined(prev.sets, indices, labels, edges[n - 1]) ==> r == prev
    ensures !Joined(prev.sets, indices, labels, edges[n - 1]) ==>
              r.kept == prev.kept + [edges[n - 1]] && |Roots(r.sets)| + 1 == |Roots(prev.sets)|
  {
    var e := edges[n - 1];
    var labelU, labelV := labels[e.u], labels[e.v];
    assert labelU in indices && labelV in indices;
    var componentU, componentV := indices[labelU], indices[labelV];
    var clusterU := Find(prev.sets, componentU);
    var clusterV := Find(prev.sets, componentV);
    if clusterU == clusterV then
      prev
    else
      var (sets', _) := Link(prev.sets, clusterU, clusterV);
      LinkKeepsJoined(prev.sets, indices, labels, edges, n, componentU, componentV);
      Pruned(sets', prev.kept + [e])
  }

  /**
   * What the walk over the first `n` edges promises: it fails exactly when
   * an endpoint label names no component, at the first such edge; after
   * success the sets are a valid forest over the components, each kept
   * edge has taken one set away, and every edge walked has its components
   * in one set.
   */
  ghost predicate Walks(indices: map<int, nat>, numComponents: nat, labels: seq<int>, edges: seq<Edge>, n: nat, r: Result<Pruned, PruneError>)
    requires EndpointsBelow(edges, |labels|) && n <= |edges|
  {
    && (r.Failure? <==> exists k | 0 <= k < n :: !Known(indices, labels, edges[k]))
    && (r.Failure? ==>
          && r.error.UnknownLabel? && r.error.edge < n
          && !Known(indices, labels, edges[r.error.edge])
          && forall k | 0 <= k < r.error.edge :: Known(indices, labels, edges[k]))
    && (r.Success? ==>
          && Valid(r.value.sets) && Size(r.value.sets) == numComponents
          && |Roots(r.value.sets)| + |r.value.kept| == numComponents
          && forall k | 0 <= k < n :: Joined(r.value.sets, indices, labels, edges[k]))
  }

  /**
   * Walks the first `n` edges in order over disjoint sets of component
   * indices: an edge whose components are already in one set is dropped,
   * any other is kept and links the two sets. An endpoint label that names
   * no component stops the walk at that edge.
   */
  function PruneFrom(indices: map<int, nat>, numComponents: nat, labels: seq<int>, edges: seq<Edge>, n: nat): (r: Result<Pruned, PruneError>)
    requires EndpointsBelow(edges, |labels|) && n <= |edges|
    requires forall c | c in indices :: indices[c] < numComponents
    ensures Walks(indices, numComponents, labels, edges, n, r)
    decreases n, 1
  {
    PruneCases(indices, numComponents, labels, edges, n)
  }

  /** No edges leave every component on its own; otherwise edge `n - 1` is visited after the ones before it. */
  function PruneCases(indices: map<int, nat>, numComponents: nat, labels: seq<int>, edges: seq<Edge>, n: nat): (r: Result<Pruned, PruneError>)
    requires EndpointsBelow(edges, |labels|) && n <= |edges|
    requires forall c | c in indices :: indices[c] < numComponents
    ensures Walks(indices, numComponents, labels, edges, n, r)
    decreases n, 0
  {
    if n == 0 then
      Success(Pruned(MakeSets(numComponents), []))
    else
      var prev := PruneFrom(indices, numComponents, labels, edges, n - 1);
      if prev.Failure? then
        Failure(prev.error)
      else if !Known(indices, labels, edges[n - 1]) then
        Failure(UnknownLabel(n - 1))
      else
        Success(Visit(indices, numComponents, labels, edges, n, prev.value))
  }

  /** In a forest with a single set, every two elements are in it together. */
  lemma OneRootJoinsAll(f: Forest, x: nat, y: nat)
    requires Valid(f) && |Roots(f)| == 1 && x < Size(f) && y < Size(f)
    ensures Same(f, x, y)
  {
    var r :| r in Roots(f);
    var others := Roots(f) - {r};
    assert |others| == 0;
    assert others == {};
    assert Find(f, x) !in others && Find(f, y) !in others;
  }

  /**
   * The walk reaches edge `k` and goes past it: it drops the edge when its
   * components are already in one set, and otherwise appends it to the kept
   * edges.
   */
  predicate VisitsEdge(indices: map<int, nat>, numComponents: nat, labels: seq<int>, edges: seq<Edge>, k: nat)
    requires EndpointsBelow(edges, |labels|) && k < |edges|
    requires forall c | c in indices :: indices[c] < numComponents
  {
    var before := PruneFrom(indices, numComponents, labels, edges, k);
    var after := PruneFrom(indices, numComponents, labels, edges, k + 1);
    && before.Success? && after.Success?
    && (Joined(before.value.sets, indices, labels, edges[k]) ==> after.value == before.value)
    && (!Joined(before.value.sets, indices, labels, edges[k]) ==> after.value.kept == before.value.kept + [edges[k]])
  }

  /** The walks over the first `k` and the first `n` edges succeed, and the edges kept by the first lead those kept by the second. */
  predicate KeptPrefix(indices: map<int, nat>, numComponents: nat, labels: seq<int>, edges: seq<Edge>, k: nat, n: nat)
    requires EndpointsBelow(edges, |labels|) && k <= n <= |edges|
    requires forall c | c in indices :: indices[c] < numComponents
  {
    var first := PruneFrom(indices, numComponents, labels, edges, k);
    var last := PruneFrom(indices, numComponents, labels, edges, n);
    first.Success? && last.Success? && first.value.kept <= last.value.kept
  }

  /** A walk over `k + 1` edges that succeeds visits edge `k`. */
  lemma PruneStep(indices: map<int, nat>, numComponents: nat, labels: seq<int>, edges: seq<Edge>, k: nat)
    requires EndpointsBelow(edges, |labels|) && k < |edges|
    requires forall c | c in indices :: indices[c] < numComponents
    requires PruneFrom(indices, numComponents, labels, edges, k + 1).Success?
    ensures VisitsEdge(indices, numComponents, labels, edges, k)
    ensures KeptPrefix(indices, numComponents, labels, edges, k, k + 1)
  {
    var before := PruneFrom(indices, numComponents, labels, edges, k).value;
    assert PruneFrom(indices, numComponents, labels, edges, k + 1) == PruneCases(indices, numComponents, labels, edges, k + 1);
    assert PruneFrom(indices, numComponents, labels, edges, k + 1).value
        == Visit(indices, numComponents, labels, edges, k + 1, before);
    assert before.kept <= before.kept + [edges[k]];
  }

  /** What a successful walk over `n` edges has kept by edge `k` leads what it keeps in the end. */
  lemma {:induction false} PrunePrefix(indices: map<int, nat>, numComponents: nat, labels: seq<int>, edges: seq<Edge>, n: nat, k: nat)
    requires EndpointsBelow(edges, |labels|) && k <= n <= |edges|
    requires forall c | c in indices :: indices[c] < numComponents
    requires PruneFrom(indices, numComponents, labels, edges, n).Success?
    ensures KeptPrefix(indices, numComponents, labels, edges, k, n)
    decreases n
  {
    if k < n {
      PruneStep(indices, numComponents, labels, edges, n - 1);
      PrunePrefix(indices, numComponents, labels, edges, n - 1, k);
      PrefixTrans(PruneFrom(indices, numComponents, labels, edges, k).value.kept,
                  PruneFrom(indices, numComponents, labels, edges, n - 1).value.kept,
                  PruneFrom(indices, numComponents, labels, edges, n).value.kept);
    }
  }

  /** The edges a successful walk keeps are among those it walked, in their order. */
  lemma {:induction false} PruneKeepsOrder(indices: map<int, nat>, numComponents: nat, labels: seq<int>, edges: seq<Edge>, n: nat)
    requires EndpointsBelow(edges, |labels|) && n <= |edges|
    requires forall c | c in indices :: indices[c] < numComponents
    requires PruneFrom(indices, numComponents, labels, edges, n).Success?
    ensures Subsequence(PruneFrom(indices, numComponents, labels, edges, n).value.kept, edges[..n])
  {
    if n > 0 {
      PruneStep(indices, numComponents, labels, edges, n - 1);
      PruneKeepsOrder(indices, numComponents, labels, edges, n - 1);
      assert edges[..n] == edges[..n - 1] + [edges[n - 1]];
      SubsequenceGrow(PruneFrom(indices, numComponents, labels, edges, n - 1).value.kept, edges[..n - 1], edges[n - 1]);
    }
  }

  /**
   * A walk over `n` edges that succeeds visits each of them, and what it
   * has kept after each stays the head of what it keeps in the end.
   */
  lemma PruneVisitsAll(indices: map<int, nat>, numComponents: nat, labels: seq<int>, edges: seq<Edge>, n: nat)
    requires EndpointsBelow(edges, |labels|) && n <= |edges|
    requires forall c | c in indices :: indices[c] < numComponents
    requires PruneFrom(indices, numComponents, labels, edges, n).Success?
    ensures forall k | 0 <= k < n ::
              VisitsEdge(indices, numComponents, labels, edges, k) && KeptPrefix(indices, numComponents, labels, edges, k + 1, n)
  {
    forall k | 0 <= k < n
      ensures VisitsEdge(indices, numComponents, labels, edges, k) && KeptPrefix(indices, numComponents, labels, edges, k + 1, n)
    {
      PrunePrefix(indices, numComponents, labels, edges, n, k + 1);
      PruneStep(indices, numComponents, labels, edges, k);
    }
  }

  /**
   * The pruned tree: the kept edges in their order. It fails where a label
   * names no component, and when the kept edges are not exactly one fewer
   * than the components.
   */
  function PruneMst(components: seq<int>, labels: seq<int>, edges: seq<Edge>): (r: Result<seq<Edge>, PruneError>)
    requires EndpointsBelow(edges, |labels|)
    ensures r.Failure? && r.error.UnknownLabel? <==> exists k | 0 <= k < |edges| :: !Known(ComponentIndices(components), labels, edges[k])
    ensures r.Success? ==> Subsequence(r.value, edges) && |r.value| + 1 == |components|
    ensures var pruned := PruneFrom(ComponentIndices(components), |components|, labels, edges, |edges|);
            && (r.Success? <==> pruned.Success? && |pruned.value.kept| + 1 == |components|)
            && (r.Success? ==> r.value == pruned.value.kept)
            && (r.Failure? && r.error.NotSpanning? <==> pruned.Success? && |pruned.value.kept| + 1 != |components|)
    ensures r.Success? ==> forall k | 0 <= k < |edges| :: VisitsEdge(ComponentIndices(components), |components|, labels, edges, k)
    ensures r.Success? ==>
              var pruned := PruneFrom(ComponentIndices(components), |components|, labels, edges, |edges|);
              && pruned.Success?
              && forall i, j | 0 <= i < |components| && 0 <= j < |components| :: Same(pruned.value.sets, i, j)
  {
    var indices := ComponentIndices(components);
    var pruned :- PruneFrom(indices, |components|, labels, edges, |edges|);
    PruneKeepsOrder(indices, |components|, labels, edges, |edges|);
    PruneVisitsAll(indices, |components|, labels, edges, |edges|);
    assert edges[..|edges|] == edges;
    if |pruned.kept| + 1 == |components| then
      forall i, j | 0 <= i < |components| && 0 <= j < |components|
        ensures Same(pruned.sets, i, j)
      {
        OneRootJoinsAll(pruned.sets, i, j);
      }
      Success(pruned.kept)
    else
      Failure(NotSpanning(|pruned.kept|))
  }
}
