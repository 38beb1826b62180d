/**
 * First phase of the ultrametric loss gradient: replaying the minimum
 * spanning tree over disjoint sets of nodes and counting, for every edge,
 * the positive and negative ground-truth node pairs it merges; then
 * normalising those counts into ratios.
 */
module UmLossPairs {
  import opened Results
  import opened Bags
  import opened PairCounts
  import opened DisjointSets
  import opened Mst

  /** The kernel's assertion that an edge joins two different clusters fails at edge `edge`. */
  datatype LossError = EdgeWithinCluster(edge: nat)

  /**
   * The clusters built so far, and for every cluster root the bag of
   * ground-truth labels of its nodes (the per-cluster label overlaps).
   */
  datatype Clustering = Clustering(sets: Forest, overlaps: seq<multiset<int>>)

  /** One edge's merge: the clustering after it and the pairs it merged. */
  datatype Merge = Merge(clustering: Clustering, positive: nat, negative: nat)

  /** The clustering after a prefix of edges, with the pairs merged by each of them. */
  datatype Replayed = Replayed(clustering: Clustering, positive: seq<nat>, negative: seq<nat>)

  /** Per-edge pair counts and their totals. */
  datatype EdgeCounts = EdgeCounts(positive: seq<nat>, negative: seq<nat>, totalPositive: nat, totalNegative: nat)

  function Total(xs: seq<nat>): nat {
    if |xs| == 0 then 0 else Total(xs[..|xs| - 1]) + xs[|xs| - 1]
  }

  /** All bags together. */
  function BagTotal(bags: seq<multiset<int>>): multiset<int> {
    if |bags| == 0 then multiset{} else BagTotal(bags[..|bags| - 1]) + bags[|bags| - 1]
  }

  /** `f` of every bag, summed. */
  function SumOf(f: multiset<int> -> nat, bags: seq<multiset<int>>): nat {
    if |bags| == 0 then 0 else SumOf(f, bags[..|bags| - 1]) + f(bags[|bags| - 1])
  }

  function WithinOf(kind: PairKind): multiset<int> -> nat {
    m => Within(kind, m)
  }

  /** Pairs of `kind` that lie within one bag, over all bags. */
  function SumWithin(kind: PairKind, bags: seq<multiset<int>>): nat {
    SumOf(WithinOf(kind), bags)
  }

  /** Labels of the first `k` nodes whose root is `r`. */
  function LabelsUpTo(gtSeg: seq<int>, root: seq<nat>, r: nat, k: nat): multiset<int>
    requires k <= |gtSeg| && k <= |root|
  {
    if k == 0 then multiset{}
    else LabelsUpTo(gtSeg, root, r, k - 1) + (if root[k - 1] == r then multiset{gtSeg[k - 1]} else multiset{})
  }

  /** Labels of the nodes in the cluster rooted at `r`. */
  function ClusterLabels(gtSeg: seq<int>, sets: Forest, r: nat): multiset<int>
    requires Size(sets) == |gtSeg|
  {
    LabelsUpTo(gtSeg, sets.root, r, |gtSeg|)
  }

  /** The forest and the overlaps both cover the nodes of the ground truth. */
  ghost predicate Shaped(gtSeg: seq<int>, c: Clustering) {
    Valid(c.sets) && Size(c.sets) == |gtSeg| == |c.overlaps|
  }

  /**
   * The clustering is consistent with the ground truth: the overlaps of every
   * root are the labels of its cluster, absorbed clusters keep no labels, and
   * all overlaps together hold every node's label once.
   */
  ghost predicate Inv(gtSeg: seq<int>, c: Clustering) {
    && Shaped(gtSeg, c)
    && (forall r | 0 <= r < |gtSeg| :: c.overlaps[r] == ClusterLabels(gtSeg, c.sets, r))
    && (forall r | 0 <= r < |gtSeg| && r !in Roots(c.sets) :: c.overlaps[r] == multiset{})
    && BagTotal(c.overlaps) == multiset(gtSeg)
  }

  lemma {:induction false} LabelsOfSingletons(gtSeg: seq<int>, root: seq<nat>, r: nat, k: nat)
    requires k <= |gtSeg| && k <= |root|
    requires forall x | 0 <= x < k :: root[x] == x
    ensures LabelsUpTo(gtSeg, root, r, k) == if r < k then multiset{gtSeg[r]} else multiset{}
  {
    if k > 0 {
      LabelsOfSingletons(gtSeg, root, r, k - 1);
    }
  }

  lemma {:induction false} LabelsOfOtherRoots(gtSeg: seq<int>, root: seq<nat>, r: nat, k: nat)
    requires k <= |gtSeg| && k <= |root|
    requires forall x | 0 <= x < k :: root[x] != r
    ensures LabelsUpTo(gtSeg, root, r, k) == multiset{}
  {
    if k > 0 {
      LabelsOfOtherRoots(gtSeg, root, r, k - 1);
    }
  }

  /** After sets `a` and `b` merge into `winner`, the winner holds both label bags and nothing else changes. */
  lemma {:induction false} LabelsAfterMerge(gtSeg: seq<int>, root: seq<nat>, root': seq<nat>, a: nat, b: nat, winner: nat, r: nat, k: nat)
    requires k <= |gtSeg| && k <= |root| && k <= |root'|
    requires a != b && (winner == a || winner == b)
    requires forall x | 0 <= x < k :: root'[x] == if root[x] == a || root[x] == b then winner else root[x]
    ensures LabelsUpTo(gtSeg, root', r, k) ==
              if r == winner then LabelsUpTo(gtSeg, root, a, k) + LabelsUpTo(gtSeg, root, b, k)
              else if r == a || r == b then multiset{}
              else LabelsUpTo(gtSeg, root, r, k)
  {
    if k > 0 {
      LabelsAfterMerge(gtSeg, root, root', a, b, winner, r, k - 1);
    }
  }

  lemma {:induction false} BagTotalSingletons(gtSeg: seq<int>, bags: seq<multiset<int>>)
    requires |bags| == |gtSeg|
    requires forall i | 0 <= i < |gtSeg| :: bags[i] == multiset{gtSeg[i]}
    ensures BagTotal(bags) == multiset(gtSeg)
  {
    if |gtSeg| > 0 {
      var n := |gtSeg|;
      BagTotalSingletons(gtSeg[..n - 1], bags[..n - 1]);
      assert gtSeg == gtSeg[..n - 1] + [gtSeg[n - 1]];
    }
  }

  lemma SumWithinSingletons(kind: PairKind, gtSeg: seq<int>, bags: seq<multiset<int>>)
    requires |bags| == |gtSeg|
    requires forall i | 0 <= i < |gtSeg| :: bags[i] == multiset{gtSeg[i]}
    ensures SumWithin(kind, bags) == 0
  {
    forall i | 0 <= i < |bags| ensures WithinOf(kind)(bags[i]) == 0 {
      WithinSingleton(kind, gtSeg[i]);
    }
    SumOfZero(WithinOf(kind), bags);
  }

  /** Replacing one bag changes the total count of a label by exactly that bag's counts. */
  lemma {:induction false} BagTotalUpdate(bags: seq<multiset<int>>, i: nat, b: multiset<int>, x: int)
    requires i < |bags|
    ensures BagTotal(bags[i := b])[x] + bags[i][x] == BagTotal(bags)[x] + b[x]
  {
    var n := |bags|;
    var prefix := bags[..n - 1];
    if i < n - 1 {
      assert bags[i := b][..n - 1] == prefix[i := b];
      assert bags[i := b][n - 1] == bags[n - 1];
      BagTotalUpdate(prefix, i, b, x);
    } else {
      assert bags[i := b][..n - 1] == prefix;
    }
  }

  /** Replacing one bag changes the sum by exactly the difference of `f` at the two bags. */
  lemma {:induction false} SumOfUpdate(f: multiset<int> -> nat, bags: seq<multiset<int>>, i: nat, b: multiset<int>)
    requires i < |bags|
    ensures SumOf(f, bags[i := b]) + f(bags[i]) == SumOf(f, bags) + f(b)
  {
    var n := |bags|;
    var prefix := bags[..n - 1];
    if i < n - 1 {
      assert bags[i := b][..n - 1] == prefix[i := b];
      assert bags[i := b][n - 1] == bags[n - 1];
      SumOfUpdate(f, prefix, i, b);
    } else {
      assert bags[i := b][..n - 1] == prefix;
    }
  }

  lemma {:induction false} SumOfZero(f: multiset<int> -> nat, bags: seq<multiset<int>>)
    requires forall i | 0 <= i < |bags| :: f(bags[i]) == 0
    ensures SumOf(f, bags) == 0
  {
    if |bags| > 0 {
      SumOfZero(f, bags[..|bags| - 1]);
    }
  }

  lemma {:induction false} SumOfOnlyOne(f: multiset<int> -> nat, bags: seq<multiset<int>>, r: nat)
    requires r < |bags|
    requires forall i | 0 <= i < |bags| && i != r :: f(bags[i]) == 0
    ensures SumOf(f, bags) == f(bags[r])
  {
    var n := |bags|;
    var prefix := bags[..n - 1];
    if r < n - 1 {
      SumOfOnlyOne(f, prefix, r);
    } else {
      SumOfZero(f, prefix);
    }
  }

  lemma SumWithinUpdate(kind: PairKind, bags: seq<multiset<int>>, i: nat, b: multiset<int>)
    requires i < |bags|
    ensures SumWithin(kind, bags[i := b]) + Within(kind, bags[i]) == SumWithin(kind, bags) + Within(kind, b)
  {
    SumOfUpdate(WithinOf(kind), bags, i, b);
  }

  /** When every bag but the one at `r` is empty, all bags together are that bag. */
  lemma {:induction false} OnlyOneBagTotal(bags: seq<multiset<int>>, r: nat)
    requires r < |bags|
    requires forall i | 0 <= i < |bags| && i != r :: bags[i] == multiset{}
    ensures BagTotal(bags) == bags[r]
  {
    var n := |bags|;
    var prefix := bags[..n - 1];
    if r < n - 1 {
      OnlyOneBagTotal(prefix, r);
      assert bags[n - 1] == multiset{};
    } else {
      EmptyBagTotal(prefix);
    }
  }

  /** When every bag but the one at `r` is empty, the pairs within bags are those within that bag. */
  lemma OnlyOneBagWithin(kind: PairKind, bags: seq<multiset<int>>, r: nat)
    requires r < |bags|
    requires forall i | 0 <= i < |bags| && i != r :: bags[i] == multiset{}
    ensures SumWithin(kind, bags) == Within(kind, bags[r])
  {
    SumOfOnlyOne(WithinOf(kind), bags, r);
  }

  lemma {:induction false} EmptyBagTotal(bags: seq<multiset<int>>)
    requires forall i | 0 <= i < |bags| :: bags[i] == multiset{}
    ensures BagTotal(bags) == multiset{}
  {
    if |bags| > 0 {
      EmptyBagTotal(bags[..|bags| - 1]);
    }
  }

  /** Initially every node is its own cluster and overlaps exactly its own label. */
  function InitialClustering(gtSeg: seq<int>): (c: Clustering)
    ensures Shaped(gtSeg, c)
    ensures forall i | 0 <= i < |gtSeg| :: Find(c.sets, i) == i
    ensures forall i | 0 <= i < |gtSeg| :: c.overlaps[i] == multiset{gtSeg[i]}
    ensures SumWithin(Positive, c.overlaps) == 0 && SumWithin(Negative, c.overlaps) == 0
    ensures |Roots(c.sets)| == |gtSeg|
  {
    var overlaps := seq(|gtSeg|, i requires 0 <= i < |gtSeg| => multiset{gtSeg[i]});
    SumWithinSingletons(Positive, gtSeg, overlaps);
    SumWithinSingletons(Negative, gtSeg, overlaps);
    Clustering(MakeSets(|gtSeg|), overlaps)
  }

  /** The initial clustering is consistent with the ground truth. */
  lemma InitialInv(gtSeg: seq<int>)
    ensures Inv(gtSeg, InitialClustering(gtSeg))
  {
    var c := InitialClustering(gtSeg);
    forall r | 0 <= r < |gtSeg| ensures c.overlaps[r] == ClusterLabels(gtSeg, c.sets, r) {
      LabelsOfSingletons(gtSeg, c.sets.root, r, |gtSeg|);
    }
    BagTotalSingletons(gtSeg, c.overlaps);
  }

  lemma MultisetSwap(a: multiset<int>, b: multiset<int>)
    ensures a + b == b + a
  {
  }

  /** The labels of cluster `v` moved into cluster `u`, leaving `v` empty. */
  function Absorb(overlaps: seq<multiset<int>>, u: nat, v: nat): seq<multiset<int>>
    requires u < |overlaps| && v < |overlaps|
  {
    overlaps[u := overlaps[u] + overlaps[v]][v := multiset{}]
  }

  /** Moving labels between bags keeps all labels together unchanged. */
  lemma AbsorbKeepsTotal(o: seq<multiset<int>>, u: nat, v: nat)
    requires u < |o| && v < |o| && u != v
    ensures BagTotal(Absorb(o, u, v)) == BagTotal(o)
  {
    var o1 := o[u := o[u] + o[v]];
    forall x ensures BagTotal(Absorb(o, u, v))[x] == BagTotal(o)[x] {
      BagTotalUpdate(o, u, o[u] + o[v], x);
      BagTotalUpdate(o1, v, multiset{}, x);
      assert o1[v] == o[v];
    }
  }

  /** Moving the labels of `v` into `u` adds exactly the pairs across the two bags. */
  lemma AbsorbAddsCross(kind: PairKind, o: seq<multiset<int>>, u: nat, v: nat)
    requires u < |o| && v < |o| && u != v
    ensures SumWithin(kind, Absorb(o, u, v)) == SumWithin(kind, o) + Cross(kind, o[u], o[v])
  {
    var o1 := o[u := o[u] + o[v]];
    SumWithinUpdate(kind, o, u, o[u] + o[v]);
    SumWithinUpdate(kind, o1, v, multiset{});
    assert o1[v] == o[v];
    WithinUnion(kind, o[u], o[v]);
  }

  /**
   * Linking the distinct roots `a` and `b` and moving the labels of the
   * absorbed root into the survivor keeps the labels of every cluster in its
   * overlaps entry and leaves every absorbed cluster empty.
   */
  lemma {:induction false} AbsorbKeepsClusterLabels(gtSeg: seq<int>, c: Clustering, a: nat, b: nat, sets': Forest, u: nat, v: nat)
    requires Inv(gtSeg, c)
    requires a in Roots(c.sets) && b in Roots(c.sets) && a != b
    requires (sets', u) == Link(c.sets, a, b)
    requires v == if u == a then b else a
    ensures Inv(gtSeg, Clustering(sets', Absorb(c.overlaps, u, v)))
  {
    var o := c.overlaps;
    var o2 := Absorb(o, u, v);
    var n := |gtSeg|;
    forall x | 0 <= x < n ensures sets'.root[x] == if c.sets.root[x] == u || c.sets.root[x] == v then u else c.sets.root[x] {
      assert Find(sets', x) == sets'.root[x] && Find(c.sets, x) == c.sets.root[x];
    }
    forall r | 0 <= r < n ensures o2[r] == ClusterLabels(gtSeg, sets', r) {
      assert o[u] == ClusterLabels(gtSeg, c.sets, u) && o[v] == ClusterLabels(gtSeg, c.sets, v);
      assert o[r] == ClusterLabels(gtSeg, c.sets, r);
      AbsorbKeepsOneCluster(gtSeg, c.sets.root, sets'.root, o[u], o[v], o[r], u, v, r);
      AbsorbAt(o, u, v, r);
    }
    forall r | 0 <= r < n && r !in Roots(sets') ensures o2[r] == multiset{} {
      AbsorbAt(o, u, v, r);
      if r != v {
        assert r !in Roots(c.sets);
      }
    }
    AbsorbKeepsTotal(o, u, v);
  }

  /**
   * After the roots `u` and `v` merge into `u`, the labels of the cluster
   * rooted at `r`, given the labels `lu`, `lv` and `lr` of the clusters of
   * `u`, `v` and `r` before.
   */
  lemma AbsorbKeepsOneCluster(gtSeg: seq<int>, root: seq<nat>, root': seq<nat>, lu: multiset<int>, lv: multiset<int>, lr: multiset<int>, u: nat, v: nat, r: nat)
    requires |root| == |root'| == |gtSeg| && u != v
    requires forall x | 0 <= x < |root| :: root'[x] == if root[x] == u || root[x] == v then u else root[x]
    requires lu == LabelsUpTo(gtSeg, root, u, |gtSeg|) && lv == LabelsUpTo(gtSeg, root, v, |gtSeg|)
    requires lr == LabelsUpTo(gtSeg, root, r, |gtSeg|)
    ensures LabelsUpTo(gtSeg, root', r, |gtSeg|) == if r == v then multiset{} else if r == u then lu + lv else lr
  {
    LabelsAfterMerge(gtSeg, root, root', u, v, u, r, |gtSeg|);
  }

  lemma AbsorbAt(o: seq<multiset<int>>, u: nat, v: nat, r: nat)
    requires u < |o| && v < |o| && r < |o| && u != v
    ensures Absorb(o, u, v)[r] == if r == v then multiset{} else if r == u then o[u] + o[v] else o[r]
  {
  }

  /**
   * Processes one edge: finds the clusters of both endpoints, links them,
   * takes the surviving root as cluster U, counts the pairs the edge merges
   * and moves every label count of V into U, leaving V empty.
   */
  function Step(gtSeg: seq<int>, c: Clustering, e: Edge, index: nat): (r: Result<Merge, LossError>)
    requires Shaped(gtSeg, c)
    requires e.u < |gtSeg| && e.v < |gtSeg|
    ensures r.Failure? <==> Same(c.sets, e.u, e.v)
    ensures r.Failure? ==> r.error == EdgeWithinCluster(index)
    ensures r.Success? ==> Shaped(gtSeg, r.value.clustering)
    ensures r.Success? ==> |Roots(r.value.clustering.sets)| + 1 == |Roots(c.sets)|
    ensures r.Success? ==>
              && r.value.positive == Cross(Positive, c.overlaps[Find(c.sets, e.u)], c.overlaps[Find(c.sets, e.v)])
              && r.value.negative == Cross(Negative, c.overlaps[Find(c.sets, e.u)], c.overlaps[Find(c.sets, e.v)])
    ensures r.Success? ==>
              && SumWithin(Positive, r.value.clustering.overlaps) == SumWithin(Positive, c.overlaps) + r.value.positive
              && SumWithin(Negative, r.value.clustering.overlaps) == SumWithin(Negative, c.overlaps) + r.value.negative
  {
    var clusterU := Find(c.sets, e.u);
    var clusterV := Find(c.sets, e.v);
    if clusterU == clusterV then Failure(EdgeWithinCluster(index))
    else
      var (sets', winner) := Link(c.sets, clusterU, clusterV);
      var (u, v) := if winner == clusterU then (clusterU, clusterV) else (clusterV, clusterU);
      var positive := EdgePairs(Positive, c.overlaps[u], c.overlaps[v]);
      var negative := EdgePairs(Negative, c.overlaps[u], c.overlaps[v]);
      var overlaps' := Absorb(c.overlaps, u, v);
      AbsorbAddsCross(Positive, c.overlaps, u, v);
      AbsorbAddsCross(Negative, c.overlaps, u, v);
      CrossSymmetric(Positive, c.overlaps[clusterU], c.overlaps[clusterV]);
      CrossSymmetric(Negative, c.overlaps[clusterU], c.overlaps[clusterV]);
      Success(Merge(Clustering(sets', overlaps'), positive, negative))
  }

  /**
   * An edge keeps the clustering consistent with the ground truth, and the
   * pairs it merges are those across the labels of its endpoints' clusters.
   */
  lemma StepKeepsInv(gtSeg: seq<int>, c: Clustering, e: Edge, index: nat)
    requires Inv(gtSeg, c)
    requires e.u < |gtSeg| && e.v < |gtSeg|
    requires Step(gtSeg, c, e, index).Success?
    ensures Inv(gtSeg, Step(gtSeg, c, e, index).value.clustering)
    ensures var m := Step(gtSeg, c, e, index).value;
            var labelsU, labelsV := ClusterLabels(gtSeg, c.sets, Find(c.sets, e.u)), ClusterLabels(gtSeg, c.sets, Find(c.sets, e.v));
            m.positive == Cross(Positive, labelsU, labelsV) && m.negative == Cross(Negative, labelsU, labelsV)
  {
    var clusterU := Find(c.sets, e.u);
    var clusterV := Find(c.sets, e.v);
    var (sets', winner) := Link(c.sets, clusterU, clusterV);
    var (u, v) := if winner == clusterU then (clusterU, clusterV) else (clusterV, clusterU);
    AbsorbKeepsClusterLabels(gtSeg, c, clusterU, clusterV, sets', u, v);
  }

  /** An edge joins exactly the clusters of its two endpoints. */
  lemma StepJoins(gtSeg: seq<int>, c: Clustering, e: Edge, index: nat, x: nat, y: nat)
    requires Shaped(gtSeg, c)
    requires e.u < |gtSeg| && e.v < |gtSeg| && x < |gtSeg| && y < |gtSeg|
    requires Step(gtSeg, c, e, index).Success?
    ensures Same(Step(gtSeg, c, e, index).value.clustering.sets, x, y) <==>
              || Same(c.sets, x, y)
              || (Same(c.sets, x, e.u) && Same(c.sets, y, e.v))
              || (Same(c.sets, x, e.v) && Same(c.sets, y, e.u))
  {
    LinkJoins(c.sets, Find(c.sets, e.u), Find(c.sets, e.v), x, y);
  }

  lemma TotalAppend(xs: seq<nat>, x: nat)
    ensures Total(xs + [x]) == Total(xs) + x
  {
    assert (xs + [x])[..|xs|] == xs;
  }

  /**
   * `rep` is the replay of `n` edges: `n` fewer clusters than nodes, and one
   * count per edge, whose totals are the pairs now inside clusters.
   */
  ghost predicate Replays(gtSeg: seq<int>, n: nat, rep: Replayed) {
    && Shaped(gtSeg, rep.clustering)
    && |rep.positive| == n && |rep.negative| == n
    && |Roots(rep.clustering.sets)| + n == |gtSeg|
    && SumWithin(Positive, rep.clustering.overlaps) == Total(rep.positive)
    && SumWithin(Negative, rep.clustering.overlaps) == Total(rep.negative)
  }

  /**
   * Replays the first `n` edges in order from the initial clustering,
   * collecting the positive and negative pairs merged by each edge; fails at
   * the first edge whose endpoints the earlier edges already joined. The
   * cases live in `ReplayCases`, so that a proof about a replay sees them
   * only when it unfolds that function too.
   */
  function Replay(gtSeg: seq<int>, edges: seq<Edge>, n: nat): (r: Result<Replayed, LossError>)
    requires EndpointsBelow(edges, |gtSeg|) && n <= |edges|
    ensures r.Success? ==> Replays(gtSeg, n, r.value)
    ensures r.Failure? ==> r.error.edge < n
    decreases n, 1
  {
    ReplayCases(gtSeg, edges, n)
  }

  /** No edges leave the initial clustering; otherwise edge `n - 1` is processed after the ones before it. */
  function ReplayCases(gtSeg: seq<int>, edges: seq<Edge>, n: nat): (r: Result<Replayed, LossError>)
    requires EndpointsBelow(edges, |gtSeg|) && n <= |edges|
    ensures r.Success? ==> Replays(gtSeg, n, r.value)
    ensures r.Failure? ==> r.error.edge < n
    decreases n, 0
  {
    if n == 0 then Success(Replayed(InitialClustering(gtSeg), [], []))
    else
      var prev := Replay(gtSeg, edges, n - 1);
      if prev.Failure? then Failure(prev.error)
      else
        var m := Step(gtSeg, prev.value.clustering, edges[n - 1], n - 1);
        if m.Failure? then Failure(m.error)
        else
          TotalAppend(prev.value.positive, m.value.positive);
          TotalAppend(prev.value.negative, m.value.negative);
          Success(Replayed(m.value.clustering, prev.value.positive + [m.value.positive], prev.value.negative + [m.value.negative]))
  }

  /**
   * One more edge keeps an earlier failure, and after a successful replay
   * fails exactly when its endpoints are already in one cluster.
   */
  lemma ReplayExtends(gtSeg: seq<int>, edges: seq<Edge>, n: nat)
    requires EndpointsBelow(edges, |gtSeg|) && 0 < n <= |edges|
    ensures var prev, r := Replay(gtSeg, edges, n - 1), Replay(gtSeg, edges, n);
            && (prev.Failure? ==> r == prev)
            && (prev.Success? ==> (r.Failure? <==> Same(prev.value.clustering.sets, edges[n - 1].u, edges[n - 1].v)))
            && (prev.Success? && r.Failure? ==> r.error.edge == n - 1)
  {
    assert Replay(gtSeg, edges, n) == ReplayCases(gtSeg, edges, n);
  }

  /** Every replayed clustering is consistent with the ground truth. */
  lemma {:induction false} ReplayKeepsInv(gtSeg: seq<int>, edges: seq<Edge>, n: nat)
    requires EndpointsBelow(edges, |gtSeg|) && n <= |edges|
    requires Replay(gtSeg, edges, n).Success?
    ensures Inv(gtSeg, Replay(gtSeg, edges, n).value.clustering)
  {
    assert Replay(gtSeg, edges, n) == ReplayCases(gtSeg, edges, n);
    if n > 0 {
      var prev := Replay(gtSeg, edges, n - 1);
      assert prev.Success?;
      ReplayKeepsInv(gtSeg, edges, n - 1);
      StepKeepsInv(gtSeg, prev.value.clustering, edges[n - 1], n - 1);
    } else {
      InitialInv(gtSeg);
    }
  }

  /**
   * Edge `k` is the first whose endpoints the replay has already joined:
   * the edges before it replay without failure, into a clustering in which
   * its endpoints are in one cluster.
   */
  ghost predicate JoinedBefore(gtSeg: seq<int>, edges: seq<Edge>, k: nat)
    requires EndpointsBelow(edges, |gtSeg|)
  {
    && k < |edges|
    && Replay(gtSeg, edges, k).Success?
    && Same(Replay(gtSeg, edges, k).value.clustering.sets, edges[k].u, edges[k].v)
  }

  /** A replay fails at the first edge whose endpoints the edges before it had already joined. */
  lemma {:induction false} ReplayFailsWithinCluster(gtSeg: seq<int>, edges: seq<Edge>, n: nat)
    requires EndpointsBelow(edges, |gtSeg|) && n <= |edges|
    requires Replay(gtSeg, edges, n).Failure?
    ensures JoinedBefore(gtSeg, edges, Replay(gtSeg, edges, n).error.edge)
  {
    ReplayExtends(gtSeg, edges, n);
    var prev := Replay(gtSeg, edges, n - 1);
    if prev.Failure? {
      ReplayFailsWithinCluster(gtSeg, edges, n - 1);
      assert Replay(gtSeg, edges, n).error == prev.error;
    } else {
      assert Replay(gtSeg, edges, n).error.edge == n - 1;
    }
  }

  /** A replay that succeeds met no edge whose endpoints were already joined. */
  lemma {:induction false} ReplaySucceedsWithoutJoin(gtSeg: seq<int>, edges: seq<Edge>, n: nat, k: nat)
    requires EndpointsBelow(edges, |gtSeg|) && k < n <= |edges|
    requires Replay(gtSeg, edges, n).Success?
    ensures !JoinedBefore(gtSeg, edges, k)
  {
    ReplayExtends(gtSeg, edges, n);
    if k < n - 1 {
      ReplaySucceedsWithoutJoin(gtSeg, edges, n - 1, k);
    }
  }

  lemma ReplaySucceedsWithoutJoins(gtSeg: seq<int>, edges: seq<Edge>, n: nat)
    requires EndpointsBelow(edges, |gtSeg|) && n <= |edges|
    requires Replay(gtSeg, edges, n).Success?
    ensures forall k | 0 <= k < n :: !JoinedBefore(gtSeg, edges, k)
  {
    forall k | 0 <= k < n ensures !JoinedBefore(gtSeg, edges, k) {
      ReplaySucceedsWithoutJoin(gtSeg, edges, n, k);
    }
  }

  /**
   * The pairs of `kind` that edge `k` merges: those with one node in the
   * cluster of each endpoint, in the clustering the edges before it leave.
   */
  function PairsMergedBy(kind: PairKind, gtSeg: seq<int>, edges: seq<Edge>, k: nat): nat
    requires EndpointsBelow(edges, |gtSeg|) && k < |edges|
    requires Replay(gtSeg, edges, k).Success?
  {
    var sets := Replay(gtSeg, edges, k).value.clustering.sets;
    Cross(kind, ClusterLabels(gtSeg, sets, Find(sets, edges[k].u)), ClusterLabels(gtSeg, sets, Find(sets, edges[k].v)))
  }

  /** A successful replay of `n` edges is the replay of `n - 1` edges followed by one step. */
  lemma ReplayAppends(gtSeg: seq<int>, edges: seq<Edge>, n: nat)
    requires EndpointsBelow(edges, |gtSeg|) && 0 < n <= |edges|
    requires Replay(gtSeg, edges, n).Success?
    ensures Replay(gtSeg, edges, n - 1).Success?
    ensures var prev, r := Replay(gtSeg, edges, n - 1).value, Replay(gtSeg, edges, n).value;
            var m := Step(gtSeg, prev.clustering, edges[n - 1], n - 1);
            && m.Success?
            && r.clustering == m.value.clustering
            && r.positive == prev.positive + [m.value.positive]
            && r.negative == prev.negative + [m.value.negative]
  {
    assert Replay(gtSeg, edges, n) == ReplayCases(gtSeg, edges, n);
  }

  /** Every count of a successful replay is the number of pairs its edge merges. */
  lemma {:induction false} ReplayCountsEdge(gtSeg: seq<int>, edges: seq<Edge>, n: nat, k: nat)
    requires EndpointsBelow(edges, |gtSeg|) && k < n <= |edges|
    requires Replay(gtSeg, edges, n).Success?
    ensures Replay(gtSeg, edges, k).Success?
    ensures Replay(gtSeg, edges, n).value.positive[k] == PairsMergedBy(Positive, gtSeg, edges, k)
    ensures Replay(gtSeg, edges, n).value.negative[k] == PairsMergedBy(Negative, gtSeg, edges, k)
  {
    ReplayAppends(gtSeg, edges, n);
    var prev := Replay(gtSeg, edges, n - 1).value;
    if k < n - 1 {
      ReplayCountsEdge(gtSeg, edges, n - 1, k);
      assert Replay(gtSeg, edges, n).value.positive[k] == prev.positive[k];
      assert Replay(gtSeg, edges, n).value.negative[k] == prev.negative[k];
    } else {
      ReplayKeepsInv(gtSeg, edges, n - 1);
      StepKeepsInv(gtSeg, prev.clustering, edges[n - 1], n - 1);
    }
  }

  lemma ReplayCountsEdges(gtSeg: seq<int>, edges: seq<Edge>, n: nat)
    requires EndpointsBelow(edges, |gtSeg|) && n <= |edges|
    requires Replay(gtSeg, edges, n).Success?
    ensures forall k | 0 <= k < n ::
              && Replay(gtSeg, edges, k).Success?
              && Replay(gtSeg, edges, n).value.positive[k] == PairsMergedBy(Positive, gtSeg, edges, k)
              && Replay(gtSeg, edges, n).value.negative[k] == PairsMergedBy(Negative, gtSeg, edges, k)
  {
    forall k | 0 <= k < n
      ensures && Replay(gtSeg, edges, k).Success?
              && Replay(gtSeg, edges, n).value.positive[k] == PairsMergedBy(Positive, gtSeg, edges, k)
              && Replay(gtSeg, edges, n).value.negative[k] == PairsMergedBy(Negative, gtSeg, edges, k)
    {
      ReplayCountsEdge(gtSeg, edges, n, k);
    }
  }

  lemma SingletonSet(s: set<nat>, x: nat)
    requires |s| == 1 && x in s
    ensures s == {x}
  {
    assert |s - {x}| == 0;
  }

  /**
   * After a spanning tree of `n - 1` edges only one cluster is left, so the
   * pairs inside clusters are all node pairs.
   */
  lemma {:induction false} SpanningReplayCountsAllPairs(gtSeg: seq<int>, edges: seq<Edge>, kind: PairKind)
    requires |gtSeg| >= 1 && |edges| == |gtSeg| - 1
    requires EndpointsBelow(edges, |gtSeg|)
    requires Replay(gtSeg, edges, |edges|).Success?
    ensures SumWithin(kind, Replay(gtSeg, edges, |edges|).value.clustering.overlaps) == PairsIn(kind, gtSeg)
  {
    ReplayKeepsInv(gtSeg, edges, |edges|);
    var c := Replay(gtSeg, edges, |edges|).value.clustering;
    var roots := Roots(c.sets);
    assert |roots| == 1;
    var r :| r in roots;
    SingletonSet(roots, r);
    forall i | 0 <= i < |c.overlaps| && i != r ensures c.overlaps[i] == multiset{} {
      assert i !in roots;
    }
    OnlyOneBagTotal(c.overlaps, r);
    OnlyOneBagWithin(kind, c.overlaps, r);
    PairsInIsWithin(kind, gtSeg);
  }

  /**
   * Pairs merged per edge and in total. Every node pair is merged by exactly
   * one edge of the spanning tree, so the totals are the numbers of positive
   * and negative node pairs of the ground truth.
   */
  function CountPairs(gtSeg: seq<int>, edges: seq<Edge>): (r: Result<EdgeCounts, LossError>)
    requires |gtSeg| >= 1 && |edges| == |gtSeg| - 1
    requires EndpointsBelow(edges, |gtSeg|)
    ensures r.Success? ==> |r.value.positive| == |edges| && |r.value.negative| == |edges|
    ensures r.Success? ==> r.value.totalPositive == Total(r.value.positive) == PairsIn(Positive, gtSeg)
    ensures r.Success? ==> r.value.totalNegative == Total(r.value.negative) == PairsIn(Negative, gtSeg)
    ensures r.Failure? ==> r.error.edge < |edges| && JoinedBefore(gtSeg, edges, r.error.edge)
    ensures r.Success? ==> forall k | 0 <= k < |edges| :: !JoinedBefore(gtSeg, edges, k)
    ensures r.Success? ==> forall k | 0 <= k < |edges| ::
              && Replay(gtSeg, edges, k).Success?
              && r.value.positive[k] == PairsMergedBy(Positive, gtSeg, edges, k)
              && r.value.negative[k] == PairsMergedBy(Negative, gtSeg, edges, k)
  {
    var replay := Replay(gtSeg, edges, |edges|);
    if replay.Failure? then
      ReplayFailsWithinCluster(gtSeg, edges, |edges|);
      Failure(replay.error)
    else
      var replayed := replay.value;
      ReplaySucceedsWithoutJoins(gtSeg, edges, |edges|);
      ReplayCountsEdges(gtSeg, edges, |edges|);
      SpanningReplayCountsAllPairs(gtSeg, edges, Positive);
      SpanningReplayCountsAllPairs(gtSeg, edges, Negative);
      Success(EdgeCounts(replayed.positive, replayed.negative, Total(replayed.positive), Total(replayed.negative)))
  }

  function RealTotal(xs: seq<real>): real {
    if |xs| == 0 then 0.0 else RealTotal(xs[..|xs| - 1]) + xs[|xs| - 1]
  }

  /** Every count divided by `total`. */
  function Ratios(counts: seq<nat>, total: real): (ratios: seq<real>)
    requires total > 0.0
    ensures |ratios| == |counts|
    ensures forall i | 0 <= i < |counts| :: ratios[i] >= 0.0 && ratios[i] * total == counts[i] as real
  {
    var ratios := seq(|counts|, i requires 0 <= i < |counts| => counts[i] as real / total);
    forall i | 0 <= i < |counts| ensures ratios[i] >= 0.0 && ratios[i] * total == counts[i] as real {
      DivideThenMultiply(counts[i] as real, total);
    }
    ratios
  }

  lemma DivideThenMultiply(x: real, total: real)
    requires x >= 0.0 && total > 0.0
    ensures x / total >= 0.0 && (x / total) * total == x
    ensures x == total ==> x / total == 1.0
  {
  }

  lemma {:induction false} RatiosTotal(counts: seq<nat>, total: real)
    requires total > 0.0
    ensures RealTotal(Ratios(counts, total)) == Total(counts) as real / total
  {
    if |counts| > 0 {
      var last := |counts| - 1;
      assert Ratios(counts, total)[..last] == Ratios(counts[..last], total);
      RatiosTotal(counts[..last], total);
      AddFractions(Total(counts[..last]) as real, counts[last] as real, total);
    }
  }

  lemma AddFractions(a: real, b: real, total: real)
    requires total > 0.0
    ensures a / total + b / total == (a + b) / total
  {
  }

  lemma {:induction false} TotalZero(counts: seq<nat>)
    requires Total(counts) == 0
    ensures forall i | 0 <= i < |counts| :: counts[i] == 0
  {
    if |counts| > 0 {
      TotalZero(counts[..|counts| - 1]);
    }
  }

  /**
   * Turns pair counts into ratios of the total: they sum to one when the
   * total is positive; with no pairs of a kind the counts, all zero, are
   * left as they are.
   */
  function Normalise(counts: seq<nat>, total: nat): (ratios: seq<real>)
    requires total == Total(counts)
    ensures |ratios| == |counts|
    ensures forall i | 0 <= i < |counts| :: ratios[i] >= 0.0
    ensures total > 0 ==> RealTotal(ratios) == 1.0
    ensures total > 0 ==> forall i | 0 <= i < |counts| :: ratios[i] * (total as real) == counts[i] as real
    ensures total == 0 ==> forall i | 0 <= i < |counts| :: ratios[i] == 0.0
  {
    if total > 0 then
      RatiosTotal(counts, total as real);
      DivideThenMultiply(total as real, total as real);
      Ratios(counts, total as real)
    else
      TotalZero(counts);
      seq(|counts|, i requires 0 <= i < |counts| => counts[i] as real)
  }

  /** `ratio` is the share of `count` in `total`: `count / total`, or zero when the total is zero. */
  predicate IsShare(ratio: real, count: nat, total: nat) {
    && (total > 0 ==> ratio * (total as real) == count as real)
    && (total == 0 ==> ratio == 0.0)
  }

  /** The ratio of an edge whose count is `c` is the share of `c` in the total. */
  lemma RatioOfCount(counts: seq<nat>, total: nat, k: nat, c: nat)
    requires total == Total(counts) && k < |counts| && counts[k] == c
    ensures IsShare(Normalise(counts, total)[k], c, total)
  {
    var ratios := Normalise(counts, total);
    if total > 0 {
      assert ratios[k] * (total as real) == counts[k] as real;
    }
  }

  /**
   * The normalised ratio of every edge is the share of the pairs of `kind`
   * it merges in the total.
   */
  lemma RatiosOfKind(kind: PairKind, gtSeg: seq<int>, edges: seq<Edge>, counts: seq<nat>, total: nat)
    requires EndpointsBelow(edges, |gtSeg|) && |counts| == |edges| && total == Total(counts)
    requires forall k | 0 <= k < |edges| ::
               Replay(gtSeg, edges, k).Success? && counts[k] == PairsMergedBy(kind, gtSeg, edges, k)
    ensures forall k | 0 <= k < |edges| ::
              Replay(gtSeg, edges, k).Success? && IsShare(Normalise(counts, total)[k], PairsMergedBy(kind, gtSeg, edges, k), total)
  {
    forall k | 0 <= k < |edges|
      ensures Replay(gtSeg, edges, k).Success? && IsShare(Normalise(counts, total)[k], PairsMergedBy(kind, gtSeg, edges, k), total)
    {
      RatioOfCount(counts, total, k, PairsMergedBy(kind, gtSeg, edges, k));
    }
  }
}
