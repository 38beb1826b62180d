/**
 * Disjoint sets over the elements `0 .. n-1`, kept abstractly as the root of
 * every element plus the rank of every root. Path compression changes the
 * parent pointers but never a root, so it is not represented. Linking two
 * roots follows the union-by-rank rule: the root of strictly higher rank
 * survives, otherwise the second root survives and, on equal ranks, its rank
 * grows by one.
 */
module DisjointSets {

  datatype Forest = Forest(root: seq<nat>, rank: seq<nat>)

  ghost predicate Valid(f: Forest) {
    && |f.root| == |f.rank|
    && (forall x | 0 <= x < |f.root| :: f.root[x] < |f.root|)
    && (forall x | 0 <= x < |f.root| :: f.root[f.root[x]] == f.root[x])
  }

  function Size(f: Forest): nat {
    |f.root|
  }

  /** The elements that currently represent a set. */
  function Roots(f: Forest): set<nat> {
    set x: nat | x < |f.root| && f.root[x] == x
  }

  /** Whether two elements are in the same set. */
  predicate Same(f: Forest, x: nat, y: nat)
    requires x < |f.root| && y < |f.root|
  {
    f.root[x] == f.root[y]
  }

  function Find(f: Forest, x: nat): (r: nat)
    requires Valid(f) && x < Size(f)
    ensures r in Roots(f)
    ensures Same(f, x, r)
  {
    f.root[x]
  }

  /** The elements `0 .. n-1`. */
  function Below(n: nat): (s: set<nat>)
    ensures forall x: nat :: x in s <==> x < n
    ensures |s| == n
  {
    if n == 0 then {} else Below(n - 1) + {n - 1}
  }

  /** `n` singletons: every element is its own root, of rank zero. */
  function MakeSets(n: nat): (f: Forest)
    ensures Valid(f) && Size(f) == n
    ensures forall x | 0 <= x < n :: Find(f, x) == x
    ensures |Roots(f)| == n
  {
    var f := Forest(seq(n, i => i), seq(n, i => 0));
    assert Roots(f) == Below(n);
    f
  }

  /**
   * Joins the sets of the distinct roots `a` and `b` and returns the new
   * forest with the surviving root.
   */
  function Link(f: Forest, a: nat, b: nat): (r: (Forest, nat))
    requires Valid(f) && a in Roots(f) && b in Roots(f) && a != b
    ensures Valid(r.0) && Size(r.0) == Size(f)
    ensures r.1 == a || r.1 == b
    ensures r.1 == a <==> f.rank[a] > f.rank[b]
    ensures forall x | 0 <= x < Size(f) ::
              Find(r.0, x) == if Find(f, x) == a || Find(f, x) == b then r.1 else Find(f, x)
    ensures Roots(r.0) == Roots(f) - {if r.1 == a then b else a}
    ensures |Roots(r.0)| == |Roots(f)| - 1
  {
    var (winner, loser) := if f.rank[a] > f.rank[b] then (a, b) else (b, a);
    var root' := seq(|f.root|, x requires 0 <= x < |f.root| => if f.root[x] == loser then winner else f.root[x]);
    var rank' := if f.rank[a] == f.rank[b] then f.rank[b := f.rank[b] + 1] else f.rank;
    var g := Forest(root', rank');
    assert Roots(g) == Roots(f) - {loser};
    (g, winner)
  }

  /** Linking merges exactly the two sets: two elements end up together iff they were, or one was with `a` and the other with `b`. */
  lemma LinkJoins(f: Forest, a: nat, b: nat, x: nat, y: nat)
    requires Valid(f) && a in Roots(f) && b in Roots(f) && a != b
    requires x < Size(f) && y < Size(f)
    ensures Same(Link(f, a, b).0, x, y) <==>
              || Same(f, x, y)
              || (Same(f, x, a) && Same(f, y, b))
              || (Same(f, x, b) && Same(f, y, a))
  {
  }
}
