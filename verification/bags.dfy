/**
 * Sums over finite bags of labels. A bag is visited one distinct label at a
 * time in ascending order, each label weighted by its multiplicity, which is
 * how an ordered map from label to count is traversed.
 */
module Bags {

  lemma NonEmptyHasElement(m: multiset<int>)
    requires m != multiset{}
    ensures exists z :: z in m
  {
    if forall z :: z !in m {
      assert false;
    }
  }

  lemma {:induction false} MinExists(m: multiset<int>)
    requires m != multiset{}
    ensures exists x :: x in m && forall y | y in m :: x <= y
    decreases |m|
  {
    NonEmptyHasElement(m);
    var z :| z in m;
    var rest := m - multiset{z};
    assert forall y | y in m :: y == z || y in rest by {
      forall y | y in m
        ensures y == z || y in rest
      {
        if y != z {
          assert rest[y] == m[y];
        }
      }
    }
    if rest != multiset{} {
      MinExists(rest);
      var w :| w in rest && forall y | y in rest :: w <= y;
      assert w in m;
    }
  }

  /** The smallest label in a non-empty bag. */
  function MinLabel(m: multiset<int>): (x: int)
    requires m != multiset{}
    ensures x in m
    ensures forall y | y in m :: x <= y
  {
    MinExists(m);
    var x :| x in m && forall y | y in m :: x <= y;
    x
  }

  /** Sum of `f` over every element of `m`, counted with multiplicity. */
  function BagSum(m: multiset<int>, f: int -> nat): nat
    decreases |m|
  {
    if m == multiset{} then 0
    else
      var x := MinLabel(m);
      f(x) + BagSum(m - multiset{x}, f)
  }

  /** Peeling any element of the bag, not only the smallest, gives the same sum. */
  lemma {:induction false} BagSumPick(m: multiset<int>, f: int -> nat, y: int)
    requires y in m
    ensures BagSum(m, f) == f(y) + BagSum(m - multiset{y}, f)
    decreases |m|
  {
    var x := MinLabel(m);
    if x != y {
      var mx := m - multiset{x};
      var my := m - multiset{y};
      assert y in mx;
      BagSumPick(mx, f, y);
      assert x in my;
      assert MinLabel(my) == x;
      assert my - multiset{x} == mx - multiset{y};
    }
  }

  lemma {:induction false} BagSumAddOne(m: multiset<int>, f: int -> nat, y: int)
    ensures BagSum(m + multiset{y}, f) == BagSum(m, f) + f(y)
  {
    var m1 := m + multiset{y};
    BagSumPick(m1, f, y);
    assert m1 - multiset{y} == m;
  }

  lemma BagSumSingleton(f: int -> nat, y: int)
    ensures BagSum(multiset{y}, f) == f(y)
  {
    BagSumAddOne(multiset{}, f, y);
    assert multiset{} + multiset{y} == multiset{y};
  }

  /** Summing over a union of bags is summing over each bag. */
  lemma {:induction false} BagSumUnion(a: multiset<int>, b: multiset<int>, f: int -> nat)
    ensures BagSum(a + b, f) == BagSum(a, f) + BagSum(b, f)
    decreases |b|
  {
    if b == multiset{} {
      assert a + b == a;
    } else {
      var z := MinLabel(b);
      var b' := b - multiset{z};
      assert b == b' + multiset{z};
      assert a + b == (a + b') + multiset{z};
      BagSumUnion(a, b', f);
      BagSumAddOne(a + b', f, z);
      BagSumAddOne(b', f, z);
    }
  }

  /** The sum only depends on the values of `f` at labels in the bag. */
  lemma {:induction false} BagSumCongruent(m: multiset<int>, f: int -> nat, g: int -> nat)
    requires forall x | x in m :: f(x) == g(x)
    ensures BagSum(m, f) == BagSum(m, g)
    decreases |m|
  {
    if m != multiset{} {
      var x := MinLabel(m);
      BagSumCongruent(m - multiset{x}, f, g);
    }
  }

  /** The sum is linear in the summand. */
  lemma {:induction false} BagSumSplit(m: multiset<int>, f: int -> nat, g: int -> nat, h: int -> nat)
    requires forall x | x in m :: h(x) == f(x) + g(x)
    ensures BagSum(m, h) == BagSum(m, f) + BagSum(m, g)
    decreases |m|
  {
    if m != multiset{} {
      var x := MinLabel(m);
      BagSumSplit(m - multiset{x}, f, g, h);
    }
  }

  lemma {:induction false} BagSumZero(m: multiset<int>, f: int -> nat)
    requires forall x | x in m :: f(x) == 0
    ensures BagSum(m, f) == 0
    decreases |m|
  {
    if m != multiset{} {
      var x := MinLabel(m);
      BagSumZero(m - multiset{x}, f);
    }
  }

  /**
   * Sum of `f` visiting each distinct label once and weighting it by its
   * multiplicity, in ascending label order.
   */
  function GroupedSum(m: multiset<int>, f: int -> nat): nat
    decreases |m|
  {
    if m == multiset{} then 0
    else
      var x := MinLabel(m);
      m[x] * f(x) + GroupedSum(m[x := 0], f)
  }

  lemma MultiplicityStep(c: nat, v: nat)
    requires c >= 1
    ensures c * v == v + (c - 1) * v
  {
  }

  /** Removing every copy of `y` takes `m[y]` copies of `f(y)` out of the sum. */
  lemma {:induction false} BagSumDropAll(m: multiset<int>, f: int -> nat, y: int)
    ensures BagSum(m, f) == m[y] * f(y) + BagSum(m[y := 0], f)
    decreases m[y]
  {
    if y in m {
      var m' := m - multiset{y};
      BagSumPick(m, f, y);
      BagSumDropAll(m', f, y);
      assert m'[y := 0] == m[y := 0];
      assert m'[y] == m[y] - 1;
      MultiplicityStep(m[y], f(y));
    } else {
      assert m[y := 0] == m;
    }
  }

  /** The grouped traversal computes the same sum as the element-wise one. */
  lemma {:induction false} GroupedSumIsBagSum(m: multiset<int>, f: int -> nat)
    ensures GroupedSum(m, f) == BagSum(m, f)
    decreases |m|
  {
    if m != multiset{} {
      var x := MinLabel(m);
      GroupedSumIsBagSum(m[x := 0], f);
      BagSumDropAll(m, f, x);
    }
  }
}
