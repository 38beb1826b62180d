/**
 * The ground-truth pair classification of the ultrametric loss and the pair
 * counts built on it. A label `n >= 1` is a foreground object, `0` is
 * background and a negative label is ambiguous foreground (the kernel uses
 * `-1`; any negative label is treated the same way).
 */
module PairCounts {
  import opened Results
  import opened Bags

  datatype PairKind = Positive | Negative

  datatype LabelClass = Foreground(id: int) | Background | Ambiguous

  function ClassOf(gt: int): LabelClass {
    if gt >= 1 then Foreground(gt)
    else if gt == 0 then Background
    else Ambiguous
  }

  /**
   * The classification table written in terms of label classes:
   * (n, n) positive, (n, m) negative, (n, 0) and (0, -1) negative, and
   * (n, -1), (0, 0), (-1, -1) neither.
   */
  function TableKind(a: LabelClass, b: LabelClass): Option<PairKind> {
    match (a, b)
    case (Foreground(n), Foreground(m)) => if n == m then Some(Positive) else Some(Negative)
    case (Foreground(_), Background) => Some(Negative)
    case (Background, Foreground(_)) => Some(Negative)
    case (Background, Ambiguous) => Some(Negative)
    case (Ambiguous, Background) => Some(Negative)
    case _ => None
  }

  /** Positive contribution of one label pair, as the kernel's branches compute it. */
  function PositiveWeight(labelU: int, labelV: int): nat {
    if labelU >= 1 && labelU == labelV then 1 else 0
  }

  /** Negative contribution of one label pair, as the kernel's branches compute it. */
  function NegativeWeight(labelU: int, labelV: int): nat {
    (if labelU >= 1 && labelU != labelV && labelV >= 1 then 1 else 0)
    + (if (labelU == 0) != (labelV == 0) then 1 else 0)
  }

  function Weight(kind: PairKind, labelU: int, labelV: int): nat {
    match kind
    case Positive => PositiveWeight(labelU, labelV)
    case Negative => NegativeWeight(labelU, labelV)
  }

  /** The branches agree with the table: each pair counts once for its kind and never for the other. */
  lemma WeightMatchesTable(kind: PairKind, labelU: int, labelV: int)
    ensures Weight(kind, labelU, labelV) == if TableKind(ClassOf(labelU), ClassOf(labelV)) == Some(kind) then 1 else 0
  {
  }

  /** The classification does not depend on which cluster is called U. */
  lemma WeightSymmetric(kind: PairKind, labelU: int, labelV: int)
    ensures Weight(kind, labelU, labelV) == Weight(kind, labelV, labelU)
  {
  }

  /** Pairs of `kind` between one label and every element of a bag. */
  function Row(kind: PairKind, gt: int, m: multiset<int>): nat {
    BagSum(m, other => Weight(kind, gt, other))
  }

  /** Pairs of `kind` formed by one element of `a` and one element of `b`. */
  function Cross(kind: PairKind, a: multiset<int>, b: multiset<int>): nat {
    BagSum(a, labelU => Row(kind, labelU, b))
  }

  /**
   * Pairs of `kind` merged when a cluster with label overlaps `overlapsU`
   * absorbs one with `overlapsV`: every distinct label of each side is
   * visited once and contributes the product of the two counts.
   */
  function EdgePairs(kind: PairKind, overlapsU: multiset<int>, overlapsV: multiset<int>): (r: nat)
    ensures r == Cross(kind, overlapsU, overlapsV)
  {
    var row := labelU => GroupedSum(overlapsV, labelV => Weight(kind, labelU, labelV));
    GroupedSumIsBagSum(overlapsU, row);
    forall labelU ensures row(labelU) == Row(kind, labelU, overlapsV) {
      GroupedSumIsBagSum(overlapsV, labelV => Weight(kind, labelU, labelV));
    }
    BagSumCongruent(overlapsU, row, labelU => Row(kind, labelU, overlapsV));
    GroupedSum(overlapsU, row)
  }

  /** Unordered pairs of `kind` among the elements of one bag. */
  function Within(kind: PairKind, m: multiset<int>): nat
    decreases |m|
  {
    if m == multiset{} then 0
    else
      var x := MinLabel(m);
      Within(kind, m - multiset{x}) + Cross(kind, m - multiset{x}, multiset{x})
  }

  /** Unordered pairs of `kind` among the positions of a label sequence: pairs `i < j`. */
  function PairsIn(kind: PairKind, labels: seq<int>): nat
  {
    if |labels| == 0 then 0
    else
      var prefix := labels[..|labels| - 1];
      PairsIn(kind, prefix) + RowIn(kind, prefix, labels[|labels| - 1])
  }

  /** Positions of `labels` that form a pair of `kind` with `gt`. */
  function RowIn(kind: PairKind, labels: seq<int>, gt: int): nat
  {
    if |labels| == 0 then 0
    else RowIn(kind, labels[..|labels| - 1], gt) + Weight(kind, labels[|labels| - 1], gt)
  }

  lemma CrossEmptyRight(kind: PairKind, a: multiset<int>)
    ensures Cross(kind, a, multiset{}) == 0
  {
    forall x ensures Row(kind, x, multiset{}) == 0 {
    }
    BagSumZero(a, labelU => Row(kind, labelU, multiset{}));
  }

  lemma CrossAddLeft(kind: PairKind, a: multiset<int>, b: multiset<int>, x: int)
    ensures Cross(kind, a + multiset{x}, b) == Cross(kind, a, b) + Row(kind, x, b)
  {
    BagSumAddOne(a, labelU => Row(kind, labelU, b), x);
  }

  lemma CrossAddRight(kind: PairKind, a: multiset<int>, b: multiset<int>, y: int)
    ensures Cross(kind, a, b + multiset{y}) == Cross(kind, a, b) + BagSum(a, labelU => Weight(kind, labelU, y))
  {
    forall labelU
      ensures Row(kind, labelU, b + multiset{y}) == Row(kind, labelU, b) + Weight(kind, labelU, y)
    {
      BagSumAddOne(b, other => Weight(kind, labelU, other), y);
    }
    BagSumSplit(a, labelU => Row(kind, labelU, b), labelU => Weight(kind, labelU, y),
                labelU => Row(kind, labelU, b + multiset{y}));
  }

  lemma CrossSingletonRight(kind: PairKind, a: multiset<int>, y: int)
    ensures Cross(kind, a, multiset{y}) == BagSum(a, labelU => Weight(kind, labelU, y))
  {
    CrossAddRight(kind, a, multiset{}, y);
    CrossEmptyRight(kind, a);
    assert multiset{} + multiset{y} == multiset{y};
  }

  lemma CrossUnionLeft(kind: PairKind, a: multiset<int>, b: multiset<int>, c: multiset<int>)
    ensures Cross(kind, a + b, c) == Cross(kind, a, c) + Cross(kind, b, c)
  {
    BagSumUnion(a, b, labelU => Row(kind, labelU, c));
  }

  /** Counting pairs between two bags does not depend on their order. */
  lemma {:induction false} CrossSymmetric(kind: PairKind, a: multiset<int>, b: multiset<int>)
    ensures Cross(kind, a, b) == Cross(kind, b, a)
    decreases |a|
  {
    if a == multiset{} {
      CrossEmptyRight(kind, b);
    } else {
      var x := MinLabel(a);
      var a' := a - multiset{x};
      assert a == a' + multiset{x};
      CrossSymmetric(kind, a', b);
      CrossAddLeft(kind, a', b, x);
      CrossAddRight(kind, b, a', x);
      forall other | other in b ensures Weight(kind, x, other) == Weight(kind, other, x) {
        WeightSymmetric(kind, x, other);
      }
      BagSumCongruent(b, other => Weight(kind, x, other), labelU => Weight(kind, labelU, x));
    }
  }

  lemma CrossUnionRight(kind: PairKind, a: multiset<int>, b: multiset<int>, c: multiset<int>)
    ensures Cross(kind, a, b + c) == Cross(kind, a, b) + Cross(kind, a, c)
  {
    CrossSymmetric(kind, a, b + c);
    CrossUnionLeft(kind, b, c, a);
    CrossSymmetric(kind, b, a);
    CrossSymmetric(kind, c, a);
  }

  /**
   * Removing the smallest element and another one `y`, in either order,
   * leaves the same bag, and removing `y` keeps the smallest element.
   */
  lemma RemoveOther(m: multiset<int>, y: int)
    requires y in m && y != MinLabel(m)
    ensures var x := MinLabel(m);
            var mx, my := m - multiset{x}, m - multiset{y};
            && y in mx && my != multiset{} && MinLabel(my) == x && my - multiset{x} == mx - multiset{y}
            && mx == (mx - multiset{y}) + multiset{y} && my == (mx - multiset{y}) + multiset{x}
  {
    var x := MinLabel(m);
    var my := m - multiset{y};
    assert x in my;
    MinLabelUnique(my, x);
  }

  lemma MinLabelUnique(m: multiset<int>, x: int)
    requires x in m && forall z | z in m :: x <= z
    ensures MinLabel(m) == x
  {
  }

  /** Removing any element, not only the smallest, gives the same count of pairs within a bag. */
  lemma {:induction false} WithinPick(kind: PairKind, m: multiset<int>, y: int)
    requires y in m
    ensures Within(kind, m) == Within(kind, m - multiset{y}) + Cross(kind, m - multiset{y}, multiset{y})
    decreases |m|
  {
    var x := MinLabel(m);
    if x != y {
      var mx := m - multiset{x};
      var my := m - multiset{y};
      var r := mx - multiset{y};
      RemoveOther(m, y);
      WithinPick(kind, mx, y);
      CrossUnionLeft(kind, r, multiset{y}, multiset{x});
      CrossUnionLeft(kind, r, multiset{x}, multiset{y});
      CrossSymmetric(kind, multiset{x}, multiset{y});
    }
  }

  lemma WithinSingleton(kind: PairKind, x: int)
    ensures Within(kind, multiset{x}) == 0
  {
    WithinPick(kind, multiset{x}, x);
    assert multiset{x} - multiset{x} == multiset{};
    CrossSymmetric(kind, multiset{}, multiset{x});
    CrossEmptyRight(kind, multiset{x});
  }

  /** The pairs within a union are those within each part plus those across. */
  lemma {:induction false} WithinUnion(kind: PairKind, a: multiset<int>, b: multiset<int>)
    ensures Within(kind, a + b) == Within(kind, a) + Within(kind, b) + Cross(kind, a, b)
    decreases |b|
  {
    if b == multiset{} {
      assert a + b == a;
      CrossEmptyRight(kind, a);
    } else {
      var y := MinLabel(b);
      var b' := b - multiset{y};
      assert b == b' + multiset{y};
      assert (a + b) - multiset{y} == a + b';
      WithinUnion(kind, a, b');
      WithinPick(kind, a + b, y);
      WithinPick(kind, b, y);
      CrossUnionLeft(kind, a, b', multiset{y});
      CrossUnionRight(kind, a, b', multiset{y});
    }
  }

  lemma {:induction false} RowInIsBagSum(kind: PairKind, labels: seq<int>, y: int)
    ensures RowIn(kind, labels, y) == BagSum(multiset(labels), x => Weight(kind, x, y))
    decreases |labels|
  {
    if |labels| == 0 {
    } else {
      var prefix := labels[..|labels| - 1];
      var last := labels[|labels| - 1];
      assert labels == prefix + [last];
      assert multiset(labels) == multiset(prefix) + multiset{last};
      RowInIsBagSum(kind, prefix, y);
      BagSumAddOne(multiset(prefix), x => Weight(kind, x, y), last);
    }
  }

  /** Counting position pairs `i < j` of a sequence is counting the pairs within its bag of labels. */
  lemma {:induction false} PairsInIsWithin(kind: PairKind, labels: seq<int>)
    ensures PairsIn(kind, labels) == Within(kind, multiset(labels))
    decreases |labels|
  {
    if |labels| > 0 {
      var prefix := labels[..|labels| - 1];
      var last := labels[|labels| - 1];
      assert labels == prefix + [last];
      assert multiset(labels) - multiset{last} == multiset(prefix);
      PairsInIsWithin(kind, prefix);
      WithinPick(kind, multiset(labels), last);
      RowInIsBagSum(kind, prefix, last);
      CrossSingletonRight(kind, multiset(prefix), last);
    }
  }
}
