/**
 * Second phase of the ultrametric loss gradient: with the edges sorted by
 * distance, sliding-window sums of the normalised pair ratios, computed
 * with a trailing edge index that follows the current edge.
 */
module UmLossScores {
  predicate Ascending(d: seq<real>) {
    forall i, j | 0 <= i <= j < |d| :: d[i] <= d[j]
  }

  /** `w[0] + ... + w[m-1]`. */
  function PrefixSum(w: seq<real>, m: nat): real
    requires m <= |w|
  {
    if m == 0 then 0.0 else PrefixSum(w, m - 1) + w[m - 1]
  }

  /** Sum of `w[k]` over the first `m` edges whose distance is at most `bound`. */
  function SumAtMost(d: seq<real>, w: seq<real>, bound: real, m: nat): real
    requires m <= |d| && m <= |w|
  {
    if m == 0 then 0.0
    else SumAtMost(d, w, bound, m - 1) + (if d[m - 1] <= bound then w[m - 1] else 0.0)
  }

  /** Sum of `w[k]` over the first `m` edges whose distance is at least `bound`. */
  function SumAtLeast(d: seq<real>, w: seq<real>, bound: real, m: nat): real
    requires m <= |d| && m <= |w|
  {
    if m == 0 then 0.0
    else SumAtLeast(d, w, bound, m - 1) + (if d[m - 1] >= bound then w[m - 1] else 0.0)
  }

  /** On ascending distances, the edges within `bound` are a prefix, of length `i`. */
  lemma {:induction false} AtMostIsPrefix(d: seq<real>, w: seq<real>, bound: real, i: nat, m: nat)
    requires |d| == |w| && Ascending(d)
    requires i <= |d| && m <= |d|
    requires i > 0 ==> d[i - 1] <= bound
    requires i < |d| ==> d[i] > bound
    ensures SumAtMost(d, w, bound, m) == PrefixSum(w, if m <= i then m else i)
  {
    if m > 0 {
      AtMostIsPrefix(d, w, bound, i, m - 1);
      if m - 1 < i {
        assert d[m - 1] <= d[i - 1];
      } else {
        assert d[i] <= d[m - 1];
      }
    }
  }

  /** On ascending distances, the edges from `bound` on are a suffix, starting at `i`. */
  lemma {:induction false} AtLeastIsSuffix(d: seq<real>, w: seq<real>, bound: real, i: nat, m: nat)
    requires |d| == |w| && Ascending(d)
    requires i <= |d| && m <= |d|
    requires i > 0 ==> d[i - 1] < bound
    requires i < |d| ==> d[i] >= bound
    ensures SumAtLeast(d, w, bound, m) == if m <= i then 0.0 else PrefixSum(w, m) - PrefixSum(w, i)
  {
    if m > 0 {
      AtLeastIsSuffix(d, w, bound, i, m - 1);
      if m - 1 < i {
        assert d[m - 1] <= d[i - 1];
      } else {
        assert d[i] <= d[m - 1];
      }
    }
  }

  /**
   * The upward pass. Walking the edges in ascending order with a running
   * sum, the trailing edge `j` is given the running sum as soon as the
   * current edge is more than `alpha` further than it. So edge `j` receives
   * the sum of `w` over every edge no further than its own distance plus
   * `alpha`.
   */
  method UpwardScores(d: seq<real>, w: seq<real>, alpha: real) returns (scores: seq<real>)
    requires |d| == |w| && Ascending(d) && alpha >= 0.0
    ensures |scores| == |d|
    ensures forall j | 0 <= j < |d| :: scores[j] == SumAtMost(d, w, d[j] + alpha, |d|)
  {
    var n := |d|;
    scores := seq(n, _ => 0.0);
    var score := 0.0;
    var j := 0;
    var i := 0;
    while i < n
      invariant 0 <= j <= i <= n && |scores| == n
      invariant score == PrefixSum(w, i)
      invariant i > 0 && j < n ==> d[i - 1] <= d[j] + alpha
      invariant forall k | 0 <= k < j :: scores[k] == SumAtMost(d, w, d[k] + alpha, n)
    {
      var distance := d[i];
      while d[j] < distance - alpha
        invariant j <= i && |scores| == n
        invariant i > 0 ==> d[i - 1] <= d[j] + alpha
        invariant forall k | 0 <= k < j :: scores[k] == SumAtMost(d, w, d[k] + alpha, n)
        decreases i - j
      {
        AtMostIsPrefix(d, w, d[j] + alpha, i, n);
        scores := scores[j := score];
        j := j + 1;
      }
      score := score + w[i];
      i := i + 1;
    }
    while j < n
      invariant 0 <= j <= n && |scores| == n
      invariant score == PrefixSum(w, n)
      invariant n > 0 && j < n ==> d[n - 1] <= d[j] + alpha
      invariant forall k | 0 <= k < j :: scores[k] == SumAtMost(d, w, d[k] + alpha, n)
    {
      AtMostIsPrefix(d, w, d[j] + alpha, n, n);
      scores := scores[j := score];
      j := j + 1;
      if j < n {
        assert d[j - 1] <= d[j];
      }
    }
  }

  /**
   * The downward pass, symmetric to the upward one: walking the edges from
   * the furthest down, edge `j` receives the sum of `w` over every edge at
   * least as far as its own distance minus `alpha`. It needs at least one
   * edge: the walk starts at the last one.
   */
  method DownwardScores(d: seq<real>, w: seq<real>, alpha: real) returns (scores: seq<real>)
    requires |d| == |w| >= 1 && Ascending(d) && alpha >= 0.0
    ensures |scores| == |d|
    ensures forall j | 0 <= j < |d| :: scores[j] == SumAtLeast(d, w, d[j] - alpha, |d|)
  {
    var m := |d|;
    scores := seq(m, _ => 0.0);
    var score := 0.0;
    var j := m - 1;
    var i := m - 1;
    while true
      invariant 0 <= i <= j < m && |scores| == m
      invariant score == PrefixSum(w, m) - PrefixSum(w, i + 1)
      invariant i < m - 1 ==> d[j] - alpha <= d[i + 1]
      invariant forall k | j < k < m :: scores[k] == SumAtLeast(d, w, d[k] - alpha, m)
      decreases i
    {
      var distance := d[i];
      while d[j] > distance + alpha
        invariant i <= j < m && |scores| == m
        invariant i < m - 1 ==> d[j] - alpha <= d[i + 1]
        invariant forall k | j < k < m :: scores[k] == SumAtLeast(d, w, d[k] - alpha, m)
        decreases j
      {
        AtLeastIsSuffix(d, w, d[j] - alpha, i + 1, m);
        scores := scores[j := score];
        j := j - 1;
        assert d[j] <= d[j + 1];
      }
      score := score + w[i];
      if i == 0 {
        break;
      }
      i := i - 1;
    }
    while true
      invariant 0 <= j < m && |scores| == m
      invariant score == PrefixSum(w, m)
      invariant d[j] - alpha <= d[0]
      invariant forall k | j < k < m :: scores[k] == SumAtLeast(d, w, d[k] - alpha, m)
      decreases j
    {
      AtLeastIsSuffix(d, w, d[j] - alpha, 0, m);
      scores := scores[j := score];
      if j == 0 {
        break;
      }
      j := j - 1;
      assert d[j] <= d[j + 1];
    }
  }

  /** `d[k] * w[k]` for every edge `k`: the weights of the second running score. */
  function Times(d: seq<real>, w: seq<real>): (r: seq<real>)
    requires |d| == |w|
    ensures |r| == |d|
  {
    seq(|d|, k requires 0 <= k < |d| => d[k] * w[k])
  }

  /** `d[k] * d[k] * w[k]` for every edge `k`: the weights of the third running score. */
  function SquareTimes(d: seq<real>, w: seq<real>): (r: seq<real>)
    requires |d| == |w|
    ensures |r| == |d|
  {
    seq(|d|, k requires 0 <= k < |d| => d[k] * d[k] * w[k])
  }

  /** For every edge `j`, the sum of `w` over the edges no further than `d[j] + alpha`. */
  function UpwardSums(d: seq<real>, w: seq<real>, alpha: real): (r: seq<real>)
    requires |d| == |w|
    ensures |r| == |d|
  {
    seq(|d|, j requires 0 <= j < |d| => WindowBelow(d, w, d[j] + alpha))
  }

  /** For every edge `j`, the sum of `w` over the edges at least as far as `d[j] - alpha`. */
  function DownwardSums(d: seq<real>, w: seq<real>, alpha: real): (r: seq<real>)
    requires |d| == |w|
    ensures |r| == |d|
  {
    seq(|d|, j requires 0 <= j < |d| => WindowAbove(d, w, d[j] - alpha))
  }

  /** The sum of `w` over all edges no further than `bound`. */
  function WindowBelow(d: seq<real>, w: seq<real>, bound: real): real
    requires |d| == |w|
  {
    SumAtMost(d, w, bound, |d|)
  }

  /** The sum of `w` over all edges at least as far as `bound`. */
  function WindowAbove(d: seq<real>, w: seq<real>, bound: real): real
    requires |d| == |w|
  {
    SumAtLeast(d, w, bound, |d|)
  }

  function Scale(c: real, w: seq<real>): (r: seq<real>)
    ensures |r| == |w|
  {
    seq(|w|, k requires 0 <= k < |w| => c * w[k])
  }

  function Plus(u: seq<real>, v: seq<real>): (r: seq<real>)
    requires |u| == |v|
    ensures |r| == |u|
  {
    seq(|u|, k requires 0 <= k < |u| => u[k] + v[k])
  }

  lemma {:induction false} SumAtMostPlus(d: seq<real>, u: seq<real>, v: seq<real>, bound: real, m: nat)
    requires |u| == |v| && m <= |d| && m <= |u|
    ensures SumAtMost(d, Plus(u, v), bound, m) == SumAtMost(d, u, bound, m) + SumAtMost(d, v, bound, m)
  {
    if m > 0 {
      SumAtMostPlus(d, u, v, bound, m - 1);
    }
  }

  lemma {:induction false} SumAtLeastPlus(d: seq<real>, u: seq<real>, v: seq<real>, bound: real, m: nat)
    requires |u| == |v| && m <= |d| && m <= |u|
    ensures SumAtLeast(d, Plus(u, v), bound, m) == SumAtLeast(d, u, bound, m) + SumAtLeast(d, v, bound, m)
  {
    if m > 0 {
      SumAtLeastPlus(d, u, v, bound, m - 1);
    }
  }

  /** One more edge scales with the rest. */
  lemma ScaleStep(c: bool, p: real, t: real, s: real, n: real, before: real, after: real)
    requires n == s + (if c then t else 0.0) && after == before + (if c then p * t else 0.0)
    requires before == p * s
    ensures after == p * n
  {
  }

  lemma {:induction false} SumAtMostScale(d: seq<real>, c: real, w: seq<real>, bound: real, m: nat)
    requires m <= |d| && m <= |w|
    ensures SumAtMost(d, Scale(c, w), bound, m) == c * SumAtMost(d, w, bound, m)
  {
    if m > 0 {
      SumAtMostScale(d, c, w, bound, m - 1);
      ScaleStep(d[m - 1] <= bound, c, w[m - 1], SumAtMost(d, w, bound, m - 1), SumAtMost(d, w, bound, m),
                SumAtMost(d, Scale(c, w), bound, m - 1), SumAtMost(d, Scale(c, w), bound, m));
    }
  }

  lemma {:induction false} SumAtLeastScale(d: seq<real>, c: real, w: seq<real>, bound: real, m: nat)
    requires m <= |d| && m <= |w|
    ensures SumAtLeast(d, Scale(c, w), bound, m) == c * SumAtLeast(d, w, bound, m)
  {
    if m > 0 {
      SumAtLeastScale(d, c, w, bound, m - 1);
      ScaleStep(d[m - 1] >= bound, c, w[m - 1], SumAtLeast(d, w, bound, m - 1), SumAtLeast(d, w, bound, m),
                SumAtLeast(d, Scale(c, w), bound, m - 1), SumAtLeast(d, Scale(c, w), bound, m));
    }
  }

  /** `c0 * u[k] + c1 * v[k] + c2 * z[k]` for every edge `k`. */
  function Combine(c0: real, u: seq<real>, c1: real, v: seq<real>, c2: real, z: seq<real>): (r: seq<real>)
    requires |u| == |v| == |z|
    ensures |r| == |u|
  {
    Plus(Plus(Scale(c0, u), Scale(c1, v)), Scale(c2, z))
  }

  /** The window sums are linear in the weights. */
  lemma WindowBelowCombine(d: seq<real>, c0: real, u: seq<real>, c1: real, v: seq<real>, c2: real, z: seq<real>, bound: real)
    requires |d| == |u| == |v| == |z|
    ensures WindowBelow(d, Combine(c0, u, c1, v, c2, z), bound)
         == c0 * WindowBelow(d, u, bound) + c1 * WindowBelow(d, v, bound) + c2 * WindowBelow(d, z, bound)
  {
    var n := |d|;
    SumAtMostPlus(d, Plus(Scale(c0, u), Scale(c1, v)), Scale(c2, z), bound, n);
    SumAtMostPlus(d, Scale(c0, u), Scale(c1, v), bound, n);
    SumAtMostScale(d, c0, u, bound, n);
    SumAtMostScale(d, c1, v, bound, n);
    SumAtMostScale(d, c2, z, bound, n);
  }

  lemma WindowAboveCombine(d: seq<real>, c0: real, u: seq<real>, c1: real, v: seq<real>, c2: real, z: seq<real>, bound: real)
    requires |d| == |u| == |v| == |z|
    ensures WindowAbove(d, Combine(c0, u, c1, v, c2, z), bound)
         == c0 * WindowAbove(d, u, bound) + c1 * WindowAbove(d, v, bound) + c2 * WindowAbove(d, z, bound)
  {
    var n := |d|;
    SumAtLeastPlus(d, Plus(Scale(c0, u), Scale(c1, v)), Scale(c2, z), bound, n);
    SumAtLeastPlus(d, Scale(c0, u), Scale(c1, v), bound, n);
    SumAtLeastScale(d, c0, u, bound, n);
    SumAtLeastScale(d, c1, v, bound, n);
    SumAtLeastScale(d, c2, z, bound, n);
  }

  lemma {:induction false} SumAtMostNonNegative(d: seq<real>, w: seq<real>, bound: real, m: nat)
    requires m <= |d| && m <= |w|
    requires forall k | 0 <= k < |w| :: w[k] >= 0.0
    ensures SumAtMost(d, w, bound, m) >= 0.0
  {
    if m > 0 {
      SumAtMostNonNegative(d, w, bound, m - 1);
    }
  }

  /** `p * w[k] * (bound - d[k])^2` for every edge `k`. */
  function RowWeights(d: seq<real>, p: real, w: seq<real>, bound: real): (r: seq<real>)
    requires |d| == |w|
    ensures |r| == |d|
  {
    seq(|d|, k requires 0 <= k < |d| => p * w[k] * (bound - d[k]) * (bound - d[k]))
  }

  /**
   * The loss of one positive edge of weight `p` at distance `bound - alpha`
   * against the negative edges, of weights `w`: every negative edge `k` no
   * further than `bound` costs `p * w[k] * (bound - d[k])^2`.
   */
  function PairRow(d: seq<real>, p: real, w: seq<real>, bound: real): real
    requires |d| == |w|
  {
    WindowBelow(d, RowWeights(d, p, w, bound), bound)
  }

  /** `p * w[k] * (bound - d[k])` for every edge `k`. */
  function PullWeights(d: seq<real>, p: real, w: seq<real>, bound: real): (r: seq<real>)
    requires |d| == |w|
    ensures |r| == |d|
  {
    seq(|d|, k requires 0 <= k < |d| => p * w[k] * (bound - d[k]))
  }

  /**
   * The pull on one positive edge of weight `p` at distance `bound - alpha`
   * from the negative edges, of weights `w`, no further than `bound`:
   * `p * w[k] * (bound - d[k])` each.
   */
  function PullAtMost(d: seq<real>, p: real, w: seq<real>, bound: real): real
    requires |d| == |w|
  {
    WindowBelow(d, PullWeights(d, p, w, bound), bound)
  }

  /** `q * w[k] * (d[k] - bound)` for every edge `k`. */
  function PushWeights(d: seq<real>, q: real, w: seq<real>, bound: real): (r: seq<real>)
    requires |d| == |w|
    ensures |r| == |d|
  {
    seq(|d|, k requires 0 <= k < |d| => q * w[k] * (d[k] - bound))
  }

  /**
   * The push on one negative edge of weight `q` at distance `bound + alpha`
   * from the positive edges, of weights `w`, at least as far as `bound`:
   * `q * w[k] * (d[k] - bound)` each.
   */
  function PushAtLeast(d: seq<real>, q: real, w: seq<real>, bound: real): real
    requires |d| == |w|
  {
    WindowAbove(d, PushWeights(d, q, w, bound), bound)
  }

  lemma RowWeightsSplit(d: seq<real>, p: real, w: seq<real>, bound: real)
    requires |d| == |w|
    ensures RowWeights(d, p, w, bound) == Combine(p * bound * bound, w, -2.0 * p * bound, Times(d, w), p, SquareTimes(d, w))
  {
    var split := Combine(p * bound * bound, w, -2.0 * p * bound, Times(d, w), p, SquareTimes(d, w));
    forall k | 0 <= k < |d|
      ensures RowWeights(d, p, w, bound)[k] == split[k]
    {
      var b, x := bound, d[k];
      assert p * w[k] * (b - x) * (b - x) == (p * b * b) * w[k] + (-2.0 * p * b) * (x * w[k]) + p * (x * x * w[k]);
    }
  }

  lemma PullWeightsSplit(d: seq<real>, p: real, w: seq<real>, bound: real)
    requires |d| == |w|
    ensures PullWeights(d, p, w, bound) == Combine(p * bound, w, -p, Times(d, w), 0.0, w)
  {
    var split := Combine(p * bound, w, -p, Times(d, w), 0.0, w);
    forall k | 0 <= k < |d|
      ensures PullWeights(d, p, w, bound)[k] == split[k]
    {
      assert p * w[k] * (bound - d[k]) == (p * bound) * w[k] + (-p) * (d[k] * w[k]) + 0.0 * w[k];
    }
  }

  lemma PushWeightsSplit(d: seq<real>, q: real, w: seq<real>, bound: real)
    requires |d| == |w|
    ensures PushWeights(d, q, w, bound) == Combine(-q * bound, w, q, Times(d, w), 0.0, w)
  {
    var split := Combine(-q * bound, w, q, Times(d, w), 0.0, w);
    forall k | 0 <= k < |d|
      ensures PushWeights(d, q, w, bound)[k] == split[k]
    {
      assert q * w[k] * (d[k] - bound) == (-q * bound) * w[k] + q * (d[k] * w[k]) + 0.0 * w[k];
    }
  }

  /** A pair row from the three upward sums. */
  lemma RowOfScores(d: seq<real>, p: real, w: seq<real>, bound: real)
    requires |d| == |w|
    ensures PairRow(d, p, w, bound)
         == (p * bound * bound) * WindowBelow(d, w, bound) + (-2.0 * p * bound) * WindowBelow(d, Times(d, w), bound)
            + p * WindowBelow(d, SquareTimes(d, w), bound)
  {
    RowWeightsSplit(d, p, w, bound);
    WindowBelowCombine(d, p * bound * bound, w, -2.0 * p * bound, Times(d, w), p, SquareTimes(d, w), bound);
  }

  /** A pull from the first two upward sums. */
  lemma PullOfScores(d: seq<real>, p: real, w: seq<real>, bound: real)
    requires |d| == |w|
    ensures PullAtMost(d, p, w, bound)
         == (p * bound) * WindowBelow(d, w, bound) + (-p) * WindowBelow(d, Times(d, w), bound) + 0.0 * WindowBelow(d, w, bound)
  {
    PullWeightsSplit(d, p, w, bound);
    WindowBelowCombine(d, p * bound, w, -p, Times(d, w), 0.0, w, bound);
  }

  /** A push from the two downward sums. */
  lemma PushOfScores(d: seq<real>, q: real, w: seq<real>, bound: real)
    requires |d| == |w|
    ensures PushAtLeast(d, q, w, bound)
         == (-q * bound) * WindowAbove(d, w, bound) + q * WindowAbove(d, Times(d, w), bound) + 0.0 * WindowAbove(d, w, bound)
  {
    PushWeightsSplit(d, q, w, bound);
    WindowAboveCombine(d, -q * bound, w, q, Times(d, w), 0.0, w, bound);
  }

  lemma ProductNonNegative(p: real, wk: real, x: real)
    requires p >= 0.0 && wk >= 0.0
    ensures p * wk * x * x >= 0.0
  {
    assert x * x >= 0.0;
    assert p * wk >= 0.0;
    assert p * wk * x * x == (p * wk) * (x * x);
  }

  lemma PairRowNonNegative(d: seq<real>, p: real, w: seq<real>, bound: real)
    requires |d| == |w|
    requires p >= 0.0 && forall k | 0 <= k < |w| :: w[k] >= 0.0
    ensures PairRow(d, p, w, bound) >= 0.0
  {
    var weights := RowWeights(d, p, w, bound);
    forall k | 0 <= k < |weights|
      ensures weights[k] >= 0.0
    {
      ProductNonNegative(p, w[k], bound - d[k]);
    }
    SumAtMostNonNegative(d, weights, bound, |d|);
  }

  /** The contribution of one edge to the loss, from its three upward window sums, as the kernel writes it. */
  function LossTerm(distance: real, alpha: real, ratioPos: real, scoreA: real, scoreB: real, scoreC: real): real
  {
    ratioPos * ((distance * distance + 2.0 * alpha * distance + alpha * alpha) * scoreA
                + (-2.0 * distance - 2.0 * alpha) * scoreB
                + scoreC)
  }

  /** The loss accumulated over the first `m` edges. */
  function LossFromScores(d: seq<real>, ratioPos: seq<real>, scoresA: seq<real>, scoresB: seq<real>, scoresC: seq<real>, alpha: real, m: nat): real
    requires m <= |d| == |ratioPos| == |scoresA| == |scoresB| == |scoresC|
  {
    if m == 0 then 0.0
    else
      LossFromScores(d, ratioPos, scoresA, scoresB, scoresC, alpha, m - 1)
      + LossTerm(d[m - 1], alpha, ratioPos[m - 1], scoresA[m - 1], scoresB[m - 1], scoresC[m - 1])
  }

  /**
   * The loss as a sum over pairs of edges: every positive edge `i` and
   * negative edge `k` with `d[k] <= d[i] + alpha` contribute
   * `ratioPos[i] * ratioNeg[k] * (d[i] + alpha - d[k])^2`, so a negative
   * pair costs when it is not at least `alpha` further than a positive one.
   */
  function PairLoss(d: seq<real>, ratioPos: seq<real>, ratioNeg: seq<real>, alpha: real, m: nat): real
    requires m <= |d| == |ratioPos| == |ratioNeg|
  {
    if m == 0 then 0.0
    else PairLoss(d, ratioPos, ratioNeg, alpha, m - 1) + PairRow(d, ratioPos[m - 1], ratioNeg, d[m - 1] + alpha)
  }

  /** The kernel's coefficients are those of `(d + alpha)^2` and `-2 (d + alpha)`. */
  lemma LossTermStep(x: real, alpha: real, bound: real, p: real, sa: real, sb: real, sc: real, row: real)
    requires bound == x + alpha
    requires row == (p * bound * bound) * sa + (-2.0 * p * bound) * sb + p * sc
    ensures LossTerm(x, alpha, p, sa, sb, sc) == row
  {
    assert x * x + 2.0 * alpha * x + alpha * alpha == bound * bound;
  }

  lemma LossTermIsRow(d: seq<real>, w: seq<real>, x: real, alpha: real, p: real)
    requires |d| == |w|
    ensures LossTerm(x, alpha, p, WindowBelow(d, w, x + alpha), WindowBelow(d, Times(d, w), x + alpha),
                     WindowBelow(d, SquareTimes(d, w), x + alpha))
         == PairRow(d, p, w, x + alpha)
  {
    var bound := x + alpha;
    RowOfScores(d, p, w, bound);
    LossTermStep(x, alpha, bound, p, WindowBelow(d, w, bound), WindowBelow(d, Times(d, w), bound),
                 WindowBelow(d, SquareTimes(d, w), bound), PairRow(d, p, w, bound));
  }

  lemma LossStep(before: real, after: real, pairsBefore: real, pairsAfter: real, term: real, row: real)
    requires after == before + term && pairsAfter == pairsBefore + row
    requires before == pairsBefore && term == row
    ensures after == pairsAfter
  {
  }

  lemma {:induction false} LossIsPairLoss(d: seq<real>, ratioPos: seq<real>, ratioNeg: seq<real>, alpha: real, m: nat)
    requires m <= |d| == |ratioPos| == |ratioNeg|
    ensures LossFromScores(d, ratioPos, UpwardSums(d, ratioNeg, alpha), UpwardSums(d, Times(d, ratioNeg), alpha),
                           UpwardSums(d, SquareTimes(d, ratioNeg), alpha), alpha, m)
         == PairLoss(d, ratioPos, ratioNeg, alpha, m)
  {
    if m > 0 {
      LossIsPairLoss(d, ratioPos, ratioNeg, alpha, m - 1);
      var i := m - 1;
      var sa, sb, sc := UpwardSums(d, ratioNeg, alpha), UpwardSums(d, Times(d, ratioNeg), alpha), UpwardSums(d, SquareTimes(d, ratioNeg), alpha);
      assert sa[i] == WindowBelow(d, ratioNeg, d[i] + alpha);
      assert sb[i] == WindowBelow(d, Times(d, ratioNeg), d[i] + alpha);
      assert sc[i] == WindowBelow(d, SquareTimes(d, ratioNeg), d[i] + alpha);
      LossTermIsRow(d, ratioNeg, d[i], alpha, ratioPos[i]);
      LossStep(LossFromScores(d, ratioPos, sa, sb, sc, alpha, m - 1), LossFromScores(d, ratioPos, sa, sb, sc, alpha, m),
               PairLoss(d, ratioPos, ratioNeg, alpha, m - 1), PairLoss(d, ratioPos, ratioNeg, alpha, m),
               LossTerm(d[i], alpha, ratioPos[i], sa[i], sb[i], sc[i]), PairRow(d, ratioPos[i], ratioNeg, d[i] + alpha));
    }
  }

  lemma {:induction false} PairLossNonNegative(d: seq<real>, ratioPos: seq<real>, ratioNeg: seq<real>, alpha: real, m: nat)
    requires m <= |d| == |ratioPos| == |ratioNeg|
    requires forall k | 0 <= k < |d| :: ratioPos[k] >= 0.0 && ratioNeg[k] >= 0.0
    ensures PairLoss(d, ratioPos, ratioNeg, alpha, m) >= 0.0
  {
    if m > 0 {
      PairLossNonNegative(d, ratioPos, ratioNeg, alpha, m - 1);
      PairRowNonNegative(d, ratioPos[m - 1], ratioNeg, d[m - 1] + alpha);
    }
  }

  /** The gradient of one edge from its window sums, as the kernel writes it. */
  function GradientTerm(distance: real, alpha: real, ratioPos: real, ratioNeg: real, scoreA: real, scoreB: real, scoreD: real, scoreE: real): real
  {
    2.0 * ratioPos * ((alpha + distance) * (scoreA - ratioNeg) - (scoreB - distance * ratioNeg))
    - 2.0 * ratioNeg * ((alpha - distance) * (scoreD - ratioPos) + (scoreE - distance * ratioPos))
  }

  /** The self-pair terms `alpha * ratioPos * ratioNeg` of the two halves cancel. */
  lemma GradientStep(x: real, alpha: real, p: real, q: real, sa: real, sb: real, sd: real, se: real, pull: real, push: real)
    requires pull == (p * (x + alpha)) * sa + (-p) * sb + 0.0 * sa
    requires push == (-q * (x - alpha)) * sd + q * se + 0.0 * sd
    ensures GradientTerm(x, alpha, p, q, sa, sb, sd, se) == 2.0 * pull - 2.0 * push
  {
    assert (alpha + x) * (sa - q) - (sb - x * q) == ((x + alpha) * sa - sb) - alpha * q;
    assert (alpha - x) * (sd - p) + (se - x * p) == (se - (x - alpha) * sd) - alpha * p;
    assert p * (alpha * q) == q * (alpha * p);
  }

  /**
   * The gradient of edge `i` as a sum over pairs: as a positive edge, `i`
   * is pulled by every negative edge within `alpha` above it; as a negative
   * edge, it is pushed by every positive edge within `alpha` below it.
   */
  function PairGradient(d: seq<real>, ratioPos: seq<real>, ratioNeg: seq<real>, alpha: real, i: nat): real
    requires |d| == |ratioPos| == |ratioNeg| && i < |d|
  {
    2.0 * PullAtMost(d, ratioPos[i], ratioNeg, d[i] + alpha) - 2.0 * PushAtLeast(d, ratioNeg[i], ratioPos, d[i] - alpha)
  }

  /** The kernel's gradient of edge `i`, from the window sums, is the pair sum `PairGradient`. */
  lemma GradientIsPairSum(d: seq<real>, ratioPos: seq<real>, ratioNeg: seq<real>, alpha: real, i: nat)
    requires |d| == |ratioPos| == |ratioNeg| && i < |d|
    ensures GradientTerm(d[i], alpha, ratioPos[i], ratioNeg[i],
                         UpwardSums(d, ratioNeg, alpha)[i], UpwardSums(d, Times(d, ratioNeg), alpha)[i],
                         DownwardSums(d, ratioPos, alpha)[i], DownwardSums(d, Times(d, ratioPos), alpha)[i])
            == 2.0 * PullAtMost(d, ratioPos[i], ratioNeg, d[i] + alpha)
               - 2.0 * PushAtLeast(d, ratioNeg[i], ratioPos, d[i] - alpha)
  {
    PullOfScores(d, ratioPos[i], ratioNeg, d[i] + alpha);
    PushOfScores(d, ratioNeg[i], ratioPos, d[i] - alpha);
    GradientStep(d[i], alpha, ratioPos[i], ratioNeg[i],
                 WindowBelow(d, ratioNeg, d[i] + alpha), WindowBelow(d, Times(d, ratioNeg), d[i] + alpha),
                 WindowAbove(d, ratioPos, d[i] - alpha), WindowAbove(d, Times(d, ratioPos), d[i] - alpha),
                 PullAtMost(d, ratioPos[i], ratioNeg, d[i] + alpha), PushAtLeast(d, ratioNeg[i], ratioPos, d[i] - alpha));
  }
}
