/**
 * The ultrametric loss and its gradient over the edges of a minimum
 * spanning tree: pair counting and normalisation, then the upward and
 * downward window passes, then the loss and the per-edge gradient.
 */
module UmLossGradient {
  import opened Results
  import opened PairCounts
  import opened Mst
  import opened UmLossPairs
  import opened UmLossScores

  /** What the kernel returns and writes to its output arrays. */
  datatype LossGradient = LossGradient(
    loss: real,
    gradients: seq<real>,
    ratioPos: seq<real>,
    ratioNeg: seq<real>,
    totalPositive: nat,
    totalNegative: nat)

  lemma SortedIsAscending(edges: seq<Edge>)
    requires SortedByDistance(edges)
    ensures Ascending(Distances(edges))
  {
  }

  /**
   * The loss of the kernel is the pair loss: the sum, over every positive
   * edge `i` and negative edge `k` with `d[k] <= d[i] + alpha`, of
   * `ratioPos[i] * ratioNeg[k] * (d[i] + alpha - d[k])^2`.
   */
  lemma LossOfWindows(d: seq<real>, ratioPos: seq<real>, ratioNeg: seq<real>, alpha: real,
                      scoresA: seq<real>, scoresB: seq<real>, scoresC: seq<real>)
    requires |d| == |ratioPos| == |ratioNeg| == |scoresA| == |scoresB| == |scoresC|
    requires forall j | 0 <= j < |d| :: scoresA[j] == SumAtMost(d, ratioNeg, d[j] + alpha, |d|)
    requires forall j | 0 <= j < |d| :: scoresB[j] == SumAtMost(d, Times(d, ratioNeg), d[j] + alpha, |d|)
    requires forall j | 0 <= j < |d| :: scoresC[j] == SumAtMost(d, SquareTimes(d, ratioNeg), d[j] + alpha, |d|)
    ensures LossFromScores(d, ratioPos, scoresA, scoresB, scoresC, alpha, |d|) == PairLoss(d, ratioPos, ratioNeg, alpha, |d|)
  {
    assert scoresA == UpwardSums(d, ratioNeg, alpha);
    assert scoresB == UpwardSums(d, Times(d, ratioNeg), alpha);
    assert scoresC == UpwardSums(d, SquareTimes(d, ratioNeg), alpha);
    LossIsPairLoss(d, ratioPos, ratioNeg, alpha, |d|);
  }

  /**
   * The loss loop: adds the kernel term of every edge in order, from the
   * upward window sums of the negative ratios; the total is the pair loss.
   */
  method AccumulateLoss(d: seq<real>, ratioPos: seq<real>, ratioNeg: seq<real>, alpha: real,
                        scoresA: seq<real>, scoresB: seq<real>, scoresC: seq<real>)
    returns (loss: real)
    requires |d| == |ratioPos| == |ratioNeg| == |scoresA| == |scoresB| == |scoresC|
    requires forall j | 0 <= j < |d| :: scoresA[j] == SumAtMost(d, ratioNeg, d[j] + alpha, |d|)
    requires forall j | 0 <= j < |d| :: scoresB[j] == SumAtMost(d, Times(d, ratioNeg), d[j] + alpha, |d|)
    requires forall j | 0 <= j < |d| :: scoresC[j] == SumAtMost(d, SquareTimes(d, ratioNeg), d[j] + alpha, |d|)
    ensures loss == PairLoss(d, ratioPos, ratioNeg, alpha, |d|)
  {
    loss := 0.0;
    var i := 0;
    while i < |d|
      invariant 0 <= i <= |d|
      invariant loss == LossFromScores(d, ratioPos, scoresA, scoresB, scoresC, alpha, i)
    {
      loss := loss + LossTerm(d[i], alpha, ratioPos[i], scoresA[i], scoresB[i], scoresC[i]);
      i := i + 1;
    }
    LossOfWindows(d, ratioPos, ratioNeg, alpha, scoresA, scoresB, scoresC);
  }

  /** The gradient of edge `i` from its window sums is its pair-sum form. */
  lemma GradientOfWindows(d: seq<real>, ratioPos: seq<real>, ratioNeg: seq<real>, alpha: real, i: nat,
                          scoresA: seq<real>, scoresB: seq<real>, scoresD: seq<real>, scoresE: seq<real>)
    requires |d| == |ratioPos| == |ratioNeg| == |scoresA| == |scoresB| == |scoresD| == |scoresE| && i < |d|
    requires scoresA[i] == SumAtMost(d, ratioNeg, d[i] + alpha, |d|)
    requires scoresB[i] == SumAtMost(d, Times(d, ratioNeg), d[i] + alpha, |d|)
    requires scoresD[i] == SumAtLeast(d, ratioPos, d[i] - alpha, |d|)
    requires scoresE[i] == SumAtLeast(d, Times(d, ratioPos), d[i] - alpha, |d|)
    ensures GradientTerm(d[i], alpha, ratioPos[i], ratioNeg[i], scoresA[i], scoresB[i], scoresD[i], scoresE[i])
            == PairGradient(d, ratioPos, ratioNeg, alpha, i)
  {
    GradientIsPairSum(d, ratioPos, ratioNeg, alpha, i);
  }

  /** The gradient loop. */
  method Gradients(d: seq<real>, ratioPos: seq<real>, ratioNeg: seq<real>, alpha: real,
                   scoresA: seq<real>, scoresB: seq<real>, scoresD: seq<real>, scoresE: seq<real>)
    returns (gradients: seq<real>)
    requires |d| == |ratioPos| == |ratioNeg| == |scoresA| == |scoresB| == |scoresD| == |scoresE|
    requires forall j | 0 <= j < |d| :: scoresA[j] == SumAtMost(d, ratioNeg, d[j] + alpha, |d|)
    requires forall j | 0 <= j < |d| :: scoresB[j] == SumAtMost(d, Times(d, ratioNeg), d[j] + alpha, |d|)
    requires forall j | 0 <= j < |d| :: scoresD[j] == SumAtLeast(d, ratioPos, d[j] - alpha, |d|)
    requires forall j | 0 <= j < |d| :: scoresE[j] == SumAtLeast(d, Times(d, ratioPos), d[j] - alpha, |d|)
    ensures |gradients| == |d|
    ensures forall i | 0 <= i < |d| ::
              gradients[i] == PairGradient(d, ratioPos, ratioNeg, alpha, i)
  {
    gradients := [];
    var i := 0;
    while i < |d|
      invariant 0 <= i <= |d| && |gradients| == i
      invariant forall k | 0 <= k < i ::
                  gradients[k] == PairGradient(d, ratioPos, ratioNeg, alpha, k)
    {
      GradientOfWindows(d, ratioPos, ratioNeg, alpha, i, scoresA, scoresB, scoresD, scoresE);
      gradients := gradients + [GradientTerm(d[i], alpha, ratioPos[i], ratioNeg[i], scoresA[i], scoresB[i], scoresD[i], scoresE[i])];
      i := i + 1;
    }
  }

  /**
   * The window passes, the loss and the gradients over edges of ascending
   * distance with their normalised ratios.
   */
  method LossAndGradients(d: seq<real>, ratioPos: seq<real>, ratioNeg: seq<real>, alpha: real)
    returns (loss: real, gradients: seq<real>)
    requires |d| == |ratioPos| == |ratioNeg| >= 1 && Ascending(d) && alpha >= 0.0
    requires forall k | 0 <= k < |d| :: ratioPos[k] >= 0.0 && ratioNeg[k] >= 0.0
    ensures loss == PairLoss(d, ratioPos, ratioNeg, alpha, |d|) && loss >= 0.0
    ensures |gradients| == |d|
    ensures forall i | 0 <= i < |d| ::
              gradients[i] == PairGradient(d, ratioPos, ratioNeg, alpha, i)
  {
    var scoresA := UpwardScores(d, ratioNeg, alpha);
    var scoresB := UpwardScores(d, Times(d, ratioNeg), alpha);
    var scoresC := UpwardScores(d, SquareTimes(d, ratioNeg), alpha);
    loss := AccumulateLoss(d, ratioPos, ratioNeg, alpha, scoresA, scoresB, scoresC);
    PairLossNonNegative(d, ratioPos, ratioNeg, alpha, |d|);

    var scoresD := DownwardScores(d, ratioPos, alpha);
    var scoresE := DownwardScores(d, Times(d, ratioPos), alpha);
    gradients := Gradients(d, ratioPos, ratioNeg, alpha, scoresA, scoresB, scoresD, scoresE);
  }

  /**
   * The kernel. Given the ground-truth label of each of the `n` nodes and
   * the `n - 1` edges of their minimum spanning tree in ascending order of
   * distance, it fails where an edge joins two nodes already joined by
   * earlier edges; otherwise it returns the totals of positive and negative
   * node pairs, the normalised per-edge ratios, the loss as a sum over pairs
   * and the gradient of every edge as a sum over the pairs it takes part in.
   */
  method UmLossGradient(gtSeg: seq<int>, edges: seq<Edge>, alpha: real) returns (r: Result<LossGradient, LossError>)
    requires |gtSeg| >= 2 && |edges| == |gtSeg| - 1
    requires EndpointsBelow(edges, |gtSeg|) && SortedByDistance(edges)
    requires alpha >= 0.0
    ensures r.Failure? <==> exists k | 0 <= k < |edges| :: JoinedBefore(gtSeg, edges, k)
    ensures r.Failure? ==> r.error.edge < |edges| && JoinedBefore(gtSeg, edges, r.error.edge)
    ensures r.Success? ==>
              && r.value.totalPositive == PairsIn(Positive, gtSeg)
              && r.value.totalNegative == PairsIn(Negative, gtSeg)
    ensures r.Success? ==>
              && |r.value.ratioPos| == |edges| && |r.value.ratioNeg| == |edges| && |r.value.gradients| == |edges|
              && (forall i | 0 <= i < |edges| :: r.value.ratioPos[i] >= 0.0 && r.value.ratioNeg[i] >= 0.0)
              && (r.value.totalPositive > 0 ==> RealTotal(r.value.ratioPos) == 1.0)
              && (r.value.totalNegative > 0 ==> RealTotal(r.value.ratioNeg) == 1.0)
    ensures r.Success? ==> forall k | 0 <= k < |edges| ::
              && Replay(gtSeg, edges, k).Success?
              && IsShare(r.value.ratioPos[k], PairsMergedBy(Positive, gtSeg, edges, k), r.value.totalPositive)
              && IsShare(r.value.ratioNeg[k], PairsMergedBy(Negative, gtSeg, edges, k), r.value.totalNegative)
    ensures r.Success? ==>
              && r.value.loss == PairLoss(Distances(edges), r.value.ratioPos, r.value.ratioNeg, alpha, |edges|)
              && r.value.loss >= 0.0
    ensures r.Success? ==>
              forall i | 0 <= i < |edges| ::
                r.value.gradients[i] == PairGradient(Distances(edges), r.value.ratioPos, r.value.ratioNeg, alpha, i)
  {
    var counted := CountPairs(gtSeg, edges);
    if counted.Failure? {
      return Failure(counted.error);
    }
    var counts := counted.value;
    var ratioPos := Normalise(counts.positive, counts.totalPositive);
    var ratioNeg := Normalise(counts.negative, counts.totalNegative);
    RatiosOfKind(Positive, gtSeg, edges, counts.positive, counts.totalPositive);
    RatiosOfKind(Negative, gtSeg, edges, counts.negative, counts.totalNegative);
    var d := Distances(edges);
    SortedIsAscending(edges);
    var loss, gradients := LossAndGradients(d, ratioPos, ratioNeg, alpha);
    r := Success(LossGradient(loss, gradients, ratioPos, ratioNeg, counts.totalPositive, counts.totalNegative));
  }
}
