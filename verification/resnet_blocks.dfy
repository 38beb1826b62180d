/**
 * The blocks of a residual network: the block schedule of one stack, and
 * the blocks of the whole network from its plan of stacks.
 */
module ResnetBlocks {
  import opened Results
  import opened Decimal
  import opened ResnetConfig

  /** One residual block: its name, inner and output feature maps, stride and shortcut kind. */
  datatype BlockSpec = BlockSpec(
    name: string,
    numFmaps: int,
    numFmapsOut: int,
    stride: int,
    convShortcut: bool,
    isFirstBlock: bool)

  /** Bottleneck blocks widen their output four times. */
  function StackWidth(numFmaps: int, useBottleneck: bool): int {
    if useBottleneck then 4 * numFmaps else numFmaps
  }

  function BlockName(stack: string, i: int): string {
    stack + "_block" + IntToString(i)
  }

  /**
   * The blocks of one stack: a first block with a convolution shortcut,
   * blocks 2 to `numBlocks - 1`, and a last block, numbered `numBlocks`,
   * that alone takes the stack's stride. A stack always has the first and
   * the last block, even for fewer than two blocks.
   */
  function StackBlocks(s: StackSpec, useBottleneck: bool): (r: seq<BlockSpec>)
    ensures |r| == if s.numBlocks >= 2 then s.numBlocks else 2
    ensures forall k | 0 <= k < |r| :: r[k].convShortcut <==> k == 0
    ensures forall k | 0 <= k < |r| :: r[k].stride == if k == |r| - 1 then s.stride1 else 1
    ensures forall k | 0 <= k < |r| :: r[k].isFirstBlock <==> k == 0 && s.isFirstBlock
    ensures forall k | 0 <= k < |r| :: r[k].numFmaps == s.numFmaps && r[k].numFmapsOut == StackWidth(s.numFmaps, useBottleneck)
    ensures s.numBlocks >= 2 ==> forall k | 0 <= k < |r| :: r[k].name == BlockName(s.name, k + 1)
  {
    var n := if s.numBlocks >= 2 then s.numBlocks else 2;
    seq(n, k requires 0 <= k < n => StackBlock(s, useBottleneck, k, n))
  }

  /**
   * Block `k` of the `n` blocks of a stack. The last is named after the
   * stack's block count and is the only one with the stack's stride; the
   * first, which is never the last, has the convolution shortcut.
   */
  function StackBlock(s: StackSpec, useBottleneck: bool, k: nat, n: nat): BlockSpec
    requires 2 <= n && k < n
  {
    var width := StackWidth(s.numFmaps, useBottleneck);
    if k == 0 then BlockSpec(BlockName(s.name, 1), s.numFmaps, width, 1, true, s.isFirstBlock)
    else if k < n - 1 then BlockSpec(BlockName(s.name, k + 1), s.numFmaps, width, 1, false, false)
    else BlockSpec(BlockName(s.name, s.numBlocks), s.numFmaps, width, s.stride1, false, false)
  }

  /** With at least two blocks every block of a stack has its own name. */
  lemma StackBlockNamesDistinct(s: StackSpec, useBottleneck: bool, i: nat, j: nat)
    requires s.numBlocks >= 2 && i < j < |StackBlocks(s, useBottleneck)|
    ensures StackBlocks(s, useBottleneck)[i].name != StackBlocks(s, useBottleneck)[j].name
  {
    var r := StackBlocks(s, useBottleneck);
    assert r[i].name == (s.name + "_block") + IntToString(i + 1);
    assert r[j].name == (s.name + "_block") + IntToString(j + 1);
    PrefixedNumbersDistinct(s.name + "_block", i + 1, j + 1);
  }

  /** A stack of one block still has two, both named after block one. */
  lemma SingleBlockStackRepeatsName(s: StackSpec, useBottleneck: bool)
    requires s.numBlocks == 1
    ensures |StackBlocks(s, useBottleneck)| == 2
    ensures StackBlocks(s, useBottleneck)[0].name == StackBlocks(s, useBottleneck)[1].name == BlockName(s.name, 1)
  {
    var r := StackBlocks(s, useBottleneck);
    assert r[0] == StackBlock(s, useBottleneck, 0, 2) && r[1] == StackBlock(s, useBottleneck, 1, 2);
  }

  /** The blocks of all stacks, stack after stack. */
  function NetworkBlocks(stacks: seq<StackSpec>, useBottleneck: bool): seq<BlockSpec> {
    if |stacks| == 0 then [] else NetworkBlocks(stacks[..|stacks| - 1], useBottleneck) + StackBlocks(stacks[|stacks| - 1], useBottleneck)
  }

  /** How many blocks downsample, by a stride other than one. */
  function StridedCount(blocks: seq<BlockSpec>): nat {
    if |blocks| == 0 then 0 else StridedCount(blocks[..|blocks| - 1]) + (if blocks[|blocks| - 1].stride != 1 then 1 else 0)
  }

  /** How many blocks are marked as the first block of the network. */
  function FirstCount(blocks: seq<BlockSpec>): nat {
    if |blocks| == 0 then 0 else FirstCount(blocks[..|blocks| - 1]) + (if blocks[|blocks| - 1].isFirstBlock then 1 else 0)
  }

  lemma {:induction false} CountsAppend(a: seq<BlockSpec>, b: seq<BlockSpec>)
    ensures StridedCount(a + b) == StridedCount(a) + StridedCount(b)
    ensures FirstCount(a + b) == FirstCount(a) + FirstCount(b)
    decreases |b|
  {
    if |b| == 0 {
      assert a + b == a;
    } else {
      var b' := b[..|b| - 1];
      assert (a + b)[..|a + b| - 1] == a + b';
      CountsAppend(a, b');
    }
  }

  /** Within a stack only the last block can downsample, and only the first can be the network's first. */
  lemma {:induction false} StackCounts(s: StackSpec, useBottleneck: bool)
    ensures StridedCount(StackBlocks(s, useBottleneck)) == if s.stride1 != 1 then 1 else 0
    ensures FirstCount(StackBlocks(s, useBottleneck)) == if s.isFirstBlock then 1 else 0
  {
    var r := StackBlocks(s, useBottleneck);
    var n := |r|;
    forall k | 0 <= k <= n - 1
      ensures StridedCount(r[..k]) == 0
      ensures FirstCount(r[..k]) == if k > 0 && s.isFirstBlock then 1 else 0
    {
      PrefixCounts(r, k, s.isFirstBlock);
    }
    assert r[..n - 1] + [r[n - 1]] == r;
    CountsAppend(r[..n - 1], [r[n - 1]]);
    assert r[..n] == r;
  }

  lemma {:induction false} PrefixCounts(r: seq<BlockSpec>, k: nat, first: bool)
    requires 1 <= |r| && k <= |r| - 1
    requires forall i | 0 <= i < |r| - 1 :: r[i].stride == 1
    requires forall i | 0 <= i < |r| :: r[i].isFirstBlock <==> i == 0 && first
    ensures StridedCount(r[..k]) == 0
    ensures FirstCount(r[..k]) == if k > 0 && first then 1 else 0
  {
    if k > 0 {
      PrefixCounts(r, k - 1, first);
      assert r[..k][..k - 1] == r[..k - 1];
    }
  }

  /**
   * Over the whole network from a plan of stacks, every stack but the last
   * downsamples once, in its last block; exactly one block is the
   * network's first.
   */
  lemma {:induction false} NetworkCounts(numBlocks: seq<int>, numFmaps: seq<int>, useBottleneck: bool, m: nat)
    requires StackPlan(numBlocks, numFmaps).Success?
    requires 1 <= m <= |numBlocks|
    ensures StridedCount(NetworkBlocks(StackPlan(numBlocks, numFmaps).value[..m], useBottleneck))
            == if m == |numBlocks| then m - 1 else m
    ensures FirstCount(NetworkBlocks(StackPlan(numBlocks, numFmaps).value[..m], useBottleneck)) == 1
  {
    var stacks := StackPlan(numBlocks, numFmaps).value;
    var prefix := stacks[..m];
    assert prefix[..m - 1] == stacks[..m - 1];
    StackCounts(stacks[m - 1], useBottleneck);
    CountsAppend(NetworkBlocks(stacks[..m - 1], useBottleneck), StackBlocks(stacks[m - 1], useBottleneck));
    if m > 1 {
      NetworkCounts(numBlocks, numFmaps, useBottleneck, m - 1);
    }
  }

  /** `NetworkCounts` over all the stacks. */
  lemma PlanCounts(numBlocks: seq<int>, numFmaps: seq<int>, useBottleneck: bool)
    requires StackPlan(numBlocks, numFmaps).Success?
    ensures |numBlocks| >= 1 ==>
              && StridedCount(NetworkBlocks(StackPlan(numBlocks, numFmaps).value, useBottleneck)) == |numBlocks| - 1
              && FirstCount(NetworkBlocks(StackPlan(numBlocks, numFmaps).value, useBottleneck)) == 1
  {
    var n := |numBlocks|;
    if n >= 1 {
      NetworkCounts(numBlocks, numFmaps, useBottleneck, n);
      assert StackPlan(numBlocks, numFmaps).value[..n] == StackPlan(numBlocks, numFmaps).value;
    }
  }

  datatype PlanError =
    | BadConfig(error: ConfigError)   // the configuration is rejected
    | MissingFmaps(index: nat)        // a stack at `index` has no feature map count

  /** The blocks of the network, from its configuration and per-stack feature map counts. */
  function NetworkPlan(size: Option<string>, numBlocks: Option<seq<int>>, useBottleneck: Option<bool>, numFmaps: seq<int>)
    : (r: Result<seq<BlockSpec>, PlanError>)
    ensures var config := Configure(size, numBlocks, useBottleneck);
            r.Failure? <==> config.Failure? || |config.value.numBlocks| > |numFmaps|
    ensures var config := Configure(size, numBlocks, useBottleneck);
            r.Success? && |config.value.numBlocks| >= 1 ==>
              && StridedCount(r.value) == |config.value.numBlocks| - 1
              && FirstCount(r.value) == 1
  {
    var config := Configure(size, numBlocks, useBottleneck);
    if config.Failure? then Failure(BadConfig(config.error))
    else
      var stacks := StackPlan(config.value.numBlocks, numFmaps);
      if stacks.Failure? then Failure(MissingFmaps(stacks.error))
      else
        PlanCounts(config.value.numBlocks, numFmaps, config.value.useBottleneck);
        Success(NetworkBlocks(stacks.value, config.value.useBottleneck))
  }

  /** Every named size builds with the default feature maps and downsamples three times. */
  lemma NamedSizesBuild(size: string, numBlocks: Option<seq<int>>, useBottleneck: Option<bool>)
    requires size in SizeNames
    ensures NetworkPlan(Some(size), numBlocks, useBottleneck, DefaultFmaps).Success?
    ensures StridedCount(NetworkPlan(Some(size), numBlocks, useBottleneck, DefaultFmaps).value) == 3
  {
  }
}
