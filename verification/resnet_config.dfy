/**
 * The configuration of a residual network: the fixed table of named sizes,
 * the explicit alternative to it, and the plan of stacks built from the
 * per-stack block counts.
 */
module ResnetConfig {
  import opened Results
  import opened Decimal

  /** The number of blocks of every stack, and whether blocks use the bottleneck structure. */
  datatype Config = Config(numBlocks: seq<int>, useBottleneck: bool)

  datatype ConfigError =
    | UnknownSize(size: string)   // a size that is not in the table
    | MissingConfig               // no size, and not both block counts and block structure

  /** The sizes the table knows. */
  const SizeNames: set<string> := {"18", "34", "50", "101"}

  /** The per-stack feature map counts used when none are given. */
  const DefaultFmaps: seq<int> := [64, 128, 256, 512]

  /** The named sizes: four stacks each; the two larger sizes use bottleneck blocks. */
  function SizeTable(size: string): (r: Option<Config>)
    ensures r.Some? <==> size in SizeNames
    ensures r.Some? ==> |r.value.numBlocks| == 4
    ensures r.Some? ==> (r.value.useBottleneck <==> size == "50" || size == "101")
    ensures r.Some? ==> forall i | 0 <= i < 4 :: r.value.numBlocks[i] >= 2
  {
    if size == "18" then Some(Config([2, 2, 2, 2], false))
    else if size == "34" then Some(Config([3, 4, 6, 4], false))
    else if size == "50" then Some(Config([3, 4, 6, 4], true))
    else if size == "101" then Some(Config([3, 4, 23, 4], true))
    else None
  }

  /** "34" and "50" differ only in the block structure; "101" differs from "50" only in its third stack. */
  lemma SizesShareStacks()
    ensures SizeTable("34").value.numBlocks == SizeTable("50").value.numBlocks
    ensures !SizeTable("34").value.useBottleneck && SizeTable("50").value.useBottleneck
    ensures forall i | 0 <= i < 4 && i != 2 :: SizeTable("101").value.numBlocks[i] == SizeTable("50").value.numBlocks[i]
    ensures SizeTable("101").value.numBlocks[2] > SizeTable("50").value.numBlocks[2]
  {
  }

  /**
   * A named size takes its configuration from the table and overrides any
   * block counts or structure also given; without a size, both must be
   * given.
   */
  function Configure(size: Option<string>, numBlocks: Option<seq<int>>, useBottleneck: Option<bool>): (r: Result<Config, ConfigError>)
    ensures size.Some? ==> (r.Success? <==> size.value in SizeNames)
    ensures size.Some? && r.Failure? ==> r.error == UnknownSize(size.value)
    ensures size.None? ==> (r.Success? <==> numBlocks.Some? && useBottleneck.Some?)
    ensures size.None? && r.Failure? ==> r.error == MissingConfig
    ensures size.None? && r.Success? ==> r.value == Config(numBlocks.value, useBottleneck.value)
  {
    if size.Some? then
      var config := SizeTable(size.value);
      if config.Some? then Success(config.value) else Failure(UnknownSize(size.value))
    else if numBlocks.Some? && useBottleneck.Some? then
      Success(Config(numBlocks.value, useBottleneck.value))
    else
      Failure(MissingConfig)
  }

  /** With a size, the explicit block counts and structure make no difference. */
  lemma SizeOverridesExplicit(size: string, numBlocks: Option<seq<int>>, useBottleneck: Option<bool>,
                              numBlocks': Option<seq<int>>, useBottleneck': Option<bool>)
    ensures Configure(Some(size), numBlocks, useBottleneck) == Configure(Some(size), numBlocks', useBottleneck')
    ensures Configure(Some(size), numBlocks, useBottleneck).Success? ==>
              Configure(Some(size), numBlocks, useBottleneck).value == SizeTable(size).value
  {
  }

  /** One stack: its name, feature maps, block count, the stride of its last block and whether it comes first. */
  datatype StackSpec = StackSpec(name: string, numFmaps: int, numBlocks: int, stride1: int, isFirstBlock: bool)

  /** The stack at position `i` of `count`. */
  function Stack(i: nat, count: nat, numBlocks: int, numFmaps: int): StackSpec {
    StackSpec("stack" + IntToString(i + 1), numFmaps, numBlocks, if i == count - 1 then 1 else 2, i == 0)
  }

  /**
   * One stack per block count, with the feature maps at the same position;
   * block counts beyond the feature map counts fail on the index of the
   * first missing one.
   */
  function StackPlan(numBlocks: seq<int>, numFmaps: seq<int>): (r: Result<seq<StackSpec>, nat>)
    ensures r.Failure? <==> |numBlocks| > |numFmaps|
    ensures r.Failure? ==> r.error == |numFmaps|
    ensures r.Success? ==> |r.value| == |numBlocks|
    ensures r.Success? ==> forall i | 0 <= i < |numBlocks| ::
              && r.value[i].numBlocks == numBlocks[i] && r.value[i].numFmaps == numFmaps[i]
              && (r.value[i].stride1 == 1 <==> i == |numBlocks| - 1)
              && (r.value[i].stride1 == 2 <==> i != |numBlocks| - 1)
              && (r.value[i].isFirstBlock <==> i == 0)
  {
    if |numBlocks| > |numFmaps| then Failure(|numFmaps|)
    else Success(seq(|numBlocks|, i requires 0 <= i < |numBlocks| => Stack(i, |numBlocks|, numBlocks[i], numFmaps[i])))
  }

  /** The stacks have distinct names. */
  lemma StackNamesDistinct(numBlocks: seq<int>, numFmaps: seq<int>, i: nat, j: nat)
    requires StackPlan(numBlocks, numFmaps).Success?
    requires i < j < |numBlocks|
    ensures StackPlan(numBlocks, numFmaps).value[i].name != StackPlan(numBlocks, numFmaps).value[j].name
  {
    var stacks := StackPlan(numBlocks, numFmaps).value;
    assert stacks[i].name == "stack" + IntToString(i + 1);
    assert stacks[j].name == "stack" + IntToString(j + 1);
    PrefixedNumbersDistinct("stack", i + 1, j + 1);
  }
}
