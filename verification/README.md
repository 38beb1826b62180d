# Ultrametric loss kernel and ResNet configuration, modelled in Dafny

This project models two parts of the `funlib.learn.tensorflow` library.

**The native kernel of the ultrametric (UM) loss**, `um_loss.cpp`. It has two functions.

`c_um_loss_gradient` replays the edges of a minimum spanning tree (MST) in order over disjoint sets, and keeps a bag of ground-truth labels per cluster. For every edge it:

- counts the positive and negative node pairs the edge merges, by the label classification (foreground `n >= 1`, background `0`, ambiguous `-1`);
- then normalises the counts into ratios;
- builds sliding-window sums over the edges sorted by distance, with a trailing index;
- and from those computes the loss and its gradient.

`c_prune_mst` keeps an MST edge only when it joins two groups of components that the edges kept so far have not joined. It expects exactly one fewer kept edge than components.

**The configuration side of `resnet.py`**:

- the fixed table of named network sizes;
- the stride given to each stack;
- the blocks of a stack and their widths;
- the stride and voxel-size arithmetic of one block.

Modules:

| module | file | contents |
|---|---|---|
| `Results` | results.dfy | `Result`/`Option` for error paths (the kernel's and the builder's `assert`s) |
| `Bags` | bags.dfy | sums over multisets, and the sum over distinct labels weighted by their counts |
| `Decimal` | decimal.dfy | Python's `str` of an integer, with a parser and round trip |
| `Mst` | mst.dfy | edges `(u, v, distance)` |
| `DisjointSets` | disjoint_sets.dfy | roots and ranks, union by rank |
| `PairCounts` | pair_counts.dfy | label classification, pairs across two bags, within a bag, and among a label sequence |
| `UmLossPairs` | um_loss_pairs.dfy | the replay of the tree: clusters, overlaps, per-edge counts, totals, normalisation |
| `UmLossScores` | um_loss_scores.dfy | the window sums, their two-pointer computation, loss and gradient as pair sums |
| `UmLossGradient` | um_loss_gradient.dfy | the whole of `c_um_loss_gradient` |
| `PruneMst` | prune_mst.dfy | `c_prune_mst` |
| `ResnetConfig` | resnet_config.dfy | size table, explicit configuration, plan of stacks |
| `ResnetBlocks` | resnet_blocks.dfy | blocks of a stack and of the network |
| `BlockStrides` | resnet_strides.dfy | stride normalisation and voxel size of a block |

The real-valued parts use Dafny's exact `real`.

- Every `assert` in the sources is an error result: the kernel's `assert(clusterU != clusterV)` and `assert(j == numComponents - 1)`, and the builder's size checks.
- The failed `map::at` lookup in `c_prune_mst` is also an error result.
- Python list indexing that would raise `IndexError` is an error result too.

## Model

| member | source | states |
|---|---|---|
| PairCounts.WeightMatchesTable | funlib/learn/tensorflow/losses/impl/um_loss.cpp:64-98 | The branches' positive and negative weight of a label pair is 1 exactly when the classification table gives the pair that kind. Equal foreground labels are positive. Different foreground labels, foreground with background, and background with ambiguous are negative. Everything else counts for neither kind. |
| PairCounts.WeightSymmetric | funlib/learn/tensorflow/losses/impl/um_loss.cpp:64-98 | The weight of a label pair does not depend on which cluster is U and which is V. |
| Bags.GroupedSumIsBagSum | funlib/learn/tensorflow/losses/impl/um_loss.cpp:56-62 | Visiting every distinct label of an overlap map once, weighted by its count, sums the same as visiting every node's label. |
| PairCounts.EdgePairs | funlib/learn/tensorflow/losses/impl/um_loss.cpp:53-100 | The double loop over the two overlap maps, with `countU*countV` per label pair, counts exactly the node pairs of a kind with one node in each cluster. |
| PairCounts.CrossSymmetric | funlib/learn/tensorflow/losses/impl/um_loss.cpp:48-51 | Pairs across two clusters do not depend on their order, so it does not matter which root survives the link. |
| PairCounts.WithinUnion | funlib/learn/tensorflow/losses/impl/um_loss.cpp:102-110 | The pairs inside a merged bag are those inside each part plus those across the two. |
| PairCounts.PairsInIsWithin | funlib/learn/tensorflow/losses/impl/um_loss.cpp:112-115 | The node pairs `i < j` of a kind in the ground truth depend only on the multiset of its labels. |
| DisjointSets.MakeSets | funlib/learn/tensorflow/losses/impl/um_loss.cpp:25-28 | After `make_set` for every node, every node is its own root and there are as many sets as nodes. |
| DisjointSets.Link | funlib/learn/tensorflow/losses/impl/um_loss.cpp:48-51 | Linking two roots leaves one fewer set. Every element of the two sets finds the survivor and no other element moves. By union by rank, the first root survives iff its rank is strictly higher. |
| DisjointSets.LinkJoins | funlib/learn/tensorflow/losses/impl/um_loss.cpp:48-51 | After a link, two elements are together iff they were before, or one was with each linked root. |
| UmLossPairs.InitialClustering | funlib/learn/tensorflow/losses/impl/um_loss.cpp:25-32 | Initially every node is its own cluster and overlaps exactly one count of its own label, so no pair lies inside a cluster. |
| UmLossPairs.InitialInv | funlib/learn/tensorflow/losses/impl/um_loss.cpp:25-32 | The initial overlaps are the labels of every cluster and together hold every node's label once. |
| UmLossPairs.AbsorbKeepsTotal | funlib/learn/tensorflow/losses/impl/um_loss.cpp:102-110 | Moving all label counts of the absorbed cluster into the survivor keeps the count of every label, summed over all clusters. |
| UmLossPairs.AbsorbAddsCross | funlib/learn/tensorflow/losses/impl/um_loss.cpp:102-110 | Moving the absorbed cluster's counts adds exactly the pairs across the two clusters to the pairs inside clusters. |
| UmLossPairs.AbsorbKeepsClusterLabels | funlib/learn/tensorflow/losses/impl/um_loss.cpp:48-110 | After a link and a move, every root's overlaps are the labels of its new cluster, and every absorbed cluster's overlaps are empty. |
| UmLossPairs.Step | funlib/learn/tensorflow/losses/impl/um_loss.cpp:41-110 | An edge fails the assertion iff its endpoints are already in one cluster. Otherwise it leaves one fewer cluster. It counts the pairs across its endpoints' clusters, and the pairs inside clusters grow by exactly those counts. |
| UmLossPairs.StepKeepsInv | funlib/learn/tensorflow/losses/impl/um_loss.cpp:41-110 | An edge keeps the overlaps equal to the cluster labels. The pairs it counts are the ground-truth pairs across the clusters of its two endpoints. |
| UmLossPairs.StepJoins | funlib/learn/tensorflow/losses/impl/um_loss.cpp:43-51 | An edge joins exactly the clusters of its two endpoints. |
| UmLossPairs.Replay | funlib/learn/tensorflow/losses/impl/um_loss.cpp:39-115 | A replay of `n` edges leaves `n` fewer clusters than nodes and has one count per edge. The count totals are the pairs now inside clusters. A failure names an edge among the first `n`. |
| UmLossPairs.ReplayExtends | funlib/learn/tensorflow/losses/impl/um_loss.cpp:39-46 | One more edge keeps an earlier failure. Otherwise it fails, at its own index, iff the earlier edges already joined its endpoints. |
| UmLossPairs.ReplayKeepsInv | funlib/learn/tensorflow/losses/impl/um_loss.cpp:39-115 | Every successful replay keeps the overlaps consistent with the ground truth. |
| UmLossPairs.ReplayFailsWithinCluster | funlib/learn/tensorflow/losses/impl/um_loss.cpp:39-46 | A failed replay names an edge whose endpoints the edges before it had already joined. |
| UmLossPairs.ReplaySucceedsWithoutJoin | funlib/learn/tensorflow/losses/impl/um_loss.cpp:39-46 | In a successful replay, no edge finds its endpoints already joined. |
| UmLossPairs.ReplayCountsEdge | funlib/learn/tensorflow/losses/impl/um_loss.cpp:39-110 | In a replay of `n` edges, the count of edge `k < n` of each kind is the number of node pairs of that kind across the clusters of its two endpoints, as they stand after the first `k` edges. |
| UmLossPairs.SpanningReplayCountsAllPairs | funlib/learn/tensorflow/losses/impl/um_loss.cpp:34-115 | After a spanning tree of `numNodes - 1` edges, the pairs inside clusters are all node pairs of the ground truth. |
| UmLossPairs.CountPairs | funlib/learn/tensorflow/losses/impl/um_loss.cpp:34-115 | The per-edge counts sum to the totals. These are the numbers of positive and negative node pairs of the ground truth, since every pair is merged by exactly one edge. Each edge's count is the number of pairs of its kind across the clusters its endpoints are in just before it. It fails iff some edge's endpoints were already joined, and then names such an edge. |
| UmLossPairs.Ratios | funlib/learn/tensorflow/losses/impl/um_loss.cpp:117-124 | Divided counts are non-negative, and multiplied by the total give back the count. |
| UmLossPairs.RatiosTotal | funlib/learn/tensorflow/losses/impl/um_loss.cpp:117-124 | The divided counts sum to the sum of the counts divided by the total. |
| UmLossPairs.Normalise | funlib/learn/tensorflow/losses/impl/um_loss.cpp:117-124 | The ratios sum to one when the total is positive, and are all zero when there are no pairs of the kind. |
| UmLossPairs.RatioOfCount | funlib/learn/tensorflow/losses/impl/um_loss.cpp:117-124 | An edge's ratio times the total is its count; with no pairs of the kind it is zero. |
| UmLossPairs.RatiosOfKind | funlib/learn/tensorflow/losses/impl/um_loss.cpp:117-124 | Every edge's ratio is its share of the pairs of its kind: the pairs it merges across its endpoints' clusters, over the total. |
| UmLossScores.AtMostIsPrefix | funlib/learn/tensorflow/losses/impl/um_loss.cpp:135-149 | On ascending distances, the edges within a bound form a prefix, so the window sum is a prefix sum. |
| UmLossScores.AtLeastIsSuffix | funlib/learn/tensorflow/losses/impl/um_loss.cpp:185-198 | On ascending distances, the edges from a bound on form a suffix. |
| UmLossScores.UpwardScores | funlib/learn/tensorflow/losses/impl/um_loss.cpp:135-163 | For ascending distances and `alpha >= 0`, the trailing-index loop gives every edge `j` the sum of the weights of all edges `k` with `distance(k) <= distance(j) + alpha`. |
| UmLossScores.DownwardScores | funlib/learn/tensorflow/losses/impl/um_loss.cpp:179-216 | For at least one edge, the downward loop gives every edge `j` the sum of the weights of all edges `k` with `distance(k) >= distance(j) - alpha`. |
| UmLossScores.LossIsPairLoss | funlib/learn/tensorflow/losses/impl/um_loss.cpp:165-177 | The kernel's loss formula over the three upward window sums equals the pair sum: every positive edge `i` and negative edge `k` with `d[k] <= d[i] + alpha` add `ratioPos[i]*ratioNeg[k]*(d[i] + alpha - d[k])^2`. |
| UmLossScores.PairLossNonNegative | funlib/learn/tensorflow/losses/impl/um_loss.cpp:165-177 | The loss is never negative. |
| UmLossScores.GradientIsPairSum | funlib/learn/tensorflow/losses/impl/um_loss.cpp:218-232 | Each edge's gradient formula equals a pull and a push. The pull comes from the negative edges within `alpha` above the edge. The push comes from the positive edges within `alpha` below it. The self-pair terms cancel. |
| UmLossGradient.AccumulateLoss | funlib/learn/tensorflow/losses/impl/um_loss.cpp:165-177 | Given upward window sums that agree with their definition, the loss loop over the kernel's per-edge terms adds up to the pair-sum loss. |
| UmLossGradient.LossOfWindows | funlib/learn/tensorflow/losses/impl/um_loss.cpp:165-177 | With window sums that agree with their definition, the accumulated loss is the pair-sum loss. |
| UmLossGradient.GradientOfWindows | funlib/learn/tensorflow/losses/impl/um_loss.cpp:218-232 | With window sums that agree with their definition, an edge's gradient is its pair-sum gradient. |
| UmLossGradient.Gradients | funlib/learn/tensorflow/losses/impl/um_loss.cpp:218-232 | The gradient loop gives every edge its pair-sum gradient. |
| UmLossGradient.LossAndGradients | funlib/learn/tensorflow/losses/impl/um_loss.cpp:126-232 | From ratios and sorted distances, the loss is the non-negative pair-sum loss and every gradient is the pair-sum gradient. |
| UmLossGradient.UmLossGradient | funlib/learn/tensorflow/losses/impl/um_loss.cpp:6-235 | The whole kernel fails iff some edge's endpoints were already joined. Otherwise the totals are the ground truth's pair counts. The ratio of each edge is its share of them: the pairs of that kind across the clusters it merges, over the total, or zero when the total is zero. The ratios are non-negative and sum to one when there are pairs. The loss is the non-negative pair-sum loss, and the gradients are the pair-sum gradients. |
| PruneMst.ComponentIndices | funlib/learn/tensorflow/losses/impl/um_loss.cpp:251-256 | Every listed component label maps to a position holding it. A label listed twice maps to its last position, and no other label is mapped. |
| PruneMst.LinkKeepsJoined | funlib/learn/tensorflow/losses/impl/um_loss.cpp:268-281 | Linking the sets of the current edge's components joins that edge and keeps joined every earlier edge. |
| PruneMst.Visit | funlib/learn/tensorflow/losses/impl/um_loss.cpp:262-281 | An edge whose components are already joined is dropped and nothing changes. Any other edge is appended to the kept edges, leaving one fewer set. Either way every edge so far is joined. |
| PruneMst.PruneFrom | funlib/learn/tensorflow/losses/impl/um_loss.cpp:258-282 | The walk fails iff some endpoint label names no component, and then at the first such edge. Otherwise sets plus kept edges stay the component count, and every edge's components end up in one set. |
| PruneMst.PruneStep | funlib/learn/tensorflow/losses/impl/um_loss.cpp:262-281 | Edge `k` is dropped, leaving the walk as it was, when its components are already in one set after the edges before it, and is appended to the kept edges otherwise. |
| PruneMst.PrunePrefix | funlib/learn/tensorflow/losses/impl/um_loss.cpp:258-282 | The edges kept after any prefix of a successful walk lead the edges kept at its end. |
| PruneMst.PruneKeepsOrder | funlib/learn/tensorflow/losses/impl/um_loss.cpp:258-282 | The kept edges are copied verbatim from the edge list, in their order. |
| PruneMst.PruneVisitsAll | funlib/learn/tensorflow/losses/impl/um_loss.cpp:258-282 | A successful walk visits every edge: each is appended iff its components were not yet in one set, and what was kept by then leads the final kept edges. |
| PruneMst.PruneMst | funlib/learn/tensorflow/losses/impl/um_loss.cpp:237-285 | The result is the walk's kept edges, iff the walk succeeds and keeps exactly one fewer edge than there are components; a successful walk with any other count is the not-spanning error. It fails on an unknown label iff some endpoint label names no component. On success the kept edges are a subsequence of the edges, every edge was kept iff its components were not yet in one component set, and that final set holds every component. |
| ResnetConfig.SizeTable | funlib/learn/tensorflow/models/resnet.py:277-292 | Exactly the sizes "18", "34", "50" and "101" are known. Each has four stacks of at least two blocks, and exactly "50" and "101" use bottleneck blocks. |
| ResnetConfig.SizesShareStacks | funlib/learn/tensorflow/models/resnet.py:284-292 | "34" and "50" have the same stacks and differ in the block structure. "101" differs from "50" only in a longer third stack. |
| ResnetConfig.Configure | funlib/learn/tensorflow/models/resnet.py:277-295 | A size must be one of the table's. Without a size, both block counts and block structure must be given, and are used as given. |
| ResnetConfig.SizeOverridesExplicit | funlib/learn/tensorflow/models/resnet.py:277-292 | With a size, explicitly given block counts and structure make no difference. |
| ResnetConfig.StackPlan | funlib/learn/tensorflow/models/resnet.py:253-274 | There is one stack per block count, with the feature maps at its position. Only the last stack has stride 1 and all others stride 2, and only the first is the first block. Too few feature map counts fail at the first missing index. |
| ResnetConfig.StackNamesDistinct | funlib/learn/tensorflow/models/resnet.py:271 | The stack names `stack1`, `stack2`, ... are pairwise distinct. |
| Decimal.NatRoundTrip | funlib/learn/tensorflow/models/resnet.py:211 | The decimal name of a number reads back as that number. |
| Decimal.IntToStringInjective | funlib/learn/tensorflow/models/resnet.py:225 | Different numbers, negative ones included, have different decimal names. |
| ResnetBlocks.StackBlocks | funlib/learn/tensorflow/models/resnet.py:176-226 | A stack has `max(num_blocks, 2)` blocks. Only the first has a convolution shortcut, and only the last takes the stack's stride while all others use stride 1. Only the first can be the network's first block. Outputs are four times wider with bottleneck blocks. |
| ResnetBlocks.StackBlockNamesDistinct | funlib/learn/tensorflow/models/resnet.py:185-226 | With at least two blocks, the blocks of a stack have pairwise distinct names. |
| ResnetBlocks.SingleBlockStackRepeatsName | funlib/learn/tensorflow/models/resnet.py:185-226 | A stack of one block still builds two blocks, both named `_block1`. |
| ResnetBlocks.StackCounts | funlib/learn/tensorflow/models/resnet.py:185-226 | Within a stack, at most one block downsamples, iff the stack's stride is not 1. At most one block is the network's first. |
| ResnetBlocks.NetworkCounts | funlib/learn/tensorflow/models/resnet.py:253-274 | Over any prefix of the stacks, every stack except the network's last downsamples exactly once, and exactly one block is the network's first. |
| ResnetBlocks.PlanCounts | funlib/learn/tensorflow/models/resnet.py:253-274 | A network of `s` stacks downsamples `s - 1` times and has exactly one first block. |
| ResnetBlocks.NetworkPlan | funlib/learn/tensorflow/models/resnet.py:253-295 | Building the blocks fails iff the configuration is rejected or block counts outnumber feature map counts. A built network downsamples once per stack but the last. |
| ResnetBlocks.NamedSizesBuild | funlib/learn/tensorflow/models/resnet.py:239-292 | Every named size builds with the default feature maps and downsamples exactly three times. |
| BlockStrides.Broadcast | funlib/learn/tensorflow/models/resnet.py:80-81 | An integer stride becomes that stride once per spatial axis, and a list is kept. |
| BlockStrides.NormaliseStrides | funlib/learn/tensorflow/models/resnet.py:80-88 | Strides keep their length. On six-axis input the first is 1. With `make_iso` on more than four axes, the third from last is 1 when the last is above 1 and `shape[-3]*2 <= shape[-1]`. No other stride changes. Each list access that is out of range fails. |
| BlockStrides.UniformIsPerAxis | funlib/learn/tensorflow/models/resnet.py:80-88 | Giving one integer stride is the same as giving it for every spatial axis. |
| BlockStrides.NormaliseIdempotent | funlib/learn/tensorflow/models/resnet.py:80-88 | Normalising already normalised strides changes nothing. |
| BlockStrides.Trailing | funlib/learn/tensorflow/models/resnet.py:97 | `strides[-n:]` is the last `n` strides, or all of them when `n` is 0 or exceeds the length. |
| BlockStrides.BroadcastProduct | funlib/learn/tensorflow/models/resnet.py:97 | The elementwise product succeeds iff the lengths are equal or one of them is 1, and then broadcasts as numpy does. |
| BlockStrides.ShortcutVoxelSize | funlib/learn/tensorflow/models/resnet.py:90-104 | A convolution shortcut multiplies the voxel size by the trailing strides, scales it by a single stride, and fails iff the lengths do not broadcast, as with two or more strides and a longer voxel size. An identity shortcut with no stride above 1 keeps the voxel size, and with one takes the downsampled voxel size. |
| BlockStrides.UnitStridesKeepVoxelSize | funlib/learn/tensorflow/models/resnet.py:90-104 | With all strides 1 the voxel size is unchanged, whichever the shortcut. |
| BlockStrides.BlockVoxelSize | funlib/learn/tensorflow/models/resnet.py:80-104 | A block fails on its strides iff normalising them fails, and on its voxel size iff the normalised strides succeed and the shortcut's voxel size fails. Otherwise it uses the normalised strides and the shortcut's voxel size. |
| BlockStrides.PlanarConvShortcutRejectsVolumeVoxelSize | funlib/learn/tensorflow/models/resnet.py:80-97 | A convolution shortcut on four-axis input with a single stride fails with a three-entry voxel size, because two strides do not broadcast against three entries. |
| BlockStrides.UnitStrideBlockKeepsVoxelSize | funlib/learn/tensorflow/models/resnet.py:80-104 | A block of stride 1 keeps the voxel size on any input with enough spatial axes. |
| BlockStrides.InitialVoxelSize | funlib/learn/tensorflow/models/resnet.py:298 | The network starts from the last three entries of the voxel size, or all of them if there are fewer. |

## Left out

- The TensorFlow graph in resnet.py is not modelled, and neither are `conv`, `downsample`, `crop_spatial_temporal`, the residual block bodies, batch normalisation, activations, pooling, the reshape, variable counting and logging. These are framework calls, and `layers.py` and `utils.py`, which define them, are not part of this model. Field of view is left out for the same reason.
- The time-merging branch of `block_rn_v2` (resnet.py:69-78) is not modelled: it depends on tensor shapes the framework produces.
- BlockStrides.ShortcutVoxelSize takes the voxel size that `downsample` reports on an identity shortcut with a stride above 1 as a parameter `downsampled`, because `downsample` is not part of this model.
- Python's in-place update of a stride list passed by the caller, and the `TypeError` for a stride tuple, are not modelled; strides are values.
- The kernel computes in `double`; the model computes in exact `real`, so rounding is not modelled.
- The loss loop and the gradient loop are modelled as separate loops over the window sums: UmLossScores.UpwardScores runs once per weight sequence (`ratioNeg`, `distance*ratioNeg`, `distance^2*ratioNeg`), where the kernel keeps the three running sums in one loop.
- Boost's `disjoint_sets` is not part of this model. Path compression changes no root and is not represented. Ranks follow union by rank as Boost's `link` does, which decides which root survives.
- UmLossGradient.UmLossGradient requires at least two nodes. With one node, `numNodes - 2` on a `size_t` wraps around and the downward pass reads out of range.
- UmLossGradient.UmLossGradient requires edges sorted by ascending distance and `alpha >= 0`. The kernel assumes both without checking: its trailing-index loops only work on sorted distances with a non-negative margin, as the comment at um_loss.cpp:135-136 describes.
- Node ids are natural numbers below the node count, and distances are taken as they are. The kernel reads ids from `double` entries of the tree, and those conversions are not modelled.
- PruneMst.PruneMst takes the number of edges from the edge list, where the kernel loops `numNodes - 1` times over the tree.
- PruneMst.PruneMst does not model `numComponents == 0`, where the kernel's `numComponents - 1` wraps around on a `size_t`. With no components every lookup fails, or with no edges the count check fails.
- The kernel's component map is keyed by `uint64_t` and filled from `int64_t` labels. This conversion is one-to-one, so labels are modelled as integers.
- `resnet_size` is a string, as in the size table. A size given as a number is rejected like any other unknown size.

