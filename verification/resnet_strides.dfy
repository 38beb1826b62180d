/**
 * The stride and voxel-size arithmetic of one residual block: strides given
 * as one number or per axis are brought to one per spatial axis of the
 * input, adjusted for anisotropic and time-series input, and decide the
 * voxel size of the block's output.
 */
module BlockStrides {
  import opened Results

  /** Strides as a block receives them: one for every axis, or one per axis. */
  datatype Strides = Uniform(stride: int) | PerAxis(strides: seq<int>)

  /** A list index out of range, as Python counts it: negative indices from the end. */
  datatype StrideError = StrideIndex(index: int)

  /** A stride list and a voxel size whose lengths do not broadcast. */
  datatype VoxelError = ShapeMismatch(strides: nat, voxelSize: nat)

  /** The number of spatial axes of an input of rank `rank`: all but batch and channels. */
  function SpatialAxes(rank: nat): nat {
    if rank >= 2 then rank - 2 else 0
  }

  /** One stride per spatial axis; a list is taken as it is. */
  function Broadcast(s: Strides, rank: nat): (r: seq<int>)
    ensures s.Uniform? ==> |r| == SpatialAxes(rank) && forall i | 0 <= i < |r| :: r[i] == s.stride
    ensures s.PerAxis? ==> r == s.strides
  {
    match s
    case Uniform(stride) => seq(SpatialAxes(rank), _ => stride)
    case PerAxis(strides) => strides
  }

  /**
   * Whether, on an input of more than four axes, the third axis from the
   * end keeps its resolution when asked to: the last axis is downsampled,
   * and the third from the end is at most half the size of the last.
   */
  predicate IsoApplies(strides: seq<int>, shape: seq<int>)
    requires |strides| >= 1 && |shape| > 4
  {
    strides[|strides| - 1] > 1 && shape[|shape| - 3] * 2 <= shape[|shape| - 1]
  }

  /**
   * The strides a block uses, for an input of the given shape. With
   * `makeIso` on an input of more than four axes whose last axis is
   * downsampled and at least twice the third from the end, that third axis
   * is not downsampled; on six-axis input the first spatial axis (time) is
   * never downsampled. Each of the three list accesses fails when the list
   * is too short for it.
   */
  function NormaliseStrides(s: Strides, shape: seq<int>, makeIso: bool): (r: Result<seq<int>, StrideError>)
    ensures var st := Broadcast(s, |shape|);
            r.Failure? <==>
              || (makeIso && |shape| > 4 && |st| == 0)
              || (makeIso && |shape| > 4 && |st| >= 1 && IsoApplies(st, shape) && |st| < 3)
              || (|shape| == 6 && |st| == 0)
    ensures var st := Broadcast(s, |shape|);
            r.Success? ==>
              && |r.value| == |st|
              && (|shape| == 6 ==> r.value[0] == 1)
              && (makeIso && |shape| > 4 && IsoApplies(st, shape) ==> r.value[|st| - 3] == 1)
              && forall i | 0 <= i < |st| ::
                   || r.value[i] == st[i]
                   || (i == 0 && |shape| == 6)
                   || (i == |st| - 3 && makeIso && |shape| > 4 && IsoApplies(st, shape))
  {
    var st := Broadcast(s, |shape|);
    var iso :- if makeIso && |shape| > 4 then
                 if |st| == 0 then Failure(StrideIndex(-1))
                 else if IsoApplies(st, shape) then
                   if |st| < 3 then Failure(StrideIndex(-3)) else Success(st[|st| - 3 := 1])
                 else Success(st)
               else Success(st);
    if |shape| == 6 then
      if |iso| == 0 then Failure(StrideIndex(0)) else Success(iso[0 := 1])
    else
      Success(iso)
  }

  /** Giving one stride is giving it for every spatial axis. */
  lemma UniformIsPerAxis(stride: int, shape: seq<int>, makeIso: bool)
    ensures NormaliseStrides(Uniform(stride), shape, makeIso)
         == NormaliseStrides(PerAxis(seq(SpatialAxes(|shape|), _ => stride)), shape, makeIso)
  {
    assert Broadcast(Uniform(stride), |shape|) == Broadcast(PerAxis(seq(SpatialAxes(|shape|), _ => stride)), |shape|);
  }

  /** Normalising normalised strides changes nothing. */
  lemma NormaliseIdempotent(s: Strides, shape: seq<int>, makeIso: bool)
    requires NormaliseStrides(s, shape, makeIso).Success?
    ensures NormaliseStrides(PerAxis(NormaliseStrides(s, shape, makeIso).value), shape, makeIso)
         == NormaliseStrides(s, shape, makeIso)
  {
    var st := Broadcast(s, |shape|);
    var r := NormaliseStrides(s, shape, makeIso).value;
    if makeIso && |shape| > 4 {
      if IsoApplies(st, shape) {
        assert r[|r| - 1] == st[|st| - 1] || (|shape| == 6 && |r| - 1 == 0);
        assert IsoApplies(r, shape);
      } else {
        assert !IsoApplies(r, shape);
      }
    }
    assert r == NormaliseStrides(PerAxis(r), shape, makeIso).value;
  }

  /** `strides[-n:]` in Python: the last `n`, all of them when there are fewer, and all of them for `n == 0`. */
  function Trailing(strides: seq<int>, n: nat): (r: seq<int>)
    ensures 1 <= n <= |strides| ==> |r| == n && r == strides[|strides| - n..]
    ensures n == 0 || n > |strides| ==> r == strides
  {
    if n == 0 || n > |strides| then strides else strides[|strides| - n..]
  }

  /**
   * The elementwise product of a stride list and a voxel size under
   * broadcasting: equal lengths multiply axis by axis, a single element
   * scales every element of the other, any other lengths are an error.
   */
  function BroadcastProduct(a: seq<int>, b: seq<real>): (r: Result<seq<real>, VoxelError>)
    ensures r.Success? <==> |a| == |b| || |a| == 1 || |b| == 1
    ensures r.Success? ==> |r.value| == if |a| == |b| || |a| == 1 then |b| else |a|
    ensures r.Success? ==> forall i | 0 <= i < |r.value| ::
              r.value[i] == (if |a| == 1 then a[0] else a[i]) as real * (if |a| != 1 && |b| == 1 then b[0] else b[i])
  {
    if |a| == |b| then Success(seq(|b|, i requires 0 <= i < |b| => a[i] as real * b[i]))
    else if |a| == 1 then Success(seq(|b|, i requires 0 <= i < |b| => a[0] as real * b[i]))
    else if |b| == 1 then Success(seq(|a|, i requires 0 <= i < |a| => a[i] as real * b[0]))
    else Failure(ShapeMismatch(|a|, |b|))
  }

  /**
   * The voxel size after a block's shortcut. A convolution shortcut scales
   * the voxel size by the trailing strides; an identity shortcut keeps it
   * when no stride exceeds one; otherwise the downsampling layer reports
   * it, given here as `downsampled`.
   */
  function ShortcutVoxelSize(convShortcut: bool, strides: seq<int>, voxelSize: seq<real>, downsampled: seq<real>)
    : (r: Result<seq<real>, VoxelError>)
    ensures convShortcut && 1 <= |voxelSize| <= |strides| ==>
              && r.Success? && |r.value| == |voxelSize|
              && forall i | 0 <= i < |voxelSize| ::
                   r.value[i] == strides[|strides| - |voxelSize| + i] as real * voxelSize[i]
    ensures convShortcut ==>
              (r.Success? <==>
                 || 1 <= |voxelSize| <= |strides| || |strides| == 1 || |voxelSize| == 1
                 || |voxelSize| == |strides| == 0)
    ensures convShortcut && |strides| == 1 ==>
              && r.Success? && |r.value| == |voxelSize|
              && forall i | 0 <= i < |voxelSize| :: r.value[i] == strides[0] as real * voxelSize[i]
    ensures convShortcut && 2 <= |strides| < |voxelSize| ==> r == Failure(ShapeMismatch(|strides|, |voxelSize|))
    ensures !convShortcut ==> r.Success?
    ensures !convShortcut && (forall i | 0 <= i < |strides| :: strides[i] <= 1) ==> r == Success(voxelSize)
    ensures !convShortcut && (exists i | 0 <= i < |strides| :: strides[i] > 1) ==> r == Success(downsampled)
  {
    if convShortcut then BroadcastProduct(Trailing(strides, |voxelSize|), voxelSize)
    else if exists i | 0 <= i < |strides| :: strides[i] > 1 then Success(downsampled)
    else Success(voxelSize)
  }

  /** With unit strides the voxel size stays as it is, whichever the shortcut. */
  lemma UnitStridesKeepVoxelSize(convShortcut: bool, strides: seq<int>, voxelSize: seq<real>, downsampled: seq<real>)
    requires 1 <= |voxelSize| <= |strides|
    requires forall i | 0 <= i < |strides| :: strides[i] == 1
    ensures ShortcutVoxelSize(convShortcut, strides, voxelSize, downsampled) == Success(voxelSize)
  {
    if convShortcut {
      var r := ShortcutVoxelSize(convShortcut, strides, voxelSize, downsampled).value;
      forall i | 0 <= i < |voxelSize|
        ensures r[i] == voxelSize[i]
      {
        assert strides[|strides| - |voxelSize| + i] == 1;
      }
      assert r == voxelSize;
    }
  }

  datatype BlockError = BadStrides(strides: StrideError) | BadVoxelSize(voxel: VoxelError)

  /** The strides and output voxel size of one block, from its input's shape and voxel size. */
  function BlockVoxelSize(s: Strides, shape: seq<int>, makeIso: bool, convShortcut: bool, voxelSize: seq<real>, downsampled: seq<real>)
    : (r: Result<(seq<int>, seq<real>), BlockError>)
    ensures r.Failure? && r.error.BadStrides? <==> NormaliseStrides(s, shape, makeIso).Failure?
    ensures r.Success? ==> r.value.0 == NormaliseStrides(s, shape, makeIso).value
    ensures r.Success? ==> ShortcutVoxelSize(convShortcut, r.value.0, voxelSize, downsampled) == Success(r.value.1)
    ensures r.Failure? && r.error.BadVoxelSize? <==>
              && NormaliseStrides(s, shape, makeIso).Success?
              && ShortcutVoxelSize(convShortcut, NormaliseStrides(s, shape, makeIso).value, voxelSize, downsampled).Failure?
  {
    var strides := NormaliseStrides(s, shape, makeIso);
    if strides.Failure? then Failure(BadStrides(strides.error))
    else
      var voxel := ShortcutVoxelSize(convShortcut, strides.value, voxelSize, downsampled);
      if voxel.Failure? then Failure(BadVoxelSize(voxel.error)) else Success((strides.value, voxel.value))
  }

  /**
   * A block of stride one keeps the voxel size, on any input with at least
   * as many spatial axes as the voxel size has entries.
   */
  lemma UnitStrideBlockKeepsVoxelSize(shape: seq<int>, makeIso: bool, convShortcut: bool, voxelSize: seq<real>, downsampled: seq<real>)
    requires 1 <= |voxelSize| <= SpatialAxes(|shape|)
    ensures BlockVoxelSize(Uniform(1), shape, makeIso, convShortcut, voxelSize, downsampled).Success?
    ensures BlockVoxelSize(Uniform(1), shape, makeIso, convShortcut, voxelSize, downsampled).value.1 == voxelSize
  {
    var st := Broadcast(Uniform(1), |shape|);
    var strides := NormaliseStrides(Uniform(1), shape, makeIso);
    assert |st| >= 1 && st[|st| - 1] == 1;
    assert strides.Success?;
    forall i | 0 <= i < |strides.value|
      ensures strides.value[i] == 1
    {
      assert st[i] == 1;
    }
    UnitStridesKeepVoxelSize(convShortcut, strides.value, voxelSize, downsampled);
  }

  /**
   * A convolution shortcut on two-dimensional input (four axes) with any
   * single stride cannot take a three-entry voxel size: two strides do not
   * broadcast against three voxel sizes.
   */
  lemma PlanarConvShortcutRejectsVolumeVoxelSize(stride: int, shape: seq<int>, makeIso: bool, voxelSize: seq<real>, downsampled: seq<real>)
    requires |shape| == 4 && |voxelSize| == 3
    ensures BlockVoxelSize(Uniform(stride), shape, makeIso, true, voxelSize, downsampled)
            == Failure(BadVoxelSize(ShapeMismatch(2, 3)))
  {
    assert NormaliseStrides(Uniform(stride), shape, makeIso).Success?;
  }

  /** `voxel_size[-3:]`: the last three entries, or all of them when there are fewer. */
  function InitialVoxelSize(voxelSize: seq<real>): (r: seq<real>)
    ensures |r| == if |voxelSize| < 3 then |voxelSize| else 3
    ensures voxelSize == voxelSize[..|voxelSize| - |r|] + r
  {
    if |voxelSize| <= 3 then voxelSize else voxelSize[|voxelSize| - 3..]
  }
}
