/** Strided buffers and what it means to broadcast one of them against a larger shape. */
module Buffers {
  import opened Shapes

  /** A view of `size` items: element `ix` lives at address ptr + ByteOffset(strides, ix). */
  datatype BufferInfo = BufferInfo(ptr: int, itemsize: nat, size: nat, ndim: nat, shape: seq<nat>, strides: seq<int>) {
    ghost predicate Valid() {
      ndim == |shape| == |strides| && size == Product(shape) && itemsize > 0
    }
  }

  /** Every trailing extent of the buffer is either 1 or the extent of the result. */
  ghost predicate Conforms(extents: seq<nat>, shape: seq<nat>) {
    && |extents| <= |shape|
    && forall d :: 0 <= d < |extents| ==> extents[d] == 1 || extents[d] == shape[|shape| - |extents| + d]
  }

  /** The buffer's own index for result index `ix`: drop leading dimensions, pin extents of 1 to 0. */
  function BroadcastIndex(ix: seq<nat>, extents: seq<nat>): seq<nat>
    requires |extents| <= |ix|
  {
    seq(|extents|, d requires 0 <= d < |extents| => if extents[d] == 1 then 0 else ix[|ix| - |extents| + d])
  }

  /** The own index is in bounds and keeps the result's coordinates on all axes that are not stretched. */
  lemma OwnIndex(ix: seq<nat>, extents: seq<nat>, shape: seq<nat>)
    requires Conforms(extents, shape) && InBounds(ix, shape)
    ensures var own, skip := BroadcastIndex(ix, extents), |shape| - |extents|;
      && InBounds(own, extents)
      && forall d :: 0 <= d < |extents| && extents[d] == shape[skip + d] ==> own[d] == ix[skip + d]
  {
  }

  /** Address of the element that buffer `b` contributes to result index `ix`. */
  function ElementAddress(b: BufferInfo, ix: seq<nat>): int
    requires b.Valid() && |b.shape| <= |ix|
  {
    b.ptr + ByteOffset(b.strides, BroadcastIndex(ix, b.shape))
  }

  /** Strides over the result shape: the buffer's own where the extents agree, 0 elsewhere. */
  function BroadcastStrides(extents: seq<nat>, strides: seq<int>, shape: seq<nat>): (r: seq<int>)
    requires |extents| == |strides| <= |shape|
    ensures |r| == |shape|
  {
    seq(|shape|, d requires 0 <= d < |shape| =>
      var skip := |shape| - |extents|;
      if d >= skip && shape[d] == extents[d - skip] then strides[d - skip] else 0)
  }

  ghost predicate FitsUnder(b: BufferInfo, shape: seq<nat>) {
    b.Valid() && |b.shape| <= |shape|
  }

  /** Strides with which buffer `b` is walked over the result shape. */
  function Span(b: BufferInfo, shape: seq<nat>): (r: seq<int>)
    requires FitsUnder(b, shape)
    ensures |r| == |shape|
  {
    BroadcastStrides(b.shape, b.strides, shape)
  }

  /** Walking the result shape with the broadcast strides visits the buffer's own elements. */
  lemma {:induction false} BroadcastOffset(extents: seq<nat>, strides: seq<int>, shape: seq<nat>, ix: seq<nat>)
    requires |extents| == |strides| && Conforms(extents, shape) && InBounds(ix, shape)
    ensures ByteOffset(BroadcastStrides(extents, strides, shape), ix) == ByteOffset(strides, BroadcastIndex(ix, extents))
  {
    var r := BroadcastStrides(extents, strides, shape);
    var own := BroadcastIndex(ix, extents);
    if |shape| > |extents| {
      BroadcastOffset(extents, strides, shape[1..], ix[1..]);
      assert r[1..] == BroadcastStrides(extents, strides, shape[1..]);
      assert own == BroadcastIndex(ix[1..], extents);
    } else if shape != [] {
      BroadcastOffset(extents[1..], strides[1..], shape[1..], ix[1..]);
      assert r[1..] == BroadcastStrides(extents[1..], strides[1..], shape[1..]);
      assert own[1..] == BroadcastIndex(ix[1..], extents[1..]);
      assert ix[0] * r[0] == own[0] * strides[0];
    }
  }
}
