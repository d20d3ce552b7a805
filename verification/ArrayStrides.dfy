/**
 * Default strides of a freshly created array: C order (last dimension contiguous) and Fortran
 * order (first dimension contiguous).
 */
module ArrayStrides {
  import opened Shapes

  function CStrides(shape: seq<nat>, itemsize: int): (strides: seq<int>)
    ensures |strides| == |shape|
  {
    if shape == [] then [] else [itemsize * Product(shape[1..])] + CStrides(shape[1..], itemsize)
  }

  function FStrides(shape: seq<nat>, itemsize: int): (strides: seq<int>)
    ensures |strides| == |shape|
  {
    if shape == [] then [] else [itemsize] + FStrides(shape[1..], itemsize * shape[0])
  }

  method ComputeCStrides(shape: seq<nat>, itemsize: int) returns (strides: seq<int>)
    ensures strides == CStrides(shape, itemsize)
  {
    var ndim := |shape|;
    strides := seq(ndim, _ => itemsize);
    if ndim > 0 {
      var i := ndim - 1;
      assert strides[i..] == [itemsize] && shape[i + 1..] == [];
      while i > 0
        invariant 0 <= i < ndim == |strides|
        invariant strides[i..] == CStrides(shape[i..], itemsize)
      {
        CarryProduct(itemsize, shape[i], Product(shape[i + 1..]));
        assert strides[i] == strides[i..][0] == itemsize * Product(shape[i + 1..]);
        assert shape[i - 1..][1..] == shape[i..] && shape[i..][1..] == shape[i + 1..];
        ghost var tail := strides[i..];
        strides := strides[i - 1 := strides[i] * shape[i]];
        assert strides[i - 1..] == [strides[i - 1]] + tail;
        i := i - 1;
      }
      assert strides[0..] == strides && shape[0..] == shape;
    }
  }

  lemma CarryProduct(s: int, n: int, p: int)
    ensures (s * p) * n == s * (n * p)
  {
  }

  /** A Fortran stride is the item size times the product of the earlier extents. */
  lemma {:induction false} FStridesAt(shape: seq<nat>, itemsize: int, k: nat)
    requires k < |shape|
    ensures FStrides(shape, itemsize)[k] == itemsize * Product(shape[..k])
  {
    if k > 0 {
      var rest := Product(shape[1..][..k - 1]);
      FStridesAt(shape[1..], itemsize * shape[0], k - 1);
      assert shape[..k][1..] == shape[1..][..k - 1];
      assert itemsize * shape[0] * rest == itemsize * (shape[0] * rest);
    }
  }

  method ComputeFStrides(shape: seq<nat>, itemsize: int) returns (strides: seq<int>)
    ensures strides == FStrides(shape, itemsize)
  {
    var ndim := |shape|;
    strides := seq(ndim, _ => itemsize);
    if ndim > 0 {
      assert strides[..1] == [itemsize];
      var i := 1;
      while i < ndim
        invariant 1 <= i <= ndim == |strides|
        invariant strides[..i] + FStrides(shape[i..], strides[i - 1] * shape[i - 1]) == FStrides(shape, itemsize)
      {
        ghost var x, head := strides[i - 1] * shape[i - 1], strides[..i];
        assert shape[i..][1..] == shape[i + 1..];
        strides := strides[i := strides[i - 1] * shape[i - 1]];
        assert strides[..i + 1] == head + [x];
        assert head + ([x] + FStrides(shape[i + 1..], x * shape[i])) == head + [x] + FStrides(shape[i + 1..], x * shape[i]);
        i := i + 1;
      }
      assert strides[..ndim] == strides;
    }
  }

  lemma {:induction false} RowOffset(shape: seq<nat>, itemsize: int, ix: seq<nat>)
    requires |ix| == |shape|
    ensures ByteOffset(CStrides(shape, itemsize), ix) == itemsize * RowRank(ix, shape)
  {
    if ix != [] {
      RowOffset(shape[1..], itemsize, ix[1..]);
      RowFactor(itemsize, ix[0], Product(shape[1..]), RowRank(ix[1..], shape[1..]));
    }
  }

  lemma RowFactor(s: int, i: int, p: int, r: int)
    ensures i * (s * p) + s * r == s * (i * p + r)
  {
  }

  lemma {:induction false} ColumnOffset(shape: seq<nat>, itemsize: int, ix: seq<nat>)
    requires |ix| == |shape|
    ensures ByteOffset(FStrides(shape, itemsize), ix) == itemsize * ColumnRank(ix, shape)
  {
    if ix != [] {
      ColumnOffset(shape[1..], itemsize * shape[0], ix[1..]);
      FactorOut(itemsize, ix[0], shape[0], ColumnRank(ix[1..], shape[1..]));
    }
  }

  lemma FactorOut(s: int, i: int, n: int, r: int)
    ensures i * s + (s * n) * r == s * (i + n * r)
  {
  }

  lemma FactorCancels(s: nat, a: int, b: int)
    requires s > 0 && s * a == s * b
    ensures a == b
  {
    MulMonotone(a + 1, b, s);
    MulMonotone(b + 1, a, s);
  }

  /** Element `ix` of an array of extents `shape` lies in the `k`-th item slot of its memory. */
  ghost predicate InSlot(shape: seq<nat>, itemsize: nat, strides: seq<int>, ix: seq<nat>, k: nat)
    requires |strides| == |shape|
  {
    InBounds(ix, shape) && ByteOffset(strides, ix) == itemsize * k
  }

  ghost predicate SlotUsed(shape: seq<nat>, itemsize: nat, strides: seq<int>, k: nat)
    requires |strides| == |shape|
  {
    exists ix: seq<nat> :: InSlot(shape, itemsize, strides, ix, k)
  }

  /** The strides map the in-bounds indices one-to-one onto the item slots of [0, nbytes). */
  ghost predicate Dense(shape: seq<nat>, itemsize: nat, strides: seq<int>)
    requires |strides| == |shape|
  {
    && (forall ix: seq<nat> | InBounds(ix, shape) ::
          exists k: nat :: k < Product(shape) && InSlot(shape, itemsize, strides, ix, k))
    && (forall ix: seq<nat>, jx: seq<nat>, k: nat ::
          InSlot(shape, itemsize, strides, ix, k) && InSlot(shape, itemsize, strides, jx, k) ==> ix == jx)
    && (forall k: nat | k < Product(shape) :: SlotUsed(shape, itemsize, strides, k))
  }

  lemma CStridesDense(shape: seq<nat>, itemsize: nat, strides: seq<int>)
    requires itemsize > 0 && strides == CStrides(shape, itemsize)
    ensures Dense(shape, itemsize, strides)
  {
    forall ix: seq<nat> | InBounds(ix, shape)
      ensures exists k: nat :: k < Product(shape) && InSlot(shape, itemsize, strides, ix, k)
    {
      RowUnrankOfRank(ix, shape);
      RowOffset(shape, itemsize, ix);
      assert InSlot(shape, itemsize, strides, ix, RowRank(ix, shape));
    }
    forall ix: seq<nat>, jx: seq<nat>, k: nat
      | InSlot(shape, itemsize, strides, ix, k) && InSlot(shape, itemsize, strides, jx, k)
      ensures ix == jx
    {
      RowOffset(shape, itemsize, ix);
      RowOffset(shape, itemsize, jx);
      FactorCancels(itemsize, RowRank(ix, shape), k);
      FactorCancels(itemsize, RowRank(jx, shape), k);
      RowUnrankOfRank(ix, shape);
      RowUnrankOfRank(jx, shape);
    }
    forall k: nat | k < Product(shape)
      ensures SlotUsed(shape, itemsize, strides, k)
    {
      RowRankOfUnrank(k, shape);
      RowOffset(shape, itemsize, RowUnrank(k, shape));
      assert InSlot(shape, itemsize, strides, RowUnrank(k, shape), k);
    }
  }

  lemma FStridesDense(shape: seq<nat>, itemsize: nat, strides: seq<int>)
    requires itemsize > 0 && strides == FStrides(shape, itemsize)
    ensures Dense(shape, itemsize, strides)
  {
    forall ix: seq<nat> | InBounds(ix, shape)
      ensures exists k: nat :: k < Product(shape) && InSlot(shape, itemsize, strides, ix, k)
    {
      ColumnUnrankOfRank(ix, shape);
      ColumnOffset(shape, itemsize, ix);
      assert InSlot(shape, itemsize, strides, ix, ColumnRank(ix, shape));
    }
    forall ix: seq<nat>, jx: seq<nat>, k: nat
      | InSlot(shape, itemsize, strides, ix, k) && InSlot(shape, itemsize, strides, jx, k)
      ensures ix == jx
    {
      ColumnOffset(shape, itemsize, ix);
      ColumnOffset(shape, itemsize, jx);
      FactorCancels(itemsize, ColumnRank(ix, shape), k);
      FactorCancels(itemsize, ColumnRank(jx, shape), k);
      ColumnUnrankOfRank(ix, shape);
      ColumnUnrankOfRank(jx, shape);
    }
    forall k: nat | k < Product(shape)
      ensures SlotUsed(shape, itemsize, strides, k)
    {
      ColumnRankOfUnrank(k, shape);
      ColumnOffset(shape, itemsize, ColumnUnrank(k, shape));
      assert InSlot(shape, itemsize, strides, ColumnUnrank(k, shape), k);
    }
  }
}
