/**
 * Extents, multi-indices and the two linear numberings (row-major and column-major) of the
 * elements of an n-dimensional array.
 */
module Shapes {

  /** Number of elements of an array with the given extents. */
  function Product(shape: seq<nat>): nat {
    if shape == [] then 1 else shape[0] * Product(shape[1..])
  }

  ghost predicate InBounds(ix: seq<nat>, shape: seq<nat>) {
    |ix| == |shape| && forall d :: 0 <= d < |ix| ==> ix[d] < shape[d]
  }

  /** Byte offset of a (possibly partial) index: the index-dot-stride sum. */
  function ByteOffset(strides: seq<int>, ix: seq<nat>): int
    requires |ix| <= |strides|
  {
    if ix == [] then 0 else ix[0] * strides[0] + ByteOffset(strides[1..], ix[1..])
  }

  /** The zero index has offset 0, and one step along an axis moves the offset by that axis' stride. */
  lemma {:induction false} OffsetSteps(strides: seq<int>, ix: seq<nat>, d: nat)
    requires |ix| == |strides| && d < |ix|
    ensures (forall k :: 0 <= k < |ix| ==> ix[k] == 0) ==> ByteOffset(strides, ix) == 0
    ensures ByteOffset(strides, ix[d := ix[d] + 1]) == ByteOffset(strides, ix) + strides[d]
  {
    if |ix| > 1 {
      var e := if d == 0 then 0 else d - 1;
      OffsetSteps(strides[1..], ix[1..], e);
      assert d > 0 ==> ix[d := ix[d] + 1][1..] == ix[1..][e := ix[d] + 1];
      assert d == 0 ==> ix[d := ix[d] + 1][1..] == ix[1..];
    }
    NextFactor(strides[0], ix[0]);
  }

  lemma NextFactor(stride: int, i: nat)
    ensures (i + 1) * stride == i * stride + stride
  {
  }

  /** Position of `ix` when the last dimension runs fastest. */
  function RowRank(ix: seq<nat>, shape: seq<nat>): nat
    requires |ix| == |shape|
  {
    if ix == [] then 0 else ix[0] * Product(shape[1..]) + RowRank(ix[1..], shape[1..])
  }

  /** The index tuple at row-major position `k`: the mixed-radix digits of `k`. */
  function RowUnrank(k: nat, shape: seq<nat>): (ix: seq<nat>)
    requires k < Product(shape)
    ensures InBounds(ix, shape)
    decreases |shape|
  {
    if shape == [] then []
    else
      var p := Product(shape[1..]);
      DigitBounds(k, shape[0], p);
      [k / p] + RowUnrank(k % p, shape[1..])
  }

  /** Position of `ix` when the first dimension runs fastest. */
  function ColumnRank(ix: seq<nat>, shape: seq<nat>): nat
    requires |ix| == |shape|
  {
    if ix == [] then 0 else ix[0] + shape[0] * ColumnRank(ix[1..], shape[1..])
  }

  /** The index tuple at column-major position `k`. */
  function ColumnUnrank(k: nat, shape: seq<nat>): (ix: seq<nat>)
    requires k < Product(shape)
    ensures InBounds(ix, shape)
    decreases |shape|
  {
    if shape == [] then []
    else
      DigitBounds(k, Product(shape[1..]), shape[0]);
      [k % shape[0]] + ColumnUnrank(k / shape[0], shape[1..])
  }

  lemma Commute(a: int, b: int)
    ensures a * b == b * a
  {
  }

  lemma MulMonotone(a: int, b: int, p: int)
    ensures a <= b && 0 <= p ==> a * p <= b * p
  {
  }

  /** Splitting k < n * p into a quotient digit below n and a remainder below p. */
  lemma DigitBounds(k: nat, n: nat, p: nat)
    requires k < n * p || k < p * n
    ensures p > 0 && n > 0 && 0 <= k / p < n && 0 <= k % p < p && k == (k / p) * p + k % p
  {
  }

  /** A digit below n and a remainder below p stay below n * p and are recovered by division. */
  lemma DigitsOf(q: nat, r: nat, n: nat, p: nat)
    requires q < n && r < p
    ensures q * p + r < n * p
    ensures (q * p + r) / p == q && (q * p + r) % p == r
  {
    MulMonotone(q + 1, n, p);
    Advance(q, p);
    DivisionUnique(q * p + r, p, q, r);
  }

  lemma Advance(i: int, p: int)
    ensures (i + 1) * p == i * p + p
  {
  }

  lemma DivisionUnique(k: nat, p: nat, q: nat, r: nat)
    requires r < p && k == q * p + r
    ensures k / p == q && k % p == r
  {
    var digit, rest := k / p, k % p;
    assert k == digit * p + rest;
    Multiples(q - digit, q, digit, p);
  }

  lemma Multiples(d: int, a: int, b: int, p: int)
    requires d == a - b && p > 0
    ensures d >= 1 ==> a * p - b * p >= p
    ensures d <= -1 ==> a * p - b * p <= -p
  {
    MulMonotone(b + 1, a, p);
    MulMonotone(a + 1, b, p);
    Advance(b, p);
    Advance(a, p);
  }

  /** Row-major numbering is one-to-one: unranking the rank gives the index back. */
  lemma {:induction false} RowUnrankOfRank(ix: seq<nat>, shape: seq<nat>)
    requires InBounds(ix, shape)
    ensures RowRank(ix, shape) < Product(shape)
    ensures RowUnrank(RowRank(ix, shape), shape) == ix
  {
    if ix != [] {
      RowUnrankOfRank(ix[1..], shape[1..]);
      DigitsOf(ix[0], RowRank(ix[1..], shape[1..]), shape[0], Product(shape[1..]));
    }
  }

  /** Row-major numbering is onto: ranking the unranked index gives the position back. */
  lemma {:induction false} RowRankOfUnrank(k: nat, shape: seq<nat>)
    requires k < Product(shape)
    ensures RowRank(RowUnrank(k, shape), shape) == k
    decreases |shape|
  {
    if shape != [] {
      var p := Product(shape[1..]);
      DigitBounds(k, shape[0], p);
      RowRankOfUnrank(k % p, shape[1..]);
      assert RowUnrank(k, shape)[1..] == RowUnrank(k % p, shape[1..]);
    }
  }

  lemma {:induction false} ColumnUnrankOfRank(ix: seq<nat>, shape: seq<nat>)
    requires InBounds(ix, shape)
    ensures ColumnRank(ix, shape) < Product(shape)
    ensures ColumnUnrank(ColumnRank(ix, shape), shape) == ix
  {
    if ix != [] {
      ColumnUnrankOfRank(ix[1..], shape[1..]);
      DigitsOf(ColumnRank(ix[1..], shape[1..]), ix[0], Product(shape[1..]), shape[0]);
    }
  }

  lemma {:induction false} ColumnRankOfUnrank(k: nat, shape: seq<nat>)
    requires k < Product(shape)
    ensures ColumnRank(ColumnUnrank(k, shape), shape) == k
    decreases |shape|
  {
    if shape != [] {
      var ix, q, r := ColumnUnrank(k, shape), k / shape[0], k % shape[0];
      DigitBounds(k, Product(shape[1..]), shape[0]);
      ColumnRankOfUnrank(q, shape[1..]);
      assert ix[0] == r && ix[1..] == ColumnUnrank(q, shape[1..]);
      Commute(shape[0], q);
    }
  }

  /** Any in-bounds index witnesses that every extent, hence the element count, is positive. */
  lemma {:induction false} InBoundsPositive(ix: seq<nat>, shape: seq<nat>)
    requires InBounds(ix, shape)
    ensures Product(shape) > 0
  {
    RowUnrankOfRank(ix, shape);
  }

  lemma {:induction false} ProductPositive(shape: seq<nat>)
    ensures Product(shape) > 0 <==> forall d :: 0 <= d < |shape| ==> shape[d] > 0
  {
    if shape != [] {
      ProductPositive(shape[1..]);
      if forall d :: 0 <= d < |shape| ==> shape[d] > 0 {
        assert forall d :: 0 <= d < |shape[1..]| ==> shape[1..][d] == shape[d + 1];
        assert shape[0] * Product(shape[1..]) > 0;
      }
      if Product(shape) > 0 {
        DigitBounds(0, shape[0], Product(shape[1..]));
        assert forall d :: 0 < d < |shape| ==> shape[d] == shape[1..][d - 1];
      }
    }
  }
}
