/** The odometer that walks several strided buffers over one broadcast shape in lock step. */
module StridedIteration {
  import opened Shapes
  import opened Buffers

  /** Offset of the last element of the given dimensions: what a full wrap has to take back. */
  function Rewind(strides: seq<int>, shape: seq<nat>): int
    requires |strides| == |shape|
  {
    if shape == [] then 0 else (shape[0] - 1) * strides[0] + Rewind(strides[1..], shape[1..])
  }

  /** Pointer step when dimension d advances and all later dimensions wrap to 0. */
  function CarryStrides(strides: seq<int>, shape: seq<nat>): seq<int>
    requires |strides| == |shape|
  {
    seq(|shape|, d requires 0 <= d < |shape| => strides[d] - Rewind(strides[d + 1..], shape[d + 1..]))
  }

  /** Closed form of the carry recurrence: each stride is obtained from its right neighbour's. */
  lemma CarryRecurrence(strides: seq<int>, shape: seq<nat>, i: nat, carry: seq<int>)
    requires 0 < i < |shape| == |strides| && carry == CarryStrides(strides, shape)
    ensures carry[i - 1] == strides[i - 1] + carry[i] - strides[i] * shape[i]
  {
  }

  method ComputeCarryStrides(strides: seq<int>, shape: seq<nat>) returns (m: seq<int>)
    requires 0 < |strides| == |shape|
    ensures m == CarryStrides(strides, shape)
  {
    ghost var goal := CarryStrides(strides, shape);
    m := seq(|strides|, _ => 0);
    m := m[|m| - 1 := strides[|strides| - 1]];
    var i := |m| - 1;
    assert strides[i + 1..] == [] && shape[i + 1..] == [] && goal[i] == strides[i];
    while i != 0
      invariant 0 <= i < |m| == |strides|
      invariant forall d :: i <= d < |m| ==> m[d] == goal[d]
    {
      var j := i - 1;
      CarryRecurrence(strides, shape, i, goal);
      m := m[j := strides[j] + m[i] - strides[i] * shape[i]];
      i := j;
    }
  }

  class CommonIterator {
    var ptr: int
    var carry: seq<int>

    constructor (ptr: int, strides: seq<int>, shape: seq<nat>)
      requires 0 < |strides| == |shape|
      ensures this.ptr == ptr && carry == CarryStrides(strides, shape)
    {
      var m := ComputeCarryStrides(strides, shape);
      this.ptr := ptr;
      carry := m;
    }

    method Increment(dim: nat)
      requires dim < |carry|
      modifies this`ptr
      ensures ptr == old(ptr) + carry[dim]
    {
      ptr := ptr + carry[dim];
    }
  }

  /** `jx` follows `ix` by advancing dimension `j`, with every later dimension wrapping to 0. */
  ghost predicate CarriesAt(ix: seq<nat>, jx: seq<nat>, j: nat, shape: seq<nat>) {
    && j < |shape| == |ix| == |jx|
    && jx[..j] == ix[..j] && jx[j] == ix[j] + 1
    && forall d :: j < d < |shape| ==> ix[d] + 1 == shape[d] && jx[d] == 0
  }

  ghost predicate AtEnd(ix: seq<nat>, shape: seq<nat>) {
    |ix| == |shape| && forall d :: 0 <= d < |shape| ==> ix[d] + 1 == shape[d]
  }

  lemma {:induction false} EndRankAndOffset(ix: seq<nat>, shape: seq<nat>, strides: seq<int>)
    requires |strides| == |shape| && AtEnd(ix, shape)
    ensures RowRank(ix, shape) == Product(shape) - 1
    ensures ByteOffset(strides, ix) == Rewind(strides, shape)
  {
    if shape != [] {
      EndRankAndOffset(ix[1..], shape[1..], strides[1..]);
      assert ix[0] * Product(shape[1..]) == shape[0] * Product(shape[1..]) - Product(shape[1..]);
    }
  }

  lemma {:induction false} ZeroRankAndOffset(ix: seq<nat>, shape: seq<nat>, strides: seq<int>)
    requires |strides| == |shape| == |ix| && forall d :: 0 <= d < |ix| ==> ix[d] == 0
    ensures RowRank(ix, shape) == 0 && ByteOffset(strides, ix) == 0
  {
    if shape != [] {
      ZeroRankAndOffset(ix[1..], shape[1..], strides[1..]);
    }
  }

  /** One odometer step moves the offset by the carry stride of the advancing dimension. */
  lemma CarryOffset(ix: seq<nat>, jx: seq<nat>, j: nat, shape: seq<nat>, strides: seq<int>)
    requires CarriesAt(ix, jx, j, shape) && |strides| == |shape|
    ensures ByteOffset(strides, jx) == ByteOffset(strides, ix) + CarryStrides(strides, shape)[j]
  {
    CarryStep(ix, jx, j, shape, strides);
  }

  lemma {:induction false} CarryStep(ix: seq<nat>, jx: seq<nat>, j: nat, shape: seq<nat>, strides: seq<int>)
    requires CarriesAt(ix, jx, j, shape) && |strides| == |shape|
    ensures RowRank(jx, shape) == RowRank(ix, shape) + 1
    ensures ByteOffset(strides, jx) == ByteOffset(strides, ix) + strides[j] - Rewind(strides[j + 1..], shape[j + 1..])
  {
    if j == 0 {
      EndRankAndOffset(ix[1..], shape[1..], strides[1..]);
      ZeroRankAndOffset(jx[1..], shape[1..], strides[1..]);
      Advance(ix[0], Product(shape[1..]));
      Advance(ix[0], strides[0]);
    } else {
      assert jx[0] == jx[..j][0] == ix[..j][0] == ix[0];
      assert jx[1..][..j - 1] == jx[..j][1..] == ix[..j][1..] == ix[1..][..j - 1];
      CarryStep(ix[1..], jx[1..], j - 1, shape[1..], strides[1..]);
      assert strides[1..][j..] == strides[j + 1..] && shape[1..][j..] == shape[j + 1..];
    }
  }

  lemma CarryInBounds(ix: seq<nat>, jx: seq<nat>, j: nat, shape: seq<nat>)
    requires InBounds(ix, shape) && CarriesAt(ix, jx, j, shape) && jx[j] < shape[j]
    ensures InBounds(jx, shape)
  {
  }

  lemma PrefixAt(a: seq<nat>, b: seq<nat>, j: nat)
    requires 0 < j <= |a| == |b| && a[..j] == b[..j]
    ensures a[j - 1] == b[j - 1] && a[..j - 1] == b[..j - 1]
  {
  }

  /** Carrying inside the shape reaches the next position, which is still in range. */
  lemma Successor(ix: seq<nat>, jx: seq<nat>, j: nat, shape: seq<nat>)
    requires InBounds(ix, shape) && CarriesAt(ix, jx, j, shape) && jx[j] < shape[j]
    ensures InBounds(jx, shape) && RowRank(jx, shape) == RowRank(ix, shape) + 1 < Product(shape)
  {
    CarryInBounds(ix, jx, j, shape);
    CarryStep(ix, jx, j, shape, seq(|shape|, _ => 0));
    RowUnrankOfRank(jx, shape);
  }

  lemma Exhausted(ix: seq<nat>, shape: seq<nat>)
    requires AtEnd(ix, shape)
    ensures RowRank(ix, shape) + 1 == Product(shape)
  {
  }

  class MultiArrayIterator {
    var shape: seq<nat>
    var index: seq<nat>
    var iterators: seq<CommonIterator>
    ghost var position: nat
    ghost var count: nat
    ghost var bases: seq<int>
    ghost var spans: seq<seq<int>>

    /** The parts that no increment changes. */
    ghost predicate Wired()
      reads `shape, `iterators, `bases, `spans, iterators`carry
    {
      && 0 < |shape|
      && |iterators| == |bases| == |spans|
      && (forall m, n :: 0 <= m < n < |iterators| ==> iterators[m] != iterators[n])
      && (forall n :: 0 <= n < |iterators| ==> |spans[n]| == |shape| && iterators[n].carry == CarryStrides(spans[n], shape))
    }

    /** Before the end: `index` is the mixed-radix form of `position` and every pointer is at it. */
    ghost predicate Valid()
      reads this, iterators
    {
      && Wired()
      && count == Product(shape)
      && InBounds(index, shape) && RowRank(index, shape) == position
      && PointersAt(index)
    }

    /** This iterator walks the given buffers over the given shape. */
    ghost predicate Walks(buffers: seq<BufferInfo>, shape: seq<nat>)
      reads `shape, `iterators, `bases, `spans, `count, iterators`carry
    {
      && Wired() && this.shape == shape && count == Product(shape)
      && |iterators| == |buffers|
      && forall n :: 0 <= n < |buffers| ==>
           FitsUnder(buffers[n], shape) && bases[n] == buffers[n].ptr && spans[n] == Span(buffers[n], shape)
    }

    constructor (buffers: seq<BufferInfo>, shape: seq<nat>)
      requires 0 < |shape| && Product(shape) > 0
      requires forall n :: 0 <= n < |buffers| ==> FitsUnder(buffers[n], shape)
      ensures Valid() && fresh(iterators) && position == 0
      ensures Walks(buffers, shape)
    {
      this.shape, index, position, count := shape, seq(|shape|, _ => 0), 0, Product(shape);
      bases := seq(|buffers|, n requires 0 <= n < |buffers| => buffers[n].ptr);
      spans := seq(|buffers|, n requires 0 <= n < |buffers| && FitsUnder(buffers[n], shape) => Span(buffers[n], shape));
      iterators := [];
      new;
      var strides := new int[|shape|];
      var its: seq<CommonIterator> := [];
      for n := 0 to |buffers|
        modifies strides
        invariant |its| == n && fresh(its)
        invariant forall m, k :: 0 <= m < k < n ==> its[m] != its[k]
        invariant forall m :: 0 <= m < n ==> its[m].ptr == bases[m] && its[m].carry == CarryStrides(spans[m], shape)
      {
        var it := InitCommonIterator(buffers[n], shape, strides);
        its := its + [it];
      }
      iterators := its;
      ZeroRankAndOffset(index, shape, seq(|shape|, _ => 0));
      ProductPositive(shape);
      forall n | 0 <= n < |iterators| ensures ByteOffset(spans[n], index) == 0 {
        ZeroRankAndOffset(index, shape, spans[n]);
      }
    }

    /** Advances to the next element; past the last one only the index wraps. */
    method Next()
      requires Valid()
      modifies this`index, this`position, iterators`ptr
      ensures Wired() && position == old(position) + 1
      ensures position < count ==> Valid()
      ensures position == count ==> index == seq(|shape|, _ => 0)
      ensures position == count ==> forall n :: 0 <= n < |iterators| ==> iterators[n].ptr == old(iterators[n].ptr)
    {
      ghost var ix := index;
      var j := |index|;
      while j != 0
        invariant 0 <= j <= |index| == |shape| && position == old(position)
        invariant index[..j] == ix[..j]
        invariant forall d :: j <= d < |shape| ==> ix[d] + 1 == shape[d] && index[d] == 0
        invariant PointersAt(ix)
        invariant forall n :: 0 <= n < |iterators| ==> iterators[n].ptr == old(iterators[n].ptr)
      {
        var i := j - 1;
        PrefixAt(index, ix, j);
        index := index[i := index[i] + 1];
        if index[i] != shape[i] {
          IncrementCommonIterators(i, ix);
          return;
        } else {
          index := index[i := 0];
        }
        j := j - 1;
      }
      position := position + 1;
      Exhausted(ix, shape);
    }

    /** Every pointer sits at index `ix`. */
    ghost predicate PointersAt(ix: seq<nat>)
      requires Wired() && |ix| == |shape|
      reads `shape, `iterators, `bases, `spans, iterators`carry, iterators`ptr
    {
      forall n :: 0 <= n < |iterators| ==> iterators[n].ptr == bases[n] + ByteOffset(spans[n], ix)
    }

    /** After `position` increments: mixed-radix index, every pointer at base plus index dot stride. */
    lemma AtPosition()
      requires Valid()
      ensures position < Product(shape) && index == RowUnrank(position, shape)
      ensures forall n :: 0 <= n < |iterators| ==>
        iterators[n].ptr == bases[n] + ByteOffset(spans[n], RowUnrank(position, shape))
    {
      RowUnrankOfRank(index, shape);
    }

    /** The index has just carried from `ix` at dimension `dim`; the pointers follow. */
    method IncrementCommonIterators(dim: nat, ghost ix: seq<nat>)
      requires Wired() && CarriesAt(ix, index, dim, shape) && index[dim] < shape[dim] && PointersAt(ix)
      requires InBounds(ix, shape) && RowRank(ix, shape) == position && count == Product(shape)
      modifies this`position, iterators`ptr
      ensures position == old(position) + 1 < count && Valid()
    {
      for n := 0 to |iterators|
        invariant forall m :: 0 <= m < n ==> iterators[m].ptr == bases[m] + ByteOffset(spans[m], index)
        invariant forall m :: n <= m < |iterators| ==> iterators[m].ptr == bases[m] + ByteOffset(spans[m], ix)
      {
        CarryOffset(ix, index, dim, shape, spans[n]);
        iterators[n].Increment(dim);
      }
      position := RowRank(index, shape);
      Successor(ix, index, dim, shape);
    }
  }

  /** Fills the scratch strides, whatever an earlier buffer left in them, and wraps them up. */
  method InitCommonIterator(buffer: BufferInfo, shape: seq<nat>, strides: array<int>) returns (it: CommonIterator)
    requires FitsUnder(buffer, shape) && |shape| == strides.Length && 0 < |shape|
    modifies strides
    ensures fresh(it) && it.ptr == buffer.ptr
    ensures strides[..] == Span(buffer, shape)
    ensures it.carry == CarryStrides(strides[..], shape)
  {
    ghost var goal := Span(buffer, shape);
    var b, k := |buffer.shape|, |shape|;
    while b != 0
      invariant 0 <= b <= |buffer.shape| && k - b == |shape| - |buffer.shape|
      invariant forall d :: k <= d < |shape| ==> strides[d] == goal[d]
    {
      strides[k - 1] := if shape[k - 1] == buffer.shape[b - 1] then buffer.strides[b - 1] else 0;
      b, k := b - 1, k - 1;
    }
    while k != 0
      invariant 0 <= k <= |shape| - |buffer.shape|
      invariant forall d :: k <= d < |shape| ==> strides[d] == goal[d]
    {
      strides[k - 1] := 0;
      k := k - 1;
    }
    assert strides[..] == goal;
    it := new CommonIterator(buffer.ptr, strides[..], shape);
  }
}
