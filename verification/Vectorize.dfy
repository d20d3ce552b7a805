/**
 * Calling a scalar function element-wise over broadcast buffers. The two evaluation paths, the
 * linear one and the strided one, are both proved against the same element-wise meaning.
 */
module Vectorize {
  import opened Shapes
  import opened ArrayStrides
  import opened Buffers
  import opened StridedIteration
  import opened Broadcasting

  /** The value readable at each address. */
  type Memory<V> = int -> V

  datatype Result<R> = Failed | Scalar(value: R) | Array(shape: seq<nat>, itemsize: nat, strides: seq<int>, items: seq<R>) {
    /** The item that a reader of the returned array finds at index `ix`. */
    ghost predicate Holds(ix: seq<nat>, value: R) {
      && Array?
      && |ix| == |shape| == |strides|
      && exists k: nat :: k < |items| && ByteOffset(strides, ix) == itemsize * k && items[k] == value
    }
  }

  ghost predicate AllFit(buffers: seq<BufferInfo>, shape: seq<nat>) {
    forall n :: 0 <= n < |buffers| ==> FitsUnder(buffers[n], shape)
  }

  /** The arguments that the wrapped function has to see for result index `ix`. */
  function Arguments<V>(mem: Memory<V>, buffers: seq<BufferInfo>, ix: seq<nat>, shape: seq<nat>): (args: seq<V>)
    requires AllFit(buffers, shape) && |ix| == |shape|
  {
    seq(|buffers|, n requires 0 <= n < |buffers| => mem(ElementAddress(buffers[n], ix)))
  }

  /** Each argument is read where the buffer's own strides place its own index. */
  lemma ArgumentRead<V>(mem: Memory<V>, buffers: seq<BufferInfo>, ix: seq<nat>, shape: seq<nat>, n: nat) returns (own: seq<nat>)
    requires AllFit(buffers, shape) && n < |buffers| && Conforms(buffers[n].shape, shape) && InBounds(ix, shape)
    ensures var b := buffers[n];
      var skip := |shape| - |b.shape|;
      && InBounds(own, b.shape)
      && (forall d :: 0 <= d < |own| && b.shape[d] == shape[skip + d] ==> own[d] == ix[skip + d])
      && |Arguments(mem, buffers, ix, shape)| == |buffers|
      && Arguments(mem, buffers, ix, shape)[n] == mem(b.ptr + ByteOffset(b.strides, own))
  {
    own := BroadcastIndex(ix, buffers[n].shape);
    OwnIndex(ix, buffers[n].shape, shape);
    assert Arguments(mem, buffers, ix, shape)[n] == mem(ElementAddress(buffers[n], ix));
  }

  /** A vector is added to every row of a matrix: the addresses read for row i and column j. */
  lemma MatrixAndVector<V>(mem: Memory<V>, a: BufferInfo, v: BufferInfo, i: nat, j: nat)
    requires a.Valid() && v.Valid() && i < 2 && j < 3
    requires a.shape == [2, 3] && v.shape == [3]
    ensures Arguments(mem, [a, v], [i, j], [2, 3])
      == [mem(a.ptr + (i * a.strides[0] + j * a.strides[1])), mem(v.ptr + j * v.strides[0])]
  {
    assert BroadcastIndex([i, j], a.shape) == [i, j] && BroadcastIndex([i, j], v.shape) == [j];
    TwoAxes(a.strides, i, j);
    OneAxis(v.strides, j);
    var args := Arguments(mem, [a, v], [i, j], [2, 3]);
    assert args[0] == mem(ElementAddress(a, [i, j])) && args[1] == mem(ElementAddress(v, [i, j]));
  }

  lemma TwoAxes(strides: seq<int>, i: nat, j: nat)
    requires |strides| == 2
    ensures ByteOffset(strides, [i, j]) == i * strides[0] + j * strides[1]
  {
    OneAxis(strides[1..], j);
    assert [i, j][1..] == [j];
  }

  lemma OneAxis(strides: seq<int>, j: nat)
    requires |strides| == 1
    ensures ByteOffset(strides, [j]) == j * strides[0]
  {
    assert [j][1..] == [] && ByteOffset(strides[1..], []) == 0;
  }

  /** Increment of a pointer on the linear path, given the size of the parameter's type: singletons stand still. */
  function LinearStep(b: BufferInfo, size: nat): nat {
    if b.size == 1 then 0 else size
  }

  /** The arguments under the pointers after k increments. */
  function LinearArguments<V>(mem: Memory<V>, buffers: seq<BufferInfo>, sizes: seq<nat>, k: nat): (args: seq<V>)
    requires |sizes| == |buffers|
  {
    seq(|buffers|, n requires 0 <= n < |buffers| => mem(buffers[n].ptr + LinearStep(buffers[n], sizes[n]) * k))
  }

  /** Array arguments have been converted to the parameters' types. */
  ghost predicate Converted(buffers: seq<BufferInfo>, sizes: seq<nat>) {
    |sizes| == |buffers| && forall n :: 0 <= n < |buffers| ==> buffers[n].itemsize == sizes[n]
  }

  // ---- linear addresses are element addresses ----

  lemma {:induction false} SingletonIndex(extents: seq<nat>, ix: seq<nat>, strides: seq<int>)
    requires Product(extents) == 1 && |extents| <= |ix| && |strides| == |extents|
    ensures ByteOffset(strides, BroadcastIndex(ix, extents)) == 0
  {
    UnitProduct(extents);
    ZeroRankAndOffset(BroadcastIndex(ix, extents), extents, strides);
  }

  lemma {:induction false} UnitProduct(extents: seq<nat>)
    requires Product(extents) == 1
    ensures forall d :: 0 <= d < |extents| ==> extents[d] == 1
  {
    if extents != [] {
      var p := Product(extents[1..]);
      MulMonotone(2, extents[0], p);
      MulMonotone(2, p, extents[0]);
      UnitProduct(extents[1..]);
      assert forall d :: 0 < d < |extents| ==> extents[d] == extents[1..][d - 1];
    }
  }

  lemma FullIndex(ix: seq<nat>, shape: seq<nat>)
    requires InBounds(ix, shape)
    ensures BroadcastIndex(ix, shape) == ix
  {
  }

  lemma CLinearAddress(b: BufferInfo, shape: seq<nat>, k: nat)
    requires FitsUnder(b, shape) && CLinear(b, shape) && k < Product(shape)
    ensures b.ptr + LinearStep(b, b.itemsize) * k == ElementAddress(b, RowUnrank(k, shape))
  {
    var ix := RowUnrank(k, shape);
    if b.size == 1 {
      SingletonIndex(b.shape, ix, b.strides);
    } else {
      FullIndex(ix, shape);
      RowOffset(shape, b.itemsize, ix);
      RowRankOfUnrank(k, shape);
    }
  }

  lemma FLinearAddress(b: BufferInfo, shape: seq<nat>, k: nat)
    requires FitsUnder(b, shape) && FLinear(b, shape) && k < Product(shape)
    ensures b.ptr + LinearStep(b, b.itemsize) * k == ElementAddress(b, ColumnUnrank(k, shape))
  {
    var ix := ColumnUnrank(k, shape);
    if b.size == 1 {
      SingletonIndex(b.shape, ix, b.strides);
    } else {
      FullIndex(ix, shape);
      ColumnOffset(shape, b.itemsize, ix);
      ColumnRankOfUnrank(k, shape);
    }
  }

  /** The items so far are the element-wise results, last dimension running fastest. */
  ghost predicate RowItems<V, R>(mem: Memory<V>, f: seq<V> -> R, buffers: seq<BufferInfo>, shape: seq<nat>, items: seq<R>)
    requires AllFit(buffers, shape)
  {
    && |items| <= Product(shape)
    && forall k :: 0 <= k < |items| ==> items[k] == f(Arguments(mem, buffers, RowUnrank(k, shape), shape))
  }

  /** The same with the first dimension running fastest. */
  ghost predicate ColumnItems<V, R>(mem: Memory<V>, f: seq<V> -> R, buffers: seq<BufferInfo>, shape: seq<nat>, items: seq<R>)
    requires AllFit(buffers, shape)
  {
    && |items| <= Product(shape)
    && forall k :: 0 <= k < |items| ==> items[k] == f(Arguments(mem, buffers, ColumnUnrank(k, shape), shape))
  }

  // ---- the two evaluation loops ----

  /** Linear path: all pointers advance by a constant; item k is f at the k-th addresses. */
  method ApplyTrivial<V, R>(mem: Memory<V>, f: seq<V> -> R, buffers: seq<BufferInfo>, sizes: seq<nat>, out: array<R>)
    requires |sizes| == |buffers|
    modifies out
    ensures forall k :: 0 <= k < out.Length ==> out[k] == f(LinearArguments(mem, buffers, sizes, k))
  {
    var params := seq(|buffers|, n requires 0 <= n < |buffers| => buffers[n].ptr);
    for i := 0 to out.Length
      invariant |params| == |buffers|
      invariant forall n :: 0 <= n < |buffers| ==> params[n] == buffers[n].ptr + LinearStep(buffers[n], sizes[n]) * i
      invariant forall k :: 0 <= k < i ==> out[k] == f(LinearArguments(mem, buffers, sizes, k))
    {
      var args := seq(|params|, n requires 0 <= n < |params| => mem(params[n]));
      assert args == LinearArguments(mem, buffers, sizes, i);
      out[i] := f(args);
      params := seq(|params|, n requires 0 <= n < |params| && |params| == |buffers| =>
        params[n] + LinearStep(buffers[n], sizes[n]));
    }
  }

  /** Reads the argument values under the iterator's current pointers. */
  method Gather<V>(mem: Memory<V>, iter: MultiArrayIterator) returns (args: seq<V>)
    ensures |args| == |iter.iterators|
    ensures forall n :: 0 <= n < |args| ==> args[n] == mem(iter.iterators[n].ptr)
  {
    args := [];
    for n := 0 to |iter.iterators|
      invariant |args| == n
      invariant forall m :: 0 <= m < n ==> args[m] == mem(iter.iterators[m].ptr)
    {
      args := args + [mem(iter.iterators[n].ptr)];
    }
  }

  /** General path: the odometer visits the result in row-major order. */
  method ApplyBroadcast<V, R>(mem: Memory<V>, f: seq<V> -> R, buffers: seq<BufferInfo>, shape: seq<nat>, out: array<R>)
    requires 0 < |shape| && out.Length == Product(shape) > 0
    requires AllFit(buffers, shape)
    requires forall n :: 0 <= n < |buffers| ==> Conforms(buffers[n].shape, shape)
    modifies out
    ensures RowItems(mem, f, buffers, shape, out[..])
  {
    var iter := new MultiArrayIterator(buffers, shape);
    assert out[..0] == [];
    for i := 0 to out.Length
      invariant fresh(iter) && fresh(iter.iterators) && iter.Walks(buffers, shape)
      invariant i < out.Length ==> iter.Valid() && iter.position == i
      invariant RowItems(mem, f, buffers, shape, out[..i])
    {
      var args := ReadArguments(mem, buffers, shape, iter);
      RowItemsSnoc(mem, f, buffers, shape, out[..i], f(args));
      out[i] := f(args);
      assert out[..i + 1] == out[..i] + [f(args)];
      iter.Next();
    }
    assert out[..] == out[..out.Length];
  }

  /** What the iterator's pointers read are the arguments of its position. */
  method ReadArguments<V>(mem: Memory<V>, buffers: seq<BufferInfo>, shape: seq<nat>, iter: MultiArrayIterator)
    returns (args: seq<V>)
    requires iter.Valid() && iter.Walks(buffers, shape) && AllFit(buffers, shape)
    requires forall n :: 0 <= n < |buffers| ==> Conforms(buffers[n].shape, shape)
    ensures iter.position < Product(shape) && args == Arguments(mem, buffers, RowUnrank(iter.position, shape), shape)
  {
    args := Gather(mem, iter);
    PointersMatch(mem, buffers, shape, iter, args);
  }

  lemma RowItemsSnoc<V, R>(mem: Memory<V>, f: seq<V> -> R, buffers: seq<BufferInfo>, shape: seq<nat>, items: seq<R>, item: R)
    requires AllFit(buffers, shape) && |items| < Product(shape) && RowItems(mem, f, buffers, shape, items)
    requires item == f(Arguments(mem, buffers, RowUnrank(|items|, shape), shape))
    ensures RowItems(mem, f, buffers, shape, items + [item])
  {
  }

  lemma PointersMatch<V>(mem: Memory<V>, buffers: seq<BufferInfo>, shape: seq<nat>, iter: MultiArrayIterator, args: seq<V>)
    requires iter.Valid() && iter.Walks(buffers, shape) && |args| == |buffers|
    requires forall n :: 0 <= n < |buffers| ==> Conforms(buffers[n].shape, shape)
    requires forall n :: 0 <= n < |args| ==> args[n] == mem(iter.iterators[n].ptr)
    ensures iter.position < Product(shape) && args == Arguments(mem, buffers, RowUnrank(iter.position, shape), shape)
  {
    RowUnrankOfRank(iter.index, shape);
    forall n | 0 <= n < |buffers|
      ensures args[n] == mem(ElementAddress(buffers[n], RowUnrank(iter.position, shape)))
    {
      BroadcastOffset(buffers[n].shape, buffers[n].strides, shape, iter.index);
    }
  }

  // ---- the vectorised call ----

  /**
   * Element-wise application. It fails exactly when the extents clash; otherwise each index of
   * the result holds f of the elements that broadcasting assigns to that index, whichever path ran.
   */
  method Run<V, R(0)>(mem: Memory<V>, f: seq<V> -> R, buffers: seq<BufferInfo>, sizes: seq<nat>, itemsize: nat)
    returns (r: Result<R>)
    requires |buffers| >= 1 && itemsize > 0 && Converted(buffers, sizes)
    requires forall n :: 0 <= n < |buffers| ==> buffers[n].Valid()
    ensures r.Failed? <==> !Compatible(buffers)
    ensures r.Scalar? <==> forall b :: b in buffers ==> b.shape == []
    ensures r.Scalar? ==> AllFit(buffers, []) && r.value == f(Arguments(mem, buffers, [], []))
    ensures r.Array? ==> IsBroadcastShape(buffers, r.shape) && AllFit(buffers, r.shape)
    ensures r.Array? ==> |r.strides| == |r.shape| && r.itemsize == itemsize && Dense(r.shape, itemsize, r.strides)
    ensures r.Array? ==>
      r.strides == if Triviality(buffers, r.shape) == FTrivial then FStrides(r.shape, itemsize) else CStrides(r.shape, itemsize)
    ensures r.Array? ==> |r.items| == Product(r.shape)
    ensures r.Array? ==> forall ix | InBounds(ix, r.shape) :: r.Holds(ix, f(Arguments(mem, buffers, ix, r.shape)))
  {
    var outcome := BroadcastBuffers(buffers);
    if outcome.Incompatible? {
      ScalarsCompatible(buffers);
      return Failed;
    }
    var shape := outcome.shape;
    MembersFit(buffers, shape);
    if shape == [] {
      var args := seq(|buffers|, n requires 0 <= n < |buffers| => mem(buffers[n].ptr));
      forall n | 0 <= n < |buffers| ensures mem(ElementAddress(buffers[n], [])) == args[n] {
        assert BroadcastIndex([], buffers[n].shape) == [];
      }
      assert args == Arguments(mem, buffers, [], []);
      return Scalar(f(args));
    }
    var strides;
    if outcome.trivial == FTrivial {
      strides := ComputeFStrides(shape, itemsize);
      FStridesDense(shape, itemsize, strides);
    } else {
      strides := ComputeCStrides(shape, itemsize);
      CStridesDense(shape, itemsize, strides);
    }
    var size := CountItems(shape);
    var out := new R[size];
    if size == 0 {
      r := Array(shape, itemsize, strides, out[..]);
      NoIndex(shape);
      return;
    }
    if outcome.trivial == NonTrivial {
      ApplyBroadcast(mem, f, buffers, shape, out);
      RowItemsHold(mem, f, buffers, shape, itemsize, strides, out[..]);
    } else {
      ApplyTrivial(mem, f, buffers, sizes, out);
      if outcome.trivial == CTrivial {
        CItems(mem, f, buffers, sizes, shape, out[..]);
        RowItemsHold(mem, f, buffers, shape, itemsize, strides, out[..]);
      } else {
        FItems(mem, f, buffers, sizes, shape, out[..]);
        ColumnItemsHold(mem, f, buffers, shape, itemsize, strides, out[..]);
      }
    }
    r := Array(shape, itemsize, strides, out[..]);
  }

  method CountItems(shape: seq<nat>) returns (size: nat)
    ensures size == Product(shape)
  {
    size := 1;
    assert shape[0..] == shape;
    for i := 0 to |shape|
      invariant size * Product(shape[i..]) == Product(shape)
    {
      assert shape[i..][1..] == shape[i + 1..];
      CarryProduct(1, size * shape[i], Product(shape[i + 1..]));
      assert size * (shape[i] * Product(shape[i + 1..])) == (size * shape[i]) * Product(shape[i + 1..]);
      size := size * shape[i];
    }
  }

  lemma ScalarsCompatible(buffers: seq<BufferInfo>)
    ensures (forall b :: b in buffers ==> b.shape == []) ==> Compatible(buffers)
  {
  }

  lemma MembersFit(buffers: seq<BufferInfo>, shape: seq<nat>)
    requires IsBroadcastShape(buffers, shape)
    requires forall n :: 0 <= n < |buffers| ==> buffers[n].Valid()
    ensures AllFit(buffers, shape)
    ensures forall n :: 0 <= n < |buffers| ==> Conforms(buffers[n].shape, shape)
  {
    forall n | 0 <= n < |buffers| ensures Conforms(buffers[n].shape, shape) {
      ConformsToBroadcastShape(buffers, shape, buffers[n]);
    }
  }

  lemma NoIndex(shape: seq<nat>)
    requires Product(shape) == 0
    ensures forall ix :: !InBounds(ix, shape)
  {
    forall ix ensures !InBounds(ix, shape) {
      if InBounds(ix, shape) {
        InBoundsPositive(ix, shape);
        assert false;
      }
    }
  }

  /** On C-ordered buffers the linear walk reads the arguments of the k-th index. */
  lemma CArguments<V>(mem: Memory<V>, buffers: seq<BufferInfo>, sizes: seq<nat>, shape: seq<nat>, k: nat)
    requires Converted(buffers, sizes) && AllFit(buffers, shape) && k < Product(shape)
    requires forall b :: b in buffers ==> CLinear(b, shape)
    ensures LinearArguments(mem, buffers, sizes, k) == Arguments(mem, buffers, RowUnrank(k, shape), shape)
  {
    var args := LinearArguments(mem, buffers, sizes, k);
    forall n | 0 <= n < |buffers| ensures args[n] == mem(ElementAddress(buffers[n], RowUnrank(k, shape))) {
      CLinearAddress(buffers[n], shape, k);
    }
  }

  /** Items written along the linear path of C-ordered buffers, read in row-major order. */
  lemma CItems<V, R>(mem: Memory<V>, f: seq<V> -> R, buffers: seq<BufferInfo>, sizes: seq<nat>,
                     shape: seq<nat>, items: seq<R>)
    requires Converted(buffers, sizes) && AllFit(buffers, shape) && |items| == Product(shape)
    requires forall b :: b in buffers ==> CLinear(b, shape)
    requires forall k :: 0 <= k < |items| ==>
      items[k] == f(LinearArguments(mem, buffers, sizes, k))
    ensures RowItems(mem, f, buffers, shape, items)
  {
    forall k | 0 <= k < |items| ensures items[k] == f(Arguments(mem, buffers, RowUnrank(k, shape), shape)) {
      CArguments(mem, buffers, sizes, shape, k);
    }
  }

  /** On Fortran-ordered buffers the linear walk reads the arguments of the k-th index. */
  lemma FArguments<V>(mem: Memory<V>, buffers: seq<BufferInfo>, sizes: seq<nat>, shape: seq<nat>, k: nat)
    requires Converted(buffers, sizes) && AllFit(buffers, shape) && k < Product(shape)
    requires forall b :: b in buffers ==> FLinear(b, shape)
    ensures LinearArguments(mem, buffers, sizes, k) == Arguments(mem, buffers, ColumnUnrank(k, shape), shape)
  {
    var args := LinearArguments(mem, buffers, sizes, k);
    forall n | 0 <= n < |buffers| ensures args[n] == mem(ElementAddress(buffers[n], ColumnUnrank(k, shape))) {
      FLinearAddress(buffers[n], shape, k);
    }
  }

  lemma FItems<V, R>(mem: Memory<V>, f: seq<V> -> R, buffers: seq<BufferInfo>, sizes: seq<nat>,
                     shape: seq<nat>, items: seq<R>)
    requires Converted(buffers, sizes) && AllFit(buffers, shape) && |items| == Product(shape)
    requires forall b :: b in buffers ==> FLinear(b, shape)
    requires forall k :: 0 <= k < |items| ==>
      items[k] == f(LinearArguments(mem, buffers, sizes, k))
    ensures ColumnItems(mem, f, buffers, shape, items)
  {
    forall k | 0 <= k < |items| ensures items[k] == f(Arguments(mem, buffers, ColumnUnrank(k, shape), shape)) {
      FArguments(mem, buffers, sizes, shape, k);
    }
  }

  lemma RowItemsHold<V, R>(mem: Memory<V>, f: seq<V> -> R, buffers: seq<BufferInfo>, shape: seq<nat>,
                           itemsize: nat, strides: seq<int>, items: seq<R>)
    requires AllFit(buffers, shape) && |items| == Product(shape)
    requires strides == CStrides(shape, itemsize)
    requires RowItems(mem, f, buffers, shape, items)
    ensures forall ix | InBounds(ix, shape) ::
      Array(shape, itemsize, strides, items).Holds(ix, f(Arguments(mem, buffers, ix, shape)))
  {
    forall ix | InBounds(ix, shape)
      ensures Array(shape, itemsize, strides, items).Holds(ix, f(Arguments(mem, buffers, ix, shape)))
    {
      RowUnrankOfRank(ix, shape);
      RowOffset(shape, itemsize, ix);
      var k := RowRank(ix, shape);
      assert items[k] == f(Arguments(mem, buffers, ix, shape));
    }
  }

  lemma ColumnItemsHold<V, R>(mem: Memory<V>, f: seq<V> -> R, buffers: seq<BufferInfo>, shape: seq<nat>,
                              itemsize: nat, strides: seq<int>, items: seq<R>)
    requires AllFit(buffers, shape) && |items| == Product(shape)
    requires strides == FStrides(shape, itemsize)
    requires ColumnItems(mem, f, buffers, shape, items)
    ensures forall ix | InBounds(ix, shape) ::
      Array(shape, itemsize, strides, items).Holds(ix, f(Arguments(mem, buffers, ix, shape)))
  {
    forall ix | InBounds(ix, shape)
      ensures Array(shape, itemsize, strides, items).Holds(ix, f(Arguments(mem, buffers, ix, shape)))
    {
      ColumnUnrankOfRank(ix, shape);
      ColumnOffset(shape, itemsize, ix);
      var k := ColumnRank(ix, shape);
      assert items[k] == f(Arguments(mem, buffers, ix, shape));
    }
  }
}
