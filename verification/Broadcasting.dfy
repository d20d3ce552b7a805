/** NumPy-style broadcasting of several buffers, with detection of the linear special cases. */
module Broadcasting {
  import opened Shapes
  import opened ArrayStrides
  import opened Buffers

  datatype Trivial = NonTrivial | CTrivial | FTrivial

  datatype Outcome = Incompatible | Broadcast(trivial: Trivial, ndim: nat, shape: seq<nat>)

  /** Extent of the axis counted from the last dimension; missing leading axes count as 1. */
  function Extent(extents: seq<nat>, axis: nat): nat {
    if axis < |extents| then extents[|extents| - 1 - axis] else 1
  }

  /** On every axis all extents other than 1 agree. */
  ghost predicate Compatible(buffers: seq<BufferInfo>) {
    forall b, c, a: nat | b in buffers && c in buffers ::
      Extent(b.shape, a) == 1 || Extent(c.shape, a) == 1 || Extent(b.shape, a) == Extent(c.shape, a)
  }

  /** `shape` has the largest rank, and each extent is the common extent other than 1, if any. */
  ghost predicate IsBroadcastShape(buffers: seq<BufferInfo>, shape: seq<nat>) {
    && (forall b | b in buffers :: |b.shape| <= |shape|)
    && (shape != [] ==> exists b :: b in buffers && |b.shape| == |shape|)
    && forall a: nat :: a < |shape| ==>
         && (forall b | b in buffers :: Extent(b.shape, a) == 1 || Extent(b.shape, a) == Extent(shape, a))
         && (Extent(shape, a) == 1 || exists b :: b in buffers && Extent(b.shape, a) == Extent(shape, a))
  }

  ghost predicate CLinear(b: BufferInfo, shape: seq<nat>) {
    b.size == 1 || (b.shape == shape && b.strides == CStrides(shape, b.itemsize))
  }

  ghost predicate FLinear(b: BufferInfo, shape: seq<nat>) {
    b.size == 1 || (b.shape == shape && b.strides == FStrides(shape, b.itemsize))
  }

  /** Every buffer is a singleton or a full-size buffer in the named storage order. */
  ghost function Triviality(buffers: seq<BufferInfo>, shape: seq<nat>): Trivial {
    if forall b | b in buffers :: CLinear(b, shape) then CTrivial
    else if forall b | b in buffers :: FLinear(b, shape) then FTrivial
    else NonTrivial
  }

  // ---- order of the buffers does not matter ----

  lemma BroadcastShapeUnique(buffers: seq<BufferInfo>, s: seq<nat>, other: seq<BufferInfo>, t: seq<nat>)
    requires multiset(buffers) == multiset(other)
    requires IsBroadcastShape(buffers, s) && IsBroadcastShape(other, t)
    ensures s == t && Triviality(buffers, s) == Triviality(other, t)
  {
    SameMembers(buffers, other);
    forall i | 0 <= i < |s| && |s| == |t| ensures s[i] == t[i] {
      var a := |s| - 1 - i;
      assert Extent(s, a) == s[i] && Extent(t, a) == t[i];
    }
  }

  lemma CompatibleAnyOrder(buffers: seq<BufferInfo>, other: seq<BufferInfo>)
    requires multiset(buffers) == multiset(other)
    ensures Compatible(buffers) <==> Compatible(other)
  {
    SameMembers(buffers, other);
  }

  lemma SameMembers<T>(s: seq<T>, t: seq<T>)
    requires multiset(s) == multiset(t)
    ensures forall x :: x in s <==> x in t
  {
    forall x ensures x in s <==> x in t {
      assert x in s <==> x in multiset(s);
      assert x in t <==> x in multiset(t);
    }
  }

  lemma ConformsToBroadcastShape(buffers: seq<BufferInfo>, shape: seq<nat>, b: BufferInfo)
    requires IsBroadcastShape(buffers, shape) && b in buffers
    ensures Conforms(b.shape, shape)
  {
    forall d | 0 <= d < |b.shape| ensures b.shape[d] == 1 || b.shape[d] == shape[|shape| - |b.shape| + d] {
      var a := |b.shape| - 1 - d;
      assert Extent(b.shape, a) == b.shape[d] && Extent(shape, a) == shape[|shape| - |b.shape| + d];
    }
  }

  // ---- the algorithm ----

  /** Invariant of one axis after the first n buffers: its extent so far is e. */
  ghost predicate AxisDone(buffers: seq<BufferInfo>, n: nat, a: nat, e: nat)
    requires n <= |buffers|
  {
    && (forall m :: 0 <= m < n ==> Extent(buffers[m].shape, a) == 1 || Extent(buffers[m].shape, a) == e)
    && (e == 1 || exists m :: 0 <= m < n && Extent(buffers[m].shape, a) == e)
  }

  lemma AxisClash(buffers: seq<BufferInfo>, n: nat, a: nat, e: nat)
    requires n < |buffers| && AxisDone(buffers, n, a, e)
    requires e != 1 && Extent(buffers[n].shape, a) != 1 && Extent(buffers[n].shape, a) != e
    ensures !Compatible(buffers)
  {
  }

  lemma AxesDone(buffers: seq<BufferInfo>, shape: seq<nat>)
    requires forall m :: 0 <= m < |buffers| ==> |buffers[m].shape| <= |shape|
    requires shape != [] ==> exists m :: 0 <= m < |buffers| && |buffers[m].shape| == |shape|
    requires forall a: nat :: a < |shape| ==> AxisDone(buffers, |buffers|, a, Extent(shape, a))
    ensures IsBroadcastShape(buffers, shape) && Compatible(buffers)
  {
    forall b, c, a: nat | b in buffers && c in buffers
      ensures Extent(b.shape, a) == 1 || Extent(c.shape, a) == 1 || Extent(b.shape, a) == Extent(c.shape, a)
    {
      if a < |shape| {
        assert AxisDone(buffers, |buffers|, a, Extent(shape, a));
      }
    }
    forall a: nat | a < |shape|
      ensures forall b | b in buffers :: Extent(b.shape, a) == 1 || Extent(b.shape, a) == Extent(shape, a)
      ensures Extent(shape, a) == 1 || exists b :: b in buffers && Extent(b.shape, a) == Extent(shape, a)
    {
      assert AxisDone(buffers, |buffers|, a, Extent(shape, a));
    }
  }

  method MaxRank(buffers: seq<BufferInfo>) returns (ndim: nat)
    requires forall n :: 0 <= n < |buffers| ==> buffers[n].Valid()
    ensures forall n :: 0 <= n < |buffers| ==> |buffers[n].shape| <= ndim
    ensures ndim > 0 ==> exists n :: 0 <= n < |buffers| && |buffers[n].shape| == ndim
  {
    ndim := 0;
    for n := 0 to |buffers|
      invariant forall m :: 0 <= m < n ==> |buffers[m].shape| <= ndim
      invariant ndim > 0 ==> exists m :: 0 <= m < n && |buffers[m].shape| == ndim
    {
      ndim := if buffers[n].ndim > ndim then buffers[n].ndim else ndim;
    }
  }

  /** Merges one buffer into the result shape, last axis first; fails on two different extents. */
  method MergeExtents(buffers: seq<BufferInfo>, n: nat, shape: seq<nat>) returns (ok: bool, merged: seq<nat>)
    requires n < |buffers| && |buffers[n].shape| <= |shape|
    requires forall a: nat :: a < |shape| ==> AxisDone(buffers, n, a, Extent(shape, a))
    ensures |merged| == |shape|
    ensures ok ==> forall a: nat :: a < |shape| ==> AxisDone(buffers, n + 1, a, Extent(merged, a))
    ensures !ok ==> !Compatible(buffers)
  {
    var extents := buffers[n].shape;
    merged := shape;
    for a := 0 to |extents|
      invariant |merged| == |shape|
      invariant forall c: nat :: c < a ==> AxisDone(buffers, n + 1, c, Extent(merged, c))
      invariant forall c: nat :: a <= c < |shape| ==> Extent(merged, c) == Extent(shape, c)
    {
      var sizeIn, at := extents[|extents| - 1 - a], |merged| - 1 - a;
      ghost var before := merged;
      assert AxisDone(buffers, n, a, Extent(shape, a));
      assert Extent(merged, a) == merged[at] == Extent(shape, a) && Extent(extents, a) == sizeIn;
      if merged[at] == 1 {
        merged := merged[at := sizeIn];
      } else if sizeIn != 1 && sizeIn != merged[at] {
        AxisClash(buffers, n, a, merged[at]);
        return false, merged;
      }
      assert forall c: nat :: c != a ==> Extent(merged, c) == Extent(before, c);
      assert AxisDone(buffers, n + 1, a, merged[at]) && Extent(merged, a) == merged[at];
    }
    ok := true;
    forall c: nat | |extents| <= c < |shape| ensures AxisDone(buffers, n + 1, c, Extent(merged, c)) {
      assert AxisDone(buffers, n, c, Extent(shape, c));
    }
  }

  method CContiguous(b: BufferInfo) returns (ok: bool)
    requires b.Valid()
    ensures ok <==> b.strides == CStrides(b.shape, b.itemsize)
  {
    ok := true;
    var nextStride := b.itemsize;
    var k := |b.shape|;
    while ok && k != 0
      invariant 0 <= k <= |b.shape|
      invariant ok <==> CContiguousFrom(b, k)
      invariant ok ==> nextStride == b.itemsize * Product(b.shape[k..])
      invariant !ok ==> b.strides != CStrides(b.shape, b.itemsize)
    {
      ContiguousStep(b, k - 1);
      if nextStride == b.strides[k - 1] {
        assert b.shape[k - 1..][1..] == b.shape[k..];
        CarryProduct(b.itemsize, b.shape[k - 1], Product(b.shape[k..]));
        nextStride := nextStride * b.shape[k - 1];
      } else {
        ok := false;
      }
      k := k - 1;
    }
    assert ok ==> b.strides[0..] == b.strides && b.shape[0..] == b.shape;
  }

  /** From dimension k on the strides are those of C order. */
  ghost predicate CContiguousFrom(b: BufferInfo, k: nat)
    requires b.Valid() && k <= |b.shape|
  {
    b.strides[k..] == CStrides(b.shape[k..], b.itemsize)
  }

  lemma ContiguousStep(b: BufferInfo, k: nat)
    requires b.Valid() && k < |b.shape|
    ensures CContiguousFrom(b, k) <==> CContiguousFrom(b, k + 1) && b.strides[k] == b.itemsize * Product(b.shape[k + 1..])
    ensures b.strides == CStrides(b.shape, b.itemsize) ==> CContiguousFrom(b, k)
  {
    CStridesSuffix(b.shape, b.itemsize, k);
    assert b.shape[k..][1..] == b.shape[k + 1..];
    assert b.strides[k..] == [b.strides[k]] + b.strides[k + 1..];
  }

  lemma {:induction false} CStridesSuffix(shape: seq<nat>, itemsize: int, k: nat)
    requires k < |shape|
    ensures CStrides(shape, itemsize)[k..] == CStrides(shape[k..], itemsize)
    ensures CStrides(shape, itemsize)[k] == itemsize * Product(shape[k + 1..])
  {
    if k == 0 {
      assert shape[0..] == shape;
    } else {
      var strides, tail := CStrides(shape, itemsize), CStrides(shape[1..], itemsize);
      CStridesSuffix(shape[1..], itemsize, k - 1);
      SuffixOfTail(strides, tail, k);
      SuffixOfTail(shape, shape[1..], k);
      assert shape[1..][k..] == shape[k + 1..];
    }
  }

  lemma SuffixOfTail<T>(s: seq<T>, tail: seq<T>, k: nat)
    requires 0 < k < |s| && tail == s[1..]
    ensures s[k..] == tail[k - 1..] && s[k] == tail[k - 1]
  {
  }

  method FContiguous(b: BufferInfo) returns (ok: bool)
    requires b.Valid()
    ensures ok <==> b.strides == FStrides(b.shape, b.itemsize)
  {
    ghost var goal := FStrides(b.shape, b.itemsize);
    ok := true;
    var nextStride := b.itemsize;
    var k := 0;
    assert b.shape[0..] == b.shape && goal[0..] == goal;
    while ok && k != |b.shape|
      invariant 0 <= k <= |b.shape|
      invariant ok ==> b.strides[..k] == goal[..k] && goal[k..] == FStrides(b.shape[k..], nextStride)
      invariant !ok ==> b.strides != goal
    {
      assert b.shape[k..][1..] == b.shape[k + 1..] && goal[k..][1..] == goal[k + 1..];
      assert goal[k] == goal[k..][0] == nextStride;
      if nextStride == b.strides[k] {
        assert b.strides[..k + 1] == b.strides[..k] + [nextStride] == goal[..k + 1];
        nextStride := nextStride * b.shape[k];
      } else {
        ok := false;
      }
      k := k + 1;
    }
    assert ok ==> b.strides[..k] == b.strides && goal[..k] == goal;
  }

  method BroadcastBuffers(buffers: seq<BufferInfo>) returns (r: Outcome)
    requires forall n :: 0 <= n < |buffers| ==> buffers[n].Valid()
    ensures r.Incompatible? <==> !Compatible(buffers)
    ensures r.Broadcast? ==>
      IsBroadcastShape(buffers, r.shape) && r.ndim == |r.shape| && r.trivial == Triviality(buffers, r.shape)
  {
    var ndim := MaxRank(buffers);
    var shape: seq<nat> := seq(ndim, _ => 1);
    for n := 0 to |buffers|
      invariant |shape| == ndim
      invariant forall a: nat :: a < ndim ==> AxisDone(buffers, n, a, Extent(shape, a))
    {
      var ok;
      ok, shape := MergeExtents(buffers, n, shape);
      if !ok {
        return Incompatible;
      }
    }
    AxesDone(buffers, shape);
    var trivial := Classify(buffers, shape);
    r := Broadcast(trivial, ndim, shape);
  }

  /** The survey may stop early once neither order is possible any more. */
  lemma Surveyed(buffers: seq<BufferInfo>, n: nat, shape: seq<nat>, c: bool, f: bool)
    requires n <= |buffers| && (n == |buffers| || (!c && !f))
    requires c <==> forall m :: 0 <= m < n ==> CLinear(buffers[m], shape)
    requires f <==> forall m :: 0 <= m < n ==> FLinear(buffers[m], shape)
    ensures (if c then CTrivial else if f then FTrivial else NonTrivial) == Triviality(buffers, shape)
  {
  }

  lemma Misfit(buffers: seq<BufferInfo>, b: BufferInfo, shape: seq<nat>)
    requires b in buffers && b.size != 1 && b.shape != shape
    ensures Triviality(buffers, shape) == NonTrivial
  {
  }

  method Classify(buffers: seq<BufferInfo>, shape: seq<nat>) returns (t: Trivial)
    requires forall n :: 0 <= n < |buffers| ==> buffers[n].Valid()
    ensures t == Triviality(buffers, shape)
    ensures t == CTrivial <==>
      forall b :: b in buffers ==> b.size == 1 || (b.shape == shape && b.strides == CStrides(shape, b.itemsize))
    ensures t == FTrivial <==>
      && t != CTrivial
      && forall b :: b in buffers ==> b.size == 1 || (b.shape == shape && b.strides == FStrides(shape, b.itemsize))
  {
    var c, f := true, true;
    var i := 0;
    while i < |buffers| && (c || f)
      invariant 0 <= i <= |buffers|
      invariant c <==> forall m :: 0 <= m < i ==> CLinear(buffers[m], shape)
      invariant f <==> forall m :: 0 <= m < i ==> FLinear(buffers[m], shape)
    {
      var b := buffers[i];
      if b.size != 1 {
        if b.ndim != |shape| || b.shape != shape {
          Misfit(buffers, b, shape);
          return NonTrivial;
        }
        if c {
          c := CContiguous(b);
        }
        if f {
          f := FContiguous(b);
        }
      }
      i := i + 1;
    }
    Surveyed(buffers, i, shape, c, f);
    t := if c then CTrivial else if f then FTrivial else NonTrivial;
  }
}
