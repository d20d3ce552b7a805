/**
 * Which pybind-registered types a Python class derives from: a worklist over base classes that
 * stops at classes with a cached answer.
 */
module TypeBases {
  import opened Sequences
  import opened Wrappers

  type PyType = nat
  type TypeInfo = nat

  /** The class graph: which objects are types at all, and their direct base classes if any. */
  datatype Hierarchy = Hierarchy(types: set<PyType>, bases: map<PyType, seq<PyType>>)

  /** Every base class ranks below its derived classes, so there are no cycles. */
  ghost predicate Acyclic(h: Hierarchy, rank: PyType -> nat) {
    forall c, p | c in h.bases && p in h.bases[c] :: rank(p) < rank(c)
  }

  /** The search continues into the bases of `c`: a type without a known answer. */
  predicate Expands(h: Hierarchy, known: set<PyType>, c: PyType) {
    c in h.types && c !in known && c in h.bases
  }

  // ---- reachability ----

  ghost predicate IsPath(h: Hierarchy, known: set<PyType>, p: seq<PyType>) {
    p != [] && forall k :: 0 <= k < |p| - 1 ==> Step(h, known, p[k], p[k + 1])
  }

  ghost predicate Step(h: Hierarchy, known: set<PyType>, c: PyType, d: PyType) {
    Expands(h, known, c) && d in h.bases[c]
  }

  /** `c` is reached from one of the start classes through classes without a known answer. */
  ghost predicate Reached(h: Hierarchy, known: set<PyType>, start: seq<PyType>, c: PyType) {
    exists p :: IsPath(h, known, p) && p[0] in start && p[|p| - 1] == c
  }

  lemma ReachedHere(h: Hierarchy, known: set<PyType>, start: seq<PyType>, c: PyType)
    requires c in start
    ensures Reached(h, known, start, c)
  {
    assert IsPath(h, known, [c]) && [c][0] in start && [c][|[c]| - 1] == c;
  }

  lemma ReachedFurther(h: Hierarchy, known: set<PyType>, start: seq<PyType>, c: PyType, d: PyType)
    requires Reached(h, known, start, c) && Expands(h, known, c) && Reached(h, known, h.bases[c], d)
    ensures Reached(h, known, start, d)
  {
    var p :| IsPath(h, known, p) && p[0] in start && p[|p| - 1] == c;
    var q :| IsPath(h, known, q) && q[0] in h.bases[c] && q[|q| - 1] == d;
    var pq := p + q;
    assert Step(h, known, c, q[0]);
    forall k | 0 <= k < |pq| - 1 ensures Step(h, known, pq[k], pq[k + 1]) {
      if k >= |p| {
        assert pq[k] == q[k - |p|] && pq[k + 1] == q[k - |p| + 1];
      }
    }
    assert IsPath(h, known, pq) && pq[0] in start && pq[|pq| - 1] == d;
  }

  lemma ReachedFromMore(h: Hierarchy, known: set<PyType>, start: seq<PyType>, more: seq<PyType>, c: PyType)
    requires Reached(h, known, start, c) && forall x :: x in start ==> x in more
    ensures Reached(h, known, more, c)
  {
  }

  /** What the first start class contributes: itself, or what its bases reach. */
  lemma ReachedSplit(h: Hierarchy, known: set<PyType>, start: seq<PyType>, d: PyType)
    requires start != [] && Reached(h, known, start, d)
    ensures d == start[0] || Reached(h, known, start[1..], d)
      || (Expands(h, known, start[0]) && Reached(h, known, h.bases[start[0]], d))
  {
    var p :| IsPath(h, known, p) && p[0] in start && p[|p| - 1] == d;
    if p[0] == start[0] && |p| > 1 {
      assert Step(h, known, p[0], p[1]);
      var q := p[1..];
      forall k | 0 <= k < |q| - 1 ensures Step(h, known, q[k], q[k + 1]) {
        assert Step(h, known, p[k + 1], p[k + 2]);
      }
      assert IsPath(h, known, q) && q[0] in h.bases[start[0]] && q[|q| - 1] == d;
    } else if p[0] != start[0] {
      assert p[0] in start[1..];
    }
  }

  lemma {:induction false} PathDescends(h: Hierarchy, known: set<PyType>, p: seq<PyType>, rank: PyType -> nat)
    requires Acyclic(h, rank) && IsPath(h, known, p)
    ensures rank(p[|p| - 1]) <= rank(p[0])
    decreases |p|
  {
    if |p| > 1 {
      assert Step(h, known, p[0], p[1]);
      forall k | 0 <= k < |p[1..]| - 1 ensures Step(h, known, p[1..][k], p[1..][k + 1]) {
        assert Step(h, known, p[k + 1], p[k + 2]);
      }
      PathDescends(h, known, p[1..], rank);
    }
  }

  // ---- termination measure: number of paths still to be followed ----

  ghost function Weight(h: Hierarchy, known: set<PyType>, rank: PyType -> nat, c: PyType): (w: nat)
    requires Acyclic(h, rank)
    ensures w > 0
    decreases rank(c), 1, 0
  {
    if Expands(h, known, c) then 1 + WeightBelow(h, known, rank, h.bases[c], rank(c)) else 1
  }

  ghost function WeightBelow(h: Hierarchy, known: set<PyType>, rank: PyType -> nat, s: seq<PyType>, bound: nat): nat
    requires Acyclic(h, rank) && forall c :: c in s ==> rank(c) < bound
    decreases bound, 0, |s|
  {
    if s == [] then 0
    else
      assert s[0] in s;
      Weight(h, known, rank, s[0]) + WeightBelow(h, known, rank, s[1..], bound)
  }

  ghost function TotalWeight(h: Hierarchy, known: set<PyType>, rank: PyType -> nat, s: seq<PyType>): nat
    requires Acyclic(h, rank)
  {
    if s == [] then 0 else Weight(h, known, rank, s[0]) + TotalWeight(h, known, rank, s[1..])
  }

  lemma {:induction false} WeightBelowIsTotal(h: Hierarchy, known: set<PyType>, rank: PyType -> nat, s: seq<PyType>, bound: nat)
    requires Acyclic(h, rank) && forall c :: c in s ==> rank(c) < bound
    ensures WeightBelow(h, known, rank, s, bound) == TotalWeight(h, known, rank, s)
    decreases |s|
  {
    if s != [] {
      assert s[0] in s;
      WeightBelowIsTotal(h, known, rank, s[1..], bound);
    }
  }

  lemma {:induction false} TotalWeightConcat(h: Hierarchy, known: set<PyType>, rank: PyType -> nat, s: seq<PyType>, t: seq<PyType>)
    requires Acyclic(h, rank)
    ensures TotalWeight(h, known, rank, s + t) == TotalWeight(h, known, rank, s) + TotalWeight(h, known, rank, t)
    decreases |s|
  {
    if s == [] {
      assert s + t == t;
    } else {
      assert (s + t)[1..] == s[1..] + t;
      TotalWeightConcat(h, known, rank, s[1..], t);
    }
  }

  /** Replacing a class by its bases lowers the weight by one. */
  lemma ExpansionShrinks(h: Hierarchy, known: set<PyType>, rank: PyType -> nat, rest: seq<PyType>, c: PyType)
    requires Acyclic(h, rank) && Expands(h, known, c)
    ensures TotalWeight(h, known, rank, rest + h.bases[c]) + 1 == Weight(h, known, rank, c) + TotalWeight(h, known, rank, rest)
  {
    TotalWeightConcat(h, known, rank, rest, h.bases[c]);
    WeightBelowIsTotal(h, known, rank, h.bases[c], rank(c));
  }

  // ---- the search ----

  type Cache = map<PyType, seq<TypeInfo>>

  /** A class whose cached answer the search uses. */
  ghost predicate Found(h: Hierarchy, cache: Cache, start: seq<PyType>, c: PyType) {
    c in h.types && c in cache && Reached(h, cache.Keys, start, c)
  }

  ghost predicate InfoFound(h: Hierarchy, cache: Cache, start: seq<PyType>, info: TypeInfo) {
    exists c :: Found(h, cache, start, c) && info in cache[c]
  }

  /** Everything collected is due, and everything due is collected or still reachable from `todo`. */
  ghost predicate Collected(h: Hierarchy, cache: Cache, start: seq<PyType>, todo: seq<PyType>, bases: seq<TypeInfo>) {
    && (forall x :: x in todo ==> Reached(h, cache.Keys, start, x))
    && (forall info :: info in bases ==> InfoFound(h, cache, start, info))
    && (forall c :: Found(h, cache, start, c) ==>
          (forall info :: info in cache[c] ==> info in bases) || Reached(h, cache.Keys, todo, c))
  }

  method AppendNew(found: seq<TypeInfo>, bases: seq<TypeInfo>) returns (all: seq<TypeInfo>)
    requires Distinct(bases)
    ensures Distinct(all) && bases <= all
    ensures forall info :: info in all <==> info in bases || info in found
  {
    all := bases;
    for n := 0 to |found|
      invariant Distinct(all) && bases <= all
      invariant forall info :: info in all <==> info in bases || info in found[..n]
    {
      assert found[..n + 1] == found[..n] + [found[n]];
      var k := 0;
      while k < |all| && all[k] != found[n]
        invariant 0 <= k <= |all| && found[n] !in all[..k]
      {
        k := k + 1;
      }
      if k == |all| {
        assert all[..k] == all;
        all := all + [found[n]];
      }
    }
    assert found[..|found|] == found;
  }

  lemma DropFirst(h: Hierarchy, cache: Cache, start: seq<PyType>, todo: seq<PyType>, bases: seq<TypeInfo>, more: seq<TypeInfo>)
    requires todo != [] && Collected(h, cache, start, todo, bases) && !Expands(h, cache.Keys, todo[0])
    requires forall info :: info in more <==>
      info in bases || (todo[0] in h.types && todo[0] in cache && info in cache[todo[0]])
    ensures Collected(h, cache, start, todo[1..], more)
  {
    assert forall x :: x in todo[1..] ==> x in todo;
    forall info | info in more ensures InfoFound(h, cache, start, info) {
      if info !in bases {
        assert todo[0] in todo;
        assert Found(h, cache, start, todo[0]);
      }
    }
    forall c | Found(h, cache, start, c)
      ensures (forall info :: info in cache[c] ==> info in more) || Reached(h, cache.Keys, todo[1..], c)
    {
      if Reached(h, cache.Keys, todo, c) {
        ReachedSplit(h, cache.Keys, todo, c);
      }
    }
  }

  lemma ExpandFirst(h: Hierarchy, cache: Cache, start: seq<PyType>, todo: seq<PyType>, bases: seq<TypeInfo>)
    requires todo != [] && Collected(h, cache, start, todo, bases) && Expands(h, cache.Keys, todo[0])
    ensures Collected(h, cache, start, todo[1..] + h.bases[todo[0]], bases)
  {
    var parents := h.bases[todo[0]];
    var next := todo[1..] + parents;
    forall x | x in next ensures Reached(h, cache.Keys, start, x) {
      if x in parents {
        assert todo[0] in todo;
        ReachedHere(h, cache.Keys, parents, x);
        ReachedFurther(h, cache.Keys, start, todo[0], x);
      } else {
        assert x in todo;
      }
    }
    forall c | Found(h, cache, start, c)
      ensures (forall info :: info in cache[c] ==> info in bases) || Reached(h, cache.Keys, next, c)
    {
      if Reached(h, cache.Keys, todo, c) {
        ReachedSplit(h, cache.Keys, todo, c);
        if Reached(h, cache.Keys, todo[1..], c) {
          ReachedFromMore(h, cache.Keys, todo[1..], next, c);
        } else {
          ReachedFromMore(h, cache.Keys, parents, next, c);
        }
      }
    }
  }

  /** Puts the bases of the current class at the end, in its place if it was the last one. */
  method Enlist(check: seq<PyType>, i: nat, parents: seq<PyType>) returns (next: seq<PyType>, at: int)
    requires i < |check|
    ensures -1 <= at < |next| && next[at + 1..] == check[i + 1..] + parents
  {
    next, at := check, i;
    if i + 1 == |check| {
      next := check[..i];
      at := i - 1;
    }
    SuffixGrows(next, parents, at + 1);
    next := next + parents;
  }

  lemma SuffixGrows(check: seq<PyType>, more: seq<PyType>, from: nat)
    requires from <= |check|
    ensures (check + more)[from..] == check[from..] + more
  {
  }

  /** Collects, without duplicates, the cached infos of all classes found above the given parents. */
  method AllTypeInfoPopulate(h: Hierarchy, cache: Cache, parents: seq<PyType>, ghost rank: PyType -> nat)
    returns (bases: seq<TypeInfo>)
    requires Acyclic(h, rank)
    ensures Distinct(bases)
    ensures forall info :: info in bases <==> InfoFound(h, cache, parents, info)
  {
    bases := [];
    var check := parents;
    forall x | x in parents ensures Reached(h, cache.Keys, parents, x) {
      ReachedHere(h, cache.Keys, parents, x);
    }
    var i: int := 0;
    assert check[i..] == parents;
    while i < |check|
      invariant 0 <= i <= |check|
      invariant Distinct(bases) && Collected(h, cache, parents, check[i..], bases)
      decreases TotalWeight(h, cache.Keys, rank, check[i..])
    {
      ghost var todo := check[i..];
      ghost var known := bases;
      var c := check[i];
      assert c == todo[0] && todo[1..] == check[i + 1..];
      if c !in h.types {
        DropFirst(h, cache, parents, todo, known, bases);
      } else if c in cache {
        bases := AppendNew(cache[c], bases);
        DropFirst(h, cache, parents, todo, known, bases);
      } else if c in h.bases {
        ExpandFirst(h, cache, parents, todo, bases);
        ExpansionShrinks(h, cache.Keys, rank, todo[1..], c);
        check, i := Enlist(check, i, h.bases[c]);
      } else {
        DropFirst(h, cache, parents, todo, known, bases);
      }
      i := i + 1;
    }
    assert check[i..] == [];
    forall c ensures !Reached(h, cache.Keys, [], c) {
    }
  }

  // ---- the cache is transparent ----

  /** `info` belongs to a registered class that `c` derives from through unregistered classes only. */
  ghost predicate IsRoot(h: Hierarchy, own: map<PyType, TypeInfo>, c: PyType, info: TypeInfo) {
    c in h.bases && exists d ::
      d in h.types && d in own && own[d] == info && Reached(h, own.Keys, h.bases[c], d)
  }

  /** Registered classes answer with their own info, all other existing cached classes with their roots. */
  ghost predicate Consistent(h: Hierarchy, own: map<PyType, TypeInfo>, cache: Cache) {
    && (forall c :: c in own ==> c in cache && cache[c] == [own[c]])
    && (forall c, info :: c in cache && c in h.types && c !in own ==> (info in cache[c] <==> IsRoot(h, own, c, info)))
    && (forall c :: c in cache ==> Distinct(cache[c]))
  }

  /** A path through classes without any known answer is a path through unregistered classes. */
  lemma ReachedUnregistered(h: Hierarchy, own: map<PyType, TypeInfo>, cache: Cache, start: seq<PyType>, c: PyType)
    requires own.Keys <= cache.Keys && Reached(h, cache.Keys, start, c)
    ensures Reached(h, own.Keys, start, c)
  {
  }

  /** Following cached answers finds only genuine roots. */
  lemma CachedInfoIsRoot(h: Hierarchy, own: map<PyType, TypeInfo>, cache: Cache, t: PyType, info: TypeInfo)
    requires Consistent(h, own, cache) && t in h.bases && InfoFound(h, cache, h.bases[t], info)
    ensures IsRoot(h, own, t, info)
  {
    var c :| Found(h, cache, h.bases[t], c) && info in cache[c];
    ReachedUnregistered(h, own, cache, h.bases[t], c);
    if c !in own {
      assert IsRoot(h, own, c, info);
      var d :| d in h.types && d in own && own[d] == info && Reached(h, own.Keys, h.bases[c], d);
      ReachedFurther(h, own.Keys, h.bases[t], c, d);
    }
  }

  /** Every root is found, at the latest where its path first meets a cached class. */
  lemma RootIsCached(h: Hierarchy, own: map<PyType, TypeInfo>, cache: Cache, t: PyType, info: TypeInfo)
    requires Consistent(h, own, cache) && IsRoot(h, own, t, info)
    ensures InfoFound(h, cache, h.bases[t], info)
  {
    var d :| d in h.types && d in own && own[d] == info && Reached(h, own.Keys, h.bases[t], d);
    var p :| IsPath(h, own.Keys, p) && p[0] in h.bases[t] && p[|p| - 1] == d;
    var k := FirstCached(cache, p);
    var head := p[..k + 1];
    forall m | 0 <= m < |head| - 1 ensures Step(h, cache.Keys, head[m], head[m + 1]) {
      assert Step(h, own.Keys, p[m], p[m + 1]);
    }
    assert IsPath(h, cache.Keys, head) && head[0] in h.bases[t] && head[|head| - 1] == p[k];
    assert Reached(h, cache.Keys, h.bases[t], p[k]);
    if k == |p| - 1 {
      assert Found(h, cache, h.bases[t], d);
    } else {
      var tail := p[k + 1..];
      assert Step(h, own.Keys, p[k], p[k + 1]);
      forall m | 0 <= m < |tail| - 1 ensures Step(h, own.Keys, tail[m], tail[m + 1]) {
        assert Step(h, own.Keys, p[k + 1 + m], p[k + 2 + m]);
      }
      assert IsPath(h, own.Keys, tail) && tail[0] in h.bases[p[k]] && tail[|tail| - 1] == d;
      assert Reached(h, own.Keys, h.bases[p[k]], d);
      assert IsRoot(h, own, p[k], info);
      assert Found(h, cache, h.bases[t], p[k]);
    }
  }

  lemma FirstCached(cache: Cache, p: seq<PyType>) returns (k: nat)
    requires p != [] && p[|p| - 1] in cache
    ensures k < |p| && p[k] in cache && forall m :: 0 <= m < k ==> p[m] !in cache
  {
    k := 0;
    while p[k] !in cache
      invariant k < |p| && forall m :: 0 <= m < k ==> p[m] !in cache
      decreases |p| - k
    {
      k := k + 1;
    }
  }

  /** The fresh, still empty entry of `t` is never consulted while it is being filled. */
  lemma OwnEntryUnused(h: Hierarchy, cache: Cache, t: PyType, rank: PyType -> nat, info: TypeInfo)
    requires Acyclic(h, rank) && t !in cache && t in h.bases
    ensures InfoFound(h, cache[t := []], h.bases[t], info) <==> InfoFound(h, cache, h.bases[t], info)
  {
    var filled := cache[t := []];
    forall p | p != [] && p[0] in h.bases[t]
      ensures IsPath(h, filled.Keys, p) <==> IsPath(h, cache.Keys, p)
      ensures IsPath(h, cache.Keys, p) ==> p[|p| - 1] != t
    {
      OwnEntryOffPath(h, cache, t, rank, p);
    }
    forall c ensures Found(h, filled, h.bases[t], c) <==> Found(h, cache, h.bases[t], c) {
    }
  }

  lemma OwnEntryOffPath(h: Hierarchy, cache: Cache, t: PyType, rank: PyType -> nat, p: seq<PyType>)
    requires Acyclic(h, rank) && t !in cache && t in h.bases && p != [] && p[0] in h.bases[t]
    ensures IsPath(h, cache[t := []].Keys, p) <==> IsPath(h, cache.Keys, p)
    ensures IsPath(h, cache.Keys, p) ==> p[|p| - 1] != t
  {
    var filled := cache[t := []].Keys;
    if IsPath(h, cache.Keys, p) {
      PathDescends(h, cache.Keys, p, rank);
      forall k | 0 <= k < |p| - 1 ensures Step(h, filled, p[k], p[k + 1]) {
        assert Step(h, cache.Keys, p[k], p[k + 1]);
        var head := p[..k + 1];
        forall m | 0 <= m < |head| - 1 ensures Step(h, cache.Keys, head[m], head[m + 1]) {
          assert Step(h, cache.Keys, p[m], p[m + 1]);
        }
        PathDescends(h, cache.Keys, head, rank);
      }
    }
    if IsPath(h, filled, p) {
      forall k | 0 <= k < |p| - 1 ensures Step(h, cache.Keys, p[k], p[k + 1]) {
        assert Step(h, filled, p[k], p[k + 1]);
      }
    }
  }

  // ---- classes come and go ----

  /** The second hierarchy has one more class, from which nothing derives. */
  ghost predicate Extends(h: Hierarchy, own: map<PyType, TypeInfo>, h': Hierarchy, own': map<PyType, TypeInfo>, t: PyType) {
    && t !in h.types && t !in h.bases && t !in own
    && (forall x :: x != t ==> (x in h'.types <==> x in h.types) && (x in h'.bases <==> x in h.bases) && (x in own' <==> x in own))
    && (forall x :: x in h.bases ==> h'.bases[x] == h.bases[x])
    && (forall x :: x in own ==> own'[x] == own[x])
    && (forall x :: x in h'.bases ==> t !in h'.bases[x])
  }

  /** Paths that start elsewhere stay the same, for they never meet the new class. */
  lemma SamePaths(h: Hierarchy, own: map<PyType, TypeInfo>, h': Hierarchy, own': map<PyType, TypeInfo>, t: PyType, p: seq<PyType>)
    requires Extends(h, own, h', own', t) && p != [] && p[0] != t
    ensures IsPath(h, own.Keys, p) <==> IsPath(h', own'.Keys, p)
    ensures IsPath(h', own'.Keys, p) ==> p[|p| - 1] != t
  {
    if IsPath(h', own'.Keys, p) {
      forall k | 0 <= k < |p| ensures p[k] != t {
        if k > 0 {
          assert Step(h', own'.Keys, p[k - 1], p[k]);
        }
      }
      forall k | 0 <= k < |p| - 1 ensures Step(h, own.Keys, p[k], p[k + 1]) {
        assert Step(h', own'.Keys, p[k], p[k + 1]);
      }
    }
    if IsPath(h, own.Keys, p) {
      forall k | 0 <= k < |p| - 1 ensures Step(h', own'.Keys, p[k], p[k + 1]) {
        assert Step(h, own.Keys, p[k], p[k + 1]);
      }
    }
  }

  /** All other classes keep their roots. */
  lemma SameRoots(h: Hierarchy, own: map<PyType, TypeInfo>, h': Hierarchy, own': map<PyType, TypeInfo>, t: PyType,
                  c: PyType, info: TypeInfo)
    requires Extends(h, own, h', own', t) && c != t
    ensures IsRoot(h, own, c, info) <==> IsRoot(h', own', c, info)
  {
    if c in h.bases {
      forall p | p != [] && p[0] in h.bases[c]
        ensures IsPath(h, own.Keys, p) <==> IsPath(h', own'.Keys, p)
        ensures IsPath(h', own'.Keys, p) ==> p[|p| - 1] != t
      {
        SamePaths(h, own, h', own', t, p);
      }
      forall d ensures Reached(h, own.Keys, h.bases[c], d) <==> Reached(h', own'.Keys, h'.bases[c], d) {
      }
      forall d | Reached(h', own'.Keys, h'.bases[c], d) ensures d != t {
      }
    }
  }

  /** Cached answers survive: those of all other classes, and of the new one if it is registered. */
  lemma ConsistentGrows(h: Hierarchy, own: map<PyType, TypeInfo>, h': Hierarchy, own': map<PyType, TypeInfo>, t: PyType,
                        cache: Cache)
    requires Extends(h, own, h', own', t) && Consistent(h, own, cache) && t !in cache
    ensures Consistent(h', own', if t in own' then cache[t := [own'[t]]] else cache)
  {
    forall c, info | c != t ensures IsRoot(h, own, c, info) <==> IsRoot(h', own', c, info) {
      SameRoots(h, own, h', own', t, c, info);
    }
  }

  /** An entry of the destroyed class, if it stays, is stale and never asked for. */
  lemma ConsistentShrinks(h: Hierarchy, own: map<PyType, TypeInfo>, h': Hierarchy, own': map<PyType, TypeInfo>, t: PyType,
                          cache: Cache)
    requires Extends(h, own, h', own', t) && Consistent(h', own', cache)
    ensures Consistent(h, own, if t in own' then cache else cache - {t})
  {
    forall c, info | c != t ensures IsRoot(h, own, c, info) <==> IsRoot(h', own', c, info) {
      SameRoots(h, own, h', own', t, c, info);
    }
  }

  /** A rank above all given classes. */
  ghost function Above(parents: seq<PyType>, rank: PyType -> nat): (r: nat)
    ensures forall p :: p in parents ==> rank(p) < r
  {
    if parents == [] then 0
    else
      var r := Above(parents[1..], rank);
      if r > rank(parents[0]) then r else rank(parents[0]) + 1
  }

  /** A class that nothing derives from yet extends the hierarchy, which stays without cycles. */
  lemma NewClass(h: Hierarchy, own: map<PyType, TypeInfo>, rank: PyType -> nat, t: PyType, parents: seq<PyType>,
                 info: Option<TypeInfo>) returns (ranked: PyType -> nat)
    requires Acyclic(h, rank) && t !in h.types && t !in h.bases && t !in own && t !in parents
    requires forall x :: x in h.bases ==> t !in h.bases[x]
    ensures var h' := Hierarchy(h.types + {t}, h.bases[t := parents]);
      Acyclic(h', ranked) && Extends(h, own, h', if info.Some? then own[t := info.value] else own, t)
  {
    var height := Above(parents, rank);
    ranked := c => if c == t then height else rank(c);
  }

  class Internals {
    var h: Hierarchy
    ghost var own: map<PyType, TypeInfo>  // classes registered by pybind and their infos
    ghost var rank: PyType -> nat
    var registered: Cache
    var watched: set<PyType>  // classes with a weak reference that evicts their entry

    ghost predicate Valid()
      reads this
    {
      && Acyclic(h, rank) && Consistent(h, own, registered) && own.Keys <= h.types
      && (forall c :: c in registered && c in h.types ==> c in h.bases && (c in own || c in watched))
      && watched !! own.Keys
    }

    constructor ()
      ensures Valid() && h == Hierarchy({}, map[]) && own == map[]
    {
      h, own, registered, watched := Hierarchy({}, map[]), map[], map[], {};
      rank := _ => 0;
    }

    /** A class is created over existing ones; a class of pybind's own is entered with its info at once. */
    method DefineClass(t: PyType, parents: seq<PyType>, info: Option<TypeInfo>)
      requires Valid() && t !in h.types && t !in h.bases && t !in parents && t !in registered && t !in watched
      requires forall x :: x in h.bases ==> t !in h.bases[x]
      modifies this
      ensures Valid() && h == Hierarchy(old(h.types) + {t}, old(h.bases)[t := parents])
      ensures own == if info.Some? then old(own)[t := info.value] else old(own)
      ensures registered == if info.Some? then old(registered)[t := [info.value]] else old(registered)
    {
      ghost var before, beforeOwn := h, own;
      rank := NewClass(h, own, rank, t, parents, info);
      h := Hierarchy(h.types + {t}, h.bases[t := parents]);
      own := if info.Some? then own[t := info.value] else own;
      ConsistentGrows(before, beforeOwn, h, own, t, registered);
      if info.Some? {
        registered := registered[t := [info.value]];
      }
    }

    /**
     * A class from which nothing derives is destroyed. A weak reference takes a cached answer along; the entry
     * of a class registered by pybind itself has none and stays behind.
     */
    method DestroyClass(t: PyType)
      requires Valid() && t in h.types && forall x :: x in h.bases ==> t !in h.bases[x]
      modifies this
      ensures Valid() && h == Hierarchy(old(h.types) - {t}, old(h.bases) - {t}) && own == old(own) - {t}
      ensures registered == if t in old(own) then old(registered) else old(registered) - {t}
    {
      ghost var before, beforeOwn := h, own;
      h, own := Hierarchy(h.types - {t}, h.bases - {t}), own - {t};
      ConsistentShrinks(h, own, before, beforeOwn, t, registered);
      if t in watched {
        registered, watched := registered - {t}, watched - {t};
      }
    }

    /**
     * The registered infos a class stands for. Earlier answers are reused, yet every answer is the
     * one that the bare hierarchy determines, in whatever order the classes are asked for.
     */
    method AllTypeInfo(t: PyType) returns (infos: seq<TypeInfo>)
      requires Valid() && t in h.types && t in h.bases
      modifies this`registered, this`watched
      ensures Valid() && Distinct(infos)
      ensures t in own ==> infos == [own[t]]
      ensures t !in own ==> forall info :: info in infos <==> IsRoot(h, own, t, info)
      ensures registered == old(registered)[t := infos]
    {
      if t !in registered {
        ghost var before := registered;
        registered, watched := registered[t := []], watched + {t};
        var bases := AllTypeInfoPopulate(h, registered, h.bases[t], rank);
        forall info ensures info in bases <==> IsRoot(h, own, t, info) {
          OwnEntryUnused(h, before, t, rank, info);
          if IsRoot(h, own, t, info) {
            RootIsCached(h, own, before, t, info);
          }
          if info in bases {
            CachedInfoIsRoot(h, own, before, t, info);
          }
        }
        registered := registered[t := bases];
      }
      infos := registered[t];
      assert registered == old(registered)[t := infos];
    }
  }
}
