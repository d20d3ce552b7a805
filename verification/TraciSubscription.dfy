/** Which variables are subscribed for which vehicles, on the client and on the TraCI server. */
module TraciSubscription {
  import opened TraciCache

  // ---- sorted variable lists ----

  ghost predicate StrictlySorted(s: seq<int>) {
    forall i, j :: 0 <= i < j < |s| ==> s[i] < s[j]
  }

  /** Merge of two sorted ranges, keeping one copy of common elements. */
  function SetUnion(a: seq<int>, b: seq<int>): seq<int>
    decreases |a| + |b|
  {
    if a == [] then b
    else if b == [] then a
    else if a[0] < b[0] then [a[0]] + SetUnion(a[1..], b)
    else if b[0] < a[0] then [b[0]] + SetUnion(a, b[1..])
    else [a[0]] + SetUnion(a[1..], b[1..])
  }

  lemma {:induction false} UnionMembers(a: seq<int>, b: seq<int>, x: int)
    ensures x in SetUnion(a, b) <==> x in a || x in b
    decreases |a| + |b|
  {
    if a != [] && b != [] {
      if a[0] < b[0] {
        UnionMembers(a[1..], b, x);
      } else if b[0] < a[0] {
        UnionMembers(a, b[1..], x);
      } else {
        UnionMembers(a[1..], b[1..], x);
      }
    }
  }

  lemma {:induction false} UnionSorted(a: seq<int>, b: seq<int>)
    requires StrictlySorted(a) && StrictlySorted(b)
    ensures StrictlySorted(SetUnion(a, b)) && |SetUnion(a, b)| >= |a|
    decreases |a| + |b|
  {
    if a != [] && b != [] {
      if a[0] < b[0] {
        UnionSorted(a[1..], b);
        PrependSmaller(a[0], a[1..], b, SetUnion(a[1..], b));
      } else if b[0] < a[0] {
        UnionSorted(a, b[1..]);
        PrependSmaller(b[0], a, b[1..], SetUnion(a, b[1..]));
      } else {
        UnionSorted(a[1..], b[1..]);
        PrependSmaller(a[0], a[1..], b[1..], SetUnion(a[1..], b[1..]));
      }
    }
  }

  lemma PrependSmaller(x: int, a: seq<int>, b: seq<int>, union: seq<int>)
    requires union == SetUnion(a, b) && StrictlySorted(union)
    requires (forall y :: y in a ==> x < y) && (forall y :: y in b ==> x < y)
    ensures StrictlySorted([x] + union)
  {
    forall k | 0 <= k < |union| ensures x < union[k] {
      assert union[k] in union;
      UnionMembers(a, b, union[k]);
    }
  }

  /** A union of the same size adds nothing: comparing sizes detects every change. */
  lemma {:induction false} SameSizeSameList(a: seq<int>, b: seq<int>)
    requires StrictlySorted(a) && StrictlySorted(b)
    ensures |SetUnion(a, b)| == |a| <==> SetUnion(a, b) == a
    ensures |SetUnion(a, b)| == |a| <==> forall x :: x in b ==> x in a
    decreases |a| + |b|
  {
    UnionSorted(a, b);
    forall x ensures x in SetUnion(a, b) <==> x in a || x in b {
      UnionMembers(a, b, x);
    }
    if |SetUnion(a, b)| == |a| {
      SortedSuperset(SetUnion(a, b), a);
    }
    if forall x :: x in b ==> x in a {
      SortedUnique(SetUnion(a, b), a);
    }
  }

  /** A sorted list is determined by its members. */
  lemma {:induction false} SortedUnique(s: seq<int>, t: seq<int>)
    requires StrictlySorted(s) && StrictlySorted(t) && forall x :: x in s <==> x in t
    ensures s == t
  {
    assert s != [] ==> s[0] in s;
    assert t != [] ==> t[0] in t;
    if s != [] {
      TailMembers(s, t);
      SortedUnique(s[1..], t[1..]);
    }
  }

  lemma TailMembers(s: seq<int>, t: seq<int>)
    requires s != [] && t != [] && s[0] == t[0]
    requires StrictlySorted(s) && StrictlySorted(t) && forall x :: x in s <==> x in t
    ensures forall x :: x in s[1..] <==> x in t[1..]
  {
    forall x ensures x in s[1..] <==> x in t[1..] {
      assert x in s <==> x == s[0] || x in s[1..];
      assert x in t <==> x == t[0] || x in t[1..];
    }
  }

  lemma {:induction false} SortedSuperset(s: seq<int>, t: seq<int>)
    requires StrictlySorted(s) && StrictlySorted(t) && |s| == |t| && forall x :: x in t ==> x in s
    ensures s == t
  {
    if s != [] {
      var m := |s| - 1;
      assert t[m] in t && t[m] in s;
      SortedTooFew(s[..m], t);
      var x :| x in t && x !in s[..m];
      assert x in s && x == s[m];
      forall y | y in t[..m] ensures y in s[..m] {
        assert y in t && y < t[m];
      }
      SortedSuperset(s[..m], t[..m]);
    }
  }

  /** A sorted list cannot hold all members of a longer sorted list. */
  lemma {:induction false} SortedTooFew(s: seq<int>, t: seq<int>)
    requires StrictlySorted(s) && StrictlySorted(t) && |s| < |t|
    ensures exists x :: x in t && x !in s
  {
    if s == [] {
      assert t[0] in t;
    } else {
      var m := |s| - 1;
      SortedTooFew(s[..m], t[..|t| - 1]);
      var x :| x in t[..|t| - 1] && x !in s[..m];
      if x == s[m] {
        assert t[|t| - 1] in t && t[|t| - 1] > x;
      } else {
        assert x in t && x !in s;
      }
    }
  }

  // ---- the TraCI server's side ----

  /** What the server will report for each vehicle and for the simulation itself. */
  class TraciServer {
    var vehicleSubscriptions: map<VehicleId, seq<Variable>>
    var simulationSubscription: seq<Variable>

    constructor ()
      ensures vehicleSubscriptions == map[] && simulationSubscription == []
    {
      vehicleSubscriptions, simulationSubscription := map[], [];
    }

    method SubscribeVehicle(id: VehicleId, vars: seq<Variable>)
      modifies this`vehicleSubscriptions
      ensures vehicleSubscriptions == old(vehicleSubscriptions)[id := vars]
    {
      vehicleSubscriptions := vehicleSubscriptions[id := vars];
    }

    method SubscribeSimulation(vars: seq<Variable>)
      modifies this`simulationSubscription
      ensures simulationSubscription == vars
    {
      simulationSubscription := vars;
    }

    /** Vehicles that left the simulation take their subscriptions with them. */
    method ForgetVehicles(arrived: seq<VehicleId>)
      modifies this`vehicleSubscriptions
      ensures vehicleSubscriptions == old(vehicleSubscriptions) - Ids(arrived)
    {
      vehicleSubscriptions := vehicleSubscriptions - Ids(arrived);
    }
  }

  /** The members of a list of vehicle ids. */
  function Ids(list: seq<VehicleId>): set<VehicleId> {
    if list == [] then {} else Ids(list[..|list| - 1]) + {list[|list| - 1]}
  }

  lemma IdsSnoc(list: seq<VehicleId>, n: nat)
    requires n < |list|
    ensures Ids(list[..n + 1]) == Ids(list[..n]) + {list[n]}
  {
    assert list[..n + 1][..n] == list[..n];
  }

  lemma {:induction false} IdsMember(list: seq<VehicleId>, id: VehicleId)
    ensures id in Ids(list) <==> id in list
  {
    if list != [] {
      IdsMember(list[..|list| - 1], id);
      assert list == list[..|list| - 1] + [list[|list| - 1]];
    }
  }

  // ---- the client's side ----

  class BasicSubscriptionManager {
    const server: TraciServer
    const simCache: VariableCache
    var subscribed: set<VehicleId>
    var vehicleVars: seq<Variable>
    var simVars: seq<Variable>
    var caches: map<VehicleId, VariableCache>
    ghost var requestedVehicle: set<Variable>  // union of all requests so far
    ghost var requestedSimulation: set<Variable>

    /** The server reports exactly the current list for each of the given vehicles. */
    ghost predicate InSync(vehicles: set<VehicleId>)
      reads `vehicleVars, server`vehicleSubscriptions
    {
      vehicleVars != [] ==> forall id :: id in vehicles ==>
        id in server.vehicleSubscriptions && server.vehicleSubscriptions[id] == vehicleVars
    }

    ghost predicate VarsValid()
      reads `vehicleVars, `simVars, `requestedVehicle, `requestedSimulation, server`simulationSubscription
    {
      && StrictlySorted(vehicleVars) && StrictlySorted(simVars)
      && (forall v :: v in vehicleVars <==> v in requestedVehicle)
      && (forall v :: v in simVars <==> v in requestedSimulation)
      && (simVars != [] ==> server.simulationSubscription == simVars)
    }

    ghost predicate CachesValid()
      reads `caches, caches.Values
    {
      && (forall id :: id in caches ==> caches[id].id == id && caches[id].Valid())
      && (forall a, b :: a in caches && b in caches && a != b ==> caches[a] != caches[b])
      && simCache !in caches.Values && simCache.id == SIMULATION
    }

    ghost predicate Valid()
      reads this, server, caches.Values
    {
      VarsValid() && CachesValid() && InSync(subscribed)
    }

    constructor (server: TraciServer)
      ensures Valid() && this.server == server && subscribed == {} && caches == map[]
      ensures vehicleVars == [] && simVars == [] && fresh(simCache)
    {
      this.server := server;
      simCache := new VariableCache(SIMULATION);
      subscribed, caches, vehicleVars, simVars := {}, map[], [], [];
      requestedVehicle, requestedSimulation := {}, {};
    }

    method SubscribeVehicle(id: VehicleId)
      requires InSync(subscribed)
      modifies this`subscribed, server`vehicleSubscriptions
      ensures subscribed == old(subscribed) + {id} && InSync(subscribed)
      ensures forall v :: v != id && v in old(server.vehicleSubscriptions) ==>
        v in server.vehicleSubscriptions && server.vehicleSubscriptions[v] == old(server.vehicleSubscriptions[v])
    {
      if vehicleVars != [] {
        server.SubscribeVehicle(id, vehicleVars);
      }
      subscribed := subscribed + {id};
    }

    /** `leaving` are the vehicles about to be unsubscribed; the server need not be in sync for them. */
    method UnsubscribeVehicle(id: VehicleId, vehicleExists: bool, ghost leaving: set<VehicleId>)
      requires id in leaving && InSync(subscribed - leaving)
      modifies this`subscribed, server`vehicleSubscriptions
      ensures subscribed == old(subscribed) - {id} && InSync(subscribed - leaving)
      ensures vehicleExists && vehicleVars != [] ==>
        id in server.vehicleSubscriptions && server.vehicleSubscriptions[id] == []
      ensures !vehicleExists ==> server.vehicleSubscriptions == old(server.vehicleSubscriptions)
    {
      if vehicleExists && vehicleVars != [] {
        server.SubscribeVehicle(id, []);
      }
      subscribed := subscribed - {id};
    }

    /** Extends the variable list; every subscribed vehicle is brought up to date if it grew. */
    method SubscribeVehicleVariables(add: seq<Variable>)
      requires Valid() && StrictlySorted(add)
      modifies this`vehicleVars, this`requestedVehicle, server`vehicleSubscriptions
      ensures Valid()
      ensures requestedVehicle == old(requestedVehicle) + (set v | v in add)
      ensures forall v :: v in vehicleVars <==> v in old(vehicleVars) || v in add
      ensures vehicleVars != [] ==> forall id :: id in subscribed ==>
        id in server.vehicleSubscriptions && server.vehicleSubscriptions[id] == vehicleVars
      ensures |vehicleVars| >= |old(vehicleVars)|
      ensures vehicleVars == old(vehicleVars) ==> server.vehicleSubscriptions == old(server.vehicleSubscriptions)
    {
      var previous := vehicleVars;
      UnionSorted(previous, add);
      SameSizeSameList(previous, add);
      forall v ensures v in SetUnion(previous, add) <==> v in previous || v in add {
        UnionMembers(previous, add, v);
      }
      vehicleVars := SetUnion(previous, add);
      requestedVehicle := requestedVehicle + (set v | v in add);
      if |vehicleVars| != |previous| {
        var rest := subscribed;
        while rest != {}
          invariant rest <= subscribed && InSync(subscribed - rest)
          decreases rest
          modifies server`vehicleSubscriptions
        {
          var id :| id in rest;
          server.SubscribeVehicle(id, vehicleVars);
          rest := rest - {id};
        }
        assert subscribed - rest == subscribed;
      }
    }

    method SubscribeSimulationVariables(add: seq<Variable>)
      requires Valid() && StrictlySorted(add)
      modifies this`simVars, this`requestedSimulation, server`simulationSubscription
      ensures Valid()
      ensures requestedSimulation == old(requestedSimulation) + (set v | v in add)
    {
      var previous := simVars;
      UnionSorted(previous, add);
      SameSizeSameList(previous, add);
      forall v ensures v in SetUnion(previous, add) <==> v in previous || v in add {
        UnionMembers(previous, add, v);
      }
      simVars := SetUnion(previous, add);
      requestedSimulation := requestedSimulation + (set v | v in add);
      if |simVars| != |previous| {
        server.SubscribeSimulation(simVars);
      }
    }

    /** The cache of a vehicle, created on first use and never replaced. */
    method GetVehicleCache(id: VehicleId) returns (cache: VariableCache)
      requires CachesValid()
      modifies this`caches
      ensures CachesValid() && id in caches && cache == caches[id]
      ensures id in old(caches) ==> caches == old(caches)
      ensures id !in old(caches) ==> fresh(cache) && cache.values == map[] && caches == old(caches)[id := cache]
    {
      if id !in caches {
        var created := new VariableCache(id);
        caches := caches[id := created];
      }
      cache := caches[id];
    }

    /** The simulation starts: subscribes the vehicles that are already running. */
    method TraciInit(running: seq<VehicleId>, vars: seq<Variable>)
      requires Valid() && StrictlySorted(vars)
      modifies this`subscribed, this`simVars, this`requestedSimulation, server
      ensures Valid() && subscribed == old(subscribed) + Ids(running)
      ensures requestedSimulation == old(requestedSimulation) + (set v | v in vars) && requestedVehicle == old(requestedVehicle)
    {
      SubscribeSimulationVariables(vars);
      SubscribeVehicles(running);
    }

    /** The simulation cache holds what this step's subscriptions report. */
    ghost predicate Heard(world: World, query: Server)
      reads simCache
    {
      simCache.Valid() && simCache.id == SIMULATION && Tells(simCache.values, query, world)
    }

    /**
     * One simulation step: arrivals first, then departures, then all caches get fresh results.
     * The step is given up when the clocks are apart.
     */
    method Step(now: int, reported: Results, query: Server, ghost world: World, results: VehicleId -> Results)
      returns (synced: bool)
      requires VarsValid() && CachesValid() && InSync(subscribed - Ids(world.arrived))
      requires Tells(reported, query, world)
      modifies this`subscribed, this`caches, server`vehicleSubscriptions, caches.Values, simCache
      ensures synced == Synced(world.time, world.deltaT, now) && Heard(world, query)
      ensures !synced ==> subscribed == old(subscribed) && caches == old(caches)
      ensures synced ==> Valid() && subscribed == (old(subscribed) - Ids(world.arrived)) + Ids(world.departed)
      ensures old(caches.Keys) <= caches.Keys && fresh(caches.Values - old(caches.Values))
      ensures synced ==> forall id :: id in subscribed ==> id in caches && caches[id].values == results(id)
    {
      simCache.Reset(reported);
      synced := CheckTimeSync(simCache, now, query, world);
      if synced {
        ChangeVehicles(query, world);
        ResetCaches(results);
      }
    }

    /** Unsubscribes the vehicles that have arrived and subscribes those that have departed. */
    method ChangeVehicles(query: Server, ghost world: World)
      requires Heard(world, query) && InSync(subscribed - Ids(world.arrived))
      modifies this`subscribed, server`vehicleSubscriptions, simCache
      ensures Heard(world, query) && InSync(subscribed)
      ensures subscribed == (old(subscribed) - Ids(world.arrived)) + Ids(world.departed)
    {
      var arrived := simCache.GetNames(VAR_ARRIVED_VEHICLES_IDS, query);
      UnsubscribeVehicles(arrived);
      var departed := simCache.GetNames(VAR_DEPARTED_VEHICLES_IDS, query);
      SubscribeVehicles(departed);
    }

    method UnsubscribeVehicles(arrived: seq<VehicleId>)
      requires InSync(subscribed - Ids(arrived))
      modifies this`subscribed, server`vehicleSubscriptions
      ensures InSync(subscribed) && subscribed == old(subscribed) - Ids(arrived)
    {
      for n := 0 to |arrived|
        modifies this`subscribed, server`vehicleSubscriptions
        invariant InSync(subscribed - Ids(arrived))
        invariant subscribed == old(subscribed) - Ids(arrived[..n])
      {
        IdsSnoc(arrived, n);
        IdsMember(arrived, arrived[n]);
        UnsubscribeVehicle(arrived[n], false, Ids(arrived));
      }
      assert arrived[..|arrived|] == arrived;
      assert subscribed - Ids(arrived) == subscribed;
    }

    method SubscribeVehicles(ids: seq<VehicleId>)
      requires InSync(subscribed)
      modifies this`subscribed, server`vehicleSubscriptions
      ensures InSync(subscribed) && subscribed == old(subscribed) + Ids(ids)
    {
      for n := 0 to |ids|
        modifies this`subscribed, server`vehicleSubscriptions
        invariant InSync(subscribed) && subscribed == old(subscribed) + Ids(ids[..n])
      {
        SubscribeVehicle(ids[n]);
        IdsSnoc(ids, n);
      }
      assert ids[..|ids|] == ids;
    }

    method ResetCaches(results: VehicleId -> Results)
      requires CachesValid()
      modifies this`caches, caches.Values
      ensures CachesValid()
      ensures old(caches.Keys) <= caches.Keys && fresh(caches.Values - old(caches.Values))
      ensures forall id :: id in subscribed ==> id in caches && caches[id].values == results(id)
    {
      var rest := subscribed;
      while rest != {}
        invariant rest <= subscribed && CachesValid()
        invariant old(caches.Keys) <= caches.Keys && fresh(caches.Values - old(caches.Values))
        invariant forall id :: id in subscribed - rest ==> id in caches && caches[id].values == results(id)
        decreases rest
      {
        var id :| id in rest;
        var cache := GetVehicleCache(id);
        assert cache in caches.Values;
        cache.Reset(results(id));
        rest := rest - {id};
      }
    }
  }
}
