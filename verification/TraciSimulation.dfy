/**
 * The TraCI core: one SUMO simulation, its subscriptions and its nodes, driven by connection,
 * simulation steps, insertion events and the passing of time.
 */
module TraciSimulation {
  import opened Sequences
  import opened Wrappers
  import opened TraciCache
  import opened TraciSubscription
  import opened TraciNodes

  class Core {
    const server: TraciServer
    const subscriptions: BasicSubscriptionManager
    const nodes: NodeManager
    var now: int
    ghost var tidy: bool  // no vehicle has departed and arrived within one step

    ghost predicate Wired()
    {
      subscriptions.server == server && nodes.subscriptions == subscriptions
    }

    /** What every event keeps. */
    ghost predicate Valid()
      reads this, server, subscriptions, nodes, subscriptions.caches.Values
    {
      && Wired() && subscriptions.Valid() && nodes.Valid(now) && !nodes.closed
      && nodes.Present() <= subscriptions.subscribed
      && (!nodes.delayed && !nodes.destroyOnCrash && tidy ==> nodes.vehicles.Keys == subscriptions.subscribed)
    }

    constructor (delayed: bool, destroyOnCrash: bool, start: int)
      ensures Valid() && fresh(server) && fresh(subscriptions) && fresh(subscriptions.simCache) && fresh(nodes)
      ensures now == start && subscriptions.subscribed == {} && tidy
      ensures nodes.delayed == delayed && nodes.destroyOnCrash == destroyOnCrash
    {
      var s := new TraciServer();
      var m := new BasicSubscriptionManager(s);
      var n := new NodeManager(m, delayed, destroyOnCrash, start);
      server, subscriptions, nodes, now, tidy := s, m, n, start, true;
    }

    /** Connection to SUMO: both managers take up the running vehicles, in either order. */
    method Connect(nodesFirst: bool, running: seq<VehicleId>, delays: VehicleId -> nat, equipped: VehicleId -> bool,
                   query: Server)
      requires Valid() && subscriptions.subscribed == {} && Distinct(running)
      modifies server, subscriptions, nodes
      ensures Valid()
      ensures nodes.Present() == subscriptions.subscribed == Ids(running)
      ensures VAR_POSITION in subscriptions.vehicleVars && VAR_SPEED in subscriptions.vehicleVars
      ensures VAR_ANGLE in subscriptions.vehicleVars
      ensures subscriptions.InSync(Ids(running))
    {
      if nodesFirst {
        nodes.TraciInit(running, now, delays, equipped, query);
        ConnectSubscriptions(running);
      } else {
        ConnectSubscriptions(running);
        nodes.TraciInit(running, now, delays, equipped, query);
      }
    }

    method ConnectSubscriptions(running: seq<VehicleId>)
      requires Wired() && subscriptions.Valid() && nodes.Valid(now) && subscriptions.subscribed == {}
      modifies server, subscriptions`subscribed, subscriptions`simVars, subscriptions`requestedSimulation
      ensures subscriptions.Valid() && nodes.Valid(now) && subscriptions.subscribed == Ids(running)
      ensures subscriptions.requestedSimulation == old(subscriptions.requestedSimulation) + {0x66, 0x74, 0x76, 0x7a, 0x7b}
    {
      subscriptions.TraciInit(running, [VAR_TIME, VAR_DEPARTED_VEHICLES_IDS, VAR_TELEPORT_STARTING_VEHICLES_IDS,
                                        VAR_ARRIVED_VEHICLES_IDS, VAR_DELTA_T]);
    }

    /**
     * One simulation step. SUMO reports departures of vehicles that are not in the simulation, and
     * the results of the subscriptions; each node gets exactly what was reported in this step. A
     * step that finds the clocks apart ends the simulation and reaches no node.
     */
    method SimulationStep(world: World, delays: VehicleId -> nat, equipped: VehicleId -> bool,
                          reported: Results, results: VehicleId -> Results, api: Api)
      returns (synced: bool, delivered: map<VehicleId, Report>)
      requires Valid() && Distinct(world.departed) && Ids(world.departed) !! nodes.Present()
      requires Tells(reported, api.simulation, world)
      modifies `tidy, server, subscriptions, nodes, subscriptions.caches.Values, subscriptions.simCache
      ensures synced == Synced(world.time, world.deltaT, now)
      ensures !synced ==> unchanged(nodes) && delivered == map[]
      ensures synced ==> Valid()
      ensures synced ==> subscriptions.subscribed == (old(subscriptions.subscribed) - Ids(world.arrived)) + Ids(world.departed)
      ensures synced ==> nodes.Present() == (old(nodes.Present()) + Ids(world.departed)) - nodes.Removed(world)
      ensures synced ==> nodes.DueAsAnnounced(Ids(world.departed), now, delays)
      ensures synced ==> forall id :: id in delivered <==> id in nodes.nodes
      ensures forall id :: id in delivered ==> delivered[id] == ReportOf(results(id), api.vehicle, id)
      ensures forall id :: id in delivered ==>
        && delivered[id].position == (if VAR_POSITION in results(id) then results(id)[VAR_POSITION] else api.vehicle(id, VAR_POSITION))
        && delivered[id].heading == (if VAR_ANGLE in results(id) then results(id)[VAR_ANGLE] else api.vehicle(id, VAR_ANGLE))
        && delivered[id].speed == (if VAR_SPEED in results(id) then results(id)[VAR_SPEED] else api.vehicle(id, VAR_SPEED))
      ensures tidy == (old(tidy) && Ids(world.departed) !! Ids(world.arrived))
    {
      delivered := map[];
      synced := UpdateSubscriptions(world, reported, results, api);
      if synced {
        delivered := UpdateNodes(world, delays, equipped, results, api);
      }
    }

    /** The nodes follow the subscriptions, which stay as they are. */
    method UpdateNodes(ghost world: World, delays: VehicleId -> nat, equipped: VehicleId -> bool,
                       ghost results: VehicleId -> Results, api: Api)
      returns (delivered: map<VehicleId, Report>)
      requires Wired() && subscriptions.Valid() && nodes.Valid(now) && !nodes.closed
      requires subscriptions.Heard(world, api.simulation) && Synced(world.time, world.deltaT, now)
      requires Distinct(world.departed) && Ids(world.departed) !! nodes.Present()
      requires (nodes.Present() + Ids(world.departed)) - nodes.Removed(world) <= subscriptions.subscribed
      requires !nodes.delayed && !nodes.destroyOnCrash && tidy ==>
        (nodes.vehicles.Keys + Ids(world.departed)) - Ids(world.arrived) == subscriptions.subscribed
      requires Ids(world.departed) <= subscriptions.subscribed && nodes.Ready(subscriptions.subscribed, results)
      modifies nodes, subscriptions`caches, subscriptions.caches.Values, subscriptions.simCache
      ensures Valid()
      ensures nodes.Present() == (old(nodes.Present()) + Ids(world.departed)) - nodes.Removed(world)
      ensures nodes.DueAsAnnounced(Ids(world.departed), now, delays)
      ensures forall id :: id in delivered <==> id in nodes.nodes
      ensures forall id :: id in delivered ==> delivered[id] == ReportOf(results(id), api.vehicle, id)
    {
      delivered := StepNodes(world, delays, equipped, results, api);
      assert subscriptions.VarsValid() && subscriptions.InSync(subscriptions.subscribed);
    }

    method StepNodes(ghost world: World, delays: VehicleId -> nat, equipped: VehicleId -> bool,
                     ghost results: VehicleId -> Results, api: Api)
      returns (delivered: map<VehicleId, Report>)
      requires Wired() && nodes.Valid(now) && !nodes.closed
      requires subscriptions.Heard(world, api.simulation) && Synced(world.time, world.deltaT, now)
      requires Distinct(world.departed) && Ids(world.departed) !! nodes.Present()
      requires (nodes.Present() + Ids(world.departed)) - nodes.Removed(world) <= subscriptions.subscribed
      requires Ids(world.departed) <= subscriptions.subscribed && nodes.Ready(subscriptions.subscribed, results)
      modifies nodes, subscriptions`caches, subscriptions.caches.Values, subscriptions.simCache
      ensures subscriptions.CachesValid() && subscriptions.caches == old(subscriptions.caches)
      ensures nodes.Valid(now) && !nodes.closed
      ensures nodes.Present() == (old(nodes.Present()) + Ids(world.departed)) - nodes.Removed(world)
      ensures !nodes.delayed && !nodes.destroyOnCrash ==>
        nodes.vehicles.Keys == (old(nodes.vehicles.Keys) + Ids(world.departed)) - Ids(world.arrived)
      ensures nodes.DueAsAnnounced(Ids(world.departed), now, delays)
      ensures forall id :: id in delivered <==> id in nodes.nodes
      ensures forall id :: id in delivered ==> delivered[id] == ReportOf(results(id), api.vehicle, id)
    {
      delivered := nodes.TraciStep(now, world, delays, equipped, results, api);
    }

    /** The subscriptions follow SUMO; the nodes are still those of the step before. */
    method UpdateSubscriptions(world: World, reported: Results, results: VehicleId -> Results, api: Api)
      returns (synced: bool)
      requires Valid() && Tells(reported, api.simulation, world)
      modifies `tidy, server, subscriptions, subscriptions.caches.Values, subscriptions.simCache
      ensures synced == Synced(world.time, world.deltaT, now) && subscriptions.Heard(world, api.simulation)
      ensures fresh(subscriptions.caches.Values - old(subscriptions.caches.Values))
      ensures nodes.Valid(now) && tidy == (old(tidy) && Ids(world.departed) !! Ids(world.arrived))
      ensures synced ==>
        && subscriptions.Valid() && nodes.Ready(subscriptions.subscribed, results)
        && subscriptions.subscribed == (old(subscriptions.subscribed) - Ids(world.arrived)) + Ids(world.departed)
        && (nodes.Present() + Ids(world.departed)) - nodes.Removed(world) <= subscriptions.subscribed
        && (!nodes.delayed && !nodes.destroyOnCrash && tidy ==>
            (nodes.vehicles.Keys + Ids(world.departed)) - Ids(world.arrived) == subscriptions.subscribed)
    {
      ghost var subscribed, present := subscriptions.subscribed, nodes.Present();
      StillSubscribed(subscribed, present, Ids(world.departed), Ids(world.arrived), nodes.Removed(world));
      StillEqual(subscribed, nodes.vehicles.Keys, Ids(world.departed), Ids(world.arrived));
      tidy := tidy && Ids(world.departed) !! Ids(world.arrived);
      server.ForgetVehicles(world.arrived);
      synced := subscriptions.Step(now, reported, api.simulation, world, results);
    }

    /** The insertion event fires at its time. */
    method InsertionFires(equipped: VehicleId -> bool, query: Server)
      returns (id: VehicleId, report: Option<Report>)
      requires Valid() && nodes.insertEvent == Some(now)
      modifies server, subscriptions, nodes, subscriptions.caches.Values
      ensures Valid()
      ensures id !in old(nodes.vehicles) && id in nodes.vehicles && nodes.insertedAt[id] == nodes.due[id] == now
      ensures nodes.Present() == old(nodes.Present()) && subscriptions.subscribed == old(subscriptions.subscribed)
      ensures report.Some? <==> equipped(id)
      ensures report.Some? ==> var results := old(nodes.CachedResults(id));
        && report.value.position == (if VAR_POSITION in results then results[VAR_POSITION] else query(id, VAR_POSITION))
        && report.value.heading == (if VAR_ANGLE in results then results[VAR_ANGLE] else query(id, VAR_ANGLE))
        && report.value.speed == (if VAR_SPEED in results then results[VAR_SPEED] else query(id, VAR_SPEED))
    {
      id, report := nodes.HandleInsertEvent(now, equipped, query);
    }

    /** The event queue never lets time pass a scheduled event. */
    method TimeAdvances(later: int)
      requires Valid() && now <= later && (nodes.insertEvent.Some? ==> later <= nodes.insertEvent.value)
      modifies `now
      ensures Valid() && now == later
    {
      nodes.TimePasses(now, later);
      now := later;
    }

    /** Any module may ask for further vehicle variables at any time. */
    method MoreVehicleVariables(vars: seq<Variable>)
      requires Valid() && StrictlySorted(vars)
      modifies server, subscriptions
      ensures Valid() && forall v :: v in vars ==> v in subscriptions.vehicleVars
    {
      subscriptions.SubscribeVehicleVariables(vars);
    }
  }

  /** Unsubscribing arrivals first and removing their nodes last still leaves no node unsubscribed. */
  lemma StillSubscribed(subscribed: set<VehicleId>, present: set<VehicleId>, departed: set<VehicleId>,
                        arrived: set<VehicleId>, removed: set<VehicleId>)
    requires present <= subscribed && arrived <= removed
    ensures (present + departed) - removed <= (subscribed - arrived) + departed
  {
  }

  /** The two orders agree when no vehicle departs and arrives in the same step. */
  lemma StillEqual(subscribed: set<VehicleId>, inserted: set<VehicleId>, departed: set<VehicleId>, arrived: set<VehicleId>)
    ensures inserted == subscribed && departed !! arrived ==>
      (inserted + departed) - arrived == (subscribed - arrived) + departed
  {
  }
}
