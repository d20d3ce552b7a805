/** Per-object caches of TraCI variables, filled by subscriptions or on first use. */
module TraciCache {
  import opened Machine

  const VAR_SPEED: Variable := 0x40
  const VAR_POSITION: Variable := 0x42
  const VAR_ANGLE: Variable := 0x43
  const VAR_TIME: Variable := 0x66
  const VAR_DEPARTED_VEHICLES_IDS: Variable := 0x74
  const VAR_TELEPORT_STARTING_VEHICLES_IDS: Variable := 0x76
  const VAR_ARRIVED_VEHICLES_IDS: Variable := 0x7a
  const VAR_DELTA_T: Variable := 0x7b

  datatype VehicleId = VehicleId(name: string)
  type Variable = int

  datatype Value = Position(x: real, y: real) | Number(n: real) | Names(ids: seq<VehicleId>)

  type Results = map<Variable, Value>

  /** Synchronous query of the TraCI server for one variable of one object. */
  type Server = (VehicleId, Variable) -> Value

  /** The value a cache hands out: the subscription result, or else a query to the server. */
  function Known(results: Results, server: Server, id: VehicleId, v: Variable): Value {
    if v in results then results[v] else server(id, v)
  }

  /** Two caches of the same object that hand out the same value of every variable. */
  ghost predicate SameAnswers(a: Results, b: Results, server: Server, id: VehicleId) {
    forall v :: Known(a, server, id, v) == Known(b, server, id, v)
  }

  // ---- the simulation as a whole ----

  /** Queries about vehicles and about the simulation. */
  datatype Api = Api(vehicle: Server, simulation: Server)

  const SIMULATION: VehicleId := VehicleId("")

  /** What has happened in one step of the simulation; times in seconds. */
  datatype World = World(
    time: real, deltaT: real, departed: seq<VehicleId>, arrived: seq<VehicleId>, teleported: seq<VehicleId>)

  /** A simulation cache with these results hands out just this. */
  ghost predicate Tells(results: Results, server: Server, world: World) {
    && Known(results, server, SIMULATION, VAR_TIME) == Number(world.time)
    && Known(results, server, SIMULATION, VAR_DELTA_T) == Number(world.deltaT)
    && Known(results, server, SIMULATION, VAR_DEPARTED_VEHICLES_IDS) == Names(world.departed)
    && Known(results, server, SIMULATION, VAR_ARRIVED_VEHICLES_IDS) == Names(world.arrived)
    && Known(results, server, SIMULATION, VAR_TELEPORT_STARTING_VEHICLES_IDS) == Names(world.teleported)
  }

  /** The two clocks differ by less than a hundredth of a step. */
  predicate Synced(time: real, deltaT: real, now: int) {
    -0.01 * deltaT < time - now as real / TICKS_PER_S as real < 0.01 * deltaT
  }

  /** Compares SUMO's clock with the simulation time; `now` counts ticks. */
  method CheckTimeSync(cache: VariableCache, now: int, server: Server, ghost world: World) returns (synced: bool)
    requires cache.Valid() && cache.id == SIMULATION && Tells(cache.values, server, world)
    modifies cache
    ensures cache.Valid() && Tells(cache.values, server, world)
    ensures synced == Synced(world.time, world.deltaT, now)
    ensures synced <==>
      -0.01 * world.deltaT < world.time - now as real / 1_000_000_000_000.0 < 0.01 * world.deltaT
  {
    var time := cache.GetNumber(VAR_TIME, server);
    var deltaT := cache.GetNumber(VAR_DELTA_T, server);
    synced := Synced(time, deltaT, now);
  }

  class VariableCache {
    const id: VehicleId
    var values: Results
    ghost var handedOut: Results  // everything returned since the last reset

    ghost predicate Valid()
      reads this
    {
      forall v :: v in handedOut ==> v in values && values[v] == handedOut[v]
    }

    constructor (id: VehicleId)
      ensures Valid() && this.id == id && values == map[] && handedOut == map[]
    {
      this.id := id;
      values, handedOut := map[], map[];
    }

    method Reset(newValues: Results)
      modifies this
      ensures Valid() && values == newValues && handedOut == map[]
    {
      values := newValues;
      handedOut := map[];
    }

    /** A variable is fetched at most once per reset, so readers within a step agree. */
    method Get(v: Variable, server: Server) returns (value: Value)
      requires Valid()
      modifies this
      ensures Valid()
      ensures v in old(values) ==> value == old(values)[v]
      ensures v !in old(values) ==> value == server(id, v)
      ensures value == Known(old(values), server, id, v) && SameAnswers(old(values), values, server, id)
      ensures v in old(handedOut) ==> value == old(handedOut)[v]
      ensures values == old(values)[v := value] && handedOut == old(handedOut)[v := value]
    {
      if v !in values {
        values := values[v := server(id, v)];
      }
      value := values[v];
      handedOut := handedOut[v := value];
      assert values == old(values)[v := value];
    }

    /** The value of a variable that is a number. */
    method GetNumber(v: Variable, server: Server) returns (n: real)
      requires Valid() && Known(values, server, id, v).Number?
      modifies this
      ensures Valid() && Number(n) == Known(old(values), server, id, v)
      ensures SameAnswers(old(values), values, server, id)
    {
      var value := Get(v, server);
      n := value.n;
    }

    /** The value of a variable that is a list of ids. */
    method GetNames(v: Variable, server: Server) returns (ids: seq<VehicleId>)
      requires Valid() && Known(values, server, id, v).Names?
      modifies this
      ensures Valid() && Names(ids) == Known(old(values), server, id, v)
      ensures SameAnswers(old(values), values, server, id)
    {
      var value := Get(v, server);
      ids := value.ids;
    }
  }
}
