/** Simulation nodes for TraCI vehicles, inserted at once or after a delay. */
module TraciNodes {
  import opened Sequences
  import opened Wrappers
  import opened TraciCache
  import opened TraciSubscription

  /** What the node manager needs of each vehicle and of the simulation, as sorted lists. */
  const VEHICLE_VARIABLES: seq<Variable> := [VAR_SPEED, VAR_POSITION, VAR_ANGLE]
  const SIMULATION_VARIABLES: seq<Variable> :=
    [VAR_TIME, VAR_DEPARTED_VEHICLES_IDS, VAR_TELEPORT_STARTING_VEHICLES_IDS, VAR_ARRIVED_VEHICLES_IDS]

  // ---- the insertion queue ----

  datatype Insertion = Insertion(id: VehicleId, when: int)

  /** Ordered by time, each vehicle at most once. */
  ghost predicate QueueValid(q: seq<Insertion>) {
    q != [] ==> QueueValid(q[1..]) && IsBefore(q[0], q[1..])
  }

  ghost predicate IsBefore(e: Insertion, q: seq<Insertion>) {
    forall x :: x in q ==> e.when <= x.when && e.id != x.id
  }

  /** Nothing in the queue is due before `now`. */
  ghost predicate NotBefore(q: seq<Insertion>, now: int) {
    forall e :: e in q ==> now <= e.when
  }

  function QueueIds(q: seq<Insertion>): set<VehicleId> {
    if q == [] then {} else {q[0].id} + QueueIds(q[1..])
  }

  lemma {:induction false} QueueIdsMember(q: seq<Insertion>, id: VehicleId)
    ensures id in QueueIds(q) <==> exists e :: e in q && e.id == id
  {
    if q != [] {
      QueueIdsMember(q[1..], id);
      assert forall e :: e in q <==> e == q[0] || e in q[1..];
      assert q[0] in q;
    }
  }

  lemma QueueIdsAll(q: seq<Insertion>)
    ensures forall e :: e in q ==> e.id in QueueIds(q)
    ensures forall id :: id in QueueIds(q) ==> exists e :: e in q && e.id == id
  {
  }

  function Enqueue(q: seq<Insertion>, e: Insertion): seq<Insertion> {
    if q == [] || e.when < q[0].when then [e] + q else [q[0]] + Enqueue(q[1..], e)
  }

  function Dequeue(q: seq<Insertion>, id: VehicleId): seq<Insertion> {
    if q == [] then [] else if q[0].id == id then q[1..] else [q[0]] + Dequeue(q[1..], id)
  }

  lemma {:induction false} EnqueueMembers(q: seq<Insertion>, e: Insertion, x: Insertion)
    ensures x in Enqueue(q, e) <==> x == e || x in q
  {
    if q != [] && e.when >= q[0].when {
      EnqueueMembers(q[1..], e, x);
    }
  }

  lemma {:induction false} EnqueueValid(q: seq<Insertion>, e: Insertion)
    requires QueueValid(q) && e.id !in QueueIds(q)
    ensures QueueValid(Enqueue(q, e))
  {
    QueueIdsAll(q);
    if q != [] && e.when >= q[0].when {
      assert q[0] in q;
      EnqueueValid(q[1..], e);
      forall x | x in Enqueue(q[1..], e) ensures q[0].when <= x.when && q[0].id != x.id {
        EnqueueMembers(q[1..], e, x);
      }
      assert ([q[0]] + Enqueue(q[1..], e))[1..] == Enqueue(q[1..], e);
    } else {
      assert forall x :: x in q ==> x == q[0] || x in q[1..];
      assert ([e] + q)[1..] == q;
    }
  }

  /** A new entry goes behind all entries of its own time: equal times stay in order of arrival. */
  lemma {:induction false} EnqueuePlace(q: seq<Insertion>, e: Insertion) returns (k: nat)
    requires QueueValid(q)
    ensures k <= |q| && Enqueue(q, e) == q[..k] + [e] + q[k..]
    ensures forall x :: x in q[..k] ==> x.when <= e.when
    ensures forall x :: x in q[k..] ==> e.when < x.when
  {
    if q == [] || e.when < q[0].when {
      k := 0;
    } else {
      var n := EnqueuePlace(q[1..], e);
      k := n + 1;
      assert q[..k] == [q[0]] + q[1..][..n] && q[k..] == q[1..][n..];
    }
  }

  /** The others keep their order when an entry is taken out. */
  lemma {:induction false} DequeuePlace(q: seq<Insertion>, id: VehicleId) returns (k: nat)
    requires id in QueueIds(q)
    ensures k < |q| && q[k].id == id && Dequeue(q, id) == q[..k] + q[k + 1..]
  {
    if q[0].id == id {
      k := 0;
    } else {
      var n := DequeuePlace(q[1..], id);
      k := n + 1;
      assert q[..k] == [q[0]] + q[1..][..n] && q[k + 1..] == q[1..][n + 1..];
    }
  }

  lemma EnqueueIds(q: seq<Insertion>, e: Insertion)
    ensures QueueIds(Enqueue(q, e)) == QueueIds(q) + {e.id}
    ensures forall x :: x in Enqueue(q, e) <==> x == e || x in q
  {
  }

  lemma {:induction false} DequeueMembers(q: seq<Insertion>, id: VehicleId, x: Insertion)
    requires QueueValid(q)
    ensures x in Dequeue(q, id) <==> x in q && x.id != id
  {
    if q != [] {
      assert x in q <==> x == q[0] || x in q[1..];
      if q[0].id != id {
        DequeueMembers(q[1..], id, x);
      }
    }
  }

  lemma {:induction false} DequeueValid(q: seq<Insertion>, id: VehicleId)
    requires QueueValid(q)
    ensures QueueValid(Dequeue(q, id))
  {
    if q != [] && q[0].id != id {
      DequeueValid(q[1..], id);
      forall x | x in Dequeue(q[1..], id) ensures q[0].when <= x.when && q[0].id != x.id {
        DequeueMembers(q[1..], id, x);
      }
      assert ([q[0]] + Dequeue(q[1..], id))[1..] == Dequeue(q[1..], id);
    }
  }

  lemma DequeueIds(q: seq<Insertion>, id: VehicleId)
    requires QueueValid(q)
    ensures QueueIds(Dequeue(q, id)) == QueueIds(q) - {id}
    ensures forall x :: x in Dequeue(q, id) <==> x in q && x.id != id
  {
    forall x ensures x in Dequeue(q, id) <==> x in q && x.id != id {
      DequeueMembers(q, id, x);
    }
    QueueIdsAll(q);
    QueueIdsAll(Dequeue(q, id));
  }

  /** Everything that keeps the timer right when an entry that is not overdue is queued. */
  lemma EnqueueTimely(q: seq<Insertion>, e: Insertion, now: int)
    requires QueueValid(q) && NotBefore(q, now) && now <= e.when && e.id !in QueueIds(q)
    ensures QueueValid(Enqueue(q, e)) && NotBefore(Enqueue(q, e), now)
    ensures QueueIds(Enqueue(q, e)) == QueueIds(q) + {e.id}
  {
    EnqueueValid(q, e);
    EnqueueIds(q, e);
  }

  lemma DequeueTimely(q: seq<Insertion>, id: VehicleId, now: int)
    requires QueueValid(q) && NotBefore(q, now)
    ensures QueueValid(Dequeue(q, id)) && NotBefore(Dequeue(q, id), now)
    ensures QueueIds(Dequeue(q, id)) == QueueIds(q) - {id}
  {
    DequeueValid(q, id);
    DequeueIds(q, id);
  }

  // ---- the log of departures, insertions and removals ----

  /** Every departed vehicle is waiting, inserted or gone; it waits for, or came at, its due time. */
  ghost predicate LogOk(q: seq<Insertion>, inserted: set<VehicleId>, due: map<VehicleId, int>,
                        insertedAt: map<VehicleId, int>, gone: set<VehicleId>) {
    && QueueIds(q) !! inserted
    && gone !! QueueIds(q) + inserted
    && due.Keys == QueueIds(q) + inserted + gone
    && (forall e :: e in q ==> e.id in due && due[e.id] == e.when)
    && (forall id :: id in inserted ==> id in insertedAt && insertedAt[id] == due[id])
  }

  lemma LogEnqueue(q: seq<Insertion>, inserted: set<VehicleId>, due: map<VehicleId, int>,
                   insertedAt: map<VehicleId, int>, gone: set<VehicleId>, e: Insertion)
    requires LogOk(q, inserted, due, insertedAt, gone) && e.id !in QueueIds(q) + inserted
    ensures LogOk(Enqueue(q, e), inserted, due[e.id := e.when], insertedAt, gone - {e.id})
  {
    EnqueueIds(q, e);
    QueueIdsAll(q);
  }

  lemma LogInsert(q: seq<Insertion>, inserted: set<VehicleId>, due: map<VehicleId, int>,
                  insertedAt: map<VehicleId, int>, gone: set<VehicleId>, id: VehicleId, now: int)
    requires LogOk(q, inserted, due, insertedAt, gone) && id !in QueueIds(q) + inserted
    ensures LogOk(q, inserted + {id}, due[id := now], insertedAt[id := now], gone - {id})
  {
    QueueIdsAll(q);
  }

  lemma LogDequeue(q: seq<Insertion>, inserted: set<VehicleId>, due: map<VehicleId, int>,
                   insertedAt: map<VehicleId, int>, gone: set<VehicleId>, id: VehicleId)
    requires LogOk(q, inserted, due, insertedAt, gone) && QueueValid(q) && id in QueueIds(q)
    ensures LogOk(Dequeue(q, id), inserted, due, insertedAt, gone + {id})
  {
    DequeueIds(q, id);
  }

  /** The first waiting vehicle comes in at its own time. */
  lemma LogFire(q: seq<Insertion>, inserted: set<VehicleId>, due: map<VehicleId, int>,
                insertedAt: map<VehicleId, int>, gone: set<VehicleId>)
    requires LogOk(q, inserted, due, insertedAt, gone) && QueueValid(q) && q != []
    ensures QueueValid(q[1..]) && QueueIds(q) == QueueIds(q[1..]) + {q[0].id} && q[0].id !in QueueIds(q[1..])
    ensures LogOk(q[1..], inserted + {q[0].id}, due, insertedAt[q[0].id := q[0].when], gone)
  {
    assert forall x :: x in q <==> x == q[0] || x in q[1..];
    QueueIdsAll(q);
    QueueIdsAll(q[1..]);
  }

  lemma LogRemove(q: seq<Insertion>, inserted: set<VehicleId>, due: map<VehicleId, int>,
                  insertedAt: map<VehicleId, int>, gone: set<VehicleId>, id: VehicleId)
    requires LogOk(q, inserted, due, insertedAt, gone)
    ensures id in inserted ==> LogOk(q, inserted - {id}, due, insertedAt, gone + {id})
    ensures id !in inserted ==> inserted - {id} == inserted
  {
  }

  ghost predicate DueAt(due: map<VehicleId, int>, ids: set<VehicleId>, now: int, delays: VehicleId -> nat) {
    forall id :: id in ids ==> id in due && due[id] == now + delays(id)
  }

  function AtOnce(id: VehicleId): nat {
    0
  }

  lemma DueOneMore(due: map<VehicleId, int>, ids: set<VehicleId>, now: int, delays: VehicleId -> nat,
                   id: VehicleId, when: int)
    requires DueAt(due, ids, now, delays) && when == now + delays(id)
    ensures DueAt(due[id := when], ids + {id}, now, delays)
  {
  }

  // ---- nodes and sinks ----

  /** Exactly the vehicles with a sink have a node, the sink is that node's, and no index is shared. */
  ghost predicate NodesOk(nodes: map<VehicleId, nat>, vehicles: map<VehicleId, Option<nat>>, next: nat) {
    && (forall id :: id in nodes <==> id in vehicles && vehicles[id].Some?)
    && (forall id :: id in nodes ==> vehicles[id] == Some(nodes[id]) && nodes[id] < next)
    && (forall a, b :: a in nodes && b in nodes && a != b ==> nodes[a] != nodes[b])
  }

  lemma NodesAdd(nodes: map<VehicleId, nat>, vehicles: map<VehicleId, Option<nat>>, id: VehicleId, next: nat)
    requires NodesOk(nodes, vehicles, next)
    ensures NodesOk(nodes[id := next], vehicles[id := Some(next)], next + 1)
    ensures id !in vehicles ==> NodesOk(nodes, vehicles[id := None], next)
  {
  }

  lemma NodesRemove(nodes: map<VehicleId, nat>, vehicles: map<VehicleId, Option<nat>>, id: VehicleId, next: nat)
    requires NodesOk(nodes, vehicles, next)
    ensures NodesOk(nodes - {id}, vehicles - {id}, next)
  {
  }

  /** Vehicles that were there keep their sinks; a new one has a sink exactly if it is equipped. */
  ghost predicate SinksKept(before: map<VehicleId, Option<nat>>, after: map<VehicleId, Option<nat>>, equipped: VehicleId -> bool) {
    forall id :: id in after ==> if id in before then after[id] == before[id] else after[id].Some? == equipped(id)
  }

  lemma SinksOneMore(before: map<VehicleId, Option<nat>>, after: map<VehicleId, Option<nat>>, equipped: VehicleId -> bool,
                     id: VehicleId, isEquipped: bool, index: nat)
    requires SinksKept(before, after, equipped) && id !in before && isEquipped == equipped(id)
    ensures SinksKept(before, after[id := if isEquipped then Some(index) else None], equipped)
  {
  }

  // ---- what a vehicle sink is told ----

  datatype Report = Report(position: Value, heading: Value, speed: Value)

  function ReportOf(results: Results, server: Server, id: VehicleId): Report {
    Report(Known(results, server, id, VAR_POSITION), Known(results, server, id, VAR_ANGLE), Known(results, server, id, VAR_SPEED))
  }

  /** What the server says right now; a new sink starts with this. */
  function Asked(server: Server, id: VehicleId): Report {
    Report(server(id, VAR_POSITION), server(id, VAR_ANGLE), server(id, VAR_SPEED))
  }

  /** BasicNodeManager, or InsertionDelayNodeManager when `delayed` is set. */
  class NodeManager {
    const subscriptions: BasicSubscriptionManager
    const delayed: bool
    const destroyOnCrash: bool
    var nodes: map<VehicleId, nat>  // node modules by their index
    var vehicles: map<VehicleId, Option<nat>>  // sink, absent for vehicles without a node
    var nodeIndex: nat
    var queue: seq<Insertion>
    var insertEvent: Option<int>
    ghost var closed: bool
    ghost var due: map<VehicleId, int>  // departure plus delay
    ghost var insertedAt: map<VehicleId, int>
    ghost var gone: set<VehicleId>  // removed since their last departure

    ghost predicate TimerValid(now: int)
      reads `queue, `insertEvent
    {
      && QueueValid(queue) && (!delayed ==> queue == [])
      && NotBefore(queue, now)
      && insertEvent == (if queue == [] then None else Some(queue[0].when))
    }

    ghost predicate NodesValid()
      reads `nodes, `vehicles, `nodeIndex, `closed
    {
      !closed ==> NodesOk(nodes, vehicles, nodeIndex)
    }

    ghost predicate LogValid()
      reads `queue, `vehicles, `due, `insertedAt, `gone
    {
      LogOk(queue, vehicles.Keys, due, insertedAt, gone)
    }

    ghost predicate Valid(now: int)
      reads this
    {
      TimerValid(now) && NodesValid() && LogValid()
    }

    /** Vehicles the manager knows of, inserted or waiting. */
    ghost function Present(): set<VehicleId>
      reads `queue, `vehicles
    {
      QueueIds(queue) + vehicles.Keys
    }

    /**
     * A vehicle whose time has passed and that was not removed is there, and it was inserted
     * exactly at its departure plus its delay; a waiting vehicle is not overdue.
     */
    lemma InsertedOnTime(id: VehicleId, now: int)
      requires Valid(now) && id in due && id !in gone
      ensures id in vehicles || exists e :: e in queue && e.id == id && e.when == due[id] >= now
      ensures due[id] < now ==> id in vehicles
      ensures id in vehicles ==> insertedAt[id] == due[id]
    {
      QueueIdsAll(queue);
    }

    constructor (subscriptions: BasicSubscriptionManager, delayed: bool, destroyOnCrash: bool, ghost now: int)
      ensures Valid(now) && Present() == {} && !closed
      ensures this.subscriptions == subscriptions && this.delayed == delayed && this.destroyOnCrash == destroyOnCrash
    {
      this.subscriptions, this.delayed, this.destroyOnCrash := subscriptions, delayed, destroyOnCrash;
      nodes, vehicles, nodeIndex, queue, insertEvent := map[], map[], 0, [], None;
      closed, due, insertedAt, gone := false, map[], map[], {};
    }

    // ---- adding ----

    /** Creates the node, unless the mapper declines to equip this vehicle. */
    method BasicAddVehicle(id: VehicleId, equipped: bool, server: Server) returns (initial: Option<Report>)
      requires subscriptions.CachesValid() && NodesOk(nodes, vehicles, nodeIndex) && id !in vehicles
      modifies `nodes, `vehicles, `nodeIndex, subscriptions`caches
      ensures initial == if equipped then Some(Asked(server, id)) else None
      ensures initial.Some? ==>
        && initial.value.position == server(id, VAR_POSITION)
        && initial.value.heading == server(id, VAR_ANGLE)
        && initial.value.speed == server(id, VAR_SPEED)
      ensures NodesOk(nodes, vehicles, nodeIndex) && vehicles.Keys == old(vehicles.Keys) + {id}
      ensures vehicles == old(vehicles)[id := if equipped then Some(old(nodeIndex)) else None]
      ensures nodes == if equipped then old(nodes)[id := old(nodeIndex)] else old(nodes)
      ensures nodeIndex == if equipped then old(nodeIndex) + 1 else old(nodeIndex)
      ensures subscriptions.CachesValid() && CachedResults(id) == old(CachedResults(id))
      ensures id in old(subscriptions.caches) ==> subscriptions.caches == old(subscriptions.caches)
      ensures id !in old(subscriptions.caches) && id in subscriptions.caches ==> fresh(subscriptions.caches[id])
      ensures forall v :: v in subscriptions.caches && v != id ==>
        v in old(subscriptions.caches) && subscriptions.caches[v] == old(subscriptions.caches[v])
    {
      initial := None;
      if equipped {
        var cache := subscriptions.GetVehicleCache(id);
        var position, heading, speed := server(id, VAR_POSITION), server(id, VAR_ANGLE), server(id, VAR_SPEED);
        initial := Some(Report(position, heading, speed));
      }
      Enter(id, equipped);
    }

    /** The new vehicle's node and sink, or a null sink. */
    method Enter(id: VehicleId, equipped: bool)
      requires NodesOk(nodes, vehicles, nodeIndex) && id !in vehicles
      modifies `nodes, `vehicles, `nodeIndex
      ensures NodesOk(nodes, vehicles, nodeIndex) && vehicles.Keys == old(vehicles.Keys) + {id}
      ensures vehicles == old(vehicles)[id := if equipped then Some(old(nodeIndex)) else None]
      ensures nodes == if equipped then old(nodes)[id := old(nodeIndex)] else old(nodes)
      ensures nodeIndex == if equipped then old(nodeIndex) + 1 else old(nodeIndex)
    {
      NodesAdd(nodes, vehicles, id, nodeIndex);
      if equipped {
        nodes, vehicles := nodes[id := nodeIndex], vehicles[id := Some(nodeIndex)];
        nodeIndex := nodeIndex + 1;
      } else {
        vehicles := vehicles[id := None];
      }
    }

    method ScheduleVehicleInsertion(now: int)
      requires NotBefore(queue, now)
      modifies `insertEvent
      ensures insertEvent == (if queue == [] then None else Some(queue[0].when))
    {
      insertEvent := None;
      if queue != [] {
        var when := queue[0].when;
        assert queue[0] in queue;
        assert when >= now;
        insertEvent := Some(when);
      }
    }

    /** Every change of the queue is followed by rescheduling the event. */
    method ChangeQueue(after: seq<Insertion>, now: int)
      requires delayed && QueueValid(after) && NotBefore(after, now)
      modifies `queue, `insertEvent
      ensures queue == after && TimerValid(now)
    {
      queue := after;
      ScheduleVehicleInsertion(now);
    }

    /** The vehicle is queued for its insertion time. */
    method DelayedAddVehicle(id: VehicleId, now: int, delay: nat)
      requires delayed && Valid(now) && id !in Present()
      modifies `queue, `insertEvent, `due, `gone
      ensures Valid(now) && Present() == old(Present()) + {id}
      ensures queue == Enqueue(old(queue), Insertion(id, now + delay))
      ensures due == old(due)[id := now + delay] && gone == old(gone) - {id}
    {
      var after := Queued(Insertion(id, now + delay), now);
      ChangeQueue(after, now);
    }

    /** The queue with a further entry, whose vehicle is logged as waiting. */
    method Queued(e: Insertion, now: int) returns (after: seq<Insertion>)
      requires QueueValid(queue) && NotBefore(queue, now) && now <= e.when
      requires LogValid() && e.id !in QueueIds(queue) + vehicles.Keys
      modifies `due, `gone
      ensures after == Enqueue(queue, e)
      ensures QueueValid(after) && NotBefore(after, now) && QueueIds(after) == QueueIds(queue) + {e.id}
      ensures LogOk(after, vehicles.Keys, due, insertedAt, gone)
      ensures due == old(due)[e.id := e.when] && gone == old(gone) - {e.id}
    {
      after := Enqueue(queue, e);
      EnqueueTimely(queue, e, now);
      LogEnqueue(queue, vehicles.Keys, due, insertedAt, gone, e);
      due, gone := due[e.id := e.when], gone - {e.id};
    }

    /** The node maps and the log after an insertion at `now`. */
    method InsertNow(id: VehicleId, now: int, equipped: bool, server: Server) returns (initial: Option<Report>)
      requires !closed && id !in QueueIds(queue) + vehicles.Keys && subscriptions.CachesValid()
      requires NodesOk(nodes, vehicles, nodeIndex) && LogValid()
      modifies `nodes, `vehicles, `nodeIndex, `due, `insertedAt, `gone, subscriptions`caches
      ensures NodesOk(nodes, vehicles, nodeIndex) && LogValid()
      ensures vehicles.Keys == old(vehicles.Keys) + {id}
      ensures vehicles == old(vehicles)[id := if equipped then Some(old(nodeIndex)) else None]
      ensures due == old(due)[id := now] && gone == old(gone) - {id}
      ensures subscriptions.CachesValid()
      ensures id in old(subscriptions.caches) ==> subscriptions.caches == old(subscriptions.caches)
      ensures initial == if equipped then Some(Asked(server, id)) else None
      ensures initial.Some? ==>
        && initial.value.position == server(id, VAR_POSITION)
        && initial.value.heading == server(id, VAR_ANGLE)
        && initial.value.speed == server(id, VAR_SPEED)
    {
      NoteInsertion(id, now);
      initial := BasicAddVehicle(id, equipped, server);
    }

    /** Logs a departure and insertion at once. */
    ghost method NoteInsertion(id: VehicleId, now: int)
      requires LogValid() && id !in QueueIds(queue) + vehicles.Keys
      modifies `due, `insertedAt, `gone
      ensures LogOk(queue, vehicles.Keys + {id}, due, insertedAt, gone)
      ensures due == old(due)[id := now] && gone == old(gone) - {id}
    {
      LogInsert(queue, vehicles.Keys, due, insertedAt, gone, id, now);
      due, insertedAt, gone := due[id := now], insertedAt[id := now], gone - {id};
    }

    /** The vehicle is inserted on the spot. */
    method DirectAddVehicle(id: VehicleId, now: int, equipped: bool, server: Server) returns (initial: Option<Report>)
      requires !delayed && Valid(now) && !closed && id !in Present() && subscriptions.CachesValid()
      modifies `nodes, `vehicles, `nodeIndex, `due, `insertedAt, `gone, subscriptions`caches
      ensures Valid(now) && Present() == old(Present()) + {id}
      ensures vehicles == old(vehicles)[id := if equipped then Some(old(nodeIndex)) else None]
      ensures vehicles.Keys == old(vehicles.Keys) + {id}
      ensures due == old(due)[id := now] && gone == old(gone) - {id}
      ensures subscriptions.CachesValid()
      ensures id in old(subscriptions.caches) ==> subscriptions.caches == old(subscriptions.caches)
      ensures initial == if equipped then Some(Asked(server, id)) else None
      ensures initial.Some? ==>
        && initial.value.position == server(id, VAR_POSITION)
        && initial.value.heading == server(id, VAR_ANGLE)
        && initial.value.speed == server(id, VAR_SPEED)
    {
      initial := InsertNow(id, now, equipped, server);
    }

    // ---- removing ----

    method BasicRemoveVehicle(id: VehicleId)
      modifies `nodes, `vehicles
      ensures nodes == old(nodes) - {id} && vehicles == old(vehicles) - {id}
    {
      if id in nodes {
        nodes := nodes - {id};
      }
      vehicles := vehicles - {id};
    }

    /** A waiting vehicle is taken out of the queue. */
    method DelayedRemoveVehicle(id: VehicleId, now: int)
      requires Valid(now) && id in QueueIds(queue)
      modifies `queue, `insertEvent, `gone
      ensures Valid(now) && Present() == old(Present()) - {id} && gone == old(gone) + {id}
    {
      DequeueTimely(queue, id, now);
      LogDequeue(queue, vehicles.Keys, due, insertedAt, gone, id);
      ChangeQueue(Dequeue(queue, id), now);
      gone := gone + {id};
    }

    /** The node maps and the log after the removal of a vehicle that does not wait. */
    method TakeOut(id: VehicleId)
      requires id !in QueueIds(queue) && NodesValid() && LogValid()
      modifies `nodes, `vehicles, `gone
      ensures NodesValid() && LogValid() && vehicles == old(vehicles) - {id}
      ensures gone == if id in old(vehicles) then old(gone) + {id} else old(gone)
    {
      LogRemove(queue, vehicles.Keys, due, insertedAt, gone, id);
      if !closed {
        NodesRemove(nodes, vehicles, id, nodeIndex);
      }
      gone := if id in vehicles then gone + {id} else gone;
      BasicRemoveVehicle(id);
      assert vehicles.Keys == old(vehicles.Keys) - {id};
    }

    /** An inserted vehicle loses its node; an unknown one is ignored. */
    method DirectRemoveVehicle(id: VehicleId, now: int)
      requires Valid(now) && id !in QueueIds(queue)
      modifies `nodes, `vehicles, `gone
      ensures Valid(now) && Present() == old(Present()) - {id}
      ensures vehicles == old(vehicles) - {id}
      ensures gone == if id in old(vehicles) then old(gone) + {id} else old(gone)
    {
      TakeOut(id);
    }

    method RemoveVehicle(id: VehicleId, now: int)
      requires Valid(now)
      modifies `nodes, `vehicles, `queue, `insertEvent, `gone
      ensures Valid(now) && Present() == old(Present()) - {id}
      ensures vehicles == old(vehicles) - {id}
      ensures gone == if id in old(Present()) then old(gone) + {id} else old(gone)
    {
      if delayed && id in QueueIds(queue) {
        DelayedRemoveVehicle(id, now);
        assert vehicles - {id} == vehicles;
      } else {
        DirectRemoveVehicle(id, now);
      }
    }

    // ---- updating ----

    /** What the cache of a vehicle holds at the moment; nothing if there is no cache yet. */
    ghost function CachedResults(id: VehicleId): Results
      reads subscriptions, subscriptions.caches.Values
    {
      if id in subscriptions.caches then subscriptions.caches[id].values else map[]
    }

    /** Tells the sink, if there is one, the position, heading and speed of its vehicle. */
    method BasicUpdateVehicle(id: VehicleId, server: Server) returns (report: Option<Report>)
      requires id in vehicles && subscriptions.CachesValid()
      modifies subscriptions`caches, subscriptions.caches.Values
      ensures subscriptions.CachesValid() && id in subscriptions.caches
      ensures id in old(subscriptions.caches) ==> subscriptions.caches == old(subscriptions.caches)
      ensures id !in old(subscriptions.caches) ==>
        && fresh(subscriptions.caches[id])
        && subscriptions.caches == old(subscriptions.caches)[id := subscriptions.caches[id]]
      ensures forall v :: v in old(subscriptions.caches) && v != id ==>
        subscriptions.caches[v].values == old(subscriptions.caches[v].values)
      ensures report == if vehicles[id].None? then None
        else Some(ReportOf(old(CachedResults(id)), server, id))
      ensures report.Some? ==> var results := old(CachedResults(id));
        && report.value.position == (if VAR_POSITION in results then results[VAR_POSITION] else server(id, VAR_POSITION))
        && report.value.heading == (if VAR_ANGLE in results then results[VAR_ANGLE] else server(id, VAR_ANGLE))
        && report.value.speed == (if VAR_SPEED in results then results[VAR_SPEED] else server(id, VAR_SPEED))
    {
      var cache := subscriptions.GetVehicleCache(id);
      report := None;
      if vehicles[id].Some? {
        var position := cache.Get(VAR_POSITION, server);
        var heading := cache.Get(VAR_ANGLE, server);
        var speed := cache.Get(VAR_SPEED, server);
        report := Some(Report(position, heading, speed));
      }
    }

    /** Every vehicle of this step has a cache holding this step's results. */
    ghost predicate Ready(ids: set<VehicleId>, results: VehicleId -> Results)
      reads subscriptions, subscriptions.caches.Values
    {
      && subscriptions.CachesValid()
      && forall id :: id in ids ==> id in subscriptions.caches && subscriptions.caches[id].values == results(id)
    }

    /** Updates all inserted vehicles; each sink gets the values reported in this very step. */
    method UpdateVehicles(now: int, ghost results: VehicleId -> Results, server: Server)
      returns (delivered: map<VehicleId, Report>)
      requires Valid(now) && Ready(vehicles.Keys, results)
      modifies subscriptions`caches, subscriptions.caches.Values
      ensures subscriptions.CachesValid() && subscriptions.caches == old(subscriptions.caches)
      ensures forall id :: id in delivered <==> id in vehicles && vehicles[id].Some?
      ensures forall id :: id in delivered ==> delivered[id] == ReportOf(results(id), server, id)
      ensures forall id :: id in delivered ==>
        && delivered[id].position == (if VAR_POSITION in results(id) then results(id)[VAR_POSITION] else server(id, VAR_POSITION))
        && delivered[id].heading == (if VAR_ANGLE in results(id) then results(id)[VAR_ANGLE] else server(id, VAR_ANGLE))
        && delivered[id].speed == (if VAR_SPEED in results(id) then results(id)[VAR_SPEED] else server(id, VAR_SPEED))
    {
      delivered := map[];
      var rest := vehicles.Keys;
      while rest != {}
        modifies subscriptions`caches, subscriptions.caches.Values
        invariant rest <= vehicles.Keys && Ready(rest, results)
        invariant subscriptions.caches == old(subscriptions.caches)
        invariant forall id :: id in delivered <==> id in vehicles.Keys - rest && vehicles[id].Some?
        invariant forall id :: id in delivered ==> delivered[id] == ReportOf(results(id), server, id)
        decreases rest
      {
        var id :| id in rest;
        if !(delayed && id in QueueIds(queue)) {
          var report := BasicUpdateVehicle(id, server);
          if report.Some? {
            delivered := delivered[id := report.value];
          }
        }
        rest := rest - {id};
      }
    }

    // ---- signals from the TraCI core and the event queue ----

    /** Vehicles that are already running when the simulation connects. */
    method TraciInit(running: seq<VehicleId>, now: int, delays: VehicleId -> nat, equipped: VehicleId -> bool, server: Server)
      requires Valid(now) && !closed && subscriptions.Valid()
      requires Distinct(running) && Ids(running) !! Present()
      modifies `nodes, `vehicles, `nodeIndex, `queue, `insertEvent, `due, `insertedAt, `gone
      modifies subscriptions, subscriptions.server
      ensures Valid(now) && subscriptions.Valid()
      ensures Present() == old(Present()) + Ids(running)
      ensures vehicles.Keys == if delayed then old(vehicles.Keys) else old(vehicles.Keys) + Ids(running)
      ensures subscriptions.subscribed == old(subscriptions.subscribed)
      ensures subscriptions.requestedVehicle == old(subscriptions.requestedVehicle) + (set v | v in VEHICLE_VARIABLES)
      ensures subscriptions.requestedSimulation == old(subscriptions.requestedSimulation)
        + (set v | v in SIMULATION_VARIABLES)
    {
      SubscribeOwnVariables();
      AddVehicles(running, now, delays, equipped, server);
    }

    method SubscribeOwnVariables()
      requires subscriptions.Valid()
      modifies subscriptions`vehicleVars, subscriptions`simVars, subscriptions`requestedVehicle
      modifies subscriptions`requestedSimulation, subscriptions.server
      ensures subscriptions.Valid()
      ensures subscriptions.requestedVehicle == old(subscriptions.requestedVehicle) + (set v | v in VEHICLE_VARIABLES)
      ensures subscriptions.requestedSimulation == old(subscriptions.requestedSimulation)
        + (set v | v in SIMULATION_VARIABLES)
    {
      subscriptions.SubscribeSimulationVariables(SIMULATION_VARIABLES);
      subscriptions.SubscribeVehicleVariables(VEHICLE_VARIABLES);
    }

    /** Adds each vehicle in turn, in the way of this kind of manager. */
    method AddVehicles(ids: seq<VehicleId>, now: int, delays: VehicleId -> nat, equipped: VehicleId -> bool, server: Server)
      requires Valid(now) && !closed && subscriptions.CachesValid()
      requires Distinct(ids) && Ids(ids) !! Present()
      modifies `nodes, `vehicles, `nodeIndex, `queue, `insertEvent, `due, `insertedAt, `gone, subscriptions`caches
      ensures Valid(now) && Present() == old(Present()) + Ids(ids)
      ensures vehicles.Keys == if delayed then old(vehicles.Keys) else old(vehicles.Keys) + Ids(ids)
      ensures subscriptions.CachesValid()
      ensures Ids(ids) <= old(subscriptions.caches.Keys) ==> subscriptions.caches == old(subscriptions.caches)
      ensures DueAsAnnounced(Ids(ids), now, delays)
      ensures SinksKept(old(vehicles), vehicles, equipped)
    {
      if delayed {
        DelayedAddVehicles(ids, now, delays);
      } else {
        DirectAddVehicles(ids, now, equipped, server);
      }
    }

    method DelayedAddVehicles(ids: seq<VehicleId>, now: int, delays: VehicleId -> nat)
      requires delayed && Valid(now) && Distinct(ids) && Ids(ids) !! Present()
      modifies `queue, `insertEvent, `due, `gone
      ensures Valid(now) && Present() == old(Present()) + Ids(ids)
      ensures DueAsAnnounced(Ids(ids), now, delays)
    {
      for n := 0 to |ids|
        invariant Valid(now) && Present() == old(Present()) + Ids(ids[..n])
        invariant DueAsAnnounced(Ids(ids[..n]), now, delays)
      {
        NextIsNew(ids, n);
        DueOneMore(due, Ids(ids[..n]), now, delays, ids[n], now + delays(ids[n]));
        DelayedAddVehicle(ids[n], now, delays(ids[n]));
      }
      assert ids[..|ids|] == ids;
    }

    method DirectAddVehicles(ids: seq<VehicleId>, now: int, equipped: VehicleId -> bool, server: Server)
      requires !delayed && Valid(now) && !closed && subscriptions.CachesValid()
      requires Distinct(ids) && Ids(ids) !! Present()
      modifies `nodes, `vehicles, `nodeIndex, `due, `insertedAt, `gone, subscriptions`caches
      ensures Valid(now) && vehicles.Keys == old(vehicles.Keys) + Ids(ids)
      ensures subscriptions.CachesValid()
      ensures Ids(ids) <= old(subscriptions.caches.Keys) ==> subscriptions.caches == old(subscriptions.caches)
      ensures DueAt(due, Ids(ids), now, AtOnce)
      ensures SinksKept(old(vehicles), vehicles, equipped)
    {
      for n := 0 to |ids|
        invariant Valid(now) && vehicles.Keys == old(vehicles.Keys) + Ids(ids[..n])
        invariant subscriptions.CachesValid()
        invariant Ids(ids) <= old(subscriptions.caches.Keys) ==> subscriptions.caches == old(subscriptions.caches)
        invariant DueAt(due, Ids(ids[..n]), now, AtOnce)
        invariant SinksKept(old(vehicles), vehicles, equipped)
      {
        NextIsNew(ids, n);
        AddNext(ids[n], now, equipped, server, old(vehicles), Ids(ids[..n]));
      }
      assert ids[..|ids|] == ids;
    }

    /** One more vehicle after those that have been added so far to the ones before. */
    method AddNext(id: VehicleId, now: int, equipped: VehicleId -> bool, server: Server,
                   ghost before: map<VehicleId, Option<nat>>, ghost added: set<VehicleId>)
      requires !delayed && Valid(now) && !closed && id !in Present() && subscriptions.CachesValid()
      requires DueAt(due, added, now, AtOnce) && SinksKept(before, vehicles, equipped) && id !in before
      modifies `nodes, `vehicles, `nodeIndex, `due, `insertedAt, `gone, subscriptions`caches
      ensures Valid(now) && vehicles.Keys == old(vehicles.Keys) + {id} && subscriptions.CachesValid()
      ensures id in old(subscriptions.caches) ==> subscriptions.caches == old(subscriptions.caches)
      ensures DueAt(due, added + {id}, now, AtOnce) && SinksKept(before, vehicles, equipped)
    {
      DueOneMore(due, added, now, AtOnce, id, now);
      SinksOneMore(before, vehicles, equipped, id, equipped(id), nodeIndex);
      var initial := DirectAddVehicle(id, now, equipped(id), server);
    }

    /** Time may pass up to, but not beyond, the scheduled insertion. */
    lemma TimePasses(now: int, later: int)
      requires Valid(now) && now <= later && (insertEvent.Some? ==> later <= insertEvent.value)
      ensures Valid(later)
    {
    }

    /** The given vehicles are to appear at `now` plus their delay, or at once without delays. */
    ghost predicate DueAsAnnounced(ids: set<VehicleId>, now: int, delays: VehicleId -> nat)
      reads `due
    {
      DueAt(due, ids, now, if delayed then delays else AtOnce)
    }

    method RemoveVehicles(ids: seq<VehicleId>, now: int)
      requires Valid(now)
      modifies `nodes, `vehicles, `queue, `insertEvent, `gone
      ensures Valid(now) && Present() == old(Present()) - Ids(ids)
      ensures vehicles == old(vehicles) - Ids(ids)
      ensures gone == old(gone) + Ids(ids) * old(Present())
    {
      assert ids[..|ids|] == ids;
      for n := 0 to |ids|
        invariant Valid(now) && Present() == old(Present()) - Ids(ids[..n])
        invariant vehicles == old(vehicles) - Ids(ids[..n])
        invariant gone == old(gone) + Ids(ids[..n]) * old(Present())
      {
        IdsSnoc(ids, n);
        OneMoreGone(old(gone), old(Present()), Ids(ids[..n]), ids[n]);
        RemoveVehicle(ids[n], now);
      }
    }

    /**
     * One simulation step: departures first, then arrivals and crashes, then updates. The clocks
     * have been compared before, on the same cache, so they cannot be found apart here.
     */
    method TraciStep(now: int, ghost world: World, delays: VehicleId -> nat, equipped: VehicleId -> bool,
                     ghost results: VehicleId -> Results, api: Api)
      returns (delivered: map<VehicleId, Report>)
      requires Valid(now) && !closed
      requires subscriptions.Heard(world, api.simulation) && Synced(world.time, world.deltaT, now)
      requires Distinct(world.departed) && Ids(world.departed) !! Present()
      requires Ids(world.departed) <= subscriptions.caches.Keys
      requires Ready((Present() + Ids(world.departed)) - Removed(world), results)
      modifies `nodes, `vehicles, `nodeIndex, `queue, `insertEvent, `due, `insertedAt, `gone
      modifies subscriptions`caches, subscriptions.caches.Values, subscriptions.simCache
      ensures Valid(now) && subscriptions.CachesValid() && subscriptions.caches == old(subscriptions.caches)
      ensures Present() == (old(Present()) + Ids(world.departed)) - Removed(world)
      ensures vehicles.Keys ==
        (if delayed then old(vehicles.Keys) else old(vehicles.Keys) + Ids(world.departed)) - Removed(world)
      ensures DueAsAnnounced(Ids(world.departed), now, delays)
      ensures SinksKept(old(vehicles), vehicles, equipped)
      ensures forall id :: id in delivered <==> id in vehicles && vehicles[id].Some?
      ensures forall id :: id in delivered ==> delivered[id] == ReportOf(results(id), api.vehicle, id)
      ensures forall id :: id in delivered ==>
        && delivered[id].position == (if VAR_POSITION in results(id) then results(id)[VAR_POSITION] else api.vehicle(id, VAR_POSITION))
        && delivered[id].heading == (if VAR_ANGLE in results(id) then results(id)[VAR_ANGLE] else api.vehicle(id, VAR_ANGLE))
        && delivered[id].speed == (if VAR_SPEED in results(id) then results(id)[VAR_SPEED] else api.vehicle(id, VAR_SPEED))
    {
      ghost var staying := (Present() + Ids(world.departed)) - Removed(world);
      var synced := CheckTimeSync(subscriptions.simCache, now, api.simulation, world);
      assert synced;
      ChangeFleet(now, world, delays, equipped, api);
      assert Ready(staying, results);
      assert vehicles.Keys <= Present() == staying;
      delivered := UpdateVehicles(now, results, api.vehicle);
    }

    ghost function Removed(world: World): set<VehicleId> {
      if destroyOnCrash then Ids(world.arrived) + Ids(world.teleported) else Ids(world.arrived)
    }

    /** Arrived vehicles go in any case, those that crash only if so configured. */
    lemma RemovedMembers(world: World, id: VehicleId)
      ensures id in Removed(world) <==> id in world.arrived || (destroyOnCrash && id in world.teleported)
    {
      IdsMember(world.arrived, id);
      IdsMember(world.teleported, id);
    }

    /** A departed vehicle is to appear after its delay, or at once if there are no delays. */
    lemma AnnouncedDue(departed: seq<VehicleId>, now: int, delays: VehicleId -> nat, id: VehicleId)
      requires DueAsAnnounced(Ids(departed), now, delays) && id in departed
      ensures id in due && due[id] == if delayed then now + delays(id) else now
    {
      IdsMember(departed, id);
    }

    method ChangeFleet(now: int, ghost world: World, delays: VehicleId -> nat, equipped: VehicleId -> bool, api: Api)
      requires Valid(now) && !closed && subscriptions.CachesValid() && subscriptions.Heard(world, api.simulation)
      requires Ids(world.departed) <= subscriptions.caches.Keys
      requires Distinct(world.departed) && Ids(world.departed) !! Present()
      modifies `nodes, `vehicles, `nodeIndex, `queue, `insertEvent, `due, `insertedAt, `gone
      modifies subscriptions`caches, subscriptions.simCache
      ensures Valid(now) && subscriptions.CachesValid() && subscriptions.caches == old(subscriptions.caches)
      ensures Present() == (old(Present()) + Ids(world.departed)) - Removed(world)
      ensures vehicles.Keys ==
        (if delayed then old(vehicles.Keys) else old(vehicles.Keys) + Ids(world.departed)) - Removed(world)
      ensures DueAsAnnounced(Ids(world.departed), now, delays)
      ensures SinksKept(old(vehicles), vehicles, equipped)
    {
      var departed := subscriptions.simCache.GetNames(VAR_DEPARTED_VEHICLES_IDS, api.simulation);
      AddVehicles(departed, now, delays, equipped, api.vehicle);
      RemoveFromFleet(now, world, api);
    }

    /** Removes the arrived vehicles, and those that crash if so configured. */
    method RemoveFromFleet(now: int, ghost world: World, api: Api)
      requires Valid(now) && subscriptions.Heard(world, api.simulation)
      modifies `nodes, `vehicles, `queue, `insertEvent, `gone, subscriptions.simCache
      ensures Valid(now) && Present() == old(Present()) - Removed(world)
      ensures vehicles == old(vehicles) - Removed(world)
    {
      var arrived := subscriptions.simCache.GetNames(VAR_ARRIVED_VEHICLES_IDS, api.simulation);
      RemoveVehicles(arrived, now);
      if destroyOnCrash {
        var teleported := subscriptions.simCache.GetNames(VAR_TELEPORT_STARTING_VEHICLES_IDS, api.simulation);
        RemoveVehicles(teleported, now);
      }
    }

    /** The first waiting vehicle leaves the queue; the timer is set for the next one. */
    method DropFirstInsertion(now: int)
      requires queue != [] && delayed && QueueValid(queue) && NotBefore(queue, now)
      requires NodesValid() && LogOk(queue[1..], vehicles.Keys, due, insertedAt, gone)
      modifies `queue, `insertEvent
      ensures Valid(now) && queue == old(queue)[1..]
    {
      assert forall x :: x in queue[1..] ==> x in queue;
      ChangeQueue(queue[1..], now);
    }

    /** The insertion event fires: the first waiting vehicle comes in, the next one is scheduled. */
    method HandleInsertEvent(now: int, equipped: VehicleId -> bool, server: Server)
      returns (id: VehicleId, report: Option<Report>)
      requires Valid(now) && !closed && insertEvent == Some(now) && subscriptions.CachesValid()
      modifies `nodes, `vehicles, `nodeIndex, `queue, `insertEvent, `insertedAt, subscriptions`caches, subscriptions.caches.Values
      ensures Valid(now) && subscriptions.CachesValid()
      ensures id == old(queue)[0].id && id !in old(vehicles) && queue == old(queue)[1..]
      ensures vehicles == old(vehicles)[id := if equipped(id) then Some(old(nodeIndex)) else None]
      ensures report == if equipped(id) then Some(ReportOf(old(CachedResults(id)), server, id)) else None
      ensures report.Some? ==> var results := old(CachedResults(id));
        && report.value.position == (if VAR_POSITION in results then results[VAR_POSITION] else server(id, VAR_POSITION))
        && report.value.heading == (if VAR_ANGLE in results then results[VAR_ANGLE] else server(id, VAR_ANGLE))
        && report.value.speed == (if VAR_SPEED in results then results[VAR_SPEED] else server(id, VAR_SPEED))
      ensures Present() == old(Present())
      ensures id in insertedAt && insertedAt[id] == due[id] == now
    {
      var next := queue[0];
      assert next in queue && next.when == now;
      id := next.id;
      report := InsertNext(id, now, equipped(id), server);
      DropFirstInsertion(now);
    }

    method InsertNext(id: VehicleId, now: int, isEquipped: bool, server: Server) returns (report: Option<Report>)
      requires queue != [] && queue[0] == Insertion(id, now) && QueueValid(queue) && subscriptions.CachesValid()
      requires !closed && NodesOk(nodes, vehicles, nodeIndex) && LogOk(queue, vehicles.Keys, due, insertedAt, gone)
      modifies `nodes, `vehicles, `nodeIndex, `insertedAt, subscriptions`caches, subscriptions.caches.Values
      ensures NodesOk(nodes, vehicles, nodeIndex) && LogOk(queue[1..], vehicles.Keys, due, insertedAt, gone)
      ensures QueueIds(queue) == QueueIds(queue[1..]) + {id}
      ensures subscriptions.CachesValid() && id !in old(vehicles)
      ensures vehicles.Keys == old(vehicles.Keys) + {id}
      ensures vehicles == old(vehicles)[id := if isEquipped then Some(old(nodeIndex)) else None]
      ensures report == if isEquipped then Some(ReportOf(old(CachedResults(id)), server, id)) else None
      ensures id in insertedAt && insertedAt[id] == due[id] == now
    {
      NoteFiring();
      var initial := BasicAddVehicle(id, isEquipped, server);
      assert LogOk(queue[1..], vehicles.Keys, due, insertedAt, gone);
      report := BasicUpdateVehicle(id, server);
    }

    /** Logs that the first waiting vehicle comes in. */
    ghost method NoteFiring()
      requires queue != [] && QueueValid(queue) && LogValid()
      modifies `insertedAt
      ensures LogOk(queue[1..], vehicles.Keys + {queue[0].id}, due, insertedAt, gone)
      ensures QueueIds(queue) == QueueIds(queue[1..]) + {queue[0].id} && queue[0].id !in vehicles
      ensures queue[0].id in insertedAt && insertedAt[queue[0].id] == due[queue[0].id] == queue[0].when
    {
      var first := queue[0];
      LogFire(queue, vehicles.Keys, due, insertedAt, gone);
      assert first in queue;
      QueueIdsAll(queue);
      insertedAt := insertedAt[first.id := first.when];
    }

    /** The simulation ends: all node modules are removed. */
    method TraciClose(ghost now: int)
      requires Valid(now)
      modifies `nodes, `closed
      ensures Valid(now) && closed && nodes == map[] && vehicles == old(vehicles)
    {
      closed := true;
      while nodes != map[]
        modifies `nodes
        decreases nodes.Keys
      {
        assert nodes.Keys != {};
        var id :| id in nodes.Keys;
        nodes := nodes - {id};
      }
    }
  }

  lemma OneMoreGone(gone: set<VehicleId>, present: set<VehicleId>, ids: set<VehicleId>, id: VehicleId)
    ensures present - ids - {id} == present - (ids + {id})
    ensures gone + (ids + {id}) * present ==
      if id in present - ids then gone + ids * present + {id} else gone + ids * present
  {
  }

  lemma NextIsNew(ids: seq<VehicleId>, n: nat)
    requires Distinct(ids) && n < |ids|
    ensures ids[n] in Ids(ids) && ids[n] !in Ids(ids[..n])
    ensures Ids(ids[..n + 1]) == Ids(ids[..n]) + {ids[n]}
  {
    IdsSnoc(ids, n);
    IdsMember(ids, ids[n]);
    IdsMember(ids[..n], ids[n]);
  }
}
