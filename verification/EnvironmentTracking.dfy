/** Which objects the local sensors currently see, with detections that age per sensor. */
module EnvironmentTracking {

  type ObjectId = nat
  type SensorId = nat

  datatype TrackingTime = TrackingTime(first: int, last: int)

  type Tracking = map<SensorId, TrackingTime>

  /** A repeated detection moves the last time only, a first one starts a new entry. */
  function Tapped(tracking: Tracking, sensor: SensorId, now: int): Tracking {
    if sensor in tracking then tracking[sensor := tracking[sensor].(last := now)]
    else tracking[sensor := TrackingTime(now, now)]
  }

  function TapOne(objects: map<ObjectId, Tracking>, o: ObjectId, sensor: SensorId, now: int): map<ObjectId, Tracking> {
    objects[o := Tapped(if o in objects then objects[o] else map[], sensor, now)]
  }

  function TapAll(objects: map<ObjectId, Tracking>, detected: seq<ObjectId>, sensor: SensorId, now: int): map<ObjectId, Tracking> {
    if detected == [] then objects
    else TapOne(TapAll(objects, detected[..|detected| - 1], sensor, now), detected[|detected| - 1], sensor, now)
  }

  /** However often an object occurs in one detection, it is tapped once; all other objects are untouched. */
  lemma {:induction false} TapAllEntries(objects: map<ObjectId, Tracking>, detected: seq<ObjectId>, sensor: SensorId, now: int)
    ensures var after := TapAll(objects, detected, sensor, now);
      && (forall o :: o in after <==> o in objects || o in detected)
      && (forall o :: o in objects && o !in detected ==> after[o] == objects[o])
      && (forall o :: o in detected ==> after[o] == Tapped(if o in objects then objects[o] else map[], sensor, now))
  {
    if detected != [] {
      var m := |detected| - 1;
      TapAllEntries(objects, detected[..m], sensor, now);
      assert detected == detected[..m] + [detected[m]];
    }
  }

  /** Detected objects keep their first time and get the last one, all other entries stay. */
  ghost predicate Refreshed(before: map<ObjectId, Tracking>, after: map<ObjectId, Tracking>, detected: seq<ObjectId>,
                            sensor: SensorId, now: int) {
    && (forall o :: o in detected ==>
          && o in after && sensor in after[o] && after[o][sensor].last == now
          && after[o][sensor].first == if o in before && sensor in before[o] then before[o][sensor].first else now)
    && (forall o, s :: o in before && s in before[o] && (o !in detected || s != sensor) ==>
          o in after && s in after[o] && after[o][s] == before[o][s])
  }

  lemma TapAllRefreshes(objects: map<ObjectId, Tracking>, detected: seq<ObjectId>, sensor: SensorId, now: int)
    ensures Refreshed(objects, TapAll(objects, detected, sensor, now), detected, sensor, now)
  {
    TapAllEntries(objects, detected, sensor, now);
  }

  /** Some sensor's latest detection is still valid. */
  ghost predicate SomeFresh(tracking: Tracking, validity: SensorId -> int, now: int) {
    exists s :: s in tracking && now <= tracking[s].last + validity(s)
  }

  /** `kept` has exactly the entries whose detection is still valid. */
  ghost predicate IsPruned(kept: Tracking, tracking: Tracking, validity: SensorId -> int, now: int) {
    && (forall s :: s in kept <==> s in tracking && now <= tracking[s].last + validity(s))
    && (forall s :: s in kept ==> kept[s] == tracking[s])
  }

  /** Forgets the sensors whose latest detection is too old. */
  method PruneSensors(tracking: Tracking, validity: SensorId -> int, now: int) returns (kept: Tracking)
    ensures IsPruned(kept, tracking, validity, now)
    ensures kept != map[] <==> SomeFresh(tracking, validity, now)
  {
    kept := tracking;
    var rest := tracking.Keys;
    while rest != {}
      invariant rest <= tracking.Keys
      invariant forall s :: s in kept <==> s in tracking && (s in rest || now <= tracking[s].last + validity(s))
      invariant forall s :: s in kept ==> kept[s] == tracking[s]
      decreases rest
    {
      var s :| s in rest;
      if tracking[s].last + validity(s) < now {
        kept := kept - {s};
      }
      rest := rest - {s};
    }
  }

  /** The latest detection of each object by each sensor. */
  type Detections = map<(ObjectId, SensorId), int>

  /** What is tracked stems from the latest detection; what is not has aged out or is dead. */
  ghost predicate Consistent(objects: map<ObjectId, Tracking>, detections: Detections, dead: set<ObjectId>,
                             validity: SensorId -> int, clock: int) {
    && (forall o, s :: o in objects && s in objects[o] ==>
          (o, s) in detections && objects[o][s].first <= objects[o][s].last == detections[(o, s)] <= clock)
    && (forall o, s :: (o, s) in detections ==>
          (o in objects && s in objects[o]) || o in dead || detections[(o, s)] + validity(s) < clock)
  }

  /** The sensor's latest detection of the object is not too old. */
  ghost predicate FreshAt(o: ObjectId, s: SensorId, detections: Detections, validity: SensorId -> int, now: int) {
    (o, s) in detections && now <= detections[(o, s)] + validity(s)
  }

  /** Tracked are exactly the live objects that some sensor still sees, by exactly those sensors. */
  ghost predicate TrackedExactly(objects: map<ObjectId, Tracking>, detections: Detections, dead: set<ObjectId>,
                                 validity: SensorId -> int, now: int) {
    && (forall o :: o in objects <==> o !in dead && exists s :: FreshAt(o, s, detections, validity, now))
    && (forall o, s :: o in objects ==> (s in objects[o] <==> FreshAt(o, s, detections, validity, now)))
  }

  /** `after` is what pruning leaves of `before`. */
  ghost predicate Erased(before: map<ObjectId, Tracking>, after: map<ObjectId, Tracking>, expired: set<ObjectId>,
                         validity: SensorId -> int, now: int) {
    && (forall o :: o in after <==> o in before && o !in expired && SomeFresh(before[o], validity, now))
    && (forall o :: o in after ==> IsPruned(after[o], before[o], validity, now))
  }

  lemma ErasedEntry(before: map<ObjectId, Tracking>, after: map<ObjectId, Tracking>, detections: Detections,
                    dead: set<ObjectId>, expired: set<ObjectId>, validity: SensorId -> int, clock: int, now: int,
                    o: ObjectId, s: SensorId)
    requires Consistent(before, detections, dead, validity, clock) && clock <= now && dead <= expired
    requires Erased(before, after, expired, validity, now)
    ensures o in after && s in after[o] <==> o !in expired && FreshAt(o, s, detections, validity, now)
  {
    if o !in expired && FreshAt(o, s, detections, validity, now) {
      assert o in before && s in before[o];
    }
  }

  lemma ErasedTracked(before: map<ObjectId, Tracking>, after: map<ObjectId, Tracking>, detections: Detections,
                      dead: set<ObjectId>, expired: set<ObjectId>, validity: SensorId -> int, clock: int, now: int)
    requires Consistent(before, detections, dead, validity, clock) && clock <= now && dead <= expired
    requires Erased(before, after, expired, validity, now)
    ensures Consistent(after, detections, expired, validity, now)
    ensures TrackedExactly(after, detections, expired, validity, now)
  {
    forall o, s ensures o in after && s in after[o] <==> o !in expired && FreshAt(o, s, detections, validity, now) {
      ErasedEntry(before, after, detections, dead, expired, validity, clock, now, o, s);
    }
    forall o | o in after ensures exists s :: FreshAt(o, s, detections, validity, now) {
      var s :| s in before[o] && now <= before[o][s].last + validity(s);
      assert s in after[o];
    }
  }

  class LocalEnvironmentModel {
    const validity: SensorId -> int  // validity period of each sensor
    var objects: map<ObjectId, Tracking>
    ghost var detections: Detections  // latest detection over the whole history
    ghost var dead: set<ObjectId>  // objects known not to exist any more
    ghost var clock: int

    ghost predicate Valid()
      reads this
    {
      Consistent(objects, detections, dead, validity, clock)
    }

    constructor (validity: SensorId -> int, now: int)
      ensures Valid() && this.validity == validity && objects == map[] && detections == map[] && clock == now
    {
      this.validity := validity;
      objects, detections, dead, clock := map[], map[], {}, now;
    }

    /** A sensor reports the objects that it detects at `now`. */
    method ComplementObjects(detected: seq<ObjectId>, sensor: SensorId, now: int)
      requires Valid() && clock <= now && forall o :: o in detected ==> o !in dead
      modifies `objects, `detections, `clock
      ensures Valid() && clock == now
      ensures forall o, s :: (o, s) in detections <==> (o, s) in old(detections) || (o in detected && s == sensor)
      ensures forall o, s :: (o, s) in detections ==>
        detections[(o, s)] == if o in detected && s == sensor then now else old(detections)[(o, s)]
      ensures objects == TapAll(old(objects), detected, sensor, now)
      ensures Refreshed(old(objects), objects, detected, sensor, now)
    {
      clock := now;
      for n := 0 to |detected|
        invariant Valid() && clock == now
        invariant forall o, s :: (o, s) in detections <==> (o, s) in old(detections) || (o in detected[..n] && s == sensor)
        invariant forall o, s :: (o, s) in detections ==>
          detections[(o, s)] == if o in detected[..n] && s == sensor then now else old(detections)[(o, s)]
        invariant objects == TapAll(old(objects), detected[..n], sensor, now)
      {
        assert detected[..n + 1] == detected[..n] + [detected[n]] && detected[..n + 1][..n] == detected[..n];
        Tap(detected[n], sensor, now);
      }
      assert detected[..|detected|] == detected;
      TapAllRefreshes(old(objects), detected, sensor, now);
    }

    /** Starts or refreshes the tracking of one object by one sensor. */
    method Tap(o: ObjectId, sensor: SensorId, now: int)
      requires Valid() && clock == now
      modifies `objects, `detections
      ensures Valid() && detections == old(detections)[(o, sensor) := now]
      ensures objects == TapOne(old(objects), o, sensor, now)
      ensures o in objects && sensor in objects[o] && objects[o][sensor].last == now
      ensures objects[o][sensor].first ==
        if o in old(objects) && sensor in old(objects)[o] then old(objects)[o][sensor].first else now
      ensures forall x, s :: x in objects && s in objects[x] && (x, s) != (o, sensor) ==>
        x in old(objects) && s in old(objects)[x] && objects[x][s] == old(objects)[x][s]
    {
      if o in objects {
        objects := objects[o := Tapped(objects[o], sensor, now)];
      } else {
        objects := objects[o := map[sensor := TrackingTime(now, now)]];
      }
      detections := detections[(o, sensor) := now];
    }

    /**
     * Removes what has expired: afterwards an object is tracked exactly if it still exists and some
     * sensor's latest detection of it is still valid, and it is tracked by exactly those sensors.
     */
    method Update(now: int, expired: set<ObjectId>)
      requires Valid() && clock <= now && dead <= expired
      modifies `objects, `dead, `clock
      ensures Valid() && clock == now && dead == expired
      ensures TrackedExactly(objects, detections, expired, validity, now)
      ensures forall o :: o in objects ==> o in old(objects) && IsPruned(objects[o], old(objects)[o], validity, now)
    {
      ghost var before := objects;
      EraseExpired(now, expired);
      ErasedTracked(before, objects, detections, dead, expired, validity, clock, now);
      clock, dead := now, expired;
    }

    method EraseExpired(now: int, expired: set<ObjectId>)
      modifies `objects
      ensures Erased(old(objects), objects, expired, validity, now)
    {
      ghost var before: map<ObjectId, Tracking> := objects;
      var rest := objects.Keys;
      while rest != {}
        invariant rest <= objects.Keys <= before.Keys
        invariant forall o :: o in rest ==> objects[o] == before[o]
        invariant forall o :: o in before.Keys - rest ==>
          (o in objects <==> o !in expired && SomeFresh(before[o], validity, now))
        invariant forall o :: o in objects.Keys - rest ==> IsPruned(objects[o], before[o], validity, now)
        decreases rest
      {
        var o :| o in rest;
        var tracking := PruneSensors(objects[o], validity, now);
        objects := objects[o := tracking];
        if o in expired || tracking == map[] {
          objects := objects - {o};
        }
        rest := rest - {o};
      }
    }
  }
}
