/** The table of stations heard recently, each with its latest cooperative awareness message. */
module Awareness {
  import opened Machine
  import opened TaiTimer

  type StationId = nat

  datatype Cam = Cam(stationId: StationId, generationDeltaTime: int, content: int) {
    ghost predicate Valid() {
      0 <= generationDeltaTime < 0x10000
    }
  }

  datatype Entry = Entry(expiry: int, cam: Cam)

  const LIFETIME: int := 1100 * TICKS_PER_MS

  /** Expiry that a receiver at `now` derives from the 16-bit time stamp of a message. */
  function Expiry(timebase: int, stamp: int, now: int): int {
    var taiNow := (timebase + Truncate(now, TICKS_PER_US)) / 1000;
    var tai := Nearest(taiNow, stamp) * 1000;
    (if tai - timebase < 0 then 0 else (tai - timebase) * TICKS_PER_US) + LIFETIME
  }

  predicate InBounds(expiry: int, now: int) {
    now <= expiry <= now + 2 * LIFETIME
  }

  /** The stamp a sender puts on data of simulation time `g`. */
  function Stamp(timebase: int, g: int): int {
    CountTaiMilliseconds(timebase + Truncate(g, TICKS_PER_US)) % 0x10000
  }

  function FloorMs(t: int): int {
    t / TICKS_PER_MS * TICKS_PER_MS
  }

  lemma WholeMilliseconds(timebase: int, t: int)
    requires timebase % 1000 == 0 && timebase >= 0 && t >= 0
    ensures (timebase + Truncate(t, TICKS_PER_US)) / 1000 == timebase / 1000 + t / TICKS_PER_MS
  {
  }

  /** The stamp is the low 16 bits of the time; the conversion to 64 bits loses none of them. */
  lemma StampCounts(timebase: int, g: int)
    requires timebase % 1000 == 0 && timebase >= 0 && 0 <= g
    ensures Stamp(timebase, g) == (timebase / 1000 + g / TICKS_PER_MS) % 0x10000
  {
    WholeMilliseconds(timebase, g);
    LowBits(timebase / 1000 + g / TICKS_PER_MS);
  }

  lemma LowBits(t: int)
    ensures t % UINT64 % 0x10000 == t % 0x10000
  {
    SameLowBits(t % UINT64, t / UINT64 * 0x1_0000_0000_0000);
  }

  lemma SameLowBits(x: int, k: int)
    ensures (x + k * 0x10000) % 0x10000 == x % 0x10000
  {
  }

  /** The age is seen modulo 65.536 s, as the representative nearest to zero. */
  lemma AgeSeen(now: int, age: nat, stamp: int)
    requires stamp == (now - age) % 0x10000
    ensures var a := age % 0x10000;
      && (a < 0x8000 ==> now - Nearest(now, stamp) == a)
      && (a > 0x8000 ==> now - Nearest(now, stamp) == a - 0x10000)
      && (a == 0x8000 ==> now - Nearest(now, stamp) == a || now - Nearest(now, stamp) == -a)
  {
    StampAhead(now, age, stamp);
  }

  /** How far the stamp is ahead of the current one, modulo 65536. */
  lemma StampAhead(now: int, age: nat, stamp: int)
    requires stamp == (now - age) % 0x10000
    ensures var a := age % 0x10000; (stamp - now) % 0x10000 == if a == 0 then 0 else 0x10000 - a
  {
    var a, q, k := age % 0x10000, age / 0x10000, (now - age) / 0x10000;
    assert now - age == k * 0x10000 + stamp && age == q * 0x10000 + a;
    assert stamp - now == (if a == 0 then 0 else 0x10000 - a) + (if a == 0 then -k - q else -k - q - 1) * 0x10000;
    SameLowBits(if a == 0 then 0 else 0x10000 - a, if a == 0 then -k - q else -k - q - 1);
  }

  /** Is a message accepted whose age in whole milliseconds is `a` modulo 65536, received `rest` into a millisecond? */
  predicate Accepted(a: int, rest: int) {
    a < 1100 || (a == 1100 && rest == 0) || a >= 0x10000 - 1100
  }

  predicate Alive(g: int, now: int) {
    now <= FloorMs(g) + LIFETIME
  }

  /**
   * End to end, with a common time base of whole milliseconds, for data of any age: a message is
   * accepted exactly if its age modulo 65.536 s is within its lifetime, or within the same time of
   * the next repetition of the stamps.
   */
  lemma AcceptedExactly(timebase: int, g: int, now: int)
    requires timebase % 1000 == 0 && timebase >= 0 && 0 <= g <= now
    ensures InBounds(Expiry(timebase, Stamp(timebase, g), now), now) <==>
      Accepted((now / TICKS_PER_MS - g / TICKS_PER_MS) % 0x10000, now % TICKS_PER_MS)
  {
    var base, n := timebase / 1000, now / TICKS_PER_MS;
    var age := n - g / TICKS_PER_MS;
    var t := Nearest(base + n, Stamp(timebase, g));
    StampCounts(timebase, g);
    WholeMilliseconds(timebase, now);
    AgeSeen(base + n, age, Stamp(timebase, g));
    NotBeforeStart(n, age);
    ExpiryFromTai(timebase, Stamp(timebase, g), now, base + n, t);
    BoundsInMilliseconds(now, base + n - t);
  }

  /** Fresh data expires 1100 ms after the millisecond it stems from. */
  lemma ExpiryOfFresh(timebase: int, g: int, now: int)
    requires timebase % 1000 == 0 && timebase >= 0 && 0 <= g <= now
    requires now / 1_000_000_000 - g / 1_000_000_000 < 0x8000
    ensures Expiry(timebase, Stamp(timebase, g), now) == (g / 1_000_000_000 + 1100) * 1_000_000_000
  {
    var base, n := timebase / 1000, now / TICKS_PER_MS;
    var age := n - g / TICKS_PER_MS;
    StampCounts(timebase, g);
    WholeMilliseconds(timebase, now);
    AgeSeen(base + n, age, Stamp(timebase, g));
    ExpiryFromTai(timebase, Stamp(timebase, g), now, base + n, base + n - age);
  }

  lemma NotBeforeStart(n: int, age: int)
    requires 0 <= age <= n
    ensures age % 0x10000 <= n
  {
  }

  lemma ExpiryFromTai(timebase: int, stamp: int, now: int, n: int, t: int)
    requires timebase % 1000 == 0 && timebase / 1000 <= t
    requires n == (timebase + Truncate(now, TICKS_PER_US)) / 1000 && Nearest(n, stamp) == t
    ensures Expiry(timebase, stamp, now) == (t - timebase / 1000) * TICKS_PER_MS + LIFETIME
  {
  }

  lemma BoundsInMilliseconds(now: int, seen: int)
    requires now >= 0
    ensures InBounds((now / TICKS_PER_MS - seen) * TICKS_PER_MS + LIFETIME, now) <==>
      -1100 <= seen < 1100 || (seen == 1100 && now % TICKS_PER_MS == 0)
  {
  }

  /** Acceptance means being alive exactly up to the age at which the stamps start to repeat, and off their repetitions. */
  lemma AcceptedIffAlive(timebase: int, g: int, now: int)
    requires timebase % 1000 == 0 && timebase >= 0 && 0 <= g <= now
    ensures var age := now / TICKS_PER_MS - g / TICKS_PER_MS;
      (InBounds(Expiry(timebase, Stamp(timebase, g), now), now) <==> Alive(g, now)) <==>
      age < 0x10000 - 1100 || !Accepted(age % 0x10000, now % TICKS_PER_MS)
  {
    AcceptedExactly(timebase, g, now);
    AliveInMilliseconds(g, now);
  }

  lemma AliveInMilliseconds(g: int, now: int)
    requires 0 <= g <= now
    ensures var age := now / TICKS_PER_MS - g / TICKS_PER_MS;
      Alive(g, now) <==> age < 1100 || (age == 1100 && now % TICKS_PER_MS == 0)
  {
  }

  /** Data that is 65.536 s old is taken for fresh data. */
  lemma AliasedMessageAccepted(timebase: int, g: int, now: int)
    requires timebase % 1000 == 0 && timebase >= 0 && 0 <= g && now == g + 0x10000 * TICKS_PER_MS
    ensures !Alive(g, now) && InBounds(Expiry(timebase, Stamp(timebase, g), now), now)
  {
    AcceptedExactly(timebase, g, now);
  }

  class LocalDynamicMap {
    const timer: Timer
    var messages: map<StationId, Entry>
    ghost var lastAccepted: map<StationId, Entry>  // per station, over the whole history
    ghost var clock: int

    /** The table misses an accepted message only if that has expired. */
    ghost predicate Valid()
      reads this
    {
      && (forall s :: s in messages ==> s in lastAccepted && messages[s] == lastAccepted[s])
      && (forall s :: s in lastAccepted && s !in messages ==> lastAccepted[s].expiry < clock)
      && (forall s :: s in messages ==> messages[s].cam.stationId == s)
    }

    constructor (timer: Timer, now: int)
      ensures Valid() && this.timer == timer && messages == map[] && lastAccepted == map[] && clock == now
    {
      this.timer := timer;
      messages, lastAccepted, clock := map[], map[], now;
    }

    method UpdateAwareness(cam: Cam, now: int) returns (accepted: bool)
      requires Valid() && clock <= now && cam.Valid()
      requires 0 <= timer.TimeFor(now) < TAI_LIMIT
      modifies this
      ensures Valid() && clock == now
      ensures accepted <==> InBounds(Expiry(timer.timebase, cam.generationDeltaTime, now), now)
      ensures accepted ==> var entry := Entry(Expiry(timer.timebase, cam.generationDeltaTime, now), cam);
        && messages == old(messages)[cam.stationId := entry]
        && lastAccepted == old(lastAccepted)[cam.stationId := entry]
      ensures !accepted ==> messages == old(messages) && lastAccepted == old(lastAccepted)
    {
      var tai, ok := timer.ReconstructMilliseconds(cam.generationDeltaTime, now);
      var expiry := timer.SimTimeFor(tai) + LIFETIME;
      clock := now;
      if expiry < now || expiry > now + 2 * LIFETIME {
        return false;
      }
      messages := messages[cam.stationId := Entry(expiry, cam)];
      lastAccepted := lastAccepted[cam.stationId := Entry(expiry, cam)];
      accepted := true;
    }

    /** Afterwards the table holds exactly the last accepted messages that are still alive. */
    method DropExpired(now: int)
      requires Valid() && clock <= now
      modifies this
      ensures Valid() && clock == now && lastAccepted == old(lastAccepted)
      ensures forall s :: s in messages <==> s in lastAccepted && lastAccepted[s].expiry >= now
      ensures forall s :: s in messages ==> messages[s] == lastAccepted[s]
    {
      var rest := messages.Keys;
      while rest != {}
        invariant rest <= messages.Keys <= old(messages.Keys) && lastAccepted == old(lastAccepted) && clock == old(clock)
        invariant forall s :: s in messages ==> messages[s] == old(messages)[s]
        invariant forall s :: s in old(messages) ==> (s in messages <==> s in rest || old(messages)[s].expiry >= now)
        decreases rest
      {
        var s :| s in rest;
        if messages[s].expiry < now {
          messages := messages - {s};
        }
        rest := rest - {s};
      }
      clock := now;
    }

    /** Number of stations whose message satisfies the predicate. */
    method CountMatching(p: Cam -> bool) returns (n: nat)
      ensures n == |set s | s in messages && p(messages[s].cam)|
    {
      n := 0;
      var rest := messages.Keys;
      ghost var counted: set<StationId> := {};
      while rest != {}
        invariant rest <= messages.Keys && n == |counted|
        invariant counted == set s | s in messages && s !in rest && p(messages[s].cam)
        decreases rest
      {
        var s :| s in rest;
        if p(messages[s].cam) {
          n := n + 1;
          counted := counted + {s};
        }
        rest := rest - {s};
      }
      assert counted == set s | s in messages && p(messages[s].cam);
    }
  }

  /** A station with the given time base receives one message about data of time g. */
  method ReceiveOne(timebase: int, g: int, now: int) returns (accepted: bool)
    requires timebase % 1000 == 0 && timebase >= 0 && 0 <= g <= now
    requires timebase + Truncate(now, TICKS_PER_US) < TAI_LIMIT
    ensures accepted <==> Accepted((now / TICKS_PER_MS - g / TICKS_PER_MS) % 0x10000, now % TICKS_PER_MS)
    ensures var age := (now / 1_000_000_000 - g / 1_000_000_000) % 65536;
      accepted <==> age < 1100 || (age == 1100 && now % 1_000_000_000 == 0) || age >= 65536 - 1100
  {
    var timer := new Timer();
    timer.SetTimebase(timebase);
    var ldm := new LocalDynamicMap(timer, now);
    AcceptedExactly(timebase, g, now);
    accepted := ldm.UpdateAwareness(Cam(1, Stamp(timebase, g), 0), now);
  }
}
