/** Simulation time, TAI time, and 16-bit millisecond time stamps. */
module TaiTimer {
  import opened Machine

  // TAI time points count microseconds
  /** Times, in microseconds, for which half a stamp period more still fits into 64 bits. */
  const TAI_LIMIT: int := INT64_LIMIT - 0x8000 * 1000

  function CountTaiMilliseconds(tai: int): int {
    Truncate(tai, 1000) % UINT64
  }

  // ---- what reconstruction is for ----

  /** The time closest to `now` that has the given low 16 bits; the tie is broken as the code does. */
  function Nearest(now: int, ms: int): int {
    var ahead := (ms - now) % 0x10000;
    if ahead < 0x8000 then now + ahead
    else if ahead > 0x8000 then now + ahead - 0x10000
    else if ms <= now % 0x10000 then now + 0x8000
    else now - 0x8000
  }

  lemma NearestIsClose(now: int, ms: int)
    requires 0 <= ms < 0x10000
    ensures Nearest(now, ms) % 0x10000 == ms
    ensures now - 0x8000 <= Nearest(now, ms) <= now + 0x8000
    ensures (ms - now) % 0x10000 != 0x8000 ==> now - 0x7fff <= Nearest(now, ms) <= now + 0x7fff
  {
    var turns := (ms - now) / 0x10000;
    assert now + (ms - now) % 0x10000 == ms - turns * 0x10000;
    SameStamp(ms, -turns);
    SameStamp(ms, -turns - 1);
  }

  lemma SameStamp(ms: int, turns: int)
    requires 0 <= ms < 0x10000
    ensures (ms + turns * 0x10000) % 0x10000 == ms
  {
  }

  /** Truncating a time to 16 bits and reconstructing it near that time gives it back. */
  lemma RoundTrip(now: int, t: int)
    requires now - 0x7fff <= t <= now + 0x7fff
    ensures Nearest(now, t % 0x10000) == t
  {
  }

  /** The three branches of the code, on the time stamp spliced into the current time. */
  lemma NearestByBranches(now: int, ms: int, spliced: int)
    requires 0 <= ms < 0x10000 && spliced == now - now % 0x10000 + ms
    ensures Nearest(now, ms) ==
      if now > spliced + 0x7fff then spliced + 0x10000
      else if now + 0x7fff < spliced then spliced - 0x10000
      else spliced
    ensures (ms - now) % 0x10000 == 0x8000 <==> now - spliced == 0x8000 || spliced - now == 0x8000
  {
  }

  /** Wrapping to 64 bits and converting to signed loses nothing for values in the signed range. */
  lemma WrapsBack(x: int, a: int)
    requires -INT64_LIMIT <= x < INT64_LIMIT
    ensures ToSigned(x % UINT64) == x
    ensures 0 <= a - x < UINT64 ==> (a - x % UINT64) % UINT64 == a - x
    ensures 0 <= x - a < UINT64 ==> (x % UINT64 - a) % UINT64 == x - a
  {
  }

  /**
   * 64-bit unsigned arithmetic, including the wrap-around below zero that the conversion back to a signed
   * time undoes. The two assertions of the code fail exactly at the antipodal stamp.
   */
  method Reconstruct(taiNow: int, ms: int) returns (rec: int, assertionsHold: bool)
    requires 0 <= ms < 0x10000 && 0 <= taiNow <= TAI_LIMIT / 1000
    ensures ToSigned(rec) == Nearest(taiNow, ms)
    ensures assertionsHold <==> (ms - taiNow) % 0x10000 != 0x8000
  {
    var spliced := taiNow - taiNow % 0x10000 + ms;
    NearestByBranches(taiNow, ms, spliced);
    rec := spliced;
    assertionsHold := true;
    if taiNow > rec + 0x7fff {
      WrapsBack(spliced + 0x10000, taiNow);
      rec := (rec + 0x10000) % UINT64;
      assertionsHold := (rec - taiNow) % UINT64 <= 0x7fff;
    } else if taiNow + 0x7fff < rec {
      WrapsBack(spliced - 0x10000, taiNow);
      rec := (rec - 0x10000) % UINT64;
      assertionsHold := (taiNow - rec) % UINT64 <= 0x7fff;
    }
  }

  class Timer {
    var timebase: int  // TAI microseconds at simulation time zero

    constructor ()
      ensures timebase == 0
    {
      timebase := 0;
    }

    method SetTimebase(tai: int)
      modifies this
      ensures timebase == tai
    {
      timebase := tai;
    }

    function TimeFor(simtime: int): int
      reads this
    {
      timebase + Truncate(simtime, TICKS_PER_US)
    }

    /** Times before the time base count as simulation time zero. */
    function SimTimeFor(tai: int): int
      reads this
    {
      if tai - timebase < 0 then 0 else (tai - timebase) * TICKS_PER_US
    }

    /** The time nearest to the current one that has the given stamp, to the millisecond. */
    method ReconstructMilliseconds(ms: int, simNow: int) returns (tai: int, assertionsHold: bool)
      requires 0 <= ms < 0x10000
      requires 0 <= TimeFor(simNow) < TAI_LIMIT
      ensures tai == Nearest(TimeFor(simNow) / 1000, ms) * 1000
      ensures -INT64_LIMIT <= tai < INT64_LIMIT
      ensures assertionsHold <==> (ms - TimeFor(simNow) / 1000) % 0x10000 != 0x8000
    {
      var taiNow := CountTaiMilliseconds(TimeFor(simNow));
      assert taiNow == TimeFor(simNow) / 1000;
      var rec, ok := Reconstruct(taiNow, ms);
      NearestIsClose(taiNow, ms);
      return ToSigned(rec) * 1000, ok;
    }
  }
}
