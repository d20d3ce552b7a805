/** Bounded buffers of time-stamped samples, and a sampler that skips samples coming too early. */
module Sampling {

  datatype Sample<T> = Sample(value: T, timestamp: int)

  /** Each sample is at least `gap` newer than the one behind it; newest first. */
  ghost predicate Spaced<T>(s: seq<Sample<T>>, gap: int) {
    forall i, j :: 0 <= i < j < |s| ==> s[i].timestamp - s[j].timestamp >= gap
  }

  /** The first n samples of a newest-first sequence, or all of it. */
  function Newest<T>(s: seq<Sample<T>>, n: nat): seq<Sample<T>> {
    if |s| <= n then s else s[..n]
  }

  class SampleBuffer<T> {
    var samples: seq<Sample<T>>  // newest first
    var capacity: nat

    ghost predicate Valid()
      reads this
    {
      |samples| <= capacity && Spaced(samples, 1)
    }

    constructor ()
      ensures Valid() && samples == [] && capacity == 0
    {
      samples, capacity := [], 0;
    }

    /** Shrinking drops the oldest samples. */
    method SetCapacity(n: nat)
      requires Valid()
      modifies this
      ensures Valid() && capacity == n
      ensures samples == Newest(old(samples), n)
      ensures samples <= old(samples) && |samples| == if |old(samples)| <= n then |old(samples)| else n
      ensures forall i, j :: 0 <= i < |samples| <= j < |old(samples)| ==> samples[i].timestamp > old(samples)[j].timestamp
    {
      capacity := n;
      if |samples| > n {
        samples := samples[..n];
      }
    }

    method Clear()
      modifies this`samples
      ensures samples == []
    {
      samples := [];
    }

    /** A sample that is not newer than the latest one is a violation of chronology. */
    method Insert(value: T, timestamp: int) returns (violated: bool)
      requires Valid()
      modifies this`samples
      ensures Valid()
      ensures violated <==> old(samples) != [] && timestamp <= old(samples)[0].timestamp
      ensures violated ==> samples == old(samples)
      ensures !violated ==> samples == Newest([Sample(value, timestamp)] + old(samples), capacity)
      ensures !violated ==> var all := [Sample(value, timestamp)] + old(samples);
        && |samples| == (if |all| <= capacity then |all| else capacity) && samples <= all
        && forall i, j :: 0 <= i < |samples| <= j < |all| ==> samples[i].timestamp > all[j].timestamp
    {
      violated := false;
      if samples == [] || samples[0].timestamp < timestamp {
        samples := Newest([Sample(value, timestamp)] + samples, capacity);
      } else {
        violated := true;
      }
    }

    /** Binary search: the returned prefix is exactly the samples strictly newer than the limit. */
    method NotBefore(limit: int) returns (range: seq<Sample<T>>)
      requires Valid()
      ensures range <= samples
      ensures forall i :: 0 <= i < |samples| ==> (samples[i].timestamp > limit <==> i < |range|)
    {
      var lo, hi := 0, |samples|;
      while lo < hi
        invariant 0 <= lo <= hi <= |samples|
        invariant forall i :: 0 <= i < lo ==> samples[i].timestamp > limit
        invariant forall i :: hi <= i < |samples| ==> samples[i].timestamp <= limit
      {
        var mid := (lo + hi) / 2;
        if samples[mid].timestamp > limit {
          lo := mid + 1;
        } else {
          hi := mid;
        }
      }
      range := samples[..lo];
    }
  }

  /** Time covered by a range of samples. */
  function Duration<T>(range: seq<Sample<T>>): int {
    if |range| >= 2 then range[0].timestamp - range[|range| - 1].timestamp else 0
  }

  /** n samples at least `gap` apart cover at least n - 1 gaps. */
  lemma {:induction false} DurationAtLeast<T>(range: seq<Sample<T>>, gap: int)
    requires range != [] && gap >= 0 && Spaced(range, gap)
    ensures Duration(range) >= (|range| - 1) * gap
  {
    if |range| > 1 {
      DurationAtLeast(range[1..], gap);
      assert (|range| - 1) * gap == (|range[1..]| - 1) * gap + gap;
    }
  }

  /** The time covered is the largest distance of two samples in the range. */
  lemma DurationSpans<T>(range: seq<Sample<T>>)
    requires range != [] && Spaced(range, 0)
    ensures forall i, j :: 0 <= i < |range| && 0 <= j < |range| ==> range[i].timestamp - range[j].timestamp <= Duration(range)
    ensures exists i, j :: 0 <= i < |range| && 0 <= j < |range| && range[i].timestamp - range[j].timestamp == Duration(range)
  {
    assert range[0].timestamp - range[|range| - 1].timestamp == Duration(range);
    forall i, j | 0 <= i < |range| && 0 <= j < |range|
      ensures range[i].timestamp - range[j].timestamp <= Duration(range)
    {
      assert i > 0 ==> range[0].timestamp - range[i].timestamp >= 0;
      assert j < |range| - 1 ==> range[j].timestamp - range[|range| - 1].timestamp >= 0;
    }
  }

  class SkipEarlySampler<T> {
    const buffer: SampleBuffer<T>
    var interval: int
    var duration: int

    /** Samples in the buffer keep the interval; without an interval there is no room for any. */
    ghost predicate Valid()
      reads this, buffer
    {
      && buffer.Valid() && interval >= 0 && duration >= 0
      && Spaced(buffer.samples, interval)
      && (interval == 0 ==> buffer.capacity == 0)
    }

    constructor ()
      ensures Valid() && fresh(buffer) && interval == 0 && duration == 0
    {
      buffer := new SampleBuffer<T>();
      interval, duration := 0, 0;
    }

    method SetDuration(d: int)
      requires Valid()
      modifies this`duration, buffer
      ensures Valid() && duration == (if d > 0 then d else 0) && CapacityFits()
      ensures buffer.samples == Newest(old(buffer.samples), buffer.capacity)
    {
      duration := if d > 0 then d else 0;
      SetCapacity();
    }

    /** A different interval starts over with an empty buffer. */
    method SetInterval(i: int)
      requires Valid()
      modifies this`interval, buffer
      ensures Valid() && interval == (if i > 0 then i else 0) && CapacityFits()
      ensures i != old(interval) ==> buffer.samples == []
      ensures i == old(interval) ==> buffer.samples == Newest(old(buffer.samples), buffer.capacity)
    {
      if interval != i {
        buffer.Clear();
      }
      interval := if i > 0 then i else 0;
      SetCapacity();
    }

    /** The capacity is the least that covers the duration; without an interval it is zero. */
    ghost predicate CapacityFits()
      reads this, buffer
    {
      if interval == 0 then buffer.capacity == 0
      else (buffer.capacity - 1) * interval < duration <= buffer.capacity * interval
    }

    /** As many samples as it takes to cover the duration, rounded up. */
    method SetCapacity()
      requires buffer.Valid() && interval >= 0 && duration >= 0 && Spaced(buffer.samples, interval)
      modifies buffer
      ensures Valid() && CapacityFits()
      ensures interval == 0 ==> buffer.capacity == 0
      ensures interval > 0 ==> (buffer.capacity - 1) * interval < duration <= buffer.capacity * interval
      ensures buffer.samples == Newest(old(buffer.samples), buffer.capacity)
    {
      var n := 0;
      if interval != 0 {
        n := (duration + interval - 1) / interval;
        CeilingDivision(duration, interval);
      }
      buffer.SetCapacity(n);
    }

    function Offset(now: int): int
      reads this, buffer
    {
      if buffer.samples == [] then 0 else now - (buffer.samples[0].timestamp + interval)
    }

    /** Early samples are skipped, all others are stored; chronology is never violated. */
    method Feed(value: T, timestamp: int) returns (violated: bool)
      requires Valid()
      modifies buffer`samples
      ensures Valid() && !violated
      ensures var early := old(buffer.samples) != [] && timestamp - old(buffer.samples)[0].timestamp < interval;
        && (early ==> buffer.samples == old(buffer.samples))
        && (!early && buffer.capacity > 0 ==>
            && buffer.samples != [] && buffer.samples[0] == Sample(value, timestamp)
            && buffer.samples[1..] <= old(buffer.samples))
      ensures old(Offset(timestamp)) < 0 ==> buffer.samples == old(buffer.samples)
      ensures old(Offset(timestamp)) >= 0 ==>
        buffer.samples == Newest([Sample(value, timestamp)] + old(buffer.samples), buffer.capacity)
    {
      violated := false;
      if Offset(timestamp) >= 0 {
        violated := buffer.Insert(value, timestamp);
      }
    }
  }

  lemma CeilingDivision(d: int, i: int)
    requires d >= 0 && i > 0
    ensures var n := (d + i - 1) / i;
      n >= 0 && (n - 1) * i < d <= n * i
  {
    var x := d + i - 1;
    assert x == (x / i) * i + x % i;
  }
}
