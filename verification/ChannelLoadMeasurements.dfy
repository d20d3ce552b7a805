/** Channel load over a ring of the newest 12500 samples. */
module ChannelLoadRing {
  import opened Machine
  import opened ChannelSamples

  class ChannelLoadMeasurements {
    var samples: seq<bool>  // oldest first, at most WINDOW entries
    var lastUpdate: int
    var busy: bool
    ghost var stream: seq<bool>  // all samples since construction or the last reset, oldest first

    ghost predicate Valid()
      reads this
    {
      samples == Tail(stream)
    }

    constructor ()
      ensures Valid() && stream == [] && !busy && lastUpdate == 0
    {
      samples, lastUpdate, busy, stream := [], 0, false, [];
    }

    method Reset(now: int)
      modifies this
      ensures Valid() && stream == [] && !busy && lastUpdate == now
    {
      samples, lastUpdate, busy, stream := [], now, false, [];
    }

    method Busy(now: int)
      requires Valid() && lastUpdate <= now
      modifies this
      ensures Valid() && busy && lastUpdate == now
      ensures stream == old(stream) + Repeat((now - old(lastUpdate)) / SYMBOL, old(busy))
    {
      Fill(true, now);
    }

    method Idle(now: int)
      requires Valid() && lastUpdate <= now
      modifies this
      ensures Valid() && !busy && lastUpdate == now
      ensures stream == old(stream) + Repeat((now - old(lastUpdate)) / SYMBOL, old(busy))
    {
      Fill(false, now);
    }

    method Fill(nowBusy: bool, now: int)
      requires Valid() && lastUpdate <= now
      modifies this
      ensures Valid() && busy == nowBusy && lastUpdate == now
      ensures stream == old(stream) + Repeat((now - old(lastUpdate)) / SYMBOL, old(busy))
    {
      var n := (now - lastUpdate) / SYMBOL;
      for i := 0 to n
        invariant Valid() && busy == old(busy)
        invariant stream == old(stream) + Repeat(i, busy)
      {
        PushBack(busy);
        assert Repeat(i + 1, busy) == Repeat(i, busy) + [busy];
      }
      busy := nowBusy;
      lastUpdate := now;
    }

    /** Ring insertion: a full ring drops its oldest sample. */
    method PushBack(sample: bool)
      requires Valid()
      modifies this`samples, this`stream
      ensures Valid() && stream == old(stream) + [sample]
    {
      samples := if |samples| == WINDOW then samples[1..] + [sample] else samples + [sample];
      stream := stream + [sample];
    }

    /** The share of busy samples among the newest 12500, missing ones counting as idle. */
    method ChannelLoad(now: int) returns (load: real)
      requires Valid() && lastUpdate <= now
      modifies this
      ensures Valid() && busy == old(busy) && lastUpdate == now
      ensures stream == old(stream) + Repeat((now - old(lastUpdate)) / SYMBOL, old(busy))
      ensures load == Count(Tail(stream)) as real / WINDOW as real
      ensures 0.0 <= load <= 1.0
    {
      Fill(busy, now);
      var count := 0;
      assert samples[0..] == samples;
      for i := 0 to |samples|
        invariant count + Count(samples[i..]) == Count(samples)
      {
        assert samples[i..][1..] == samples[i + 1..];
        if samples[i] {
          count := count + 1;
        }
      }
      CountAtMost(samples);
      load := count as real / WINDOW as real;
    }
  }

  /** A medium that is busy for 100 ms is a fully loaded channel. */
  method FullyLoaded(start: int) returns (load: real)
    ensures load == 1.0
  {
    var meter := new ChannelLoadMeasurements();
    meter.Reset(start);
    meter.Busy(start);
    ghost var before := meter.stream;
    assert before == [];
    load := meter.ChannelLoad(start + 100 * TICKS_PER_MS);
    SymbolsElapsed(start, start + 100 * TICKS_PER_MS);
    FullTail(before, meter.stream);
  }

  lemma SymbolsElapsed(start: int, now: int)
    requires now == start + 100 * TICKS_PER_MS
    ensures (now - start) / SYMBOL == WINDOW
  {
    WindowLasts();
  }

  lemma FullTail(before: seq<bool>, stream: seq<bool>)
    requires before == [] && stream == before + Repeat(WINDOW, true)
    ensures Count(Tail(stream)) == WINDOW
  {
    CountRepeat(WINDOW, true);
    assert stream == Repeat(WINDOW, true);
  }
}
