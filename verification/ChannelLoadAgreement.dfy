/** When the run-length receiver and the sample ring report the same channel load. */
module ChannelLoadAgreement {
  import opened ChannelSamples
  import opened ChannelLoadScan
  import opened ChannelLoadReceiver
  import opened ChannelLoadRing

  /** The receiver's history is exactly the ring's stream, behind which lies the initial idle window. */
  ghost predicate SameSamples(history: seq<bool>, stream: seq<bool>) {
    history == Reverse(stream) + Repeat(WINDOW, false)
  }

  /** Recording the same samples in both meters keeps them in step. */
  lemma SameSamplesKept(history: seq<bool>, stream: seq<bool>, n: nat, busy: bool)
    requires SameSamples(history, stream)
    ensures SameSamples(Repeat(n, busy) + history, stream + Repeat(n, busy))
  {
    ReverseConcat(stream, Repeat(n, busy));
    ReverseRepeat(n, busy);
    assert Repeat(n, busy) + (Reverse(stream) + Repeat(WINDOW, false))
        == (Repeat(n, busy) + Reverse(stream)) + Repeat(WINDOW, false);
  }

  /** Before its first report the receiver counts what the ring counts. */
  lemma MetersAgree(receiver: VanetRx, ring: ChannelLoadMeasurements)
    requires receiver.Valid() && ring.Valid() && receiver.fits && !receiver.everReported
    requires SameSamples(receiver.history, ring.stream)
    ensures ScanRuns(receiver.runs, 0, 0).busy == Count(ring.samples)
  {
    ScanExact(receiver.runs, 0, 0);
    WindowsAgree(ring.stream);
  }

  // ---- sampling of the same medium ----

  /** The medium turns busy or idle at a point in time. */
  datatype Switch = Switch(time: int, busy: bool)

  /** Samples of the receiver, oldest first: the clock only advances by whole recorded gaps. */
  function ReceiverStream(switches: seq<Switch>, last: int, busy: bool): seq<bool> {
    if switches == [] then []
    else
      var gap := switches[0].time - last;
      if gap >= SYMBOL then
        Repeat(gap / SYMBOL, busy) + ReceiverStream(switches[1..], switches[0].time, switches[0].busy)
      else ReceiverStream(switches[1..], last, switches[0].busy)
  }

  /** Samples of the ring, oldest first: the clock advances at every switch. */
  function RingStream(switches: seq<Switch>, last: int, busy: bool): seq<bool> {
    if switches == [] then []
    else
      var gap := switches[0].time - last;
      (if gap >= 0 then Repeat(gap / SYMBOL, busy) else []) + RingStream(switches[1..], switches[0].time, switches[0].busy)
  }

  ghost predicate Ordered(switches: seq<Switch>, from: int) {
    switches == [] || (from <= switches[0].time && Ordered(switches[1..], switches[0].time))
  }

  /**
   * What the gaps between switches leave of a symbol stays below one symbol: the rest of each gap together
   * with the burst of shorter gaps right before it.
   */
  ghost predicate RestsFit(switches: seq<Switch>, previous: int, burst: int) {
    switches == [] ||
    var gap := switches[0].time - previous;
    gap % SYMBOL + burst < SYMBOL && RestsFit(switches[1..], switches[0].time, if gap >= SYMBOL then 0 else burst + gap)
  }

  /** Time carried over from a burst completes no further symbol exactly if it fits into the rest. */
  lemma CarryFits(gap: nat, burst: nat)
    ensures (gap + burst) / SYMBOL == gap / SYMBOL <==> gap % SYMBOL + burst < SYMBOL
    ensures (gap + burst) / SYMBOL >= gap / SYMBOL
  {
  }

  /** The two meters record the same samples of the same medium exactly when all rests fit. */
  lemma {:induction false} SameStreamIffRestsFit(switches: seq<Switch>, last: int, previous: int, busy: bool)
    requires last <= previous && Ordered(switches, previous)
    ensures ReceiverStream(switches, last, busy) == RingStream(switches, previous, busy) <==>
      RestsFit(switches, previous, previous - last)
  {
    if switches != [] {
      var t, after := switches[0].time, switches[0].busy;
      var next := if t - last >= SYMBOL then t else last;
      var x, y := ReceiverStream(switches[1..], next, after), RingStream(switches[1..], t, after);
      var a, b := (t - last) / SYMBOL, (t - previous) / SYMBOL;
      SameStreamIffRestsFit(switches[1..], next, t, after);
      CarryFits(t - previous, previous - last);
      ReceiverHead(switches, last, busy);
      ReceiverNotShorter(switches[1..], next, t, after);
      HeadsDecide(a, b, busy, x, y);
      assert ReceiverStream(switches, last, busy) == Repeat(a, busy) + x;
      assert RingStream(switches, previous, busy) == Repeat(b, busy) + y;
      assert RestsFit(switches, previous, previous - last) <==> a == b && RestsFit(switches[1..], t, t - next);
    }
  }

  lemma HeadsDecide(a: nat, b: nat, busy: bool, x: seq<bool>, y: seq<bool>)
    requires a >= b && |x| >= |y|
    ensures Repeat(a, busy) + x == Repeat(b, busy) + y <==> a == b && x == y
  {
    if a == b {
      CancelHead(Repeat(a, busy), x, y);
    } else {
      assert |Repeat(a, busy) + x| > |Repeat(b, busy) + y|;
    }
  }

  /**
   * Both meters driven by the same medium, each holding the switches' samples afterwards. While the
   * receiver has not reported yet, they agree on the load if all rests fit.
   */
  method FeedBoth(receiver: VanetRx, ring: ChannelLoadMeasurements, switches: seq<Switch>)
    requires receiver.Valid() && ring.Valid() && Ordered(switches, ring.lastUpdate)
    requires receiver.lastUpdate <= ring.lastUpdate && receiver.lastReport <= ring.lastUpdate
    modifies receiver`runs, receiver`lastUpdate, receiver`mediumFree, receiver`history, receiver`fits, ring
    ensures receiver.Valid() && ring.Valid()
    ensures receiver.history == Reverse(ReceiverStream(switches, old(receiver.lastUpdate), old(!receiver.mediumFree)))
      + old(receiver.history)
    ensures ring.stream == old(ring.stream) + RingStream(switches, old(ring.lastUpdate), old(ring.busy))
    ensures receiver.fits && !receiver.everReported && old(SameSamples(receiver.history, ring.stream))
      && old(!receiver.mediumFree == ring.busy)
      && RestsFit(switches, old(ring.lastUpdate), old(ring.lastUpdate - receiver.lastUpdate))
      ==> ScanRuns(receiver.runs, 0, 0).busy == Count(ring.samples)
  {
    ghost var last, previous, busy := receiver.lastUpdate, ring.lastUpdate, ring.busy;
    ghost var history, stream, heard := receiver.history, ring.stream, !receiver.mediumFree;
    RecordBoth(receiver, ring, switches);
    if heard == busy && SameSamples(history, stream) && RestsFit(switches, previous, previous - last) {
      SameStreamIffRestsFit(switches, last, previous, busy);
      SameSamplesJoined(history, stream, RingStream(switches, previous, busy));
      if receiver.fits && !receiver.everReported {
        MetersAgree(receiver, ring);
      }
    }
  }

  method RecordBoth(receiver: VanetRx, ring: ChannelLoadMeasurements, switches: seq<Switch>)
    requires receiver.Valid() && ring.Valid() && Ordered(switches, ring.lastUpdate)
    requires receiver.lastUpdate <= ring.lastUpdate && receiver.lastReport <= ring.lastUpdate
    modifies receiver`runs, receiver`lastUpdate, receiver`mediumFree, receiver`history, receiver`fits, ring
    ensures receiver.Valid() && ring.Valid()
    ensures receiver.history == Reverse(ReceiverStream(switches, old(receiver.lastUpdate), old(!receiver.mediumFree)))
      + old(receiver.history)
    ensures ring.stream == old(ring.stream) + RingStream(switches, old(ring.lastUpdate), old(ring.busy))
    decreases |switches|
  {
    if switches != [] {
      ghost var last, history, heard := receiver.lastUpdate, receiver.history, !receiver.mediumFree;
      ghost var previous, stream, busy := ring.lastUpdate, ring.stream, ring.busy;
      RecordOne(receiver, ring, switches[0]);
      ghost var next := receiver.lastUpdate;
      RecordBoth(receiver, ring, switches[1..]);
      ReceiverJoined(switches, last, heard, next, history, receiver.history);
      RingJoined(switches, previous, busy, stream, ring.stream);
    }
  }

  /** One switch, as either meter records it. */
  method RecordOne(receiver: VanetRx, ring: ChannelLoadMeasurements, switch: Switch)
    requires receiver.Valid() && ring.Valid() && ring.lastUpdate <= switch.time
    requires receiver.lastUpdate <= ring.lastUpdate && receiver.lastReport <= ring.lastUpdate
    modifies receiver`runs, receiver`lastUpdate, receiver`mediumFree, receiver`history, receiver`fits, ring
    ensures receiver.Valid() && ring.Valid() && ring.lastUpdate == switch.time && ring.busy == switch.busy
    ensures receiver.mediumFree == !switch.busy
    ensures receiver.lastUpdate ==
      if switch.time - old(receiver.lastUpdate) >= SYMBOL then switch.time else old(receiver.lastUpdate)
    ensures receiver.history ==
      Repeat((switch.time - old(receiver.lastUpdate)) / SYMBOL, old(!receiver.mediumFree)) + old(receiver.history)
    ensures ring.stream == old(ring.stream) + Repeat((switch.time - old(ring.lastUpdate)) / SYMBOL, old(ring.busy))
  {
    ghost var gap, heard := switch.time - receiver.lastUpdate, !receiver.mediumFree;
    assert gap < SYMBOL ==> gap / SYMBOL == 0 && Repeat(0, heard) == [];
    receiver.RecomputeMediumFree(switch.time, !switch.busy);
    if switch.busy {
      ring.Busy(switch.time);
    } else {
      ring.Idle(switch.time);
    }
  }

  lemma ReceiverJoined(switches: seq<Switch>, last: int, heard: bool, next: int, history: seq<bool>, after: seq<bool>)
    requires switches != [] && last <= switches[0].time
    requires next == if switches[0].time - last >= SYMBOL then switches[0].time else last
    requires after == Reverse(ReceiverStream(switches[1..], next, switches[0].busy))
      + (Repeat((switches[0].time - last) / SYMBOL, heard) + history)
    ensures after == Reverse(ReceiverStream(switches, last, heard)) + history
  {
    var n := (switches[0].time - last) / SYMBOL;
    ReceiverHead(switches, last, heard);
    ReverseConcat(Repeat(n, heard), ReceiverStream(switches[1..], next, switches[0].busy));
    ReverseRepeat(n, heard);
  }

  lemma RingJoined(switches: seq<Switch>, previous: int, busy: bool, stream: seq<bool>, after: seq<bool>)
    requires switches != [] && previous <= switches[0].time
    requires after == stream + Repeat((switches[0].time - previous) / SYMBOL, busy)
      + RingStream(switches[1..], switches[0].time, switches[0].busy)
    ensures after == stream + RingStream(switches, previous, busy)
  {
  }

  lemma SameSamplesJoined(history: seq<bool>, stream: seq<bool>, more: seq<bool>)
    requires SameSamples(history, stream)
    ensures SameSamples(Reverse(more) + history, stream + more)
  {
    ReverseConcat(stream, more);
  }

  lemma ReceiverHead(switches: seq<Switch>, last: int, busy: bool)
    requires switches != [] && last <= switches[0].time
    ensures var t := switches[0].time;
      ReceiverStream(switches, last, busy)
      == Repeat((t - last) / SYMBOL, busy) + ReceiverStream(switches[1..], if t - last >= SYMBOL then t else last, switches[0].busy)
  {
  }

  lemma {:induction false} ReceiverNotShorter(switches: seq<Switch>, last: int, previous: int, busy: bool)
    requires last <= previous && Ordered(switches, previous)
    ensures |ReceiverStream(switches, last, busy)| >= |RingStream(switches, previous, busy)|
  {
    if switches != [] {
      var t := switches[0].time;
      ReceiverHead(switches, last, busy);
      assert (t - last) / SYMBOL >= (t - previous) / SYMBOL;
      ReceiverNotShorter(switches[1..], if t - last >= SYMBOL then t else last, t, switches[0].busy);
    }
  }

  lemma CancelHead(head: seq<bool>, x: seq<bool>, y: seq<bool>)
    ensures head + x == head + y <==> x == y
  {
    if head + x == head + y {
      assert (head + x)[|head|..] == x && (head + y)[|head|..] == y;
    }
  }

  /** Two switches half a symbol apart: the ring loses the time that the receiver still records. */
  lemma HalfSymbolsDiffer()
    ensures var switches := [Switch(SYMBOL / 2, true), Switch(SYMBOL, false)];
      ReceiverStream(switches, 0, false) == [true] && RingStream(switches, 0, false) == []
  {
    var switches := [Switch(SYMBOL / 2, true), Switch(SYMBOL, false)];
    var rest := [Switch(SYMBOL, false)];
    assert switches[1..] == rest && rest[1..] == [];
    assert SYMBOL / 2 < SYMBOL && SYMBOL - SYMBOL / 2 < SYMBOL;
    assert ReceiverStream(rest, 0, true) == Repeat(1, true) == [true];
    assert RingStream(rest, SYMBOL / 2, true) == [];
  }
}
