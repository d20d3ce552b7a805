/** Channel busy ratio over a run-length deque that is cut back at every report. */
module ChannelLoadReceiver {
  import opened Machine
  import opened ChannelSamples
  import opened ChannelLoadScan

  /** The deque holds the newest samples of the history, and at most one run per symbol since the last report. */
  ghost predicate DequeOk(runs: seq<Run>, history: seq<bool>, everReported: bool, lastUpdate: int, lastReport: int) {
    && Fits(runs)
    && Expand(runs) <= history
    && (!everReported ==> Expand(runs) == history)
    && (forall r :: r in runs ==> r.len >= 1)
    && (lastUpdate < lastReport ==> |runs| < WINDOW)
    && (lastUpdate >= lastReport ==> (|runs| - WINDOW) * SYMBOL <= lastUpdate - lastReport)
  }

  lemma DequePush(runs: seq<Run>, history: seq<bool>, everReported: bool, lastUpdate: int, lastReport: int,
                  now: int, run: Run)
    requires DequeOk(runs, history, everReported, lastUpdate, lastReport)
    requires 1 <= run.len < UINT32 - WINDOW && lastUpdate + SYMBOL <= now && lastReport <= now
    ensures DequeOk([run] + runs, Repeat(run.len, run.busy) + history, everReported, now, lastReport)
  {
  }

  lemma DequeCut(runs: seq<Run>, kept: nat, history: seq<bool>)
    requires Fits(runs) && Expand(runs) <= history && kept <= |runs| && Total(runs[..kept]) < WINDOW
    requires forall r :: r in runs ==> r.len >= 1
    ensures Fits(runs[..kept]) && Expand(runs[..kept]) <= history && kept < WINDOW
    ensures forall r :: r in runs[..kept] ==> r.len >= 1
  {
    ExpandPrefix(runs, kept);
    forall r | r in runs[..kept] ensures r in runs {
    }
    RunsAtMostTotal(runs[..kept]);
  }

  lemma ExpandPrefix(runs: seq<Run>, n: nat)
    requires n <= |runs|
    ensures Expand(runs[..n]) <= Expand(runs)
  {
    ExpandConcat(runs[..n], runs[n..]);
    assert runs == runs[..n] + runs[n..];
  }

  lemma {:induction false} RunsAtMostTotal(runs: seq<Run>)
    requires forall r :: r in runs ==> r.len >= 1
    ensures |runs| <= Total(runs)
  {
    if runs != [] {
      assert runs[0] in runs;
      RunsAtMostTotal(runs[1..]);
    }
  }

  class VanetRx {
    var runs: seq<Run>  // newest first
    var lastUpdate: int
    var mediumFree: bool
    var busyCount: nat
    var busyRatio: real
    ghost var history: seq<bool>  // every sample since start, newest first, then the initial idle window
    ghost var fits: bool  // no gap between updates so far came near 2^32 symbols
    ghost var lastReport: int
    ghost var everReported: bool

    ghost predicate Valid()
      reads this
    {
      && |history| >= WINDOW && InWords(runs)
      && (fits ==> DequeOk(runs, history, everReported, lastUpdate, lastReport))
    }

    constructor (now: int, free: bool)
      ensures Valid() && fits && runs == [Run(WINDOW, false)] && history == Repeat(WINDOW, false)
      ensures lastUpdate == lastReport == now && mediumFree == free && !everReported
    {
      runs := [Run(WINDOW, false)];
      lastUpdate, lastReport, mediumFree, fits := now, now, free, true;
      busyCount, busyRatio, everReported := 0, 0.0, false;
      history := Repeat(WINDOW, false);
      assert [Run(WINDOW, false)][1..] == [];
    }

    /** Records the elapsed time under the medium state that held so far, then adopts the new one. */
    method RecomputeMediumFree(now: int, free: bool)
      requires Valid() && lastUpdate <= now && lastReport <= now
      modifies `runs, `lastUpdate, `mediumFree, `history, `fits
      ensures Valid() && mediumFree == free
      ensures var gap := now - old(lastUpdate);
        if gap >= SYMBOL then
          && lastUpdate == now
          && history == Repeat(gap / SYMBOL, !old(mediumFree)) + old(history)
          && runs == [Run((gap / SYMBOL) % UINT32, !old(mediumFree))] + old(runs)
          && (fits <==> old(fits) && gap / SYMBOL < UINT32 - WINDOW)
        else
          && lastUpdate == old(lastUpdate) && history == old(history) && runs == old(runs) && fits == old(fits)
    {
      var gap := now - lastUpdate;
      if gap >= SYMBOL {
        var fillSamples := gap / SYMBOL;
        var run := Run(fillSamples % UINT32, !mediumFree);
        if fits && fillSamples < UINT32 - WINDOW {
          assert run.len == fillSamples >= 1;
          DequePush(runs, history, everReported, lastUpdate, lastReport, now, run);
        }
        runs := [run] + runs;
        lastUpdate := now;
        fits := fits && fillSamples < UINT32 - WINDOW;
        history := Repeat(fillSamples, !mediumFree) + history;
      }
      mediumFree := free;
    }

    /** Counts the busy samples of the window and forgets the run that closes it and all older ones. */
    method ReportChannelLoad(now: int)
      requires Valid() && lastUpdate <= now && lastReport <= now
      modifies `runs, `busyCount, `busyRatio, `lastReport, `everReported
      ensures Valid() && lastReport == now && everReported && LeftBehind(runs)
      ensures busyRatio == busyCount as real / WINDOW as real
      ensures busyCount == ScanRuns(old(runs), 0, 0).busy
      ensures |runs| == ScanRuns(old(runs), 0, 0).kept <= |old(runs)| && runs == old(runs)[..|runs|]
      ensures fits ==> RightReport(old(runs), |runs|, busyCount, history) && 0.0 <= busyRatio <= 1.0
    {
      ghost var before := runs;
      busyCount := ScanDeque();
      busyRatio := busyCount as real / WINDOW as real;
      lastReport, everReported := now, true;
      ReportLeaves(before);
      if fits {
        ReportFacts(before, |runs|, history);
        DequeCut(before, |runs|, history);
      }
    }

    /** The loop over the runs, newest first; it ends where the window is full. */
    method ScanDeque() returns (busy: nat)
      modifies `runs
      ensures busy == ScanRuns(old(runs), 0, 0).busy
      ensures |runs| == ScanRuns(old(runs), 0, 0).kept <= |old(runs)| && runs == old(runs)[..|runs|]
    {
      ghost var goal := ScanRuns(runs, 0, 0);
      var samples: nat, it: nat := 0, 0;
      busy := 0;
      assert runs[0..] == runs;
      ghost var all := runs;
      while it != |runs|
        invariant 0 <= it <= |runs| && runs <= all
        invariant runs == all || it == |runs|
        invariant runs == all && it < |all| ==>
          && samples < WINDOW
          && ScanRuns(all[it..], samples, busy).busy == goal.busy
          && ScanRuns(all[it..], samples, busy).kept + it == goal.kept
        invariant it == |runs| ==> busy == goal.busy && goal.kept == it
        decreases |runs| - it
      {
        var run := runs[it];
        assert all[it..][1..] == all[it + 1..];
        samples := (samples + run.len) % UINT32;
        if samples < WINDOW {
          if run.busy {
            busy := (busy + run.len) % UINT32;
          }
          it := it + 1;
        } else {
          if run.busy {
            busy := (busy + run.len - (samples - WINDOW)) % UINT32;
          }
          runs := runs[..it];
        }
      }
    }

    /** The next report is in range if the counters behind the oldest run since the last one say so. */
    lemma ReportInRange(newer: seq<Run>, n: nat, busy: bool, left: seq<Run>)
      requires runs == newer + [Run(n % UINT32, busy)] + left && Total(newer) < WINDOW && LeftBehind(left)
      requires var s := SamplesPast(newer, n); s >= WINDOW || (s == WINDOW - 1 && BusyPast(newer, n, busy) < WINDOW)
      ensures ScanRuns(runs, 0, 0).busy <= WINDOW
    {
      InRangeIff(newer, n, busy);
      assert Reported(newer, n, busy, left) <= WINDOW;
    }

    /** With a report every 100 ms the deque never exceeds 25000 entries. */
    lemma DequeBound()
      requires Valid() && fits && lastUpdate - lastReport <= 12500 * SYMBOL
      ensures |runs| <= 25000
    {
    }
  }

  /** Reports are due every 100 ms. */
  const REPORT: int := WINDOW * SYMBOL

  /** A medium that is busy for 100 ms is reported as fully busy. */
  method FullyBusy() returns (ratio: real)
    ensures ratio == 1.0
  {
    var rx := new VanetRx(0, false);
    ghost var initial := rx.runs;
    rx.RecomputeMediumFree(100 * TICKS_PER_MS, true);
    WindowLasts();
    FullRun([Run(WINDOW, true)] + initial);
    rx.ReportChannelLoad(100 * TICKS_PER_MS);
    return rx.busyRatio;
  }

  lemma FullRun(runs: seq<Run>)
    requires runs != [] && runs[0] == Run(WINDOW, true)
    ensures ScanRuns(runs, 0, 0).busy == WINDOW
  {
  }

  /** Busy until one symbol before the first report, then idle while 343598 reports pass (about 9.5 hours). */
  method LongIdle() returns (rx: VanetRx)
    ensures fresh(rx) && rx.Valid() && rx.runs == [Run(WINDOW - 1, true)] && rx.mediumFree
    ensures rx.lastUpdate == (WINDOW - 1) * SYMBOL && rx.lastReport == 343598 * REPORT
  {
    rx := new VanetRx(0, false);
    rx.RecomputeMediumFree((WINDOW - 1) * SYMBOL, true);
    for report := 1 to 343599
      invariant rx.Valid() && rx.fits && rx.mediumFree
      invariant rx.lastUpdate == (WINDOW - 1) * SYMBOL && rx.lastReport == (report - 1) * REPORT
      invariant rx.runs == [Run(WINDOW - 1, true)] + (if report == 1 then [Run(WINDOW, false)] else [])
    {
      ghost var before := rx.runs;
      rx.ReportChannelLoad(report * REPORT);
      KeptFirst(before, |rx.runs|);
      assert before[..1] == [Run(WINDOW - 1, true)];
    }
  }

  /** A receiver with a wrapped sample counter: after 2^32 - 2 idle symbols the medium is busy for two. */
  method Overflowed() returns (rx: VanetRx)
    ensures fresh(rx) && rx.Valid() && rx.runs == OVERFLOWED && rx.mediumFree
    ensures rx.lastUpdate == (WINDOW - 1 + UINT32) * SYMBOL && rx.lastReport == 343598 * REPORT
  {
    rx := LongIdle();
    rx.RecomputeMediumFree((WINDOW - 1 + UINT32 - 2) * SYMBOL, false);
    rx.RecomputeMediumFree((WINDOW - 1 + UINT32) * SYMBOL, true);
    assert rx.runs == OVERFLOWED;
  }

  /** A run of the receiver, with a report every 100 ms, that ends in a ratio above 1. */
  method OverflowRun() returns (busyCount: nat, ratio: real)
    ensures busyCount == WINDOW + 1 && ratio > 1.0
  {
    var rx := Overflowed();
    OverflowExample();
    rx.ReportChannelLoad(343599 * REPORT);
    return rx.busyCount, rx.busyRatio;
  }

  /**
   * The same receiver does not recover: all runs survive the report. After another 2^32 + 1 idle symbols, stored
   * as a single one, it still reports more than a full window of busy samples where there are none.
   */
  method StuckRun() returns (busyCount: nat, ghost right: nat)
    ensures busyCount == WINDOW + 1 && right == 0
  {
    var rx := Overflowed();
    OverflowExample();
    for report := 343599 to 687196
      invariant rx.Valid() && rx.mediumFree && rx.runs == OVERFLOWED
      invariant rx.lastUpdate == (WINDOW - 1 + UINT32) * SYMBOL && rx.lastReport == (report - 1) * REPORT
    {
      rx.ReportChannelLoad(report * REPORT);
    }
    rx.RecomputeMediumFree((WINDOW - 1 + 2 * UINT32 + 1) * SYMBOL, false);
    assert rx.runs == [Run(1, false)] + OVERFLOWED;
    IdleWindow(rx.history);
    rx.ReportChannelLoad(687196 * REPORT);
    busyCount, right := rx.busyCount, Count(Window(rx.history));
  }

  lemma IdleWindow(history: seq<bool>)
    requires |history| >= WINDOW && history[..WINDOW] == Repeat(WINDOW, false)
    ensures Count(Window(history)) == 0
  {
    assert Window(history) == Repeat(WINDOW, false);
    CountRepeat(WINDOW, false);
  }

  /** After the first report the medium is busy for 13000 symbols and then idle for 100. */
  method Undercounted() returns (rx: VanetRx)
    ensures fresh(rx) && rx.Valid() && rx.fits && rx.runs == UNDERCOUNTED
    ensures rx.lastUpdate == 13100 * SYMBOL && rx.lastReport == REPORT
  {
    rx := new VanetRx(0, false);
    ghost var initial := rx.runs;
    rx.ReportChannelLoad(REPORT);
    NothingKept(initial, |rx.runs|);
    rx.RecomputeMediumFree(13000 * SYMBOL, true);
    rx.RecomputeMediumFree(13100 * SYMBOL, false);
    assert rx.runs == UNDERCOUNTED;
  }

  /**
   * A run of the receiver in which a report undercounts: the second report forgets the busy run that closed
   * its window, so the third, of the same recorded samples, finds none of the 12400 busy ones.
   */
  method UndercountRun() returns (second: nat, third: nat, ghost right: nat)
    ensures second == 12400 && third == 0 && right == 12400
  {
    var rx := Undercounted();
    UndercountExample();
    rx.ReportChannelLoad(2 * REPORT);
    second := rx.busyCount;
    KeptFirst(UNDERCOUNTED, |rx.runs|);
    assert rx.runs == UNDERCOUNTED[..1];
    rx.ReportChannelLoad(3 * REPORT);
    third, right := rx.busyCount, Count(Window(rx.history));
  }

  ghost const UNDERCOUNTED: seq<Run> := [Run(100, false), Run(13000, true)]

  lemma UndercountExample()
    ensures Total(UNDERCOUNTED) == 13100 && ScanRuns(UNDERCOUNTED, 0, 0).busy == 12400
    ensures ScanRuns(UNDERCOUNTED[..1], 0, 0).busy == 0
  {
    assert UNDERCOUNTED[1..] == [Run(13000, true)] && [Run(13000, true)][1..] == [];
    assert UNDERCOUNTED[..1][1..] == [];
  }

  lemma NothingKept(runs: seq<Run>, kept: nat)
    requires KeptBelowWindow(runs, kept) && runs == [Run(WINDOW, false)]
    ensures kept == 0
  {
    assert runs[..1] == runs && runs[1..] == [] && runs[..0] == [];
    KeptUnique(runs, kept, 0);
  }
}
