/** One channel load report: the scan over the run-length deque, and when its result is right. */
module ChannelLoadScan {
  import opened Machine
  import opened ChannelSamples

  /** Busy count and number of runs kept by one report, with 32-bit unsigned arithmetic. */
  datatype Scan = Scan(busy: nat, kept: nat)

  /** The report loop from a given intermediate state; newest run first. */
  function ScanRuns(runs: seq<Run>, samples: nat, busy: nat): Scan {
    if runs == [] then Scan(busy, 0)
    else
      var run := runs[0];
      var total := (samples + run.len) % UINT32;
      if total < WINDOW then
        var rest := ScanRuns(runs[1..], total, if run.busy then (busy + run.len) % UINT32 else busy);
        Scan(rest.busy, rest.kept + 1)
      else
        Scan(if run.busy then (busy + run.len - (total - WINDOW)) % UINT32 else busy, 0)
  }

  /** No run is long enough to overflow the sample counter before the window is full. */
  ghost predicate Fits(runs: seq<Run>) {
    forall r :: r in runs ==> r.len < UINT32 - WINDOW
  }

  /** The longest prefix of whole runs that stays strictly below the window. */
  ghost predicate KeptBelowWindow(runs: seq<Run>, kept: nat) {
    && kept <= |runs|
    && Total(runs[..kept]) < WINDOW
    && (kept < |runs| ==> Total(runs[..kept + 1]) >= WINDOW)
  }

  lemma ScanBelow(runs: seq<Run>, samples: nat, busy: nat)
    requires runs != [] && busy <= samples + 1 && samples + runs[0].len < WINDOW
    ensures var rest := ScanRuns(runs[1..], samples + runs[0].len, if runs[0].busy then busy + runs[0].len else busy);
      ScanRuns(runs, samples, busy) == Scan(rest.busy, rest.kept + 1)
  {
    assert (samples + runs[0].len) % UINT32 == samples + runs[0].len;
    assert (busy + runs[0].len) % UINT32 == busy + runs[0].len;
  }

  lemma ScanClosing(runs: seq<Run>, samples: nat, busy: nat)
    requires runs != [] && busy <= samples + 1 <= WINDOW <= samples + runs[0].len < UINT32
    ensures ScanRuns(runs, samples, busy) == Scan(if runs[0].busy then busy + WINDOW - samples else busy, 0)
  {
    assert (samples + runs[0].len) % UINT32 == samples + runs[0].len;
    assert (busy + WINDOW - samples) % UINT32 == busy + WINDOW - samples;
  }

  /** Without overflow the scan counts exactly the busy samples among the newest 12500. */
  lemma {:induction false} ScanExact(runs: seq<Run>, samples: nat, busy: nat)
    requires Fits(runs) && samples < WINDOW && busy <= samples + 1
    ensures ScanRuns(runs, samples, busy).busy == busy + Count(Take(Expand(runs), WINDOW - samples))
  {
    var room := WINDOW - samples;
    if runs != [] {
      var run := runs[0];
      assert run in runs;
      var head := Repeat(run.len, run.busy);
      if samples + run.len < WINDOW {
        ScanBelow(runs, samples, busy);
        ScanExact(runs[1..], samples + run.len, if run.busy then busy + run.len else busy);
        TakeConcat(head, Expand(runs[1..]), room);
        CountConcat(head, Take(Expand(runs[1..]), room - run.len));
        CountRepeat(run.len, run.busy);
      } else {
        ScanClosing(runs, samples, busy);
        TakeRepeat(run, Expand(runs[1..]), room);
        CountRepeat(room, run.busy);
      }
    }
  }

  lemma TakeRepeat(run: Run, rest: seq<bool>, n: nat)
    requires n <= run.len
    ensures Take(Repeat(run.len, run.busy) + rest, n) == Repeat(n, run.busy)
  {
  }

  /** Without overflow the scan keeps the longest prefix of whole runs below the window. */
  lemma {:induction false} ScanKeeps(runs: seq<Run>, samples: nat, busy: nat, kept: nat)
    requires Fits(runs) && samples < WINDOW && busy <= samples
    requires kept == ScanRuns(runs, samples, busy).kept
    ensures kept <= |runs| && Total(runs[..kept]) < WINDOW - samples
    ensures kept < |runs| ==> Total(runs[..kept + 1]) >= WINDOW - samples
  {
    if runs == [] {
      assert runs[..kept] == [];
    } else {
      var run := runs[0];
      assert run in runs;
      if samples + run.len < WINDOW {
        ScanBelow(runs, samples, busy);
        ScanKeeps(runs[1..], samples + run.len, if run.busy then busy + run.len else busy, kept - 1);
        TotalPrefix(runs, kept);
        if kept < |runs| {
          TotalPrefix(runs, kept + 1);
        }
      } else {
        ScanClosing(runs, samples, busy);
        TotalPrefix(runs, 1);
        assert runs[1..][..0] == [] && runs[..0] == [];
      }
    }
  }

  lemma TotalPrefix(runs: seq<Run>, n: nat)
    requires 0 < n <= |runs|
    ensures Total(runs[..n]) == runs[0].len + Total(runs[1..][..n - 1])
  {
    assert runs[..n][1..] == runs[1..][..n - 1];
  }

  lemma {:induction false} TotalMonotone(runs: seq<Run>, a: nat, b: nat)
    requires a <= b <= |runs|
    ensures Total(runs[..a]) <= Total(runs[..b])
  {
    if a > 0 {
      TotalPrefix(runs, a);
      TotalPrefix(runs, b);
      TotalMonotone(runs[1..], a - 1, b - 1);
    }
  }

  /** Only one prefix is the longest below the window. */
  lemma KeptUnique(runs: seq<Run>, kept: nat, other: nat)
    requires KeptBelowWindow(runs, kept) && KeptBelowWindow(runs, other)
    ensures kept == other
  {
    if kept < other {
      TotalMonotone(runs, kept + 1, other);
    } else if other < kept {
      TotalMonotone(runs, other + 1, kept);
    }
  }

  /** A short first run is all that a second one filling the window leaves. */
  lemma KeptFirst(runs: seq<Run>, kept: nat)
    requires KeptBelowWindow(runs, kept) && runs != [] && runs[0].len < WINDOW
    requires |runs| > 1 ==> runs[0].len + runs[1].len >= WINDOW
    ensures kept == 1
  {
    TotalPrefix(runs, 1);
    if |runs| > 1 {
      TotalPrefix(runs, 2);
      TotalPrefix(runs[1..], 1);
    }
    KeptUnique(runs, kept, 1);
  }

  lemma TakeConcat(s: seq<bool>, t: seq<bool>, n: nat)
    requires |s| <= n
    ensures Take(s + t, n) == s + Take(t, n - |s|)
  {
  }

  // ---- when the 32-bit counter matters ----

  lemma CountHead(runs: seq<Run>)
    requires runs != []
    ensures Count(Expand(runs)) == (if runs[0].busy then runs[0].len else 0) + Count(Expand(runs[1..]))
  {
    CountRepeat(runs[0].len, runs[0].busy);
    CountConcat(Repeat(runs[0].len, runs[0].busy), Expand(runs[1..]));
  }

  /** Scanning past runs that do not fill the window. */
  lemma {:induction false} ScanThrough(newer: seq<Run>, rest: seq<Run>, samples: nat, busy: nat, total: nat, count: nat)
    requires samples + Total(newer) == total < WINDOW && busy <= samples
    requires busy + Count(Expand(newer)) == count
    ensures count <= total
    ensures ScanRuns(newer + rest, samples, busy).busy == ScanRuns(rest, total, count).busy
  {
    if newer == [] {
      assert newer + rest == rest;
    } else {
      var next := if newer[0].busy then busy + newer[0].len else busy;
      CountHead(newer);
      ScanStep(newer, rest, samples, busy, next);
      ScanThrough(newer[1..], rest, samples + newer[0].len, next, total, count);
    }
  }

  lemma ScanStep(newer: seq<Run>, rest: seq<Run>, samples: nat, busy: nat, next: nat)
    requires newer != [] && busy <= samples && samples + newer[0].len < WINDOW
    requires next == if newer[0].busy then busy + newer[0].len else busy
    ensures ScanRuns(newer + rest, samples, busy).busy == ScanRuns(newer[1..] + rest, samples + newer[0].len, next).busy
  {
    assert (newer + rest)[1..] == newer[1..] + rest;
    ScanBelow(newer + rest, samples, busy);
  }

  /** What a report says of `newer`, a run of n symbols recorded in 32 bits, and `older`. */
  function Reported(newer: seq<Run>, n: nat, busy: bool, older: seq<Run>): nat {
    ScanRuns(newer + [Run(n % UINT32, busy)] + older, 0, 0).busy
  }

  /** What it should say. */
  function Happened(newer: seq<Run>, n: nat, busy: bool, older: seq<Run>): nat {
    Count(Window(Expand(newer + [Run(n, busy)] + older)))
  }

  /** The sample counter after `newer` and the run. */
  function SamplesPast(newer: seq<Run>, n: nat): nat {
    (Total(newer) + n) % UINT32
  }

  /** The busy counter after `newer` and the run, if the scan gets past it. */
  function BusyPast(newer: seq<Run>, n: nat, busy: bool): nat {
    if busy then (Count(Expand(newer)) + n) % UINT32 else Count(Expand(newer))
  }

  lemma TruncatedSum(a: nat, n: nat)
    ensures (a + n % UINT32) % UINT32 == (a + n) % UINT32
  {
  }

  lemma ScanPast(newer: seq<Run>, n: nat, busy: bool, older: seq<Run>)
    requires Total(newer) < WINDOW
    ensures Count(Expand(newer)) <= Total(newer)
    ensures SamplesPast(newer, n) < WINDOW ==>
      Reported(newer, n, busy, older) == ScanRuns(older, SamplesPast(newer, n), BusyPast(newer, n, busy)).busy
    ensures SamplesPast(newer, n) >= WINDOW ==>
      Reported(newer, n, busy, older) == Count(Expand(newer)) + (if busy then WINDOW - Total(newer) else 0)
  {
    var t, b, run := Total(newer), Count(Expand(newer)), Run(n % UINT32, busy);
    ScanThrough(newer, [run] + older, 0, 0, t, b);
    assert newer + [run] + older == newer + ([run] + older);
    TruncatedSum(t, n);
    TruncatedSum(b, n);
    assert SamplesPast(newer, n) == (t + run.len) % UINT32;
    assert BusyPast(newer, n, busy) == if busy then (b + run.len) % UINT32 else b;
    ScanHead(run, older, t, b);
  }

  /** What one run does to the counters. */
  lemma ScanHead(run: Run, older: seq<Run>, samples: nat, busy: nat)
    requires busy <= samples < WINDOW && run.len < UINT32
    ensures var total := (samples + run.len) % UINT32;
      ScanRuns([run] + older, samples, busy).busy ==
      if total < WINDOW then ScanRuns(older, total, if run.busy then (busy + run.len) % UINT32 else busy).busy
      else busy + (if run.busy then WINDOW - samples else 0)
  {
    assert ([run] + older)[1..] == older;
    if (samples + run.len) % UINT32 >= WINDOW {
      NoWrap(samples, run.len);
      ClosingCount(busy, samples, run.len);
    }
  }

  lemma NoWrap(t: nat, m: nat)
    requires t < WINDOW <= (t + m) % UINT32 && m < UINT32
    ensures (t + m) % UINT32 == t + m
  {
  }

  lemma ClosingCount(b: nat, t: nat, m: nat)
    requires b <= t < WINDOW <= t + m < UINT32
    ensures (b + m - (t + m - WINDOW)) % UINT32 == b + WINDOW - t
  {
  }

  /** A run that fills the window hides everything behind it. */
  lemma ClosedWindow(newer: seq<Run>, n: nat, busy: bool, older: seq<Run>)
    requires Total(newer) < WINDOW <= Total(newer) + n
    ensures Happened(newer, n, busy, older) == Count(Expand(newer)) + (if busy then WINDOW - Total(newer) else 0)
  {
    var run := [Run(n, busy)];
    ExpandConcat(newer + run, older);
    ExpandConcat(newer, run);
    ExpandLength(newer);
    assert run[1..] == [] && Expand(run) == Repeat(n, busy);
    assert Expand(newer + run + older) == Expand(newer) + Repeat(n, busy) + Expand(older);
    FilledWindow(Expand(newer), n, busy, Expand(older));
  }

  lemma FilledWindow(newer: seq<bool>, n: nat, busy: bool, older: seq<bool>)
    requires |newer| < WINDOW <= |newer| + n
    ensures Count(Window(newer + Repeat(n, busy) + older)) == Count(newer) + (if busy then WINDOW - |newer| else 0)
  {
    assert Window(newer + Repeat(n, busy) + older) == newer + Repeat(WINDOW - |newer|, busy);
    CountConcat(newer, Repeat(WINDOW - |newer|, busy));
    CountRepeat(WINDOW - |newer|, busy);
  }

  /** Run lengths are stored in 32 bits. */
  ghost predicate InWords(runs: seq<Run>) {
    forall r :: r in runs ==> r.len < UINT32
  }

  /** What a report can leave: runs that its own scan gets past, if need be because the sample counter wraps. */
  ghost predicate LeftBehind(older: seq<Run>) {
    InWords(older) && ScanRuns(older, 0, 0).kept == |older|
  }

  lemma {:induction false} KeptAgain(runs: seq<Run>, samples: nat, busy: nat, kept: nat)
    requires kept == ScanRuns(runs, samples, busy).kept
    ensures kept <= |runs| && ScanRuns(runs[..kept], samples, busy).kept == kept
  {
    if runs != [] && kept > 0 {
      var run, total := runs[0], (samples + runs[0].len) % UINT32;
      KeptAgain(runs[1..], total, if run.busy then (busy + run.len) % UINT32 else busy, kept - 1);
      assert runs[..kept][1..] == runs[1..][..kept - 1];
    }
  }

  /** Whatever the deque is like, a report leaves only such runs. */
  lemma ReportLeaves(runs: seq<Run>)
    requires InWords(runs)
    ensures ScanRuns(runs, 0, 0).kept <= |runs| && LeftBehind(runs[..ScanRuns(runs, 0, 0).kept])
  {
    KeptAgain(runs, 0, 0, ScanRuns(runs, 0, 0).kept);
  }

  /** The report is right whatever earlier reports left behind the run. */
  ghost predicate RightAlways(newer: seq<Run>, n: nat, busy: bool) {
    forall older | LeftBehind(older) :: Reported(newer, n, busy, older) == Happened(newer, n, busy, older)
  }

  /** The ratio is at most 1 whatever earlier reports left behind the run. */
  ghost predicate InRangeAlways(newer: seq<Run>, n: nat, busy: bool) {
    forall older | LeftBehind(older) :: Reported(newer, n, busy, older) <= WINDOW
  }

  lemma ScanOne(samples: nat, busy: nat)
    requires samples < WINDOW && busy < UINT32
    ensures ScanRuns([Run(1, true)], samples, busy).busy != busy
  {
    assert (samples + 1) % UINT32 == samples + 1;
    assert [Run(1, true)][1..] == [];
  }

  /** Let the run fill up the window: the report is right exactly if the sample counter ends up full as well. */
  lemma ClosingRunExact(newer: seq<Run>, n: nat, busy: bool)
    requires Total(newer) < WINDOW <= Total(newer) + n
    ensures RightAlways(newer, n, busy) <==> SamplesPast(newer, n) >= WINDOW
  {
    if SamplesPast(newer, n) >= WINDOW {
      forall older | LeftBehind(older) ensures Reported(newer, n, busy, older) == Happened(newer, n, busy, older) {
        ScanPast(newer, n, busy, older);
        ClosedWindow(newer, n, busy, older);
      }
    } else {
      var one := [Run(1, true)];
      ScanPast(newer, n, busy, []);
      ScanPast(newer, n, busy, one);
      ScanOne(SamplesPast(newer, n), BusyPast(newer, n, busy));
      ClosedWindow(newer, n, busy, []);
      ClosedWindow(newer, n, busy, one);
      assert one[1..] == [] && LeftBehind([]) && LeftBehind(one);
    }
  }

  /**
   * The ratio is at most 1 exactly if the sample counter is full behind the run, or lacks just one sample while
   * the busy counter is below the window: what an earlier report left may add any number of busy samples.
   */
  lemma InRangeIff(newer: seq<Run>, n: nat, busy: bool)
    requires Total(newer) < WINDOW
    ensures InRangeAlways(newer, n, busy) <==>
      var s, x := SamplesPast(newer, n), BusyPast(newer, n, busy);
      s >= WINDOW || (s == WINDOW - 1 && x < WINDOW)
  {
    var s, x := SamplesPast(newer, n), BusyPast(newer, n, busy);
    if s >= WINDOW || (s == WINDOW - 1 && x < WINDOW) {
      forall older | LeftBehind(older) ensures Reported(newer, n, busy, older) <= WINDOW {
        ScanPast(newer, n, busy, older);
        if s < WINDOW {
          LastSlot(older, 0, x);
        }
      }
    } else {
      ScanPast(newer, n, busy, []);
      var older := Overflowing(s, x);
      ScanPast(newer, n, busy, older);
      assert Reported(newer, n, busy, older) > WINDOW;
    }
  }

  /** With one sample missing, runs that a report can leave add at most one busy sample. */
  lemma {:induction false} LastSlot(older: seq<Run>, own: nat, busy: nat)
    requires InWords(older) && ScanRuns(older, 0, own).kept == |older| && busy < WINDOW
    ensures ScanRuns(older, WINDOW - 1, busy).busy <= WINDOW
  {
    if older != [] {
      var run := older[0];
      assert run in older && run.len % UINT32 == run.len < WINDOW;
      if run.len == 0 {
        var next := if run.busy then own % UINT32 else own;
        ScanPasses(older, 0, own, 0, next);
        ScanPasses(older, WINDOW - 1, busy, WINDOW - 1, busy);
        LastSlot(older[1..], next, busy);
      } else {
        ScanClosing(older, WINDOW - 1, busy);
      }
    }
  }

  lemma ScanPasses(runs: seq<Run>, samples: nat, busy: nat, total: nat, next: nat)
    requires runs != [] && total == (samples + runs[0].len) % UINT32 < WINDOW
    requires next == if runs[0].busy then (busy + runs[0].len) % UINT32 else busy
    ensures var rest := ScanRuns(runs[1..], total, next); ScanRuns(runs, samples, busy) == Scan(rest.busy, rest.kept + 1)
  {
  }

  /** Runs that bring the sample counter back to where it was, with k more busy samples. */
  function Climb(k: nat): (runs: seq<Run>)
    ensures |runs| == 2 * k
  {
    if k == 0 then [] else [Run(1, true), Run(UINT32 - 1, false)] + Climb(k - 1)
  }

  lemma {:induction false} ClimbScan(k: nat, samples: nat, busy: nat)
    requires samples < WINDOW - 1 && busy + k < UINT32
    ensures InWords(Climb(k)) && ScanRuns(Climb(k), samples, busy) == Scan(busy + k, 2 * k)
  {
    if k > 0 {
      ClimbScan(k - 1, samples, busy + 1);
      ClimbOnce(Climb(k - 1), samples, busy);
    }
  }

  lemma ClimbOnce(rest: seq<Run>, samples: nat, busy: nat)
    requires samples < WINDOW - 1 && busy + 1 < UINT32
    ensures var scan := ScanRuns(rest, samples, busy + 1);
      ScanRuns([Run(1, true), Run(UINT32 - 1, false)] + rest, samples, busy) == Scan(scan.busy, scan.kept + 2)
  {
    var runs := [Run(1, true), Run(UINT32 - 1, false)] + rest;
    var tail := runs[1..];
    assert tail[0] == Run(UINT32 - 1, false) && tail[1..] == rest;
    ScanPasses(tail, samples + 1, busy + 1, samples, busy + 1);
    ScanPasses(runs, samples, busy, samples + 1, busy + 1);
  }

  lemma Overflowing(samples: nat, busy: nat) returns (older: seq<Run>)
    requires samples < WINDOW && busy < UINT32 && !(samples == WINDOW - 1 && busy < WINDOW)
    ensures LeftBehind(older) && ScanRuns(older, samples, busy).busy > WINDOW
  {
    if busy > WINDOW {
      older := [];
    } else if samples < WINDOW - 1 {
      older := Climb(WINDOW + 1 - busy);
      ClimbScan(WINDOW + 1 - busy, samples, busy);
      ClimbScan(WINDOW + 1 - busy, 0, 0);
    } else {
      older := [Run(1, true)];
      assert older[1..] == [];
    }
  }

  /** Runs at which a receiver can arrive, the second one after 9.5 idle hours. */
  ghost const OVERFLOWED: seq<Run> := [Run(2, true), Run(UINT32 - 2, false), Run(WINDOW - 1, true)]

  /** They are reported as more than a full window, survive that report, and spoil later ones. */
  lemma OverflowExample()
    ensures ScanRuns(OVERFLOWED, 0, 0) == Scan(WINDOW + 1, 3)
    ensures ScanRuns([Run(1, false)] + OVERFLOWED, 0, 0).busy == WINDOW + 1
  {
    var last := [Run(WINDOW - 1, true)];
    assert OVERFLOWED[1..] == [Run(UINT32 - 2, false)] + last && OVERFLOWED[1..][1..] == last && last[1..] == [];
    assert ([Run(1, false)] + OVERFLOWED)[1..] == OVERFLOWED;
    ScanPasses(last, 0, 2, WINDOW - 1, WINDOW + 1);
    ScanPasses(OVERFLOWED[1..], 2, 2, 0, 2);
    ScanPasses(OVERFLOWED, 0, 0, 2, 2);
    ScanPasses(OVERFLOWED[1..], 3, 2, 1, 2);
    ScanPasses(OVERFLOWED, 1, 0, 3, 2);
    ScanPasses([Run(1, false)] + OVERFLOWED, 0, 0, 1, 0);
  }

  // ---- what a deque that has been cut back still knows ----

  /** The deque's count is right for every history that begins with it. */
  ghost predicate RightForAll(runs: seq<Run>) {
    forall older: seq<bool> | |Expand(runs) + older| >= WINDOW ::
      ScanRuns(runs, 0, 0).busy == Count(Window(Expand(runs) + older))
  }

  /** A report is right, whatever happened before the runs it knows of, exactly if these fill the window. */
  lemma ReportRightIff(runs: seq<Run>)
    requires Fits(runs)
    ensures RightForAll(runs) <==> Total(runs) >= WINDOW
  {
    var known := Expand(runs);
    ScanExact(runs, 0, 0);
    ExpandLength(runs);
    if Total(runs) >= WINDOW {
      forall older: seq<bool> ensures Window(known + older) == Window(known) {
      }
    } else {
      var missed := Repeat(WINDOW - |known|, true);
      assert Window(known + missed) == known + missed && Window(known) == known;
      CountConcat(known, missed);
      CountRepeat(WINDOW - |known|, true);
    }
  }

  /** The part of the window that lies beyond what the deque knows. */
  function Missed(history: seq<bool>, known: nat): seq<bool>
    requires |history| >= WINDOW
  {
    if known < WINDOW then history[known..WINDOW] else []
  }

  /**
   * A report counts the busy samples of the deque's window and keeps the longest prefix below it; what the
   * deque misses of the history's window is the whole error.
   */
  ghost predicate RightReport(runs: seq<Run>, kept: nat, busy: nat, history: seq<bool>) {
    && busy == Count(Window(Expand(runs))) <= WINDOW
    && KeptBelowWindow(runs, kept)
    && Total(runs) == |Expand(runs)| <= |history|
    && |history| >= WINDOW
    && Count(Window(history)) == busy + Count(Missed(history, Total(runs)))
    && Count(Missed(history, Total(runs))) <= |Missed(history, Total(runs))|
  }

  lemma ReportError(runs: seq<Run>, history: seq<bool>)
    requires Expand(runs) <= history && |history| >= WINDOW && |Expand(runs)| == Total(runs)
    ensures Count(Window(history)) == Count(Window(Expand(runs))) + Count(Missed(history, Total(runs)))
  {
    var missed := Missed(history, Total(runs));
    assert Window(history) == Window(Expand(runs)) + missed;
    CountConcat(Window(Expand(runs)), missed);
  }

  lemma ReportFacts(runs: seq<Run>, kept: nat, history: seq<bool>)
    requires Fits(runs) && Expand(runs) <= history && |history| >= WINDOW
    requires kept == ScanRuns(runs, 0, 0).kept
    ensures RightReport(runs, kept, ScanRuns(runs, 0, 0).busy, history)
  {
    ExpandLength(runs);
    ScanExact(runs, 0, 0);
    ScanKeeps(runs, 0, 0, kept);
    ReportError(runs, history);
    CountAtMost(Window(Expand(runs)));
    CountAtMost(Missed(history, Total(runs)));
  }
}
