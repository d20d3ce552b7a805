/**
 * Generation timing of cooperative awareness messages: EN 302 637-2, section 6.1.3. Times are
 * picoseconds. A ghost log of all messages sent makes the rules statements about whole runs.
 */
module CamGeneration {
  import opened Wrappers
  import opened Machine

  const LOW_FREQUENCY_INTERVAL: int := 500 * TICKS_PER_MS
  const DEFAULT_MAX: int := 1000 * TICKS_PER_MS
  const LOW_DYNAMICS_LIMIT: nat := 3

  function Min(a: int, b: int): (r: int)
    ensures r <= a && r <= b && (r == a || r == b)
  {
    if b < a then b else a
  }

  function Max(a: int, b: int): (r: int)
    ensures r >= a && r >= b && (r == a || r == b)
  {
    if a < b then b else a
  }

  /** Why a message was sent. */
  datatype Cause = FixedRate | Dynamics | LowDynamics

  /** A message, with the delay that congestion control reported when it was sent, if it is in force. */
  datatype Sent = Sent(time: int, cause: Cause, lowFrequency: bool, delay: Option<int>)

  /** Changes since the last message that exceed their thresholds. */
  datatype Deltas = Deltas(heading: bool, position: bool, speed: bool)

  // ---- reading the log ----

  /** Time of the last message with a low-frequency container; before the first one, 500 ms early. */
  function LastLowFrequency(log: seq<Sent>, start: int): int {
    if log == [] then start - LOW_FREQUENCY_INTERVAL
    else if log[|log| - 1].lowFrequency then log[|log| - 1].time
    else LastLowFrequency(log[..|log| - 1], start)
  }

  function LastTime(log: seq<Sent>, start: int): int {
    if log == [] then start else log[|log| - 1].time
  }

  /** Number of low-dynamics messages since the last dynamics message. */
  function LowDynamicsRun(log: seq<Sent>): nat {
    if log == [] then 0
    else match log[|log| - 1].cause
      case Dynamics => 0
      case LowDynamics => LowDynamicsRun(log[..|log| - 1]) + 1
      case FixedRate => LowDynamicsRun(log[..|log| - 1])
  }

  /** The container rule: it is there exactly when 500 ms have passed since it was last sent. */
  ghost predicate ContainersRight(log: seq<Sent>, start: int) {
    log != [] ==>
      var m := |log| - 1;
      && ContainersRight(log[..m], start)
      && (log[m].lowFrequency <==> log[m].time - LastLowFrequency(log[..m], start) >= LOW_FREQUENCY_INTERVAL)
  }

  /** The interval to keep: the reported delay, clamped to the limits; the minimum without congestion control. */
  function Interval(min: int, max: int, delay: Option<int>): int {
    if delay.None? then min else Min(max, Max(min, delay.value))
  }

  /**
   * Consecutive messages are at least the interval apart that the reported delay demands; and, if `high` is
   * given, less than `high`.
   */
  ghost predicate Spaced(log: seq<Sent>, start: int, min: int, max: int, high: Option<int>) {
    log != [] ==>
      var m := |log| - 1;
      var gap := log[m].time - LastTime(log[..m], start);
      Spaced(log[..m], start, min, max, high) && Interval(min, max, log[m].delay) <= gap && (high.Some? ==> gap < high.value)
  }

  lemma {:induction false} SpacedPairs(log: seq<Sent>, start: int, min: int, max: int, high: Option<int>, k: nat)
    requires Spaced(log, start, min, max, high) && k + 1 < |log|
    ensures Interval(min, max, log[k + 1].delay) <= log[k + 1].time - log[k].time
    ensures high.Some? ==> log[k + 1].time - log[k].time < high.value
  {
    if k + 2 < |log| {
      SpacedPairs(log[..|log| - 1], start, min, max, high, k);
    }
  }

  lemma {:induction false} FirstHasContainer(log: seq<Sent>, start: int)
    requires ContainersRight(log, start) && log != [] && log[0].time >= start
    ensures log[0].lowFrequency
  {
    var m := |log| - 1;
    if m > 0 {
      FirstHasContainer(log[..m], start);
    } else {
      assert log[..m] == [];
    }
  }

  /** A later message without the container comes less than 500 ms after some message that had it. */
  lemma {:induction false} ContainerRecent(log: seq<Sent>, start: int)
    requires ContainersRight(log, start) && log != [] && log[0].time >= start
    ensures exists k :: 0 <= k < |log| && log[k].lowFrequency && log[k].time == LastLowFrequency(log, start)
    ensures !log[|log| - 1].lowFrequency ==> log[|log| - 1].time - LastLowFrequency(log, start) < LOW_FREQUENCY_INTERVAL
  {
    var m := |log| - 1;
    if !log[m].lowFrequency {
      FirstHasContainer(log, start);
      ContainerRecent(log[..m], start);
      var k :| 0 <= k < m && log[..m][k].lowFrequency && log[..m][k].time == LastLowFrequency(log[..m], start);
      assert log[k].lowFrequency && log[k].time == LastLowFrequency(log, start);
    }
  }

  /** Messages are logged as time passes. */
  ghost predicate InOrder(log: seq<Sent>, start: int) {
    log != [] ==>
      var m := |log| - 1;
      InOrder(log[..m], start) && LastTime(log[..m], start) <= log[m].time
  }

  lemma {:induction false} EarlierThanLast(log: seq<Sent>, start: int)
    requires InOrder(log, start)
    ensures start <= LastTime(log, start)
    ensures forall j :: 0 <= j < |log| ==> start <= log[j].time <= LastTime(log, start)
  {
    if log != [] {
      var earlier := log[..|log| - 1];
      EarlierThanLast(earlier, start);
      forall j | 0 <= j < |log| - 1 ensures start <= log[j].time <= LastTime(log, start) {
        assert earlier[j] == log[j];
      }
    }
  }

  /** The last message with a container comes after all others with one. */
  lemma {:induction false} LastIsLatest(log: seq<Sent>, start: int)
    requires InOrder(log, start)
    ensures forall j :: 0 <= j < |log| && log[j].lowFrequency ==> log[j].time <= LastLowFrequency(log, start)
  {
    EarlierThanLast(log, start);
    if log != [] && !log[|log| - 1].lowFrequency {
      LastIsLatest(log[..|log| - 1], start);
      forall j | 0 <= j < |log| && log[j].lowFrequency ensures log[j].time <= LastLowFrequency(log, start) {
        assert log[..|log| - 1][j] == log[j];
      }
    }
  }

  /** A message has the container exactly if no earlier message had it within the last 500 ms. */
  lemma {:induction false} ContainerExactly(log: seq<Sent>, start: int, k: nat)
    requires ContainersRight(log, start) && InOrder(log, start) && k < |log|
    ensures log[k].lowFrequency <==>
      forall j :: 0 <= j < k && log[j].lowFrequency ==> log[k].time - log[j].time >= 500_000_000_000
  {
    var earlier := log[..|log| - 1];
    EarlierThanLast(log, start);
    if k < |log| - 1 {
      ContainerExactly(earlier, start, k);
      assert forall j :: 0 <= j < k ==> earlier[j] == log[j];
    } else if k > 0 {
      LastIsLatest(earlier, start);
      ContainerRecent(earlier, start);
      var j :| 0 <= j < k && earlier[j].lowFrequency && earlier[j].time == LastLowFrequency(earlier, start);
      assert log[j].lowFrequency && forall i :: 0 <= i < k ==> earlier[i] == log[i];
    }
  }

  /** The low-dynamics messages that no dynamics message has followed. */
  ghost function Unanswered(log: seq<Sent>): set<nat> {
    set k: nat | k < |log| && log[k].cause == LowDynamics && forall j :: k <= j < |log| ==> log[j].cause != Dynamics
  }

  /** The run counts just these. */
  lemma {:induction false} LowDynamicsCount(log: seq<Sent>)
    ensures LowDynamicsRun(log) == |Unanswered(log)|
  {
    if log == [] {
      assert Unanswered(log) == {};
    } else {
      LowDynamicsCount(log[..|log| - 1]);
      UnansweredNext(log);
    }
  }

  lemma ThreeInARow(log: seq<Sent>)
    requires |log| >= 3 && forall j :: |log| - 3 <= j < |log| ==> log[j].cause == LowDynamics
    ensures LowDynamicsRun(log) >= 3
  {
    var last := log[..|log| - 1];
    var third := last[..|log| - 2];
    assert last[|log| - 2] == log[|log| - 2] && third[|log| - 3] == log[|log| - 3];
    assert LowDynamicsRun(log) == LowDynamicsRun(last) + 1 && LowDynamicsRun(last) == LowDynamicsRun(third) + 1;
  }

  lemma UnansweredNext(log: seq<Sent>)
    requires log != []
    ensures var m := |log| - 1;
      Unanswered(log) == match log[m].cause
        case Dynamics => {}
        case LowDynamics => Unanswered(log[..m]) + {m}
        case FixedRate => Unanswered(log[..m])
  {
    var m := |log| - 1;
    forall k: nat | k < m ensures k in Unanswered(log) <==> log[m].cause != Dynamics && k in Unanswered(log[..m]) {
      assert forall j :: 0 <= j < m ==> log[..m][j] == log[j];
    }
  }

  lemma LogSnoc(log: seq<Sent>, s: Sent, start: int)
    ensures LastTime(log + [s], start) == s.time
    ensures LowDynamicsRun(log + [s]) == match s.cause
      case Dynamics => 0
      case LowDynamics => LowDynamicsRun(log) + 1
      case FixedRate => LowDynamicsRun(log)
    ensures LastLowFrequency(log + [s], start) == if s.lowFrequency then s.time else LastLowFrequency(log, start)
    ensures InOrder(log + [s], start) == (InOrder(log, start) && LastTime(log, start) <= s.time)
    ensures ContainersRight(log + [s], start) ==
      (ContainersRight(log, start) &&
       (s.lowFrequency <==> s.time - LastLowFrequency(log, start) >= LOW_FREQUENCY_INTERVAL))
  {
  }

  /** Spacing of the whole log: as the delays demand; while triggers are punctual, less than `high`. */
  ghost predicate GapsOk(log: seq<Sent>, start: int, min: int, max: int, high: int, punctual: bool) {
    Spaced(log, start, min, max, if punctual then Some(high) else None)
  }

  lemma GapsSnoc(log: seq<Sent>, s: Sent, start: int, min: int, max: int, high: int, punctual: bool)
    requires GapsOk(log, start, min, max, high, punctual) && Interval(min, max, s.delay) <= s.time - LastTime(log, start)
    requires punctual ==> s.time - LastTime(log, start) < high
    ensures GapsOk(log + [s], start, min, max, high, punctual)
  {
  }

  /** At the last trigger the log was spaced as it should be, and no message overdue. */
  ghost predicate Timely(log: seq<Sent>, start: int, lastTrigger: int, min: int, max: int, slowest: int, period: int, punctual: bool) {
    && start <= LastTime(log, start) <= lastTrigger < LastTime(log, start) + slowest
    && GapsOk(log, start, min, max, slowest + period, punctual)
  }

  /** A trigger at `now` that sends a message. */
  lemma TimelySent(log: seq<Sent>, s: Sent, start: int, lastTrigger: int, min: int, max: int, slowest: int, period: int, punctual: bool)
    requires Timely(log, start, lastTrigger, min, max, slowest, period, punctual) && slowest > 0
    requires lastTrigger <= s.time && Interval(min, max, s.delay) <= s.time - LastTime(log, start)
    ensures Timely(log + [s], start, s.time, min, max, slowest, period, punctual && s.time - lastTrigger <= period)
  {
    GapsLate(log, start, min, max, slowest + period);
    GapsSnoc(log, s, start, min, max, slowest + period, punctual && s.time - lastTrigger <= period);
    LogSnoc(log, s, start);
  }

  /** A trigger at `now` that finds no message due. */
  lemma TimelyIdle(log: seq<Sent>, now: int, start: int, lastTrigger: int, min: int, max: int, slowest: int, period: int, punctual: bool)
    requires Timely(log, start, lastTrigger, min, max, slowest, period, punctual)
    requires lastTrigger <= now < LastTime(log, start) + slowest
    ensures Timely(log, start, now, min, max, slowest, period, punctual && now - lastTrigger <= period)
  {
    GapsLate(log, start, min, max, slowest + period);
  }

  lemma GapsLate(log: seq<Sent>, start: int, min: int, max: int, high: int)
    ensures GapsOk(log, start, min, max, high, true) ==> GapsOk(log, start, min, max, high, false)
  {
    SpacedWeaker(log, start, min, max, high);
  }

  /** The 32-bit counter reaches the limit exactly at the third low-dynamics message in a row. */
  lemma CounterStep(run: nat, counter: nat)
    requires counter == run % UINT32
    ensures (counter + 1) % UINT32 == (run + 1) % UINT32
    ensures run + 1 <= LOW_DYNAMICS_LIMIT ==> (counter + 1) % UINT32 == run + 1
  {
    var wraps := run / UINT32;
    assert run + 1 == wraps * UINT32 + (counter + 1);
  }

  // ---- the service ----

  class CaService {
    var genCamMin: int
    var genCamMax: int
    var genCam: int
    var lowDynamicsCounter: nat  // 32-bit
    var lastCam: int
    var lastLowCam: int
    var dccRestriction: bool
    var fixedRate: bool
    ghost var start: int
    ghost var log: seq<Sent>
    ghost var lastTrigger: int
    ghost const period: int  // announced bound on the spacing of triggers
    ghost var punctual: bool  // all triggers so far came within it

    /** Limits as the standard has them; nothing in the code enforces this. */
    ghost predicate Sane()
      reads `genCamMin, `genCamMax
    {
      genCamMin <= genCamMax && genCamMin <= DEFAULT_MAX
    }

    ghost function Fastest(): int
      reads `genCamMin, `genCamMax
    {
      Min(genCamMin, genCamMax)
    }

    ghost function Slowest(): int
      reads `genCamMin, `genCamMax
    {
      Max(genCamMin, Max(DEFAULT_MAX, genCamMax))
    }

    ghost predicate TimingValid()
      reads this
    {
      && lastCam == LastTime(log, start)
      && Min(DEFAULT_MAX, Fastest()) <= genCam <= Slowest()
      && Timely(log, start, lastTrigger, genCamMin, genCamMax, Slowest(), period, punctual)
    }

    ghost predicate RateValid()
      reads `log, `lowDynamicsCounter, `genCam, `genCamMax
    {
      && lowDynamicsCounter == LowDynamicsRun(log) % UINT32
      && (LowDynamicsRun(log) >= LOW_DYNAMICS_LIMIT ==> genCam == genCamMax)
    }

    ghost predicate ContainerValid()
      reads `log, `start, `lastLowCam
    {
      && lastLowCam == LastLowFrequency(log, start)
      && ContainersRight(log, start)
      && InOrder(log, start)
    }

    ghost predicate Valid()
      reads this
    {
      TimingValid() && RateValid() && ContainerValid()
    }

    /**
     * The standard's rules over the whole run: message spacing by the reported delay, clamped to the limits;
     * the low-frequency container in the first message and whenever none was sent for 500 ms; and low dynamics
     * slow the rate down to the maximum interval.
     */
    lemma WholeRun(k: nat)
      requires Valid() && k + 1 < |log|
      ensures var gap, delay := log[k + 1].time - log[k].time, log[k + 1].delay;
        && gap >= Fastest()
        && (delay.None? ==> gap >= genCamMin)
        && (delay.Some? ==>
            gap >= if genCamMax <= delay.value || genCamMax <= genCamMin then genCamMax
                   else if delay.value <= genCamMin then genCamMin else delay.value)
      ensures punctual ==> log[k + 1].time - log[k].time < Max(genCamMin, Max(1000 * TICKS_PER_MS, genCamMax)) + period
      ensures Sane() ==> Fastest() == genCamMin <= genCam && Slowest() == Max(DEFAULT_MAX, genCamMax)
      ensures log[0].lowFrequency
      ensures log[k].lowFrequency <==>
        forall j :: 0 <= j < k && log[j].lowFrequency ==> log[k].time - log[j].time >= 500_000_000_000
      ensures |log| >= 3 && (forall j :: |log| - 3 <= j < |log| ==> log[j].cause == LowDynamics) ==> genCam == genCamMax
    {
      EarlierThanLast(log, start);
      if |log| >= 3 && forall j :: |log| - 3 <= j < |log| ==> log[j].cause == LowDynamics {
        ThreeInARow(log);
      }
      ContainerExactly(log, start, k);
      SpacedPairs(log, start, genCamMin, genCamMax, if punctual then Some(Slowest() + period) else None, k);
      FirstHasContainer(log, start);
    }

    constructor (now: int, minInterval: int, maxInterval: int, dcc: bool, fixed: bool, ghost period: int)
      ensures Valid() && log == [] && start == lastTrigger == now && punctual && this.period == period
      ensures genCamMin == minInterval && genCamMax == maxInterval && genCam == 1000 * TICKS_PER_MS
      ensures dccRestriction == dcc && fixedRate == fixed
    {
      lastCam := now;
      lastLowCam := now - LOW_FREQUENCY_INTERVAL;
      genCamMin, genCamMax, genCam := minInterval, maxInterval, DEFAULT_MAX;
      lowDynamicsCounter := 0;
      dccRestriction, fixedRate := dcc, fixed;
      start, log, lastTrigger, punctual := now, [], now, true;
      this.period := period;
    }

    /** Interval that congestion control allows, clamped to the configured limits. */
    function GenCamDcc(delay: int): int
      reads `genCamMin, `genCamMax
    {
      Min(genCamMax, Max(genCamMin, delay))
    }

    method SendCam(now: int, ghost cause: Cause, ghost delay: Option<int>) returns (ghost sent: Sent)
      requires ContainerValid() && start <= now && LastTime(log, start) <= now
      modifies `lastCam, `lastLowCam, `log
      ensures ContainerValid() && lastCam == now == LastTime(log, start)
      ensures sent.time == now && sent.cause == cause && sent.delay == delay && log == old(log) + [sent]
      ensures sent.lowFrequency <==> now - old(lastLowCam) >= 500_000_000_000
      ensures lastLowCam == if sent.lowFrequency then now else old(lastLowCam)
      ensures LowDynamicsRun(log) == match cause
        case Dynamics => 0
        case LowDynamics => LowDynamicsRun(old(log)) + 1
        case FixedRate => LowDynamicsRun(old(log))
    {
      lastCam := now;
      ghost var low := false;
      if now - lastLowCam >= LOW_FREQUENCY_INTERVAL {
        lastLowCam := now;
        low := true;
      }
      sent := Sent(now, cause, low, delay);
      LogSnoc(log, sent, start);
      log := log + [sent];
    }

    /** Sends a message and adapts the generation interval to its cause. */
    method Generate(now: int, cause: Cause, elapsed: int, ghost delay: Option<int>) returns (ghost sent: Sent)
      requires RateValid() && ContainerValid() && start <= now && LastTime(log, start) <= now
      modifies `genCam, `lowDynamicsCounter, `lastCam, `lastLowCam, `log
      ensures RateValid() && ContainerValid() && lastCam == now == LastTime(log, start)
      ensures sent.time == now && sent.cause == cause && sent.delay == delay && log == old(log) + [sent]
      ensures cause == Dynamics ==> genCam == Min(elapsed, genCamMax)
      ensures cause == LowDynamics ==>
        genCam == if LowDynamicsRun(log) % UINT32 >= 3 then genCamMax else old(genCam)
      ensures cause == FixedRate ==> genCam == old(genCam)
    {
      CounterStep(LowDynamicsRun(log), lowDynamicsCounter);
      sent := SendCam(now, cause, delay);
      if cause == Dynamics {
        genCam := Min(elapsed, genCamMax);
        lowDynamicsCounter := 0;
      } else if cause == LowDynamics {
        lowDynamicsCounter := (lowDynamicsCounter + 1) % UINT32;
        if lowDynamicsCounter >= LOW_DYNAMICS_LIMIT {
          genCam := genCamMax;
        }
      }
    }

    /**
     * One trigger. `delay` is what the transmit rate control of the primary channel reports, if
     * there is one; it is only looked up under congestion control.
     */
    method CheckTriggeringConditions(now: int, deltas: Deltas, delay: Option<int>) returns (cause: Option<Cause>, failed: bool)
      requires Valid() && lastTrigger <= now
      modifies `genCam, `lowDynamicsCounter, `lastCam, `lastLowCam, `log, `lastTrigger, `punctual
      ensures Valid()
      ensures failed <==> dccRestriction && delay.None?
      ensures failed ==> cause.None? && lastTrigger == old(lastTrigger) && log == old(log)
      ensures !failed ==> lastTrigger == now && punctual == (old(punctual) && now - old(lastTrigger) <= period)
      ensures !failed ==>
        var elapsed := now - old(lastCam);
        var needed :=
          if !dccRestriction then genCamMin
          else if genCamMax <= delay.value || genCamMax <= genCamMin then genCamMax
          else if delay.value <= genCamMin then genCamMin else delay.value;
        var moved := deltas.heading || deltas.position || deltas.speed;
        && (cause.Some? <==> elapsed >= needed && (fixedRate || moved || elapsed >= old(genCam)))
        && (cause.Some? ==> cause.value == if fixedRate then FixedRate else if moved then Dynamics else LowDynamics)
        && (cause == Some(Dynamics) ==> genCam == Min(elapsed, genCamMax))
      ensures cause == Some(LowDynamics) ==>
        genCam == if LowDynamicsRun(log) % UINT32 >= 3 then genCamMax else old(genCam)
      ensures cause == Some(FixedRate) ==> genCam == old(genCam)
      ensures cause.Some? ==>
        && log != []
        && var sent := log[|log| - 1];
          && log == old(log) + [sent] && sent.time == now && sent.cause == cause.value
          && sent.delay == if dccRestriction then delay else None
      ensures cause.None? ==> log == old(log) && genCam == old(genCam)
    {
      cause, failed := Decide(now - lastCam, deltas, delay);
      if !failed {
        Proceed(now, cause, if dccRestriction then delay else None);
      }
    }

    /** Whether and why a message is due after the given time. */
    method Decide(elapsed: int, deltas: Deltas, delay: Option<int>) returns (cause: Option<Cause>, failed: bool)
      ensures failed <==> dccRestriction && delay.None?
      ensures failed ==> cause.None?
      ensures !failed ==>
        var needed :=
          if !dccRestriction then genCamMin
          else if genCamMax <= delay.value || genCamMax <= genCamMin then genCamMax
          else if delay.value <= genCamMin then genCamMin else delay.value;
        var moved := deltas.heading || deltas.position || deltas.speed;
        && (cause.Some? <==> elapsed >= needed && (fixedRate || moved || elapsed >= genCam))
        && (cause.Some? ==> cause.value == if fixedRate then FixedRate else if moved then Dynamics else LowDynamics)
      ensures cause.Some? ==> elapsed >= Interval(genCamMin, genCamMax, if dccRestriction then delay else None)
    {
      cause, failed := None, false;
      var dcc := genCamMin;
      if dccRestriction {
        if delay.None? {
          return None, true;
        }
        dcc := GenCamDcc(delay.value);
      }
      if elapsed >= dcc {
        if fixedRate {
          cause := Some(FixedRate);
        } else if Moved(deltas) {
          cause := Some(Dynamics);
        } else if elapsed >= genCam {
          cause := Some(LowDynamics);
        }
      }
    }

    /** Sends for the decided cause, if any, and notes that this trigger has been handled. */
    method Proceed(now: int, cause: Option<Cause>, ghost delay: Option<int>)
      requires Valid() && lastTrigger <= now
      requires cause.Some? ==> now - lastCam >= Interval(genCamMin, genCamMax, delay)
      requires cause.None? ==> now - lastCam < Slowest()
      modifies `genCam, `lowDynamicsCounter, `lastCam, `lastLowCam, `log, `lastTrigger, `punctual
      ensures Valid() && lastTrigger == now
      ensures punctual == (old(punctual) && now - old(lastTrigger) <= period)
      ensures cause.Some? ==> exists low :: log == old(log) + [Sent(now, cause.value, low, delay)]
      ensures cause == Some(Dynamics) ==> genCam == Min(now - old(lastCam), genCamMax)
      ensures cause == Some(LowDynamics) ==>
        genCam == if LowDynamicsRun(log) % UINT32 >= 3 then genCamMax else old(genCam)
      ensures cause == Some(FixedRate) ==> genCam == old(genCam)
      ensures cause.None? ==> log == old(log) && genCam == old(genCam)
    {
      if cause.Some? {
        ghost var before := log;
        ghost var sent := Generate(now, cause.value, now - lastCam, delay);
        assert sent == Sent(now, cause.value, sent.lowFrequency, delay);
        TimelySent(before, sent, start, lastTrigger, genCamMin, genCamMax, Slowest(), period, punctual);
      } else {
        TimelyIdle(log, now, start, lastTrigger, genCamMin, genCamMax, Slowest(), period, punctual);
      }
      punctual := punctual && now - lastTrigger <= period;
      lastTrigger := now;
    }
  }

  /** Some change exceeds its threshold. */
  predicate Moved(deltas: Deltas) {
    deltas.heading || deltas.position || deltas.speed
  }

  lemma {:induction false} SpacedWeaker(log: seq<Sent>, start: int, min: int, max: int, high: int)
    ensures Spaced(log, start, min, max, Some(high)) ==> Spaced(log, start, min, max, None)
  {
    if log != [] {
      SpacedWeaker(log[..|log| - 1], start, min, max, high);
    }
  }
}
