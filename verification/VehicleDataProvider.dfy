/** Heading, yaw rate, curvature and confidence derived from the positions a vehicle reports. */
module VehicleData {
  import opened Machine
  import opened VehicleFilters

  const MAX_TIME: int := 0x7FFF_FFFF_FFFF_FFFF

  /** Whole milliseconds of a duration, rounded towards zero. */
  function InMilliseconds(ticks: int): int {
    Truncate(ticks, TICKS_PER_MS)
  }

  /** The rest that is cut off is shorter than a millisecond, which is 10^9 ticks, and has the duration's sign. */
  lemma RestCutOff(ticks: int)
    ensures var rest := ticks - InMilliseconds(ticks) * 1_000_000_000;
      if ticks >= 0 then 0 <= rest < 1_000_000_000 else -1_000_000_000 < rest <= 0
  {
  }

  // ---- published curvature ----

  /** Below the lower threshold the road counts as straight; above the upper one it is clamped. */
  function Publish(y: real): real {
    if Abs(y) < 1.0 / 2500.0 then 0.0 else if Abs(y) > 1.0 then 1.0 else y
  }

  ghost predicate Publishable(c: real) {
    c == 0.0 || 1.0 / 2500.0 <= Abs(c) <= 1.0
  }

  /**
   * Left turns are to be positive. The clamp writes the positive limit for either direction, so
   * the sign survives exactly when the filter output is not a right turn tighter than one metre.
   */
  lemma PublishedSign(y: real)
    ensures Publishable(Publish(y))
    ensures Abs(y) < 1.0 / 2500.0 ==> Publish(y) == 0.0
    ensures 1.0 / 2500.0 <= Abs(y) <= 1.0 ==> Publish(y) == y
    ensures Abs(y) > 1.0 ==> Publish(y) == 1.0
    ensures (Publish(y) > 0.0 ==> y > 0.0) && (Publish(y) < 0.0 ==> y < 0.0) <==> y >= -1.0
  {
  }

  // ---- confidence table ----

  datatype Acceleration = Finite(degrees: real) | Infinite

  const CONFIDENCE_TABLE: seq<(Acceleration, real)> := [
    (Finite(0.0), 1.0), (Finite(0.5), 0.9), (Finite(1.0), 0.8), (Finite(1.5), 0.7),
    (Finite(2.0), 0.6), (Finite(2.5), 0.5), (Finite(5.0), 0.4), (Finite(10.0), 0.3),
    (Finite(15.0), 0.2), (Finite(20.0), 0.1), (Finite(25.0), 0.0), (Infinite, 0.0)
  ]

  datatype Lookup = DomainError | Confidence(value: real)

  /** Is the key, given in degrees, at least x radians per square second? */
  predicate KeyReaches(key: Acceleration, x: real, pi: real) {
    key.Infinite? || x <= key.degrees * pi / 180.0
  }

  /** Value of the first entry from position i on whose key is not less than x. */
  function LookupFrom(i: nat, x: real, pi: real): Lookup
    decreases |CONFIDENCE_TABLE| - i
  {
    if i >= |CONFIDENCE_TABLE| then DomainError
    else if KeyReaches(CONFIDENCE_TABLE[i].0, x, pi) then Confidence(CONFIDENCE_TABLE[i].1)
    else LookupFrom(i + 1, x, pi)
  }

  function MapOntoConfidence(x: real, pi: real): Lookup {
    LookupFrom(0, x, pi)
  }

  lemma {:induction false} LookupFinds(i: nat, x: real, pi: real)
    requires i < |CONFIDENCE_TABLE|
    ensures LookupFrom(i, x, pi).Confidence?
    ensures exists j :: i <= j < |CONFIDENCE_TABLE| && LookupFrom(i, x, pi).value == CONFIDENCE_TABLE[j].1
    decreases |CONFIDENCE_TABLE| - i
  {
    if !KeyReaches(CONFIDENCE_TABLE[i].0, x, pi) {
      LookupFinds(i + 1, x, pi);
    }
  }

  /** The lookup never throws, and more angular acceleration never means more confidence. */
  lemma {:induction false} LookupAntitone(i: nat, x: real, y: real, pi: real)
    requires i < |CONFIDENCE_TABLE| && x <= y
    ensures LookupFrom(i, x, pi).Confidence? && LookupFrom(i, y, pi).Confidence?
    ensures 0.0 <= LookupFrom(i, y, pi).value <= LookupFrom(i, x, pi).value <= 1.0
    decreases |CONFIDENCE_TABLE| - i
  {
    LookupFinds(i, x, pi);
    LookupFinds(i, y, pi);
    var j :| i <= j < |CONFIDENCE_TABLE| && LookupFrom(i, y, pi).value == CONFIDENCE_TABLE[j].1;
    var k :| i <= k < |CONFIDENCE_TABLE| && LookupFrom(i, x, pi).value == CONFIDENCE_TABLE[k].1;
    TableDecreases(i, j);
    if !KeyReaches(CONFIDENCE_TABLE[i].0, x, pi) {
      LookupAntitone(i + 1, x, y, pi);
    }
  }

  /** The degrees and the confidences of the table meet in these intervals. */
  lemma ConfidenceIntervals(x: real, pi: real)
    requires pi > 0.0
    ensures var degree := pi / 180.0;
      var c := MapOntoConfidence(x, pi);
      && (c == Confidence(1.0) <==> x <= 0.0)
      && (c == Confidence(0.9) <==> 0.0 < x <= 0.5 * degree)
      && (c == Confidence(0.8) <==> 0.5 * degree < x <= 1.0 * degree)
      && (c == Confidence(0.7) <==> 1.0 * degree < x <= 1.5 * degree)
      && (c == Confidence(0.6) <==> 1.5 * degree < x <= 2.0 * degree)
      && (c == Confidence(0.5) <==> 2.0 * degree < x <= 2.5 * degree)
      && (c == Confidence(0.4) <==> 2.5 * degree < x <= 5.0 * degree)
      && (c == Confidence(0.3) <==> 5.0 * degree < x <= 10.0 * degree)
      && (c == Confidence(0.2) <==> 10.0 * degree < x <= 15.0 * degree)
      && (c == Confidence(0.1) <==> 15.0 * degree < x <= 20.0 * degree)
      && (c == Confidence(0.0) <==> 20.0 * degree < x)
  {
    var j := FirstReached(x, pi);
    EntryReached(0, j, x, pi);
  }

  /** The entry at which the search stops, by the thresholds before and at it. */
  lemma FirstReached(x: real, pi: real) returns (j: nat)
    requires pi > 0.0
    ensures j < |CONFIDENCE_TABLE| && KeyReaches(CONFIDENCE_TABLE[j].0, x, pi)
    ensures forall k :: 0 <= k < j ==> !KeyReaches(CONFIDENCE_TABLE[k].0, x, pi)
  {
    j := 0;
    while !KeyReaches(CONFIDENCE_TABLE[j].0, x, pi)
      invariant j < |CONFIDENCE_TABLE|
      invariant forall k :: 0 <= k < j ==> !KeyReaches(CONFIDENCE_TABLE[k].0, x, pi)
      decreases |CONFIDENCE_TABLE| - j
    {
      j := j + 1;
    }
  }

  lemma {:induction false} EntryReached(i: nat, j: nat, x: real, pi: real)
    requires i <= j < |CONFIDENCE_TABLE| && KeyReaches(CONFIDENCE_TABLE[j].0, x, pi)
    requires forall k :: i <= k < j ==> !KeyReaches(CONFIDENCE_TABLE[k].0, x, pi)
    ensures LookupFrom(i, x, pi) == Confidence(CONFIDENCE_TABLE[j].1)
    decreases j - i
  {
    if i < j {
      EntryReached(i + 1, j, x, pi);
    }
  }

  lemma TableDecreases(i: nat, j: nat)
    requires i <= j < |CONFIDENCE_TABLE|
    ensures forall k :: 0 <= k < |CONFIDENCE_TABLE| ==> 0.0 <= CONFIDENCE_TABLE[k].1 <= 1.0
    ensures CONFIDENCE_TABLE[i].1 >= CONFIDENCE_TABLE[j].1
  {
  }

  // ---- the two filters of the provider ----

  function CurvatureOmega(pi: real): real {
    2.0 * pi * 0.33
  }

  const CURVATURE_PERIOD: real := 0.1

  function ConfidenceOmega(pi: real): real {
    2.0 * pi * 1.0
  }

  const CONFIDENCE_PERIOD: real := 100.0

  /** Largest yaw rate: half a turn within the shortest step of one millisecond. */
  function YawLimit(pi: real): real {
    1000.0 * pi
  }

  /** Largest change of the yaw rate over the sampling period of the confidence filter. */
  function ConfidenceLimit(pi: real): real {
    2.0 * YawLimit(pi) / CONFIDENCE_PERIOD
  }

  /** Next confidence filter output from the two previous ones and two successive yaw rates. */
  function ConfidenceStep(newest: real, older: real, yaw: real, before: real, omega: real, t: real): real
    requires omega > 0.0 && t > 0.0
  {
    Positive(omega, t);
    (-older + (2.0 + 2.0 * omega * DAMPING * t) * newest + omega * omega * t * yaw - omega * omega * t * before)
    / (1.0 + 2.0 * omega * DAMPING * t + omega * omega * t * t)
  }

  /** The confidence filter is the same low-pass, driven by the difference quotient of the yaw rate. */
  lemma ConfidenceIsFilteredDerivative(newest: real, older: real, yaw: real, before: real, omega: real, t: real)
    requires omega > 0.0 && t > 0.0
    ensures ConfidenceStep(newest, older, yaw, before, omega, t) == FilterStep(newest, older, (yaw - before) / t, omega, t)
  {
    var raw := (yaw - before) / t;
    Quotient(yaw - before, t, raw);
    SamplingCancels(omega, t, raw, yaw, before);
    var base := -older + (2.0 + 2.0 * omega * DAMPING * t) * newest;
    SameSum(base, omega * omega * t * t * raw, omega * omega * t * yaw, omega * omega * t * before);
    Positive(omega, t);
  }

  lemma SameSum(base: real, x: real, y: real, z: real)
    requires x == y - z
    ensures base + x == base + y - z
  {
  }

  lemma SamplingCancels(omega: real, t: real, raw: real, yaw: real, before: real)
    requires raw * t == yaw - before
    ensures omega * omega * t * t * raw == omega * omega * t * yaw - omega * omega * t * before
  {
  }

  lemma QuotientBand(x: real, s: real, c: real, limit: real)
    requires s > 0.0 && Abs(x) <= c <= s * limit
    ensures Abs(x / s) <= limit
  {
  }

  function PerSecond(x: real, ms: int): real
    requires ms != 0
  {
    x / (ms as real / 1000.0)
  }

  /** A rate times the elapsed time is the difference, in seconds. */
  lemma RateTimesTime(x: real, ms: int)
    requires ms != 0
    ensures PerSecond(x, ms) * ms as real == 1000.0 * x
  {
    var s := ms as real / 1000.0;
    assert PerSecond(x, ms) * s == x;
  }

  lemma YawBounded(diff: real, ms: int, pi: real)
    requires pi > 0.0 && ms >= 1 && -pi <= diff <= pi
    ensures Abs(PerSecond(diff, ms)) <= YawLimit(pi)
  {
    var s := ms as real / 1000.0;
    Scale(YawLimit(pi), 0.001, s);
    QuotientBand(diff, s, pi, YawLimit(pi));
  }

  function PerPeriod(x: real): real {
    x / CONFIDENCE_PERIOD
  }

  /** What enters the curvature filter; nothing below 1 m/s. */
  function RawCurvature(yaw: real, speed: real): seq<real> {
    if Abs(speed) < 1.0 then [] else [yaw / speed]
  }

  lemma ChangeBounded(yaw: real, before: real, pi: real)
    requires pi > 0.0 && Abs(yaw) <= YawLimit(pi) && Abs(before) <= YawLimit(pi)
    ensures Abs(PerPeriod(yaw - before)) <= ConfidenceLimit(pi)
  {
  }

  lemma QuotientBounded(yaw: real, speed: real, limit: real)
    requires Abs(yaw) <= limit && Abs(speed) >= 1.0
    ensures speed != 0.0 && Abs(yaw / speed) <= limit
  {
    var q := yaw / speed;
    Divided(yaw, speed, q);
    FactorBounded(Abs(q), Abs(speed), Abs(yaw));
  }

  lemma Divided(x: real, s: real, q: real)
    requires s != 0.0 && q == x / s
    ensures Abs(s) * Abs(q) == Abs(x)
  {
    assert q * s == x;
    AbsProduct(q, s, x);
  }

  lemma AbsProduct(x: real, y: real, p: real)
    requires x * y == p
    ensures Abs(y) * Abs(x) == Abs(p)
  {
  }

  lemma FactorBounded(a: real, b: real, p: real)
    requires a >= 0.0 && b >= 1.0 && b * a == p
    ensures a <= p
  {
  }

  /** How one update turns the stored curvature outputs into new ones and a published value. */
  ghost predicate CurvatureFollows(before: seq<real>, after: seq<real>, published: real, yaw: real, speed: real, pi: real)
    requires pi > 0.0 && |before| <= 2
  {
    if Abs(speed) < 1.0 then after == before && published == 0.0
    else
      && after == Store(before, yaw / speed, CurvatureOmega(pi), CURVATURE_PERIOD)
      && published == if |before| == 2 then Publish(after[0]) else 0.0
  }

  ghost predicate ConfidenceFollows(before: seq<real>, after: seq<real>, confidence: real, yaw: real, lastYaw: real, pi: real)
    requires pi > 0.0 && |before| == 2
  {
    && after == Store(before, PerPeriod(yaw - lastYaw), ConfidenceOmega(pi), CONFIDENCE_PERIOD)
    && MapOntoConfidence(Abs(after[0]), pi) == Confidence(confidence)
  }

  /** The confidence filter of 1 Hz at 100 s takes the change of the yaw rate and remembers its last output. */
  lemma ConfidenceFiltered(before: seq<real>, after: seq<real>, confidence: real, yaw: real, lastYaw: real, pi: real)
    requires pi > 0.0 && |before| == 2 && ConfidenceFollows(before, after, confidence, yaw, lastYaw, pi)
    ensures after == [FilterStep(before[0], before[1], (yaw - lastYaw) / 100.0, 2.0 * pi * 1.0, 100.0), before[0]]
    ensures MapOntoConfidence(Abs(after[0]), pi) == Confidence(confidence)
  {
  }

  datatype Motion = Motion(speed: real, accel: real, heading: real, yawRate: real)

  /** Speed and heading are as reported; their rates of change refer to the last report, if there was one. */
  ghost predicate Measured(last: Motion, motion: Motion, ms: int, newSpeed: real, angle: real, pi: real)
    requires pi > 0.0
  {
    && motion.speed == newSpeed && motion.heading == ConvertMobilityAngle(angle, pi)
    && motion.yawRate == (if ms > 0 then PerSecond(WrapDifference(last.heading - motion.heading, pi), ms) else last.yawRate)
    && motion.accel == (if ms > 0 then PerSecond(newSpeed - last.speed, ms) else last.accel)
  }

  /** Rates times the elapsed seconds are the differences; a first report leaves the rates as they were. */
  lemma RatesMeasured(last: Motion, motion: Motion, ms: int, newSpeed: real, angle: real, pi: real)
    requires pi > 0.0 && ms != 0 && Measured(last, motion, ms, newSpeed, angle, pi)
    ensures motion.speed == newSpeed && motion.heading == ConvertMobilityAngle(angle, pi)
    ensures ms > 0 ==> motion.yawRate * ms as real == 1000.0 * WrapDifference(last.heading - motion.heading, pi)
    ensures ms > 0 ==> motion.accel * ms as real == 1000.0 * (newSpeed - last.speed)
    ensures ms < 0 ==> motion.yawRate == last.yawRate && motion.accel == last.accel
  {
    RateTimesTime(WrapDifference(last.heading - motion.heading, pi), ms);
    RateTimesTime(newSpeed - last.speed, ms);
  }

  class VehicleDataProvider {
    const pi: real
    var position: (real, real)
    var geoPosition: (real, real)
    var speed: real
    var accel: real
    var heading: real
    var yawRate: real
    var curvature: real
    var confidence: real
    var lastUpdate: int
    var curvatureOutput: seq<real>  // newest first, at most two
    var confidenceOutput: seq<real>  // newest first, always two
    var confidenceInput: real
    ghost var raws: seq<real>  // every raw curvature that has entered the filter, oldest first
    ghost var changes: seq<real>  // every change of the yaw rate per sampling period, oldest first

    /** What the outputs are after any number of updates, and bounds that hold whatever the vehicle reports. */
    ghost predicate Valid()
      reads this
    {
      && pi > 0.0
      && 0.0 <= heading < 2.0 * pi && Abs(yawRate) <= YawLimit(pi)
      && CurvatureValid() && ConfidenceValid()
    }

    ghost predicate CurvatureValid()
      requires pi > 0.0
      reads `curvature, `curvatureOutput, `raws
    {
      && Publishable(curvature)
      && curvatureOutput == Stored([], raws, CurvatureOmega(pi), CURVATURE_PERIOD)
      && Within(raws, YawLimit(pi))
    }

    ghost predicate ConfidenceValid()
      requires pi > 0.0
      reads `confidence, `confidenceOutput, `confidenceInput, `changes
    {
      && 0.0 <= confidence <= 1.0 && Abs(confidenceInput) <= YawLimit(pi)
      && confidenceOutput == Stored([0.0, 0.0], changes, ConfidenceOmega(pi), CONFIDENCE_PERIOD)
      && Within(changes, ConfidenceLimit(pi))
    }

    /** The stored curvatures never leave the band that the raw ones of the whole run determine. */
    lemma CurvatureWithin(m: real)
      requires Valid() && Within(raws, m)
      ensures Within(curvatureOutput, SeedBound(m, Pole(CurvatureOmega(pi), CURVATURE_PERIOD)))
    {
      SelfSeededBounded(raws, CurvatureOmega(pi), CURVATURE_PERIOD, m);
    }

    /** The stored angular accelerations never exceed the largest change of the yaw rate of the whole run. */
    lemma AccelerationWithin(m: real)
      requires Valid() && m >= 0.0 && Within(changes, m)
      ensures Within(confidenceOutput, m)
    {
      ZeroSeededBounded(changes, ConfidenceOmega(pi), CONFIDENCE_PERIOD, m);
    }

    constructor (pi: real)
      requires pi > 0.0
      ensures Valid() && this.pi == pi && lastUpdate == MAX_TIME && raws == [] && changes == []
      ensures curvatureOutput == [] && confidenceOutput == [0.0, 0.0] && heading == yawRate == 0.0
      ensures confidenceInput == 0.0
    {
      this.pi := pi;
      position, geoPosition := (0.0, 0.0), (0.0, 0.0);
      speed, accel, heading, yawRate, curvature, confidence := 0.0, 0.0, 0.0, 0.0, 0.0, 0.0;
      lastUpdate := MAX_TIME;
      curvatureOutput, confidenceOutput, confidenceInput := [], [0.0, 0.0], 0.0;
      raws, changes := [], [];
    }

    method CalculateCurvature()
      requires pi > 0.0 && Abs(yawRate) <= YawLimit(pi) && CurvatureValid()
      modifies `curvature, `curvatureOutput, `raws
      ensures CurvatureValid()
      ensures raws == old(raws) + RawCurvature(yawRate, speed)
      ensures CurvatureFollows(old(curvatureOutput), curvatureOutput, curvature, yawRate, speed, pi)
      ensures Abs(speed) < 1.0 ==> curvature == 0.0 && curvatureOutput == old(curvatureOutput)
      ensures Abs(speed) >= 1.0 && |old(curvatureOutput)| < 2 ==>
        curvature == 0.0 && curvatureOutput == [yawRate / speed] + old(curvatureOutput)
      ensures Abs(speed) >= 1.0 && |old(curvatureOutput)| == 2 ==>
        && |curvatureOutput| == 2 && curvatureOutput[1] == old(curvatureOutput)[0]
        && curvatureOutput[0]
           == FilterStep(old(curvatureOutput)[0], old(curvatureOutput)[1], yawRate / speed, 2.0 * pi * 0.33, 0.1)
        && var y := curvatureOutput[0];
          && (Abs(y) < 1.0 / 2500.0 ==> curvature == 0.0)
          && (1.0 / 2500.0 <= Abs(y) <= 1.0 ==> curvature == y)
          && (Abs(y) > 1.0 ==> curvature == 1.0)
    {
      if Abs(speed) < 1.0 {
        curvature := 0.0;
      } else {
        QuotientBounded(yawRate, speed, YawLimit(pi));
        curvature := yawRate / speed;
        StoredSnoc([], raws, curvature, CurvatureOmega(pi), CURVATURE_PERIOD);
        WithinSnoc(raws, curvature, YawLimit(pi));
        raws := raws + [curvature];
        if |curvatureOutput| < 2 {
          curvatureOutput := [curvature] + curvatureOutput;
          curvature := 0.0;
        } else {
          curvature := FilterStep(curvatureOutput[0], curvatureOutput[1], curvature, CurvatureOmega(pi), CURVATURE_PERIOD);
          curvatureOutput := [curvature, curvatureOutput[0]];
          if Abs(curvature) < 1.0 / 2500.0 {
            curvature := 0.0;
          } else if Abs(curvature) > 1.0 {
            curvature := 1.0;
          }
        }
      }
    }

    method CalculateCurvatureConfidence() returns (thrown: bool)
      requires pi > 0.0 && Abs(yawRate) <= YawLimit(pi) && ConfidenceValid()
      modifies `confidenceOutput, `confidenceInput, `confidence, `changes
      ensures ConfidenceValid() && !thrown
      ensures confidenceInput == yawRate
      ensures changes == old(changes) + [PerPeriod(yawRate - old(confidenceInput))]
      ensures ConfidenceFollows(old(confidenceOutput), confidenceOutput, confidence, yawRate, old(confidenceInput), pi)
    {
      var filter := ConfidenceStep(confidenceOutput[0], confidenceOutput[1], yawRate, confidenceInput,
        ConfidenceOmega(pi), CONFIDENCE_PERIOD);
      ChangeStored(confidenceOutput, changes, yawRate, confidenceInput, filter);
      changes := changes + [PerPeriod(yawRate - confidenceInput)];
      confidenceOutput := [filter, confidenceOutput[0]];
      confidenceInput := yawRate;
      LookupAntitone(0, Abs(filter), Abs(filter), pi);
      match MapOntoConfidence(Abs(filter), pi) {
        case Confidence(value) =>
          confidence := value;
          thrown := false;
        case DomainError =>
          thrown := true;
      }
    }

    /** The filter output for a new yaw rate is what the run of all changes so far leads to. */
    lemma ChangeStored(before: seq<real>, changes: seq<real>, yaw: real, lastYaw: real, filter: real)
      requires pi > 0.0 && Abs(yaw) <= YawLimit(pi) && Abs(lastYaw) <= YawLimit(pi) && Within(changes, ConfidenceLimit(pi))
      requires before == Stored([0.0, 0.0], changes, ConfidenceOmega(pi), CONFIDENCE_PERIOD)
      requires filter == ConfidenceStep(before[0], before[1], yaw, lastYaw, ConfidenceOmega(pi), CONFIDENCE_PERIOD)
      ensures var after, change := [filter, before[0]], PerPeriod(yaw - lastYaw);
        && after == Store(before, change, ConfidenceOmega(pi), CONFIDENCE_PERIOD)
        && after == Stored([0.0, 0.0], changes + [change], ConfidenceOmega(pi), CONFIDENCE_PERIOD)
        && Within(changes + [change], ConfidenceLimit(pi))
    {
      var change := PerPeriod(yaw - lastYaw);
      ConfidenceIsFilteredDerivative(before[0], before[1], yaw, lastYaw, ConfidenceOmega(pi), CONFIDENCE_PERIOD);
      StoredSnoc([0.0, 0.0], changes, change, ConfidenceOmega(pi), CONFIDENCE_PERIOD);
      ChangeBounded(yaw, lastYaw, pi);
      WithinSnoc(changes, change, ConfidenceLimit(pi));
    }

    method MeasureYawRate(newHeading: real, ms: int) returns (rate: real)
      requires pi > 0.0 && 0.0 <= heading < 2.0 * pi && 0.0 <= newHeading < 2.0 * pi && ms > 0
      ensures rate == PerSecond(WrapDifference(heading - newHeading, pi), ms)
      ensures rate * ms as real == 1000.0 * WrapDifference(heading - newHeading, pi)
      ensures Abs(rate) <= YawLimit(pi) == 1000.0 * pi
    {
      var diff := heading - newHeading;
      ShortestRotation(diff, pi);
      YawBounded(WrapDifference(diff, pi), ms, pi);
      RateTimesTime(WrapDifference(diff, pi), ms);
      if diff > pi {
        diff := diff - 2.0 * pi;
      } else if diff < -pi {
        diff := diff + 2.0 * pi;
      }
      rate := PerSecond(diff, ms);
    }

    ghost function MotionNow(): Motion
      reads `speed, `accel, `heading, `yawRate
    {
      Motion(speed, accel, heading, yawRate)
    }

    method Measure(ms: int, newSpeed: real, angle: real)
      requires pi > 0.0 && 0.0 <= heading < 2.0 * pi && Abs(yawRate) <= YawLimit(pi) && ms != 0
      modifies `speed, `accel, `heading, `yawRate
      ensures 0.0 <= heading < 2.0 * pi && Abs(yawRate) <= YawLimit(pi)
      ensures Measured(old(MotionNow()), MotionNow(), ms, newSpeed, angle, pi)
    {
      HeadingNormalised(angle, pi);
      if ms > 0 {
        accel := PerSecond(newSpeed - speed, ms);
        speed := newSpeed;
        var newHeading := ConvertMobilityAngle(angle, pi);
        yawRate := MeasureYawRate(newHeading, ms);
        heading := newHeading;
      } else {
        speed := newSpeed;
        heading := ConvertMobilityAngle(angle, pi);
      }
    }

    /** Takes over what the vehicle reports at time `now`; a second call for the same step is ignored. */
    method Update(now: int, newSpeed: real, angle: real, newPosition: (real, real), newGeoPosition: (real, real))
      returns (thrown: bool)
      requires Valid()
      modifies this
      ensures Valid() && !thrown
      ensures InMilliseconds(now - old(lastUpdate)) == 0 ==> unchanged(this)
      ensures InMilliseconds(now - old(lastUpdate)) != 0 ==>
        && lastUpdate == now && position == newPosition && geoPosition == newGeoPosition
        && Measured(old(MotionNow()), MotionNow(), InMilliseconds(now - old(lastUpdate)), newSpeed, angle, pi)
        && confidenceInput == yawRate
        && raws == old(raws) + RawCurvature(yawRate, speed)
        && changes == old(changes) + [PerPeriod(yawRate - old(confidenceInput))]
        && CurvatureFollows(old(curvatureOutput), curvatureOutput, curvature, yawRate, speed, pi)
        && ConfidenceFollows(old(confidenceOutput), confidenceOutput, confidence, yawRate, old(confidenceInput), pi)
      ensures InMilliseconds(now - old(lastUpdate)) != 0 && Abs(speed) < 1.0 ==> curvature == 0.0
      ensures InMilliseconds(now - old(lastUpdate)) != 0 && Abs(speed) >= 1.0 ==>
        if |old(curvatureOutput)| < 2 then curvature == 0.0
        else
          var y := curvatureOutput[0];
          && (Abs(y) < 1.0 / 2500.0 ==> curvature == 0.0)
          && (1.0 / 2500.0 <= Abs(y) <= 1.0 ==> curvature == y)
          && (Abs(y) > 1.0 ==> curvature == 1.0)
    {
      var ms := InMilliseconds(now - lastUpdate);
      thrown := false;
      if ms != 0 {
        thrown := TakeOver(ms, now, newSpeed, angle, newPosition, newGeoPosition);
      }
    }

    method TakeOver(ms: int, now: int, newSpeed: real, angle: real, newPosition: (real, real), newGeoPosition: (real, real))
      returns (thrown: bool)
      requires Valid() && ms != 0
      modifies this
      ensures Valid() && !thrown
      ensures lastUpdate == now && position == newPosition && geoPosition == newGeoPosition
      ensures Measured(old(MotionNow()), MotionNow(), ms, newSpeed, angle, pi)
      ensures confidenceInput == yawRate
      ensures raws == old(raws) + RawCurvature(yawRate, speed)
      ensures changes == old(changes) + [PerPeriod(yawRate - old(confidenceInput))]
      ensures CurvatureFollows(old(curvatureOutput), curvatureOutput, curvature, yawRate, speed, pi)
      ensures ConfidenceFollows(old(confidenceOutput), confidenceOutput, confidence, yawRate, old(confidenceInput), pi)
    {
      TakeReadings(ms, now, newSpeed, angle, newPosition, newGeoPosition);
      ghost var motion := MotionNow();
      thrown := RunFilters();
      assert MotionNow() == motion;
    }

    method TakeReadings(ms: int, now: int, newSpeed: real, angle: real, newPosition: (real, real), newGeoPosition: (real, real))
      requires Valid() && ms != 0
      modifies `speed, `accel, `heading, `yawRate, `position, `geoPosition, `lastUpdate
      ensures Valid() && lastUpdate == now && position == newPosition && geoPosition == newGeoPosition
      ensures Measured(old(MotionNow()), MotionNow(), ms, newSpeed, angle, pi)
    {
      Measure(ms, newSpeed, angle);
      position, geoPosition, lastUpdate := newPosition, newGeoPosition, now;
    }

    method RunFilters() returns (thrown: bool)
      requires Valid()
      modifies `curvature, `curvatureOutput, `raws, `confidenceOutput, `confidenceInput, `confidence, `changes
      ensures Valid() && !thrown && confidenceInput == yawRate
      ensures raws == old(raws) + RawCurvature(yawRate, speed)
      ensures changes == old(changes) + [PerPeriod(yawRate - old(confidenceInput))]
      ensures CurvatureFollows(old(curvatureOutput), curvatureOutput, curvature, yawRate, speed, pi)
      ensures ConfidenceFollows(old(confidenceOutput), confidenceOutput, confidence, yawRate, old(confidenceInput), pi)
    {
      CalculateCurvature();
      thrown := CalculateCurvatureConfidence();
    }
  }

  /**
   * A run of the provider that publishes a left turn for a right turn: standing at first, then three times
   * 100 ms at 1 m/s, turning clockwise by a fifth of a radian each time.
   */
  method RightTurnPublishedLeft(pi: real) returns (output: real, published: real)
    requires pi > 3.0
    ensures output == -2.0 && published == 1.0
  {
    var provider := new VehicleDataProvider(pi);
    HeadingBack(0.0, pi);
    var thrown := provider.Update(0, 0.0, 0.5 * pi, (0.0, 0.0), (0.0, 0.0));
    Turn(provider, 0, 0.0, 0.2, 1.0, -2.0);
    Turn(provider, 100 * TICKS_PER_MS, 0.2, 0.2, 1.0, -2.0);
    Turn(provider, 200 * TICKS_PER_MS, 0.4, 0.2, 1.0, -2.0);
    ConstantRun(-2.0, CurvatureOmega(pi), CURVATURE_PERIOD);
    assert provider.raws == [-2.0, -2.0, -2.0];
    return provider.curvatureOutput[0], provider.curvature;
  }

  /** A wide left turn at 10 m/s, of 50 m radius, is published as it is. */
  method WideTurnPublished(pi: real) returns (output: real, published: real)
    requires pi > 3.0
    ensures output == published == 0.02
  {
    var provider := new VehicleDataProvider(pi);
    HeadingBack(1.0, pi);
    var thrown := provider.Update(0, 0.0, 0.5 * pi - 1.0, (0.0, 0.0), (0.0, 0.0));
    Turn(provider, 0, 1.0, -0.02, 10.0, 0.02);
    Turn(provider, 100 * TICKS_PER_MS, 0.98, -0.02, 10.0, 0.02);
    Turn(provider, 200 * TICKS_PER_MS, 0.96, -0.02, 10.0, 0.02);
    ConstantRun(0.02, CurvatureOmega(pi), CURVATURE_PERIOD);
    assert provider.raws == [0.02, 0.02, 0.02];
    return provider.curvatureOutput[0], provider.curvature;
  }

  /** 100 ms at constant speed, turning clockwise by the given angle. */
  method Turn(provider: VehicleDataProvider, now: int, heading: real, angle: real, speed: real, raw: real)
    requires provider.Valid() && provider.pi > 3.0 && 0.0 <= heading <= 5.0 && 0.0 <= heading + angle <= 5.0
    requires speed >= 1.0 && -1.0 <= angle <= 1.0 && raw * speed == -10.0 * angle
    requires provider.lastUpdate == now && provider.heading == heading
    modifies provider
    ensures provider.Valid() && provider.lastUpdate == now + 100 * TICKS_PER_MS && provider.heading == heading + angle
    ensures provider.raws == old(provider.raws) + [raw]
    ensures |old(provider.curvatureOutput)| == 2 ==> provider.curvature == Publish(provider.curvatureOutput[0])
  {
    ghost var last := provider.MotionNow();
    assert InMilliseconds(now + 100 * TICKS_PER_MS - provider.lastUpdate) == 100;
    var thrown := provider.Update(now + 100 * TICKS_PER_MS, speed, 0.5 * provider.pi - (heading + angle), (0.0, 0.0), (0.0, 0.0));
    MeasuredTurn(last, provider.MotionNow(), angle, speed, raw, provider.pi);
  }

  lemma MeasuredTurn(last: Motion, motion: Motion, angle: real, speed: real, raw: real, pi: real)
    requires pi > 3.0 && 0.0 <= last.heading <= 5.0 && 0.0 <= last.heading + angle <= 5.0
    requires speed >= 1.0 && -1.0 <= angle <= 1.0 && raw * speed == -10.0 * angle
    requires Measured(last, motion, 100, speed, 0.5 * pi - (last.heading + angle), pi)
    ensures motion.heading == last.heading + angle && RawCurvature(motion.yawRate, motion.speed) == [raw]
  {
    HeadingBack(last.heading + angle, pi);
    assert PerSecond(-angle, 100) == -10.0 * angle;
    assert motion.yawRate == -10.0 * angle && motion.speed == speed;
    var quotient := motion.yawRate / speed;
    Quotient(motion.yawRate, speed, quotient);
    SameFactor(raw, quotient, speed);
  }

  lemma SameFactor(a: real, b: real, factor: real)
    requires factor > 0.0 && a * factor == b * factor
    ensures a == b
  {
  }

  /** A vehicle that drives straight from its first update on has full confidence. */
  method StraightIsConfident(pi: real) returns (confidence: real)
    requires pi > 3.0
    ensures confidence == 1.0
  {
    var provider := new VehicleDataProvider(pi);
    var thrown := provider.Update(0, 10.0, 0.5 * pi, (0.0, 0.0), (0.0, 0.0));
    assert provider.yawRate == 0.0;
    NoChange(provider.confidenceOutput, provider.confidence, pi);
    return provider.confidence;
  }

  lemma NoChange(after: seq<real>, confidence: real, pi: real)
    requires pi > 0.0 && ConfidenceFollows([0.0, 0.0], after, confidence, 0.0, 0.0, pi)
    ensures confidence == 1.0
  {
    UnitGain(0.0, ConfidenceOmega(pi), CONFIDENCE_PERIOD);
    ConfidenceIntervals(0.0, pi);
  }

  lemma ConstantRun(x: real, omega: real, t: real)
    requires omega > 0.0 && t > 0.0
    ensures Stored([], [x, x], omega, t) == Stored([], [x, x, x], omega, t) == [x, x]
  {
    SameAgain([], [], x, omega, t);
    SameAgain([x], [x], x, omega, t);
    SameAgain([x, x], [x, x], x, omega, t);
    assert [] + [x] == [x] && [x] + [x] == [x, x] && [x, x] + [x] == [x, x, x];
  }

  /** One more equal raw value after up to two of them. */
  lemma SameAgain(raws: seq<real>, s: seq<real>, x: real, omega: real, t: real)
    requires omega > 0.0 && t > 0.0 && s == Stored([], raws, omega, t) && (s == [] || s == [x] || s == [x, x])
    ensures Stored([], raws + [x], omega, t) == if |s| < 2 then s + [x] else s
  {
    StoredSnoc([], raws, x, omega, t);
    UnitGain(x, omega, t);
  }

  /** The angle of a given heading. */
  lemma HeadingBack(heading: real, pi: real)
    requires pi > 0.0 && 0.0 <= heading < 2.0 * pi
    ensures ConvertMobilityAngle(0.5 * pi - heading, pi) == heading
  {
    assert 0.0 <= heading / (2.0 * pi) < 1.0;
  }
}
