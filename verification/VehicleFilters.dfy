/** Angle arithmetic and the second-order recursive filters of the vehicle data provider. */
module VehicleFilters {

  function Abs(x: real): (r: real)
    ensures r >= 0.0 && (r == x || r == -x)
  {
    if x < 0.0 then -x else x
  }

  // ---- angles; `pi` is symbolic, only its sign matters ----

  ghost predicate Congruent(a: real, b: real, pi: real) {
    exists n: int :: a == Turned(b, n, pi)
  }

  /** `a` after n full turns. */
  function Turned(a: real, n: int, pi: real): real {
    a + 2.0 * pi * n as real
  }

  /** Counter-clockwise from east becomes clockwise from north, normalised to one turn. */
  function ConvertMobilityAngle(angle: real, pi: real): (heading: real)
    requires pi > 0.0
  {
    var a := angle * -1.0 + 0.5 * pi;
    a - 2.0 * pi * (a / (2.0 * pi)).Floor as real
  }

  lemma RemainderBounds(a: real, m: real)
    requires m > 0.0
    ensures 0.0 <= a - m * (a / m).Floor as real < m
  {
    var floor := (a / m).Floor as real;
    var excess := Excess(m, a / m - floor);
    Distribute(m, floor, a / m - floor);
    assert a == m * (floor + (a / m - floor));
  }

  lemma Excess(m: real, fraction: real) returns (excess: real)
    requires m > 0.0 && 0.0 <= fraction < 1.0
    ensures excess == m * fraction && 0.0 <= excess < m
  {
    excess := m * fraction;
  }

  lemma Distribute(m: real, x: real, y: real)
    ensures m * (x + y) == m * x + m * y
  {
  }

  lemma DistributeMinus(m: real, x: real, y: real)
    ensures m * (x - y) == m * x - m * y
  {
  }

  lemma Commute(x: real, y: real)
    ensures x * y == y * x
  {
  }

  lemma Scale(m: real, x: real, y: real)
    requires m > 0.0
    ensures x >= 0.0 ==> m * x >= 0.0
    ensures x < y ==> m * x < m * y
    ensures x <= y ==> m * x <= m * y
  {
  }

  /** The heading lies in [0, 2 pi) and is the mirrored, rotated angle up to whole turns. */
  lemma HeadingNormalised(angle: real, pi: real)
    requires pi > 0.0
    ensures 0.0 <= ConvertMobilityAngle(angle, pi) < 2.0 * pi
    ensures Congruent(ConvertMobilityAngle(angle, pi), 0.5 * pi - angle, pi)
  {
    var a := angle * -1.0 + 0.5 * pi;
    var n := (a / (2.0 * pi)).Floor;
    RemainderBounds(a, 2.0 * pi);
    var h := ConvertMobilityAngle(angle, pi);
    TurnedBack(0.5 * pi - angle, n, pi, h);
    assert h == Turned(0.5 * pi - angle, -n, pi);
  }

  lemma TurnedBack(a: real, n: int, pi: real, h: real)
    requires h == a - 2.0 * pi * n as real
    ensures h == Turned(a, -n, pi)
  {
    var m := (-n) as real;
    assert m == -(n as real);
    assert 2.0 * pi * m == -(2.0 * pi * n as real);
  }

  /** There is only one such heading, so equal directions get equal headings. */
  lemma HeadingUnique(x: real, y: real, n: int, pi: real)
    requires pi > 0.0 && 0.0 <= x < 2.0 * pi && 0.0 <= y < 2.0 * pi && x == Turned(y, n, pi)
    ensures x == y
  {
    WholeTurns(n, pi);
  }

  lemma WholeTurns(n: int, pi: real)
    requires pi > 0.0
    ensures n >= 1 ==> 2.0 * pi * n as real >= 2.0 * pi
    ensures n <= -1 ==> 2.0 * pi * n as real <= -2.0 * pi
    ensures n == 0 ==> 2.0 * pi * n as real == 0.0
  {
  }

  lemma HeadingPeriodic(angle: real, turns: int, pi: real)
    requires pi > 0.0
    ensures ConvertMobilityAngle(Turned(angle, turns, pi), pi) == ConvertMobilityAngle(angle, pi)
  {
    HeadingNormalised(angle, pi);
    HeadingNormalised(Turned(angle, turns, pi), pi);
    var x, y := ConvertMobilityAngle(Turned(angle, turns, pi), pi), ConvertMobilityAngle(angle, pi);
    var k: int :| x == Turned(0.5 * pi - Turned(angle, turns, pi), k, pi);
    var l: int :| y == Turned(0.5 * pi - angle, l, pi);
    TurnsAdd(turns, k, l, pi);
    HeadingUnique(x, y, k - turns - l, pi);
  }

  lemma TurnsAdd(a: int, b: int, c: int, pi: real)
    ensures 2.0 * pi * (b - a - c) as real == 2.0 * pi * b as real - 2.0 * pi * a as real - 2.0 * pi * c as real
  {
  }

  /** Heading difference wrapped to the shorter way round. */
  function WrapDifference(diff: real, pi: real): real {
    if diff > pi then diff - 2.0 * pi
    else if diff < -pi then diff + 2.0 * pi
    else diff
  }

  /** The wrapped difference is congruent to the raw one, and no congruent rotation is smaller. */
  lemma ShortestRotation(diff: real, pi: real)
    requires pi > 0.0 && -2.0 * pi < diff < 2.0 * pi
    ensures -pi <= WrapDifference(diff, pi) <= pi
    ensures Congruent(WrapDifference(diff, pi), diff, pi)
    ensures forall n: int :: Abs(WrapDifference(diff, pi)) <= Abs(Turned(diff, n, pi))
  {
    var w := WrapDifference(diff, pi);
    var shift := if diff > pi then -1 else if diff < -pi then 1 else 0;
    assert w == Turned(diff, shift, pi);
    forall n: int ensures Abs(w) <= Abs(Turned(diff, n, pi)) {
      TurnedTwice(diff, shift, n - shift, pi);
      NoShorter(w, n - shift, pi);
    }
  }

  lemma TurnedTwice(a: real, m: int, n: int, pi: real)
    ensures Turned(Turned(a, m, pi), n, pi) == Turned(a, m + n, pi)
  {
  }

  lemma NoShorter(w: real, n: int, pi: real)
    requires pi > 0.0 && -pi <= w <= pi
    ensures Abs(w) <= Abs(Turned(w, n, pi))
  {
    WholeTurns(n, pi);
    FarAway(w, 2.0 * pi * n as real, Turned(w, n, pi), pi);
  }

  lemma FarAway(w: real, turns: real, v: real, pi: real)
    requires -pi <= w <= pi && v == w + turns
    requires turns == 0.0 || turns >= 2.0 * pi || turns <= -2.0 * pi
    ensures Abs(w) <= Abs(v)
  {
  }

  // ---- second-order low-pass with critical damping ----

  const DAMPING: real := 1.0

  /** Next filter output from the two previous ones and the new raw value. */
  function FilterStep(newest: real, older: real, raw: real, omega: real, t: real): real
    requires omega > 0.0 && t > 0.0
  {
    Positive(omega, t);
    (-older + (2.0 + 2.0 * omega * DAMPING * t) * newest + omega * omega * t * t * raw)
    / (1.0 + 2.0 * omega * DAMPING * t + omega * omega * t * t)
  }

  lemma Positive(omega: real, t: real)
    requires omega > 0.0 && t > 0.0
    ensures omega * t > 0.0
    ensures 1.0 + 2.0 * omega * DAMPING * t + omega * omega * t * t == (1.0 + omega * t) * (1.0 + omega * t) > 0.0
  {
  }

  /** The double pole of the filter. */
  function Pole(omega: real, t: real): (r: real)
    requires omega > 0.0 && t > 0.0
    ensures 0.0 < r < 1.0 && r * (1.0 + omega * t) == 1.0
  {
    Positive(omega, t);
    var q := 1.0 + omega * t;
    var r := 1.0 / q;
    assert r * q == 1.0;
    Reciprocal(r, q);
    r
  }

  lemma Reciprocal(r: real, q: real)
    requires q > 1.0 && r * q == 1.0
    ensures 0.0 < r < 1.0
  {
  }

  /** Output of the hidden first one-pole stage, reconstructed from two filter outputs. */
  function HiddenStage(newest: real, older: real, r: real): real
    requires 0.0 < r < 1.0
  {
    (newest - r * older) / (1.0 - r)
  }

  /** The recurrence in terms of its pole. */
  lemma PoleForm(newest: real, older: real, raw: real, omega: real, t: real)
    requires omega > 0.0 && t > 0.0
    ensures var r := Pole(omega, t);
      FilterStep(newest, older, raw, omega, t) == 2.0 * r * newest - r * r * older + (1.0 - r) * (1.0 - r) * raw
  {
  }

  /** The filter is a cascade of two identical one-pole filters through the hidden stage. */
  lemma Cascade(newest: real, older: real, raw: real, omega: real, t: real)
    requires omega > 0.0 && t > 0.0
    ensures var r := Pole(omega, t);
      var y := FilterStep(newest, older, raw, omega, t);
      var hidden := HiddenStage(y, newest, r);
      && hidden == r * HiddenStage(newest, older, r) + (1.0 - r) * raw
      && y == r * newest + (1.0 - r) * hidden
  {
    var r, y := PoleValues(newest, older, raw, omega, t);
    var s, z := HiddenValue(newest, older, r);
    var s', w := HiddenValue(y, newest, r);
    CascadeForm(newest, older, raw, r, s, z, w, y);
  }

  lemma PoleValues(newest: real, older: real, raw: real, omega: real, t: real) returns (r: real, y: real)
    requires omega > 0.0 && t > 0.0
    ensures r == Pole(omega, t) && 0.0 < r < 1.0 && y == FilterStep(newest, older, raw, omega, t)
    ensures y == 2.0 * r * newest - r * r * older + (1.0 - r) * (1.0 - r) * raw
  {
    r, y := Pole(omega, t), FilterStep(newest, older, raw, omega, t);
    PoleForm(newest, older, raw, omega, t);
  }

  lemma HiddenValue(newest: real, older: real, r: real) returns (s: real, z: real)
    requires 0.0 < r < 1.0
    ensures s == 1.0 - r && z == HiddenStage(newest, older, r) && z * s == newest - r * older
  {
    s, z := 1.0 - r, HiddenStage(newest, older, r);
    Quotient(newest - r * older, s, z);
  }

  lemma CascadeForm(newest: real, older: real, raw: real, r: real, s: real, z: real, w: real, y: real)
    requires s == 1.0 - r && s > 0.0 && z * s == newest - r * older && w * s == y - r * newest
    requires y == 2.0 * r * newest - r * r * older + s * s * raw
    ensures w == r * z + s * raw && y == r * newest + s * w
  {
    assert s * (w - (r * z + s * raw)) == w * s - r * (z * s) - s * s * raw;
    assert r * (newest - r * older) == r * newest - r * r * older;
  }

  lemma Quotient(x: real, s: real, q: real)
    requires s > 0.0 && q == x / s
    ensures q * s == x
  {
  }

  // ---- bounds over whole runs ----

  /** Both stored outputs and the hidden stage stay within `bound`. */
  ghost predicate InBand(newest: real, older: real, r: real, bound: real)
    requires 0.0 < r < 1.0
  {
    Abs(newest) <= bound && Abs(older) <= bound && Abs(HiddenStage(newest, older, r)) <= bound
  }

  lemma StepStaysInBand(newest: real, older: real, raw: real, omega: real, t: real, bound: real)
    requires omega > 0.0 && t > 0.0
    requires InBand(newest, older, Pole(omega, t), bound) && Abs(raw) <= bound
    ensures InBand(FilterStep(newest, older, raw, omega, t), newest, Pole(omega, t), bound)
  {
    var r, z, w, y := CascadeValues(newest, older, raw, omega, t);
    MixTwice(r, z, raw, newest, w, y, bound);
  }

  lemma CascadeValues(newest: real, older: real, raw: real, omega: real, t: real)
    returns (r: real, z: real, w: real, y: real)
    requires omega > 0.0 && t > 0.0
    ensures r == Pole(omega, t) && z == HiddenStage(newest, older, r)
    ensures y == FilterStep(newest, older, raw, omega, t) && w == HiddenStage(y, newest, r)
    ensures w == r * z + (1.0 - r) * raw && y == r * newest + (1.0 - r) * w
  {
    r, z := Pole(omega, t), HiddenStage(newest, older, Pole(omega, t));
    y := FilterStep(newest, older, raw, omega, t);
    w := HiddenStage(y, newest, r);
    Cascade(newest, older, raw, omega, t);
  }

  lemma MixTwice(r: real, z: real, raw: real, newest: real, w: real, y: real, bound: real)
    requires 0.0 < r < 1.0 && Abs(z) <= bound && Abs(raw) <= bound && Abs(newest) <= bound
    requires w == r * z + (1.0 - r) * raw && y == r * newest + (1.0 - r) * w
    ensures Abs(w) <= bound && Abs(y) <= bound
  {
    Mix(r, z, raw, bound);
    Mix(r, newest, w, bound);
  }

  /** A convex combination of two bounded values is bounded. */
  lemma Mix(r: real, x: real, y: real, bound: real)
    requires 0.0 < r < 1.0 && Abs(x) <= bound && Abs(y) <= bound
    ensures Abs(r * x + (1.0 - r) * y) <= bound
  {
    MixBelow(r, x, y, bound);
    MixBelow(r, -x, -y, bound);
    assert r * -x + (1.0 - r) * -y == -(r * x + (1.0 - r) * y);
  }

  lemma MixBelow(r: real, x: real, y: real, bound: real)
    requires 0.0 < r < 1.0 && x <= bound && y <= bound
    ensures r * x + (1.0 - r) * y <= bound
  {
    Scale(r, bound - x, 0.0);
    Scale(1.0 - r, bound - y, 0.0);
    assert bound - (r * x + (1.0 - r) * y) == r * (bound - x) + (1.0 - r) * (bound - y);
  }

  /** Overshoot allowance for seeds that are raw values rather than filter outputs. */
  function SeedBound(m: real, r: real): real
    requires 0.0 < r < 1.0
  {
    m * (1.0 + r) / (1.0 - r)
  }

  /** Seeds of opposite sign start the hidden stage just at this bound, so no smaller one would do for them. */
  lemma SeedBoundReached(m: real, r: real)
    requires 0.0 < r < 1.0
    ensures HiddenStage(m, -m, r) == SeedBound(m, r)
  {
    assert m - r * -m == m * (1.0 + r);
  }

  lemma SeedsInBand(newest: real, older: real, r: real, m: real)
    requires 0.0 < r < 1.0 && Abs(newest) <= m && Abs(older) <= m
    ensures m <= SeedBound(m, r) && InBand(newest, older, r, SeedBound(m, r))
  {
    var s, z, b, x, y := SeedQuotients(newest, older, r, m);
    SeedValues(z, b, x, y, s, m);
  }

  lemma SeedQuotients(newest: real, older: real, r: real, m: real)
    returns (s: real, z: real, b: real, x: real, y: real)
    requires 0.0 < r < 1.0 && Abs(newest) <= m && Abs(older) <= m
    ensures s > 0.0 && z == HiddenStage(newest, older, r) && b == SeedBound(m, r)
    ensures z * s == x && b * s == y
    ensures -y <= x <= y && m * s <= y
  {
    var p, q := SeedProducts(older, r, m);
    s, z := HiddenValue(newest, older, r);
    b, y := BoundValue(m, r, s, p);
    x := newest - q;
  }

  lemma BoundValue(m: real, r: real, s: real, p: real) returns (b: real, y: real)
    requires 0.0 < r < 1.0 && s == 1.0 - r && p == r * m
    ensures b == SeedBound(m, r) && b * s == y && y == m + p && m * s == m - p
  {
    y := m * (1.0 + r);
    b := y / s;
    Quotient(y, s, b);
    Distribute(m, 1.0, r);
    DistributeMinus(m, 1.0, r);
    Commute(m, r);
  }

  lemma SeedProducts(older: real, r: real, m: real) returns (p: real, q: real)
    requires 0.0 < r < 1.0 && Abs(older) <= m
    ensures p == r * m && q == r * older && -p <= q <= p && p >= 0.0
  {
    p, q := r * m, r * older;
    var above := Product(r, m + older);
    var below := Product(r, m - older);
    Distribute(r, m, older);
    DistributeMinus(r, m, older);
  }

  lemma Product(a: real, b: real) returns (p: real)
    requires a >= 0.0 && b >= 0.0
    ensures p == a * b && p >= 0.0
  {
    p := a * b;
  }

  lemma SeedValues(z: real, b: real, x: real, y: real, s: real, m: real)
    requires s > 0.0 && z * s == x && b * s == y && -y <= x <= y && m * s <= y
    ensures Abs(z) <= b && m <= b
  {
  }

  // ---- runs of the filter ----

  ghost predicate Within(xs: seq<real>, m: real) {
    forall x :: x in xs ==> Abs(x) <= m
  }

  /** The stored outputs, newest first, after the given raw values; the first ones fill the store as they are. */
  function Stored(initial: seq<real>, raws: seq<real>, omega: real, t: real): (s: seq<real>)
    requires |initial| <= 2 && omega > 0.0 && t > 0.0
    ensures |initial| <= |s| <= 2
    decreases |raws|
  {
    if raws == [] then initial
    else Store(Stored(initial, raws[..|raws| - 1], omega, t), raws[|raws| - 1], omega, t)
  }

  function Store(s: seq<real>, raw: real, omega: real, t: real): (after: seq<real>)
    requires |s| <= 2 && omega > 0.0 && t > 0.0
    ensures |s| <= |after| <= 2
  {
    if |s| < 2 then [raw] + s else [FilterStep(s[0], s[1], raw, omega, t), s[0]]
  }

  lemma StoredSnoc(initial: seq<real>, raws: seq<real>, raw: real, omega: real, t: real)
    requires |initial| <= 2 && omega > 0.0 && t > 0.0
    ensures Stored(initial, raws + [raw], omega, t) == Store(Stored(initial, raws, omega, t), raw, omega, t)
  {
    assert (raws + [raw])[..|raws + [raw]| - 1] == raws;
  }

  lemma WithinSnoc(xs: seq<real>, x: real, m: real)
    requires Within(xs, m) && Abs(x) <= m
    ensures Within(xs + [x], m)
  {
  }

  lemma WithinSplit(xs: seq<real>, m: real)
    requires xs != [] && Within(xs, m)
    ensures Within(xs[..|xs| - 1], m) && Abs(xs[|xs| - 1]) <= m
  {
  }

  /** A store that began empty: raw values as long as it fills up, then in the band of its seeds. */
  ghost predicate SelfSeededBand(s: seq<real>, r: real, m: real)
    requires 0.0 < r < 1.0 && |s| <= 2
  {
    if |s| < 2 then Within(s, m) else m <= SeedBound(m, r) && InBand(s[0], s[1], r, SeedBound(m, r))
  }

  lemma {:induction false} SelfSeededRun(raws: seq<real>, omega: real, t: real, m: real)
    requires omega > 0.0 && t > 0.0 && Within(raws, m)
    ensures SelfSeededBand(Stored([], raws, omega, t), Pole(omega, t), m)
    decreases |raws|
  {
    if raws != [] {
      WithinSplit(raws, m);
      SelfSeededRun(raws[..|raws| - 1], omega, t, m);
      SelfSeededStep(Stored([], raws[..|raws| - 1], omega, t), raws[|raws| - 1], omega, t, m);
    }
  }

  lemma SelfSeededStep(s: seq<real>, raw: real, omega: real, t: real, m: real)
    requires omega > 0.0 && t > 0.0 && |s| <= 2 && Abs(raw) <= m
    requires SelfSeededBand(s, Pole(omega, t), m)
    ensures SelfSeededBand(Store(s, raw, omega, t), Pole(omega, t), m)
  {
    if |s| == 1 {
      SeedsInBand(raw, s[0], Pole(omega, t), m);
    } else if |s| == 2 {
      StepStaysInBand(s[0], s[1], raw, omega, t, SeedBound(m, Pole(omega, t)));
    }
  }

  /**
   * On runs of any length: if all raw values, the two seeds included, stay within m, then every stored
   * output stays within m (1 + r) / (1 - r).
   */
  lemma SelfSeededBounded(raws: seq<real>, omega: real, t: real, m: real)
    requires omega > 0.0 && t > 0.0 && Within(raws, m)
    ensures Within(Stored([], raws, omega, t), SeedBound(m, Pole(omega, t)))
  {
    SelfSeededRun(raws, omega, t, m);
    var s := Stored([], raws, omega, t);
    if |s| == 1 {
      SeedsInBand(s[0], s[0], Pole(omega, t), m);
    }
  }

  /** Started from zeros instead, every output stays within the bound of the raw values itself. */
  lemma {:induction false} ZeroSeededBounded(raws: seq<real>, omega: real, t: real, m: real)
    requires omega > 0.0 && t > 0.0 && m >= 0.0 && Within(raws, m)
    ensures var s := Stored([0.0, 0.0], raws, omega, t); InBand(s[0], s[1], Pole(omega, t), m)
    decreases |raws|
  {
    if raws == [] {
      ZeroInBand(Pole(omega, t), m);
    } else {
      WithinSplit(raws, m);
      var s := Stored([0.0, 0.0], raws[..|raws| - 1], omega, t);
      ZeroSeededBounded(raws[..|raws| - 1], omega, t, m);
      StepStaysInBand(s[0], s[1], raws[|raws| - 1], omega, t, m);
    }
  }

  lemma ZeroInBand(r: real, bound: real)
    requires 0.0 < r < 1.0 && bound >= 0.0
    ensures InBand(0.0, 0.0, r, bound)
  {
  }

  /** With raw seeds an output may well exceed all raw values. */
  lemma Overshoot(m: real, omega: real, t: real)
    requires omega > 0.0 && t > 0.0 && m > 0.0
    ensures FilterStep(m, 0.0, m, omega, t) > m
  {
    PoleForm(m, 0.0, m, omega, t);
    var r := Pole(omega, t);
    var excess := r * r;
    Scale(m, 0.0, excess);
    assert 2.0 * r * m + (1.0 - r) * (1.0 - r) * m == m + m * excess;
  }

  /** A constant input is a fixed point: the filter has unit gain. */
  lemma UnitGain(x: real, omega: real, t: real)
    requires omega > 0.0 && t > 0.0
    ensures FilterStep(x, x, x, omega, t) == x
  {
    PoleForm(x, x, x, omega, t);
    var r := Pole(omega, t);
    assert 2.0 * r * x - r * r * x + (1.0 - r) * (1.0 - r) * x == x;
  }
}
