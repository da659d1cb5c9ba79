/**
 The battery voltage path: the two-point calibration and conversion of platform/hal/hal_gpadc.c in 32-bit
 integers, and the five-sample ring with its 16-bit index in apps/battery/app_battery.cpp.
*/
module Battery {
  import opened Modular

  const MVOLT_A: int := 800
  const MVOLT_B: int := 1050
  const DEFAULT_A: nat := 428
  const DEFAULT_B: nat := 565
  const BAD_VALUE: nat := 0xFFFF
  const STABLE_COUNT: nat := 5

  predicate Int32(x: int) { -0x8000_0000 <= x < 0x8000_0000 }

  /** C division: towards zero. */
  function TruncDiv(a: int, b: int): int
    requires b != 0
  {
    if b < 0 then if a <= 0 then (-a) / (-b) else -(a / (-b))
    else if a >= 0 then a / b
    else -((-a) / b)
  }

  function Abs(x: int): nat { if x < 0 then -x else x }

  /** Division as the compiler does it: what remains is smaller than the divisor and has the dividend's sign. */
  lemma TruncDivExact(a: int, b: int)
    requires b != 0
    ensures var r := a - TruncDiv(a, b) * b;
            Abs(r) < Abs(b) && (a >= 0 ==> r >= 0) && (a <= 0 ==> r <= 0)
  {
    var x, y := Abs(a), Abs(b);
    var q: int := x / y;
    assert x == q * y + x % y;
    if (a >= 0) == (b >= 0) {
      assert TruncDiv(a, b) == q;
      Signs(q, b);
    } else {
      assert TruncDiv(a, b) == -q;
      Signs(-q, b);
    }
  }

  lemma Signs(q: int, b: int)
    ensures q * b == (if b < 0 then -q else q) * Abs(b) && (-q) * b == -(q * b)
  {
  }

  /** The low 32 bits, as a signed number. */
  function Wrap32(x: int): int {
    (x + 0x8000_0000) % 0x1_0000_0000 - 0x8000_0000
  }

  lemma Wrap32Exact(x: int)
    ensures Int32(Wrap32(x)) && (Int32(x) ==> Wrap32(x) == x)
  {
  }

  /** The calibration points: ADC readings at 800 and at 1050 millivolts. */
  predicate Points(x1: int, x2: int) { 0 < x1 < x2 <= 1023 }

  /** The line through the two points, times 1000 times (x2 - x1). */
  function Line(x1: int, x2: int, v: int): int {
    250000 * v + (MVOLT_A * 1000 * x2 - x1 * (MVOLT_B * 1000))
  }

  function Slope(x1: int, x2: int): int
    requires x1 < x2
  {
    TruncDiv(MVOLT_B * 1000 - MVOLT_A * 1000, x2 - x1)
  }

  function Intercept(x1: int, x2: int): int
    requires x1 < x2
  {
    TruncDiv(MVOLT_A * 1000 * x2 - x1 * (MVOLT_B * 1000), (x2 - x1) * 1000)
  }

  function Volt(x1: int, x2: int, v: int): nat
    requires x1 < x2
  {
    var voltage := TruncDiv(Slope(x1, x2) * v, 1000) + Intercept(x1, x2);
    if voltage < 0 then 0 else voltage
  }

  lemma MulBounds(a: int, b: int, x: int, y: int)
    requires 0 <= a <= x && 0 <= b <= y
    ensures 0 <= a * b <= x * y
  {
    MulMono(a, x, b);
    MulMono(b, y, x);
  }

  /** No intermediate result of the calibration or of a conversion leaves 32 bits. */
  lemma NoOverflow(x1: int, x2: int, v: int)
    requires Points(x1, x2) && 0 <= v <= 1023
    ensures Int32(MVOLT_A * 1000 * x2) && Int32(x1 * (MVOLT_B * 1000))
    ensures Int32(MVOLT_A * 1000 * x2 - x1 * (MVOLT_B * 1000)) && Int32((x2 - x1) * 1000)
    ensures Int32(Slope(x1, x2)) && Int32(Slope(x1, x2) * v) && Int32(Intercept(x1, x2))
    ensures Int32(TruncDiv(Slope(x1, x2) * v, 1000) + Intercept(x1, x2))
  {
    var d := x2 - x1;
    SlopeExact(d);
    MulBounds(Slope(x1, x2), v, 250000, 1023);
    TruncBound(MVOLT_A * 1000 * x2 - x1 * (MVOLT_B * 1000), d * 1000);
  }

  lemma SlopeExact(d: int)
    requires 0 < d
    ensures var s := 250000 / d; 0 <= s <= 250000 && s * d <= 250000 < s * d + d
  {
    var s := 250000 / d;
    assert 250000 == s * d + 250000 % d;
    if s < 0 {
      MulMono(s, -1, d);
    }
    if s > 250000 {
      MulMono(1, d, s);
    }
  }

  lemma TruncBound(a: int, b: int)
    requires b > 0
    ensures -b < a - TruncDiv(a, b) * b < b
    ensures (a >= 0 ==> 0 <= TruncDiv(a, b) <= a) && (a < 0 ==> a <= TruncDiv(a, b) <= 0)
  {
    var m := if a >= 0 then a else -a;
    var q := m / b;
    assert m == q * b + m % b;
    if q < 0 {
      MulMono(q, -1, b);
    }
    if q > m {
      MulMono(1, b, q);
    }
    assert a < 0 ==> TruncDiv(a, b) * b == -(q * b);
  }

  /**
   One conversion is less than 1 mV above and less than 3.023 mV below the exact line (which is
   Line / (1000 * (x2 - x1)) millivolts), wherever the line is not negative.
  */
  lemma VoltBound(x1: int, x2: int, v: int)
    requires Points(x1, x2) && 0 <= v <= 1023 && Line(x1, x2, v) >= 0
    ensures var s := 1000 * (x2 - x1);
            s * Volt(x1, x2, v) < Line(x1, x2, v) + s && 1000 * (Line(x1, x2, v) - s * Volt(x1, x2, v)) < 3023 * s
  {
    var d := x2 - x1;
    var sl, c := Slope(x1, x2), MVOLT_A * 1000 * x2 - x1 * (MVOLT_B * 1000);
    SlopeExact(d);
    var r := 250000 - sl * d;
    MulBounds(sl, v, 250000, 1023);
    var q, t := (sl * v) / 1000, (sl * v) % 1000;
    var k := Intercept(x1, x2);
    TruncBound(c, d * 1000);
    var e := c - k * (d * 1000);
    Decompose(d, sl, r, v, q, t, c, k, e);
    MulBounds(r, v, d - 1, 1023);
    MulBounds(d, t, d, 999);
    WithinBounds(d, Line(x1, x2, v), q + k, d * t, r * v, e);
  }

  lemma WithinBounds(d: int, n: int, w: int, dt: int, rv: int, e: int)
    requires 0 < d && 0 <= n && n - 1000 * d * w == dt + rv + e
    requires 0 <= dt <= 999 * d && 0 <= rv <= 1023 * (d - 1) && -(1000 * d) < e < 1000 * d
    ensures var volt := if w < 0 then 0 else w;
            1000 * d * volt < n + 1000 * d && 1000 * (n - 1000 * d * volt) < 3023 * (1000 * d)
  {
    if w < 0 {
      MulMono(w, -1, 1000 * d);
    }
  }

  lemma Decompose(d: int, sl: int, r: int, v: int, q: int, t: int, c: int, k: int, e: int)
    requires r == 250000 - sl * d && sl * v == 1000 * q + t && e == c - k * (d * 1000)
    ensures 250000 * v + c - 1000 * d * (q + k) == d * t + r * v + e
  {
    assert 250000 * v == r * v + (sl * d) * v;
    assert (sl * d) * v == d * (sl * v) == d * (1000 * q + t) == 1000 * d * q + d * t;
    assert 1000 * d * (q + k) == 1000 * d * q + 1000 * d * k;
    assert k * (d * 1000) == 1000 * d * k;
  }

  // ---- The machine's arithmetic, for any fuse values ----

  function SlopeWord(x1: int, x2: int): int
    requires x1 != x2
  {
    TruncDiv(MVOLT_B * 1000 - MVOLT_A * 1000, x2 - x1)
  }

  function InterceptWord(x1: int, x2: int): int
    requires x1 != x2
  {
    TruncDiv(Wrap32(Wrap32(MVOLT_A * 1000 * x2) - Wrap32(x1 * (MVOLT_B * 1000))), (x2 - x1) * 1000)
  }

  /** What a conversion returns, in the 16 bits of its result type. */
  function Convert(x1: int, x2: int, v: int): (mv: nat)
    requires x1 != x2
    ensures mv < 0x1_0000
  {
    var voltage := Wrap32(TruncDiv(Wrap32(SlopeWord(x1, x2) * v), 1000) + InterceptWord(x1, x2));
    if voltage < 0 then 0 else voltage % 0x1_0000
  }

  /** For points in order and in range only the result type can lose anything. */
  lemma ConvertExact(x1: int, x2: int, v: int)
    requires Points(x1, x2) && 0 <= v <= 1023
    ensures SlopeWord(x1, x2) == Slope(x1, x2) && InterceptWord(x1, x2) == Intercept(x1, x2)
    ensures Convert(x1, x2, v) == Volt(x1, x2, v) % 0x1_0000
  {
    NoOverflow(x1, x2, v);
    Wrap32Exact(MVOLT_A * 1000 * x2);
    Wrap32Exact(x1 * (MVOLT_B * 1000));
    Wrap32Exact(MVOLT_A * 1000 * x2 - x1 * (MVOLT_B * 1000));
    Wrap32Exact(Slope(x1, x2) * v);
    Wrap32Exact(TruncDiv(Slope(x1, x2) * v, 1000) + Intercept(x1, x2));
  }

  // ---- Five conversions and their mean ----

  function Sum(xs: seq<int>): int {
    if xs == [] then 0 else xs[0] + Sum(xs[1..])
  }

  /** The stored samples for a series of ADC readings: four times the millivolts, on 16 bits. */
  function Stored(x1: int, x2: int, vs: seq<int>): (r: seq<int>)
    requires x1 != x2
    ensures |r| == |vs| && forall i | 0 <= i < |vs| :: r[i] == 4 * Convert(x1, x2, vs[i]) % 0x1_0000
  {
    if vs == [] then [] else [4 * Convert(x1, x2, vs[0]) % 0x1_0000] + Stored(x1, x2, vs[1..])
  }

  /** Readings for which the exact line stays within the sensor's range. */
  predicate InRange(x1: int, x2: int, vs: seq<int>) {
    forall i | 0 <= i < |vs| :: 0 <= vs[i] <= 1023 && 0 <= Line(x1, x2, vs[i]) <= 16000 * (1000 * (x2 - x1))
  }

  lemma VoltInRange(x1: int, x2: int, v: int)
    requires Points(x1, x2) && InRange(x1, x2, [v])
    ensures Volt(x1, x2, v) <= 16000
  {
    var s, n := 1000 * (x2 - x1), Volt(x1, x2, v);
    assert [v][0] == v;
    VoltBound(x1, x2, v);
    if n > 16000 {
      MulMono(16001, n, s);
    }
  }

  /** What is stored is four times the voltage: the 16 bits suffice, and no reading passes for a bad value. */
  lemma StoredFits(x1: int, x2: int, v: int)
    requires Points(x1, x2) && InRange(x1, x2, [v])
    ensures Convert(x1, x2, v) == Volt(x1, x2, v) < BAD_VALUE
    ensures 4 * Convert(x1, x2, v) % 0x1_0000 == 4 * Volt(x1, x2, v) <= 64000
  {
    assert [v][0] == v;
    ConvertExact(x1, x2, v);
    VoltInRange(x1, x2, v);
    SixteenBits(Convert(x1, x2, v), Volt(x1, x2, v));
  }

  lemma SixteenBits(c: nat, n: nat)
    requires c == n % 0x1_0000 && n <= 16000
    ensures c == n && 4 * c % 0x1_0000 == 4 * n
  {
  }

  lemma SumFive(a: seq<int>)
    requires |a| == 5
    ensures Sum(a) == a[0] + a[1] + a[2] + a[3] + a[4]
  {
    assert a[1..] == [a[1], a[2], a[3], a[4]];
    assert a[1..][1..] == [a[2], a[3], a[4]];
    assert a[1..][1..][1..] == [a[3], a[4]];
    assert a[1..][1..][1..][1..] == [a[4]];
    assert a[1..][1..][1..][1..][1..] == [];
  }

  /** The exact line at each reading. */
  function Lines(x1: int, x2: int, vs: seq<int>): (r: seq<int>)
    ensures |r| == |vs| && forall i | 0 <= i < |vs| :: r[i] == Line(x1, x2, vs[i])
  {
    if vs == [] then [] else [Line(x1, x2, vs[0])] + Lines(x1, x2, vs[1..])
  }

  /** Truncating the mean of five costs less than 1 mV. */
  lemma MeanOfFive(s: int, total: int, mean: int, n: int)
    requires 0 < s && mean == total / 5
    requires s * total < n + 20 * s && 1000 * (n - s * total) < 60460 * s
    ensures n - 13 * (5 * s) < 5 * s * mean < n + 4 * (5 * s)
  {
    MulMono(5 * mean, total, s);
    MulMono(total, 5 * mean + 4, s);
    assert s * total == total * s && 5 * s * mean == (5 * mean) * s && (5 * mean + 4) * s == (5 * mean) * s + 4 * s;
  }

  /** One stored sample: four times a conversion. */
  lemma StoredBound(x1: int, x2: int, v: int)
    requires Points(x1, x2) && InRange(x1, x2, [v])
    ensures var s, x := 1000 * (x2 - x1), 4 * Convert(x1, x2, v) % 0x1_0000;
            s * x < 4 * Line(x1, x2, v) + 4 * s && 1000 * (4 * Line(x1, x2, v) - s * x) < 12092 * s
  {
    var s := 1000 * (x2 - x1);
    assert [v][0] == v;
    StoredFits(x1, x2, v);
    VoltBound(x1, x2, v);
    assert s * (4 * Volt(x1, x2, v)) == 4 * (s * Volt(x1, x2, v));
  }

  lemma CombineFive(s: int, xs: seq<int>, ns: seq<int>, p: seq<int>)
    requires |xs| == |ns| == |p| == 5
    requires forall i | 0 <= i < 5 :: p[i] == s * xs[i]
    requires forall i | 0 <= i < 5 :: p[i] < 4 * ns[i] + 4 * s && 1000 * (4 * ns[i] - p[i]) < 12092 * s
    ensures s * Sum(xs) < 4 * Sum(ns) + 20 * s && 1000 * (4 * Sum(ns) - s * Sum(xs)) < 60460 * s
  {
    SumFive(xs);
    SumFive(ns);
    SumFive(p);
    Distribute(s, xs[0], xs[1], xs[2], xs[3], xs[4]);
    assert s * Sum(xs) == Sum(p);
  }

  lemma Distribute(s: int, a: int, b: int, c: int, d: int, e: int)
    ensures s * (a + b + c + d + e) == s * a + s * b + s * c + s * d + s * e
  {
  }

  /** Less than 4 above and less than 13 below, all of it times 5 * 1000 * (x2 - x1). */
  predicate Close(x1: int, x2: int, vs: seq<int>, mean: int) {
    var s, n := 1000 * (x2 - x1), 4 * Sum(Lines(x1, x2, vs));
    n - 13 * (5 * s) < 5 * s * mean < n + 4 * (5 * s)
  }

  /**
   The mean of five stored samples is less than 4 mV above and less than 13 mV below four times the average of the exact
   line at the five readings.
  */
  lemma MeanBound(x1: int, x2: int, vs: seq<int>)
    requires Points(x1, x2) && InRange(x1, x2, vs) && |vs| == STABLE_COUNT
    ensures Close(x1, x2, vs, Sum(Stored(x1, x2, vs)) / 5)
  {
    var s, xs, ns := 1000 * (x2 - x1), Stored(x1, x2, vs), Lines(x1, x2, vs);
    forall i | 0 <= i < 5
      ensures s * xs[i] < 4 * ns[i] + 4 * s && 1000 * (4 * ns[i] - s * xs[i]) < 12092 * s
    {
      StoredBound(x1, x2, vs[i]);
    }
    CombineFive(s, xs, ns, [s * xs[0], s * xs[1], s * xs[2], s * xs[3], s * xs[4]]);
    MeanOfFive(s, Sum(xs), Sum(xs) / 5, 4 * Sum(ns));
  }

  // ---- hal_gpadc.c ----

  class Gpadc {
    const efuseLow: nat
    const efuseHigh: nat
    var slope: int
    var intercept: int
    var calibrated: bool

    /** The calibration points: the fuses, or the defaults where a fuse is blank. */
    function X1(): nat { if efuseLow > 0 then efuseLow else DEFAULT_A }

    function X2(): nat { if efuseHigh > 0 then efuseHigh else DEFAULT_B }

    ghost predicate Valid()
      reads this
    {
      && X1() != X2() && efuseLow < 0x1_0000 && efuseHigh < 0x1_0000
      && (calibrated ==> slope == SlopeWord(X1(), X2()) && intercept == InterceptWord(X1(), X2()))
    }

    constructor (efuseLow: nat, efuseHigh: nat)
      requires efuseLow < 0x1_0000 && efuseHigh < 0x1_0000
      requires (if efuseLow > 0 then efuseLow else DEFAULT_A) != (if efuseHigh > 0 then efuseHigh else DEFAULT_B)
      ensures Valid() && this.efuseLow == efuseLow && this.efuseHigh == efuseHigh
    {
      this.efuseLow, this.efuseHigh := efuseLow, efuseHigh;
      slope, intercept, calibrated := 0, 0, false;
    }

    method Calibrate()
      requires Valid()
      modifies this
      ensures Valid() && calibrated
    {
      if !calibrated {
        var y1, y2 := MVOLT_A * 1000, MVOLT_B * 1000;
        var x1 := if efuseLow > 0 then efuseLow else DEFAULT_A;
        var x2 := if efuseHigh > 0 then efuseHigh else DEFAULT_B;
        slope := TruncDiv(y2 - y1, x2 - x1);
        intercept := TruncDiv(Wrap32(Wrap32(y1 * x2) - Wrap32(x1 * y2)), (x2 - x1) * 1000);
        calibrated := true;
      }
    }

    method Adc2Volt(val: nat) returns (mv: nat)
      requires Valid()
      modifies this
      ensures Valid() && mv == if val == BAD_VALUE then BAD_VALUE else Convert(X1(), X2(), val)
    {
      Calibrate();
      if val == BAD_VALUE {
        return BAD_VALUE;
      }
      var voltage := Wrap32(TruncDiv(Wrap32(slope * val), 1000) + intercept);
      mv := if voltage < 0 then 0 else voltage % 0x1_0000;
    }
  }

  // ---- app_battery.cpp ----

  datatype Event = Silent | Invalid | Overvolt(mv: int) | Undervolt(mv: int) | Powerdown(mv: int) | Normal(mv: int)

  function Judge(mean: int, high: nat, low: nat, pd: nat): Event {
    if mean > high then Overvolt(mean)
    else if pd < mean < low then Undervolt(mean)
    else if mean < pd then Powerdown(mean)
    else Normal(mean)
  }

  /** What the four reports mean. A mean at the power-down limit itself counts as normal, whatever lies around it. */
  predicate Judged(e: Event, mean: int, high: nat, low: nat, pd: nat) {
    && Reports(e) && e.mv == mean
    && (e.Overvolt? <==> mean > high)
    && (e.Undervolt? <==> pd < mean < low && mean <= high)
    && (e.Powerdown? <==> mean < pd && mean <= high)
    && (e.Normal? <==> mean <= high && (mean == pd || (pd <= mean && low <= mean)))
  }

  lemma JudgeMeans(mean: int, high: nat, low: nat, pd: nat)
    ensures Judged(Judge(mean, high, low, pd), mean, high, low, pd)
  {
  }

  /** With limits in order, normal is what lies between them, and the power-down limit. */
  lemma NormalExactly(mean: int, high: nat, low: nat, pd: nat)
    requires pd <= low <= high
    ensures Judge(mean, high, low, pd) == Normal(mean) <==> low <= mean <= high || mean == pd
  {
  }

  /** How many samples ago slot i was written, when n samples have been stored. */
  function Age(n: nat, i: nat): nat
    requires i < 5
  {
    if i < n % 5 then n % 5 - i else n % 5 + 5 - i
  }

  lemma AgeStep(n: nat, i: nat)
    requires i < 5
    ensures Age(n + 1, i) == if i == n % 5 then 1 else Age(n, i) + 1
  {
  }

  lemma AgeModulo(n: nat, i: nat)
    requires i < 5
    ensures Age(n, i) == Age(n % 5, i)
  {
  }

  /** Rotating five samples does not change their sum. */
  lemma RotationSum(v: seq<int>, s: seq<int>, r: nat)
    requires |v| == |s| == 5 && r < 5 && forall i | 0 <= i < 5 :: v[i] == s[5 - Age(r, i)]
    ensures v[0] + v[1] + v[2] + v[3] + v[4] == s[0] + s[1] + s[2] + s[3] + s[4]
  {
    match r
    case 0 => assert Age(0, 0) == 5 && Age(0, 1) == 4 && Age(0, 2) == 3 && Age(0, 3) == 2 && Age(0, 4) == 1;
    case 1 => assert Age(1, 0) == 1 && Age(1, 1) == 5 && Age(1, 2) == 4 && Age(1, 3) == 3 && Age(1, 4) == 2;
    case 2 => assert Age(2, 0) == 2 && Age(2, 1) == 1 && Age(2, 2) == 5 && Age(2, 3) == 4 && Age(2, 4) == 3;
    case 3 => assert Age(3, 0) == 3 && Age(3, 1) == 2 && Age(3, 2) == 1 && Age(3, 3) == 5 && Age(3, 4) == 4;
    case _ => assert Age(4, 0) == 4 && Age(4, 1) == 3 && Age(4, 2) == 2 && Age(4, 3) == 1 && Age(4, 4) == 5;
  }

  /** Each slot that has been written since the index last wrapped holds the sample of its age. */
  predicate Ring(v: seq<int>, samples: seq<int>, index: nat) {
    && |v| == STABLE_COUNT && index < 0x1_0000 && index <= |samples|
    && forall i | 0 <= i < STABLE_COUNT :: Age(index, i) <= index ==> v[i] == samples[|samples| - Age(index, i)]
  }

  lemma RingStore(v: seq<int>, samples: seq<int>, index: nat, x: int)
    requires Ring(v, samples, index)
    ensures Ring(v[index % STABLE_COUNT := x], samples + [x], (index + 1) % 0x1_0000)
  {
    var next := (index + 1) % 0x1_0000;
    if index + 1 < 0x1_0000 {
      assert next == index + 1;
      forall i | 0 <= i < STABLE_COUNT
        ensures Age(next, i) <= next ==>
                  v[index % STABLE_COUNT := x][i] == (samples + [x])[|samples + [x]| - Age(next, i)]
      {
        AgeStep(index, i);
      }
    } else {
      assert next == 0;
    }
  }

  class Measure {
    const voltage: array<int>
    var index: nat
    const high: nat
    const low: nat
    const pd: nat
    /** Every sample ever stored. */
    ghost var samples: seq<int>

    ghost predicate Valid()
      reads this, voltage
    {
      Ring(voltage[..], samples, index)
    }

    ghost function LastFive(): seq<int>
      requires |samples| >= STABLE_COUNT
      reads this
    {
      samples[|samples| - STABLE_COUNT..]
    }

    /** The five slots, in whatever rotation, add up to the last five samples. */
    lemma SlotsAddUp()
      requires Valid() && index >= STABLE_COUNT
      ensures Sum(voltage[..]) == Sum(LastFive())
    {
      forall i | 0 <= i < 5 ensures voltage[..][i] == LastFive()[5 - Age(index % 5, i)] {
        AgeModulo(index, i);
      }
      RotationSum(voltage[..], LastFive(), index % 5);
      SumFive(voltage[..]);
      SumFive(LastFive());
    }

    constructor (high: nat, low: nat, pd: nat)
      ensures Valid() && fresh(voltage) && index == 0 && samples == []
      ensures this.high == high && this.low == low && this.pd == pd
    {
      voltage := new int[STABLE_COUNT](_ => 0);
      index, samples := 0, [];
      this.high, this.low, this.pd := high, low, pd;
    }

    method Store(vbat: nat)
      requires Valid()
      modifies this`index, this`samples, voltage
      ensures Valid()
      ensures samples == old(samples) + [4 * vbat % 0x1_0000] && index == (old(index) + 1) % 0x1_0000
    {
      RingStore(voltage[..], samples, index, 4 * vbat % 0x1_0000);
      ghost var was := voltage[..];
      voltage[index % STABLE_COUNT] := 4 * vbat % 0x1_0000;
      assert voltage[..] == was[index % STABLE_COUNT := 4 * vbat % 0x1_0000];
      index, samples := (index + 1) % 0x1_0000, samples + [4 * vbat % 0x1_0000];
    }

    method Mean() returns (mean: int)
      requires Valid() && index >= STABLE_COUNT
      ensures mean == Sum(LastFive()) / 5
    {
      mean := 0;
      for i := 0 to STABLE_COUNT
        invariant mean == Sum(voltage[..i])
      {
        assert voltage[..i + 1] == voltage[..i] + [voltage[i]];
        SumAppend(voltage[..i], voltage[i]);
        mean := mean + voltage[i];
      }
      SlotsAddUp();
      assert voltage[..STABLE_COUNT] == voltage[..];
      mean := mean / STABLE_COUNT;
    }

    /** app_battery_irqhandler: a report needs more than five samples since the index last wrapped. */
    method IrqHandler(vbat: nat) returns (event: Event)
      requires Valid()
      modifies this`index, this`samples, voltage
      ensures Valid()
      ensures vbat == BAD_VALUE ==> event == Invalid && samples == old(samples) && index == old(index)
      ensures vbat != BAD_VALUE ==>
                samples == old(samples) + [4 * vbat % 0x1_0000] && index == (old(index) + 1) % 0x1_0000
      ensures vbat != BAD_VALUE && index > STABLE_COUNT ==>
                && event == Judge(Sum(LastFive()) / 5, high, low, pd)
                && Judged(event, Sum(LastFive()) / 5, high, low, pd)
      ensures vbat != BAD_VALUE && index <= STABLE_COUNT ==> event == Silent
    {
      if vbat == BAD_VALUE {
        return Invalid;
      }
      Store(vbat);
      event := Silent;
      if index > STABLE_COUNT {
        var mean := Mean();
        if mean > high {
          event := Overvolt(mean);
        } else if mean > pd && mean < low {
          event := Undervolt(mean);
        } else if mean < pd {
          event := Powerdown(mean);
        } else {
          event := Normal(mean);
        }
      }
    }
  }

  lemma {:induction false} SumAppend(a: seq<int>, x: int)
    ensures Sum(a + [x]) == Sum(a) + x
  {
    if a == [] {
      assert [x][1..] == [];
    } else {
      assert (a + [x])[1..] == a[1..] + [x];
      SumAppend(a[1..], x);
    }
  }

  // ---- From the ADC to the report ----

  /** A reading of ten bits. */
  type Reading = v: nat | v < 1024

  predicate Reports(e: Event) { !e.Silent? && !e.Invalid? }

  lemma StoredAppend(x1: int, x2: int, vs: seq<int>, v: int)
    requires x1 != x2
    ensures Stored(x1, x2, vs + [v]) == Stored(x1, x2, vs) + [4 * Convert(x1, x2, v) % 0x1_0000]
  {
  }

  lemma IndexStep(index: nat, n: nat)
    requires index == n % 0x1_0000
    ensures (index + 1) % 0x1_0000 == (n + 1) % 0x1_0000
  {
  }

  lemma {:induction false} StoredFrom(x1: int, x2: int, vs: seq<int>, k: nat)
    requires x1 != x2 && k <= |vs|
    ensures Stored(x1, x2, vs)[k..] == Stored(x1, x2, vs[k..])
    decreases k
  {
    if k > 0 {
      StoredFrom(x1, x2, vs[1..], k - 1);
      assert vs[1..][k - 1..] == vs[k..];
      var all := Stored(x1, x2, vs);
      assert all == [all[0]] + Stored(x1, x2, vs[1..]);
      assert all[k..] == all[1..][k - 1..];
    } else {
      assert vs[0..] == vs;
    }
  }

  /** The interrupt of the ADC, its conversion, and the battery handler it calls. */
  class Monitor {
    const gpadc: Gpadc
    const measure: Measure
    /** The readings that were stored, i.e. all but those whose conversion looks like a bad value. */
    ghost var readings: seq<int>

    ghost predicate Valid()
      reads this, gpadc, measure, measure.voltage
    {
      && gpadc.Valid() && measure.Valid()
      && measure.samples == Stored(gpadc.X1(), gpadc.X2(), readings)
      && measure.index == |readings| % 0x1_0000
    }

    ghost function Latest(): seq<int>
      reads this
    {
      if |readings| < STABLE_COUNT then readings else readings[|readings| - STABLE_COUNT..]
    }

    constructor (efuseLow: nat, efuseHigh: nat, high: nat, low: nat, pd: nat)
      requires efuseLow < 0x1_0000 && efuseHigh < 0x1_0000
      requires (if efuseLow > 0 then efuseLow else DEFAULT_A) != (if efuseHigh > 0 then efuseHigh else DEFAULT_B)
      ensures Valid() && readings == [] && fresh(gpadc) && fresh(measure) && fresh(measure.voltage)
    {
      gpadc := new Gpadc(efuseLow, efuseHigh);
      measure := new Measure(high, low, pd);
      readings := [];
    }

    /** What is to be said after the latest reading. */
    ghost function Due(): Event
      reads this, gpadc, measure
      requires gpadc.X1() != gpadc.X2()
    {
      if |readings| % 0x1_0000 <= STABLE_COUNT then Silent
      else Judge(Sum(Stored(gpadc.X1(), gpadc.X2(), Latest())) / 5, measure.high, measure.low, measure.pd)
    }

    /** What the battery handler says of its ring is what is due. */
    lemma DueIsTheMean()
      requires Valid()
      ensures Due() == if measure.index <= STABLE_COUNT then Silent
                       else Judge(Sum(measure.LastFive()) / 5, measure.high, measure.low, measure.pd)
    {
      if measure.index > STABLE_COUNT {
        StoredFrom(gpadc.X1(), gpadc.X2(), readings, |readings| - STABLE_COUNT);
        assert measure.LastFive() == Stored(gpadc.X1(), gpadc.X2(), Latest());
      }
    }

    lemma DueIsJudged()
      requires Valid()
      ensures Reports(Due()) ==>
                Judged(Due(), Sum(Stored(gpadc.X1(), gpadc.X2(), Latest())) / 5, measure.high, measure.low, measure.pd)
    {
      if Reports(Due()) {
        JudgeMeans(Sum(Stored(gpadc.X1(), gpadc.X2(), Latest())) / 5, measure.high, measure.low, measure.pd);
      }
    }

    lemma DueIsClose()
      requires Valid()
      ensures Reports(Due()) && Points(gpadc.X1(), gpadc.X2()) && InRange(gpadc.X1(), gpadc.X2(), Latest()) ==>
                Close(gpadc.X1(), gpadc.X2(), Latest(), Due().mv)
    {
      if measure.index > STABLE_COUNT {
        MeanIsClose(gpadc.X1(), gpadc.X2(), Latest());
      }
    }

    /**
     hal_gpadc_irqhandler. A report comes exactly when more than five readings were stored since the 16-bit index
     last wrapped; it judges the mean of the last five, which is as close to the exact line as MeanBound says.
    */
    method Sample(v: Reading) returns (event: Event)
      requires Valid()
      modifies this`readings, gpadc, measure`index, measure`samples, measure.voltage
      ensures Valid()
      ensures if Convert(gpadc.X1(), gpadc.X2(), v) == BAD_VALUE then event == Invalid && readings == old(readings)
              else readings == old(readings) + [v] && event == Due()
      ensures Reports(event) ==>
                Judged(event, Sum(Stored(gpadc.X1(), gpadc.X2(), Latest())) / 5, measure.high, measure.low, measure.pd)
      ensures Reports(event) && Points(gpadc.X1(), gpadc.X2()) && InRange(gpadc.X1(), gpadc.X2(), Latest()) ==>
                Close(gpadc.X1(), gpadc.X2(), Latest(), event.mv)
    {
      var mv := gpadc.Adc2Volt(v);
      event := measure.IrqHandler(mv);
      if mv != BAD_VALUE {
        StoredAppend(gpadc.X1(), gpadc.X2(), readings, v);
        IndexStep(old(measure.index), |readings|);
        readings := readings + [v];
        DueIsTheMean();
        DueIsJudged();
        DueIsClose();
      }
    }
  }

  lemma MeanIsClose(x1: int, x2: int, vs: seq<int>)
    requires x1 != x2 && |vs| == STABLE_COUNT
    ensures Points(x1, x2) && InRange(x1, x2, vs) ==> Close(x1, x2, vs, Sum(Stored(x1, x2, vs)) / 5)
  {
    if Points(x1, x2) && InRange(x1, x2, vs) {
      MeanBound(x1, x2, vs);
    }
  }

  /** The five readings up to and including number i. */
  function FiveUpTo(vs: seq<Reading>, i: nat): seq<int>
    requires i < |vs|
  {
    if i < STABLE_COUNT then vs[..i + 1] else vs[i + 1 - STABLE_COUNT..i + 1]
  }

  lemma InRangePart(x1: int, x2: int, vs: seq<Reading>, i: nat)
    requires InRange(x1, x2, vs) && i < |vs|
    ensures InRange(x1, x2, FiveUpTo(vs, i)) && InRange(x1, x2, [vs[i]])
  {
  }

  /** The i-th event of a run. */
  predicate Told(x1: int, x2: int, vs: seq<Reading>, i: nat, e: Event)
    requires i < |vs|
  {
    && !e.Invalid? && (e.Silent? <==> (i + 1) % 0x1_0000 <= STABLE_COUNT)
    && (Reports(e) ==> Close(x1, x2, FiveUpTo(vs, i), e.mv))
  }

  predicate AllTold(x1: int, x2: int, vs: seq<Reading>, events: seq<Event>) {
    |events| <= |vs| && forall i | 0 <= i < |events| :: Told(x1, x2, vs, i, events[i])
  }

  lemma ToldMore(x1: int, x2: int, vs: seq<Reading>, events: seq<Event>, e: Event)
    requires AllTold(x1, x2, vs, events) && |events| < |vs| && Told(x1, x2, vs, |events|, e)
    ensures AllTold(x1, x2, vs, events + [e])
  {
    forall i | 0 <= i < |events + [e]| ensures Told(x1, x2, vs, i, (events + [e])[i]) {
      assert (events + [e])[i] == if i < |events| then events[i] else e;
    }
  }

  lemma DueIsTold(m: Monitor, vs: seq<Reading>, i: nat)
    requires m.Valid() && i < |vs| && m.readings == vs[..i + 1]
    requires Points(m.gpadc.X1(), m.gpadc.X2()) && InRange(m.gpadc.X1(), m.gpadc.X2(), vs)
    ensures Told(m.gpadc.X1(), m.gpadc.X2(), vs, i, m.Due())
  {
    InRangePart(m.gpadc.X1(), m.gpadc.X2(), vs, i);
    assert m.Latest() == FiveUpTo(vs, i);
    m.DueIsClose();
  }

  method SampleNext(m: Monitor, vs: seq<Reading>, i: nat) returns (event: Event)
    requires m.Valid() && i < |vs| && m.readings == vs[..i]
    requires Points(m.gpadc.X1(), m.gpadc.X2()) && InRange(m.gpadc.X1(), m.gpadc.X2(), vs)
    modifies m`readings, m.gpadc, m.measure`index, m.measure`samples, m.measure.voltage
    ensures m.Valid() && m.readings == vs[..i + 1] && Told(m.gpadc.X1(), m.gpadc.X2(), vs, i, event)
  {
    NotBad(m.gpadc.X1(), m.gpadc.X2(), vs, i);
    event := m.Sample(vs[i]);
    OneMore(vs, i);
    DueIsTold(m, vs, i);
  }

  lemma OneMore(vs: seq<Reading>, i: nat)
    requires i < |vs|
    ensures vs[..i] + [vs[i]] == vs[..i + 1]
  {
  }

  lemma NotBad(x1: int, x2: int, vs: seq<Reading>, i: nat)
    requires Points(x1, x2) && InRange(x1, x2, vs) && i < |vs|
    ensures Convert(x1, x2, vs[i]) != BAD_VALUE
  {
    InRangePart(x1, x2, vs, i);
    StoredFits(x1, x2, vs[i]);
  }

  /**
   Any number of readings, so the 16-bit index may wrap: every reading that is not among the first five since the
   index was 0 reports a mean close to the exact line at the last five readings.
  */
  method Watch(m: Monitor, vs: seq<Reading>) returns (events: seq<Event>)
    requires m.Valid() && m.readings == []
    requires Points(m.gpadc.X1(), m.gpadc.X2()) && InRange(m.gpadc.X1(), m.gpadc.X2(), vs)
    modifies m`readings, m.gpadc, m.measure`index, m.measure`samples, m.measure.voltage
    ensures m.Valid() && m.readings == vs && |events| == |vs|
    ensures AllTold(m.gpadc.X1(), m.gpadc.X2(), vs, events)
  {
    events := [];
    var i := 0;
    while i < |vs|
      invariant 0 <= i <= |vs| && m.Valid() && m.readings == vs[..i] && |events| == i
      invariant AllTold(m.gpadc.X1(), m.gpadc.X2(), vs, events)
    {
      var e := SampleNext(m, vs, i);
      ToldMore(m.gpadc.X1(), m.gpadc.X2(), vs, events, e);
      events := events + [e];
      i := i + 1;
    }
  }
}
