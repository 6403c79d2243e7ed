/** The curve interpolation of `transform.c` and the battery curves of `power_manager.c`. */
module Transform {
  import opened Bytes

  datatype Point = Point(input: int, output: int)

  /** What `transform.h` demands of a curve: inputs strictly decrease. */
  predicate Curve(curve: seq<Point>) {
    |curve| > 0 && forall i, j :: 0 <= i < j < |curve| ==> curve[i].input > curve[j].input
  }

  /** A curve whose outputs do not increase along it either. */
  predicate Falling(curve: seq<Point>) {
    Curve(curve) && forall i, j :: 0 <= i < j < |curve| ==> curve[i].output >= curve[j].output
  }

  /** A curve of one point has no segment: the value has to lie on or above it. */
  predicate Covers(curve: seq<Point>, x: int) { |curve| > 0 && (|curve| > 1 || x >= curve[0].input) }

  /** Index of the lower end of the segment the search stops at. */
  function Segment(curve: seq<Point>, x: int, i: nat): (k: nat)
    requires i < |curve|
    ensures i <= k < |curve| && (k == |curve| - 1 || x >= curve[k].input)
    ensures forall j :: i <= j < k ==> x < curve[j].input
    decreases |curve| - i
  {
    if i < |curve| - 1 && x < curve[i].input then Segment(curve, x, i + 1) else i
  }

  /** Linear interpolation between neighbouring points, rounded toward the lower one. */
  function Between(above: Point, below: Point, x: int): int
    requires above.input > below.input
  {
    below.output + TruncDiv((above.output - below.output) * (x - below.input), above.input - below.input)
  }

  function Value(curve: seq<Point>, x: int): int
    requires Curve(curve) && Covers(curve, x)
  {
    if x >= curve[0].input then curve[0].output
    else
      var k := Segment(curve, x, 1);
      if x <= curve[k].input then curve[k].output else Between(curve[k - 1], curve[k], x)
  }

  /** `transform_curve`. */
  method TransformCurve(x: int, curve: seq<Point>) returns (out: int)
    requires Curve(curve) && Covers(curve, x)
    ensures out == Value(curve, x)
  {
    if x >= curve[0].input {
      return curve[0].output;
    }
    var points, b: nat := |curve| - 1, 1;
    while points > 1 && x < curve[b].input
      invariant 1 <= b < |curve| && points == |curve| - b
      invariant Segment(curve, x, 1) == Segment(curve, x, b)
      decreases points
    {
      points := points - 1;
      b := b + 1;
    }
    if x <= curve[b].input {
      return curve[b].output;
    }
    out := curve[b].output
      + TruncDiv((curve[b - 1].output - curve[b].output) * (x - curve[b].input), curve[b - 1].input - curve[b].input);
  }

  // ----- properties

  lemma ProductsOrdered(a: int, x: int, y: int)
    requires a >= 0 && x <= y
    ensures a * x <= a * y
  {
  }

  lemma QuotientsOrdered(n: int, m: int, d: int)
    requires 0 <= n <= m && d > 0
    ensures TruncDiv(n, d) <= TruncDiv(m, d)
  {
    var p, q := TruncDiv(n, d), TruncDiv(m, d);
    if p > q {
      MulMonotone(d, q + 1, p);
    }
  }

  lemma BetweenRange(above: Point, below: Point, x: int)
    requires above.input > below.input && above.output >= below.output && below.input <= x <= above.input
    ensures below.output <= Between(above, below, x) <= above.output
    ensures x == below.input ==> Between(above, below, x) == below.output
    ensures x == above.input ==> Between(above, below, x) == above.output
  {
    var a, d := above.output - below.output, above.input - below.input;
    ProductsOrdered(a, 0, x - below.input);
    ProductsOrdered(a, x - below.input, d);
    QuotientsOrdered(a * (x - below.input), a * d, d);
    DivUnique(a * d, d, a, 0);
  }

  lemma BetweenMonotone(above: Point, below: Point, x: int, y: int)
    requires above.input > below.input && above.output >= below.output && below.input <= x <= y
    ensures Between(above, below, x) <= Between(above, below, y)
  {
    var a, d := above.output - below.output, above.input - below.input;
    ProductsOrdered(a, 0, x - below.input);
    ProductsOrdered(a, x - below.input, y - below.input);
    QuotientsOrdered(a * (x - below.input), a * (y - below.input), d);
  }

  /** The value of an input lies between the outputs of its segment. */
  lemma ValueInSegment(curve: seq<Point>, x: int)
    requires Falling(curve) && Covers(curve, x) && x < curve[0].input
    ensures var k := Segment(curve, x, 1); curve[k].output <= Value(curve, x) <= curve[k - 1].output
  {
    var k := Segment(curve, x, 1);
    if x > curve[k].input {
      BetweenRange(curve[k - 1], curve[k], x);
    }
  }

  /** The interpolated value stays within the output range of the curve. */
  lemma ValueInRange(curve: seq<Point>, x: int)
    requires Falling(curve) && Covers(curve, x)
    ensures curve[|curve| - 1].output <= Value(curve, x) <= curve[0].output
  {
    if x < curve[0].input {
      ValueInSegment(curve, x);
    }
  }

  /** It is exact at every point. */
  lemma ValueAtPoint(curve: seq<Point>, i: nat)
    requires Curve(curve) && i < |curve|
    ensures Covers(curve, curve[i].input) && Value(curve, curve[i].input) == curve[i].output
  {
    if i > 0 {
      var k := Segment(curve, curve[i].input, 1);
      assert k == i;
    }
  }

  /** Within every segment, both ends included, the value is the linear interpolation rounded toward the
      output of the lower input; outside the curve it is the output of the nearest end. */
  lemma ValueIsLinear(curve: seq<Point>, x: int)
    requires Curve(curve) && Covers(curve, x)
    ensures x >= curve[0].input ==> Value(curve, x) == curve[0].output
    ensures |curve| > 1 && x <= curve[|curve| - 1].input ==> Value(curve, x) == curve[|curve| - 1].output
    ensures forall k :: 0 < k < |curve| && curve[k].input <= x <= curve[k - 1].input ==>
      OnLine(curve[k - 1], curve[k], x, Value(curve, x))
  {
    forall k | 0 < k < |curve| && curve[k].input <= x <= curve[k - 1].input
      ensures OnLine(curve[k - 1], curve[k], x, Value(curve, x))
    {
      BetweenOnLine(curve[k - 1], curve[k], x);
      if x == curve[k].input {
        ValueAtPoint(curve, k);
      } else if x == curve[k - 1].input {
        ValueAtPoint(curve, k - 1);
      } else {
        assert Segment(curve, x, 1) == k;
      }
    }
    if |curve| > 1 && x <= curve[|curve| - 1].input {
      assert Segment(curve, x, 1) == |curve| - 1;
    }
  }

  /** `y` is the line through both points at `x`, rounded toward the output of `below`. */
  predicate OnLine(above: Point, below: Point, x: int, y: int) {
    var rise, run := above.output - below.output, above.input - below.input;
    if rise >= 0 then (y - below.output) * run <= rise * (x - below.input) < (y - below.output + 1) * run
    else (y - below.output - 1) * run < rise * (x - below.input) <= (y - below.output) * run
  }

  lemma TruncBounds(n: int, d: int)
    requires d > 0
    ensures n >= 0 ==> TruncDiv(n, d) * d <= n < (TruncDiv(n, d) + 1) * d
    ensures n <= 0 ==> (TruncDiv(n, d) - 1) * d < n <= TruncDiv(n, d) * d
  {
    var q := TruncDiv(n, d);
    MulDistributes(d, q, 1);
    MulDistributes(d, q, -1);
  }

  lemma BetweenOnLine(above: Point, below: Point, x: int)
    requires above.input > below.input && below.input <= x
    ensures OnLine(above, below, x, Between(above, below, x))
  {
    hide TruncDiv;
    var rise, dx := above.output - below.output, x - below.input;
    TruncBounds(rise * dx, above.input - below.input);
    if rise >= 0 {
      ProductsOrdered(dx, 0, rise);
    } else {
      ProductsOrdered(dx, rise, 0);
    }
  }

  /** A higher input never gives a lower value, over all integers. */
  lemma ValueMonotone(curve: seq<Point>, x: int, y: int)
    requires Falling(curve) && Covers(curve, x) && Covers(curve, y) && x <= y
    ensures Value(curve, x) <= Value(curve, y)
  {
    if y >= curve[0].input {
      ValueInRange(curve, x);
    } else {
      var i, j := Segment(curve, x, 1), Segment(curve, y, 1);
      ValueInSegment(curve, x);
      ValueInSegment(curve, y);
      if i == j {
        if x > curve[i].input {
          BetweenMonotone(curve[i - 1], curve[i], x, y);
        }
      } else {
        assert i > j;
      }
    }
  }

  // ----- the battery curves

  const LIPO_1350: seq<Point> :=
    [Point(4200, 10000), Point(3950, 8332), Point(3812, 5313), Point(3689, 1592), Point(3626, 1146), Point(3540, 700),
     Point(3300, 0)]
  const LIPO_2000: seq<Point> :=
    [Point(4150, 10000), Point(3762, 6188), Point(3688, 5246), Point(3633, 3688), Point(3554, 1844), Point(3474, 656),
     Point(3466, 491), Point(3431, 246), Point(3300, 0)]
  const LIPO_2000_ADC: seq<Point> :=
    [Point(4180, 10000), Point(4136, 9900), Point(4068, 9500), Point(4022, 9000), Point(4000, 7700), Point(3800, 4500),
     Point(3420, 500), Point(3350, 0)]
  const NIMH_2000: seq<Point> :=
    [Point(4300, 10000), Point(4029, 9144), Point(3939, 8558), Point(3903, 8063), Point(3877, 6982), Point(3802, 4820),
     Point(3445, 765), Point(3398, 315), Point(3300, 0)]
  const NIMH_2000_ADC: seq<Point> :=
    [Point(4350, 10000), Point(4024, 9265), Point(3886, 7746), Point(3784, 3380), Point(3696, 1830), Point(3540, 845),
     Point(3430, 422), Point(3300, 0)]
  const NIMH_4_2000: seq<Point> :=
    [Point(5800, 10000), Point(5365, 9265), Point(5181, 7746), Point(5045, 3380), Point(4928, 1830), Point(4720, 845),
     Point(4573, 422), Point(4400, 0)]
  const SUPCAP_LIHY: seq<Point> := [Point(3950, 10000), Point(3550, 1682), Point(3472, 412), Point(3415, 0)]

  ghost predicate BatteryCurve(curve: seq<Point>) {
    || curve == LIPO_1350 || curve == LIPO_2000 || curve == LIPO_2000_ADC || curve == NIMH_2000
    || curve == NIMH_2000_ADC || curve == NIMH_4_2000 || curve == SUPCAP_LIHY
  }

  predicate Neighbours(curve: seq<Point>) {
    forall i :: 0 < i < |curve| ==> curve[i - 1].input > curve[i].input && curve[i - 1].output >= curve[i].output
  }

  lemma {:induction false} NeighboursFall(curve: seq<Point>)
    requires Neighbours(curve) && curve != []
    ensures Falling(curve)
  {
    if |curve| > 1 {
      var init := curve[..|curve| - 1];
      NeighboursFall(init);
      var n := |curve| - 1;
      forall i, j | 0 <= i < j < |curve|
        ensures curve[i].input > curve[j].input && curve[i].output >= curve[j].output
      {
        if j < n {
          assert init[i].input > init[j].input;
        } else if i < n - 1 {
          assert init[i].input > init[n - 1].input;
        }
      }
    }
  }

  /** A charge level: the outputs go from 100 % in units of 0.01 % down to 0. */
  predicate Discharge(curve: seq<Point>) {
    && |curve| > 1 && Neighbours(curve)
    && curve[0].output == 10000 && curve[|curve| - 1].output == 0
    && curve[0].input - curve[|curve| - 1].input <= 1400
  }

  lemma Lipo1350Discharges()
    ensures Discharge(LIPO_1350)
  {
  }

  lemma Lipo2000Discharges()
    ensures Discharge(LIPO_2000)
  {
  }

  lemma Lipo2000AdcDischarges()
    ensures Discharge(LIPO_2000_ADC)
  {
  }

  lemma Nimh2000Discharges()
    ensures Discharge(NIMH_2000)
  {
  }

  lemma Nimh2000AdcDischarges()
    ensures Discharge(NIMH_2000_ADC)
  {
  }

  lemma Nimh42000Discharges()
    ensures Discharge(NIMH_4_2000)
  {
  }

  lemma SupcapLihyDischarges()
    ensures Discharge(SUPCAP_LIHY)
  {
  }

  lemma BatteryCurvesDischarge(curve: seq<Point>)
    requires BatteryCurve(curve)
    ensures Discharge(curve)
  {
    hide Discharge;
    Lipo1350Discharges();
    Lipo2000Discharges();
    Lipo2000AdcDischarges();
    Nimh2000Discharges();
    Nimh2000AdcDischarges();
    Nimh42000Discharges();
    SupcapLihyDischarges();
  }

  /** With any of the battery curves the level is monotone in the voltage and between 0 and 10000, and the
      product under the division fits 32 bits. */
  lemma BatteryLevel(curve: seq<Point>, x: int, y: int)
    requires BatteryCurve(curve) && x <= y
    ensures Falling(curve) && Covers(curve, x) && Covers(curve, y)
    ensures 0 <= Value(curve, x) <= Value(curve, y) <= 10000
    ensures forall k :: 0 < k < |curve| && curve[k].input <= x <= curve[k - 1].input ==>
      0 <= (curve[k - 1].output - curve[k].output) * (x - curve[k].input) < 0x8000_0000
  {
    hide BatteryCurve;
    BatteryCurvesDischarge(curve);
    NeighboursFall(curve);
    ValueInRange(curve, x);
    ValueInRange(curve, y);
    ValueMonotone(curve, x, y);
    forall k | 0 < k < |curve| && curve[k].input <= x <= curve[k - 1].input
      ensures 0 <= (curve[k - 1].output - curve[k].output) * (x - curve[k].input) < 0x8000_0000
    {
      assert k > 1 ==> curve[0].input > curve[k - 1].input && curve[0].output >= curve[k - 1].output;
      ProductFits(curve[k - 1].output - curve[k].output, x - curve[k].input);
    }
  }

  lemma ProductFits(a: int, b: int)
    requires 0 <= a <= 10000 && 0 <= b <= 1400
    ensures 0 <= a * b < 0x8000_0000
  {
    ProductsOrdered(a, 0, b);
    ProductsOrdered(a, b, 1400);
  }
}
