/** PSM timers: the cascaded round-up of `modem_cmd_psm` and the bit strings of `parse.c`, against the
    timer values of sections 10.5.7.4 and 10.5.7.4a of 3GPP TS 24.008. */
module PsmTimers {
  import opened Bytes
  import opened Flash

  const MAX_COUNT := 31

  function CeilDiv(t: nat, d: nat): nat
    requires d > 0
  {
    (t + (d - 1)) / d
  }

  // ----- bit strings

  /** The characters of `print_bin_groups`: the low `bits` bits of `val`, in two's complement when it is
      negative, a space before each group. */
  function Bits(bits: nat, groups: nat, val: int, begun: bool): (s: string)
    requires bits > 0 ==> groups > 0
    decreases bits
  {
    if bits == 0 then ""
    else
      (if begun && bits % groups == 0 then " " else "")
      + (if val / Pow2(bits - 1) % 2 == 1 then "1" else "0")
      + Bits(bits - 1, groups, val, true)
  }

  /** A buffer with `text` written at `at`. */
  ghost function Overwritten(buf: seq<char>, at: nat, text: string): (s: seq<char>)
    requires at + |text| <= |buf|
    ensures |s| == |buf|
  {
    buf[..at] + text + buf[at + |text|..]
  }

  lemma OverwriteNext(buf: seq<char>, at: nat, text: string, c: char)
    requires at + |text| < |buf|
    ensures Overwritten(buf, at, text)[at + |text| := c] == Overwritten(buf, at, text + [c])
  {
  }

  lemma OverwriteNothing(buf: seq<char>, at: nat)
    requires at <= |buf|
    ensures Overwritten(buf, at, "") == buf
  {
  }

  lemma BitsStep(bits: nat, groups: nat, val: int, begun: bool)
    requires bits > 0 && groups > 0
    ensures Bits(bits, groups, val, begun)
         == (if begun && bits % groups == 0 then [' '] else [])
            + [if val / Pow2(bits - 1) % 2 == 1 then '1' else '0'] + Bits(bits - 1, groups, val, true)
  {
  }

  method PutChar(buf: array<char>, index: nat, c: char)
    requires index < buf.Length
    modifies buf
    ensures buf[..] == old(buf[..])[index := c]
  {
    buf[index] := c;
  }

  /** `print_bin_groups` into `buf` from `at` on, with the terminating NUL. */
  method PrintBinGroups(buf: array<char>, at: nat, bits: nat, groups: nat, val: int)
    returns (end: nat)
    requires bits > 0 ==> groups > 0
    requires at + |Bits(bits, groups, val, false)| < buf.Length
    modifies buf
    ensures end == at + |Bits(bits, groups, val, false)|
    ensures buf[..] == Overwritten(old(buf[..]), at, Bits(bits, groups, val, false) + ['\0'])
  {
    hide Overwritten, Bits;
    var index, left: nat := at, bits;
    ghost var before: seq<char>, done: string := buf[..], "";
    ghost var all := Bits(bits, groups, val, false);
    OverwriteNothing(before, at);
    while left > 0
      invariant left <= bits && index == at + |done| && (left < bits <==> index > at)
      invariant all == done + Bits(left, groups, val, left < bits)
      invariant buf[..] == Overwritten(before, at, done)
    {
      BitsStep(left, groups, val, left < bits);
      ghost var tail := Bits(left - 1, groups, val, true);
      if index > at && left % groups == 0 {
        OverwriteNext(before, at, done, ' ');
        PutChar(buf, index, ' ');
        index := index + 1;
        done := done + [' '];
      }
      left := left - 1;
      var digit := if val / Pow2(left) % 2 == 1 then '1' else '0';
      assert all == done + [digit] + tail;
      OverwriteNext(before, at, done, digit);
      PutChar(buf, index, digit);
      index := index + 1;
      done := done + [digit];
    }
    NoBits(groups, val, left < bits);
    assert all == done;
    OverwriteNext(before, at, done, '\0');
    PutChar(buf, index, '\0');
    end := index;
  }

  lemma NoBits(groups: nat, val: int, begun: bool)
    ensures Bits(0, groups, val, begun) == ""
  {
  }

  /** Reads a string of binary digits. */
  function ParseBits(s: string): nat {
    if s == "" then 0 else (if s[0] == '1' then Pow2(|s| - 1) else 0) + ParseBits(s[1..])
  }

  function LowBits(bits: nat, val: int): (s: string)
    ensures |s| == bits
  {
    if bits == 0 then "" else (if val / Pow2(bits - 1) % 2 == 1 then "1" else "0") + LowBits(bits - 1, val)
  }

  /** `print_bin` prints one group: no spaces. */
  lemma {:induction false} OneGroup(bits: nat, groups: nat, val: int, begun: bool)
    requires if begun then bits < groups else bits <= groups
    ensures Bits(bits, groups, val, begun) == LowBits(bits, val)
    decreases bits
  {
    if bits > 0 {
      OneGroup(bits - 1, groups, val, true);
      if begun { DivUnique(bits, groups, 0, bits); }
    }
  }

  /** Parsing the printed bits gives the value back, cut to its low bits. */
  lemma {:induction false} ParsePrinted(bits: nat, val: int)
    ensures ParseBits(LowBits(bits, val)) == val % Pow2(bits)
  {
    if bits > 0 {
      var s := LowBits(bits, val);
      ParsePrinted(bits - 1, val);
      assert s[1..] == LowBits(bits - 1, val);
      TopBit(val, Pow2(bits - 1));
    }
  }

  lemma TopBit(val: int, p: nat)
    requires p > 0
    ensures val % (2 * p) == (if val / p % 2 == 1 then p else 0) + val % p
  {
    var q, r := val / p, val % p;
    var h := q / 2;
    assert val == p * q + r && q == 2 * h + q % 2;
    assert p * (2 * h) == (2 * p) * h;
    if q % 2 == 1 {
      assert p * q == p * (2 * h) + p;
      DivUnique(val, 2 * p, h, p + r);
    } else {
      assert p * q == p * (2 * h);
      DivUnique(val, 2 * p, h, r);
    }
  }

  // ----- the timers

  /** A unit in seconds and its 3-bit code. */
  datatype Unit = Unit(seconds: nat, code: nat)

  /** Units of the active time, GPRS timer 2. */
  const ACTIVE_UNITS: seq<Unit> := [Unit(2, 0), Unit(60, 1), Unit(360, 2)]

  /** Units of the tracking area update time, GPRS timer 3. */
  const TAU_UNITS: seq<Unit> :=
    [Unit(2, 3), Unit(30, 4), Unit(60, 5), Unit(600, 0), Unit(3600, 1), Unit(36000, 2), Unit(1152000, 6)]

  ghost predicate Representable(units: seq<Unit>, t: nat) {
    exists i: nat, c: nat :: IsTime(units, i, c, t)
  }

  predicate IsTime(units: seq<Unit>, i: nat, c: nat, t: nat) {
    i < |units| && c <= MAX_COUNT && t == c * units[i].seconds
  }

  /** `t` is the least representable time that is not below the request. */
  ghost predicate Least(units: seq<Unit>, request: nat, t: nat) {
    && Representable(units, t) && t >= request
    && forall u: nat :: Representable(units, u) && u >= request ==> t <= u
  }

  /** The first unit whose count fits, or the last one: what the cascade of rounded divisions selects. */
  ghost predicate Selected(units: seq<Unit>, request: nat, i: nat, count: nat) {
    && i < |units| && units[i].seconds > 0
    && count == CeilDiv(request, units[i].seconds)
    && (forall k :: 0 <= k < i ==> units[k].seconds > 0 && request > MAX_COUNT * units[k].seconds)
    && (count <= MAX_COUNT || i == |units| - 1)
  }

  /** Every unit is a multiple of the units before it. */
  ghost predicate Chain(units: seq<Unit>) {
    forall i, j :: 0 <= i <= j < |units| ==> units[i].seconds > 0 && units[j].seconds % units[i].seconds == 0
  }

  lemma UnitChains()
    ensures Chain(ACTIVE_UNITS) && Chain(TAU_UNITS)
  {
  }

  lemma CeilLeast(t: nat, d: nat, n: nat)
    requires d > 0
    ensures CeilDiv(t, d) * d >= t
    ensures n * d >= t ==> n >= CeilDiv(t, d)
  {
    var c := CeilDiv(t, d);
    DivFloor(t + (d - 1), d);
    assert (n + 1) * d == n * d + d;
    if n * d >= t && n < c {
      MulMonotone(d, n + 1, c);
    }
  }

  lemma LargerUnit(request: nat, d: nat, larger: nat, c: nat)
    requires d > 0 && larger % d == 0 && c * larger >= request
    ensures CeilDiv(request, d) * d <= c * larger
  {
    var m := larger / d;
    MulAssociates(c, m, d);
    CeilLeast(request, d, c * m);
    MulMonotone(d, CeilDiv(request, d), c * m);
  }

  lemma SmallerUnit(request: nat, smaller: nat, c: nat)
    requires request > MAX_COUNT * smaller && c <= MAX_COUNT
    ensures c * smaller < request
  {
    MulMonotone(smaller, c, MAX_COUNT);
  }

  /** The selected count is the least representable time. */
  lemma SelectedIsLeast(units: seq<Unit>, request: nat, i: nat, count: nat)
    requires Chain(units) && Selected(units, request, i, count) && count <= MAX_COUNT
    ensures Least(units, request, count * units[i].seconds)
  {
    hide CeilDiv;
    var d := units[i].seconds;
    CeilLeast(request, d, 0);
    assert IsTime(units, i, count, count * d);
    forall u: nat | Representable(units, u) && u >= request
      ensures count * d <= u
    {
      var j: nat, c: nat :| IsTime(units, j, c, u);
      if j < i {
        SmallerUnit(request, units[j].seconds, c);
        assert false;
      } else {
        LargerUnit(request, d, units[j].seconds, c);
      }
    }
  }

  /** What the printed 3 unit bits and 5 count bits of a timer stand for. */
  ghost predicate DecodesTo(units: seq<Unit>, bits: string, t: nat) {
    && |bits| == 8
    && exists i :: 0 <= i < |units| && units[i].code == ParseBits(bits[..3])
                   && t == ParseBits(bits[3..]) * units[i].seconds
  }

  ghost predicate Printed(units: seq<Unit>, bits: string, i: nat, count: nat) {
    |bits| == 8 && i < |units| && bits == LowBits(3, units[i].code) + LowBits(5, count)
  }

  lemma PrintedParts(units: seq<Unit>, bits: string, i: nat, count: nat)
    requires Printed(units, bits, i, count) && units[i].code < 8
    ensures ParseBits(bits[..3]) == units[i].code && ParseBits(bits[3..]) == count % 32
  {
    assert Pow2(3) == 8 && Pow2(5) == 32 by { assert Pow2(2) == 4; assert Pow2(4) == 16; }
    ParsePrinted(3, units[i].code);
    ParsePrinted(5, count);
    assert bits[..3] == LowBits(3, units[i].code) && bits[3..] == LowBits(5, count);
  }

  ghost predicate DistinctCodes(units: seq<Unit>) {
    && (forall i :: 0 <= i < |units| ==> units[i].code < 8)
    && (forall i, j :: 0 <= i < j < |units| ==> units[i].code != units[j].code)
  }

  lemma UnitCodes()
    ensures DistinctCodes(ACTIVE_UNITS) && DistinctCodes(TAU_UNITS)
  {
  }

  /** The printed timer is the least representable time not below the request exactly when the request is
      at most 31 of the largest unit; a larger request is cut and printed as a shorter time. */
  lemma TimerOptimalIff(units: seq<Unit>, request: nat, bits: string, i: nat, count: nat)
    requires Chain(units) && DistinctCodes(units)
    requires Selected(units, request, i, count) && Printed(units, bits, i, count)
    ensures
      var largest := units[|units| - 1].seconds;
      && DecodesTo(units, bits, (count % 32) * units[i].seconds)
      && (request <= MAX_COUNT * largest ==> Least(units, request, (count % 32) * units[i].seconds))
      && (request > MAX_COUNT * largest ==> (count % 32) * units[i].seconds < request)
  {
    hide LowBits, ParseBits, CeilDiv, Least, Representable;
    PrintedParts(units, bits, i, count);
    var d, largest := units[i].seconds, units[|units| - 1].seconds;
    CeilLeast(request, d, MAX_COUNT);
    Multiple(largest, d);
    MulMonotone(MAX_COUNT, d, largest);
    if count <= MAX_COUNT {
      SelectedIsLeast(units, request, i, count);
      MulMonotone(d, count, MAX_COUNT);
    } else {
      MulMonotone(d, count % 32, MAX_COUNT);
    }
  }

  lemma Multiple(n: nat, d: nat)
    requires d > 0 && n > 0 && n % d == 0
    ensures n >= d
  {
  }

  /** Decoding is unambiguous. */
  lemma DecodesUnique(units: seq<Unit>, bits: string, t: nat, u: nat)
    requires DistinctCodes(units) && DecodesTo(units, bits, t) && DecodesTo(units, bits, u)
    ensures t == u
  {
  }

  lemma UnitBits()
    ensures LowBits(3, 0) == "000" && LowBits(3, 1) == "001" && LowBits(3, 2) == "010"
  {
    assert Pow2(0) == 1 && Pow2(1) == 2 && Pow2(2) == 4;
    forall v: nat | v < 3
      ensures LowBits(3, v) == [Digit(v / 4 % 2), Digit(v / 2 % 2), Digit(v % 2)]
    {
      assert LowBits(1, v) == [Digit(v % 2)];
      assert LowBits(2, v) == [Digit(v / 2 % 2), Digit(v % 2)];
    }
  }

  function Digit(b: nat): char { if b == 1 then '1' else '0' }

  /** The cascade of the active time: 2 s, 60 s, 360 s. */
  method RoundActiveTime(request: nat) returns (count: nat, i: nat)
    ensures Selected(ACTIVE_UNITS, request, i, count)
  {
    i := 0;
    count := CeilDiv(request, 2);
    if count > 31 {
      i := 1;
      count := CeilDiv(count, 30);
      if count > 31 {
        i := 2;
        count := CeilDiv(count, 6);
      }
    }
  }

  /** The cascade of the tracking area update time, with the code of the unit. */
  method RoundTau(request: nat) returns (count: nat, id: nat, ghost i: nat)
    ensures Selected(TAU_UNITS, request, i, count) && id == TAU_UNITS[i].code
  {
    count, id, i := CeilDiv(request, 2), 3, 0;
    if count > 31 {
      count, id, i := CeilDiv(count, 15), 4, 1;
      if count > 31 {
        count, id, i := CeilDiv(count, 2), 5, 2;
        if count > 31 {
          count, id, i := CeilDiv(count, 10), 0, 3;
          if count > 31 {
            count, id, i := CeilDiv(count, 6), 1, 4;
            if count > 31 {
              count, id, i := CeilDiv(count, 10), 2, 5;
              if count > 31 {
                count, id, i := CeilDiv(count, 32), 6, 6;
              }
            }
          }
        }
      }
    }
  }

  /** The bits stand for the least timer not below a request up to `limit`, and for a shorter time above. */
  ghost predicate Optimal(units: seq<Unit>, request: nat, bits: string, limit: nat) {
    exists t: nat :: DecodesTo(units, bits, t) && if request <= limit then Least(units, request, t) else t < request
  }

  /** The active time of `modem_cmd_psm`: the printed bits are the least timer not below the request if one
      exists, else a shorter one. */
  method EncodeActiveTime(request: nat) returns (rat: string)
    ensures Optimal(ACTIVE_UNITS, request, rat, 31 * 360)
  {
    hide Bits, LowBits, Selected, Chain, DistinctCodes, DecodesTo, Least;
    var buf := new char[9](k => if k < 8 then '0' else '\0');
    var count, i := RoundActiveTime(request);
    assert i < 3 by { InUnits(ACTIVE_UNITS, request, i, count); }
    if i == 2 {
      buf[1] := '1';
    } else if i == 1 {
      buf[2] := '1';
    }
    OneGroup(5, 5, count, false);
    UnitBits();
    var end := PrintBinGroups(buf, 3, 5, 5, count);
    rat := buf[..8];
    assert rat == LowBits(3, ACTIVE_UNITS[i].code) + LowBits(5, count);
    UnitChains();
    UnitCodes();
    TimerOptimalIff(ACTIVE_UNITS, request, rat, i, count);
  }

  lemma InUnits(units: seq<Unit>, request: nat, i: nat, count: nat)
    requires Selected(units, request, i, count)
    ensures i < |units|
  {
  }

  /** The tracking area update time, in seconds. */
  method EncodeTau(request: nat) returns (tau: string)
    ensures Optimal(TAU_UNITS, request, tau, 31 * 1152000)
  {
    hide Bits, LowBits, Selected, Chain, DistinctCodes, DecodesTo, Least;
    var buf := new char[9](k => if k < 8 then '0' else '\0');
    ghost var i: nat;
    var count, id;
    count, id, i := RoundTau(request);
    InUnits(TAU_UNITS, request, i, count);
    OneGroup(3, 3, id, false);
    OneGroup(5, 5, count, false);
    var end := PrintBinGroups(buf, 0, 3, 3, id);
    end := PrintBinGroups(buf, 3, 5, 5, count);
    tau := buf[..8];
    assert tau == LowBits(3, TAU_UNITS[i].code) + LowBits(5, count);
    UnitChains();
    UnitCodes();
    TimerOptimalIff(TAU_UNITS, request, tau, i, count);
  }
}
