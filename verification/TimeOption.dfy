/** The time option of `coap_appl_client.c`: a 64-bit signed time in as few big-endian bytes as keep its
    sign. Time 0 is not covered: the source then reads behind its 8 bytes. */
module TimeOption {
  import opened Bytes

  const UINT64: nat := 0x1_0000_0000_0000_0000
  const INT64: int := 0x8000_0000_0000_0000

  predicate IsInt64(time: int) { 0 - INT64 <= time < INT64 }

  /** The 64-bit pattern of a signed value, and back. */
  function Unsigned(time: int): nat
    requires IsInt64(time)
  {
    if time < 0 then time + UINT64 else time
  }

  function Signed(pattern: nat): int {
    if pattern % UINT64 >= INT64 then pattern % UINT64 - UINT64 else pattern % UINT64
  }

  /** Number of leading zero bytes. */
  function LeadingZeros(data: seq<Byte>): (n: nat)
    ensures n <= |data| && (n < |data| ==> data[n] != 0)
    ensures forall i :: 0 <= i < n ==> data[i] == 0
  {
    if data == [] || data[0] != 0 then 0 else 1 + LeadingZeros(data[1..])
  }

  /** `coap_appl_client_encode_time`. */
  method Encode(time: int) returns (option: seq<Byte>)
    requires IsInt64(time) && time != 0
    ensures option == Encoded(time)
  {
    var data := ToBe(Unsigned(time), 8);
    NotAllZero(time);
    var index := 0;
    while index < 8 && data[index] == 0
      invariant index <= LeadingZeros(data)
    {
      index := index + 1;
    }
    if index > 0 && data[index] >= 0x80 {
      index := index - 1;
    }
    option := data[index..];
  }

  function Encoded(time: int): (s: seq<Byte>)
    requires IsInt64(time) && time != 0
  {
    NotAllZero(time);
    var data := ToBe(Unsigned(time), 8);
    var n := LeadingZeros(data);
    if n > 0 && data[n] >= 0x80 then data[n - 1..] else data[n..]
  }

  /** `coap_appl_client_decode_time`: the time that is set, nothing for an empty option. */
  method Decode(option: seq<Byte>) returns (valid: bool, time: int)
    ensures valid <==> option != []
    ensures valid ==> time == Signed(FromBe(option))
  {
    if option == [] {
      return false, 0;
    }
    hide FromBe;
    NoBytes();
    assert option[..0] == [];
    var pattern: nat := 0;
    for index := 0 to |option|
      invariant pattern == FromBe(option[..index]) % UINT64
    {
      assert option[..index + 1] == option[..index] + [option[index]];
      FromBeAppend(option[..index], option[index]);
      ShiftIn(FromBe(option[..index]), option[index]);
      pattern := (pattern * 256 + option[index]) % UINT64;
    }
    assert option[..|option|] == option;
    return true, Signed(pattern);
  }

  lemma NoBytes()
    ensures FromBe([]) == 0
  {
  }

  /** Shifting in a byte, with the cut to 64 bits before or after. */
  lemma ShiftIn(a: nat, b: nat)
    ensures (a % UINT64 * 256 + b) % UINT64 == (256 * a + b) % UINT64
  {
    var q := a / UINT64;
    assert a == q * UINT64 + a % UINT64;
    DivUnique(256 * a + b, UINT64, 256 * q + (a % UINT64 * 256 + b) / UINT64, (a % UINT64 * 256 + b) % UINT64);
  }

  lemma {:induction false} ZerosAreZero(s: seq<Byte>)
    requires forall i :: 0 <= i < |s| ==> s[i] == 0
    ensures FromBe(s) == 0
  {
    if s != [] { ZerosAreZero(s[..|s| - 1]); }
  }

  /** The 8 bytes of a time. */
  lemma TimeBytes(time: int)
    requires IsInt64(time)
    ensures FromBe(ToBe(Unsigned(time), 8)) == Unsigned(time)
  {
    assert Range(8) == UINT64 by {
      assert Range(2) == 0x1_0000;
      assert Range(4) == 0x1_0000_0000;
      assert Range(6) == 0x1_0000_0000_0000;
    }
    hide ToBe, FromBe;
    BeRoundTrip(Unsigned(time), 8);
  }

  lemma NotAllZero(time: int)
    requires IsInt64(time) && time != 0
    ensures LeadingZeros(ToBe(Unsigned(time), 8)) < 8
  {
    hide ToBe, FromBe;
    var data := ToBe(Unsigned(time), 8);
    TimeBytes(time);
    if LeadingZeros(data) == 8 { ZerosAreZero(data); }
  }

  lemma {:induction false} DropZeros(s: seq<Byte>, n: nat)
    requires n <= |s| && forall i :: 0 <= i < n ==> s[i] == 0
    ensures FromBe(s[n..]) == FromBe(s)
  {
    if n == |s| {
      ZerosAreZero(s);
      assert s[n..] == [];
    } else {
      var init := s[..|s| - 1];
      DropZeros(init, n);
      assert s[n..] == init[n..] + [s[|s| - 1]];
      FromBeAppend(init[n..], s[|s| - 1]);
    }
  }

  /** Decoding the encoded option gives every nonzero time back. */
  lemma TimeRoundTrip(time: int)
    requires IsInt64(time) && time != 0
    ensures Encoded(time) != [] && FromBe(Encoded(time)) == Unsigned(time) && Signed(FromBe(Encoded(time))) == time
  {
    hide ToBe, FromBe, LeadingZeros;
    NotAllZero(time);
    TimeBytes(time);
    var data := ToBe(Unsigned(time), 8);
    var n := LeadingZeros(data);
    DropZeros(data, n);
    if n > 0 { DropZeros(data, n - 1); }
  }

  lemma {:induction false} LeadingByte(s: seq<Byte>)
    requires s != []
    ensures var b: int := s[0]; b * Range(|s| - 1) <= FromBe(s) < (b + 1) * Range(|s| - 1)
  {
    var b: int := s[0];
    if |s| == 1 {
      assert s[..0] == [];
    } else {
      LeadingByte(s[..|s| - 1]);
      OneMoreByte(b, Range(|s| - 2), FromBe(s[..|s| - 1]), s[|s| - 1]);
    }
  }

  lemma OneMoreByte(b: int, p: int, n: int, last: int)
    requires b * p <= n < (b + 1) * p && 0 <= last < 256
    ensures b * (256 * p) <= 256 * n + last < (b + 1) * (256 * p)
  {
    MulAssociates(b, 256, p);
    MulAssociates(b + 1, 256, p);
  }

  lemma {:induction false} RangeGrows(a: nat, b: nat)
    requires a <= b
    ensures Range(a) <= Range(b)
  {
    if a < b { RangeGrows(a, b - 1); }
  }

  /** A leading byte of at least `low` makes the value large, one below `high` keeps it small. */
  lemma LeadingBounds(s: seq<Byte>, low: nat, high: nat)
    requires s != [] && low <= s[0] < high
    ensures low * Range(|s| - 1) <= FromBe(s) < high * Range(|s| - 1)
  {
    hide FromBe, Range;
    LeadingByte(s);
    var b: int := s[0];
    MulMonotone(Range(|s| - 1), low, b);
    MulMonotone(Range(|s| - 1), b + 1, high);
  }

  /** The option has a clear sign bit and needs all its bytes. */
  lemma EncodedPositive(time: int)
    requires 0 < time < INT64
    ensures Encoded(time) != [] && Encoded(time)[0] < 0x80
    ensures |Encoded(time)| > 1 ==> time >= 0x80 * Range(|Encoded(time)| - 2)
  {
    hide ToBe, FromBe, LeadingZeros;
    NotAllZero(time);
    TimeBytes(time);
    var data := ToBe(Unsigned(time), 8);
    var n := LeadingZeros(data);
    DropZeros(data, n);
    var s := data[n..];
    if s[0] >= 0x80 {
      LeadingBounds(s, 0x80, 256);
      if n == 0 {
        TopByte(data);
        assert false;
      }
    } else {
      LeadingBounds(s, 1, 0x80);
    }
  }

  lemma TopByte(data: seq<Byte>)
    requires |data| == 8 && data[0] >= 0x80
    ensures FromBe(data) >= INT64
  {
    assert Range(7) == 0x100_0000_0000_0000 by {
      assert Range(2) == 0x1_0000;
      assert Range(4) == 0x1_0000_0000;
      assert Range(6) == 0x1_0000_0000_0000;
    }
    hide FromBe;
    LeadingBounds(data, 0x80, 256);
  }

  /** A negative time takes all 8 bytes. */
  lemma NegativeTakesAll(time: int)
    requires IsInt64(time) && time < 0
    ensures Encoded(time) == ToBe(time + UINT64, 8)
  {
    hide ToBe, FromBe;
    TimeBytes(time);
    var data := ToBe(Unsigned(time), 8);
    if data[0] < 0x80 {
      TopByteSmall(data);
      assert false;
    }
    NotAllZero(time);
  }

  lemma TopByteSmall(data: seq<Byte>)
    requires |data| == 8 && data[0] < 0x80
    ensures FromBe(data) < INT64
  {
    assert Range(7) == 0x100_0000_0000_0000 by {
      assert Range(2) == 0x1_0000;
      assert Range(4) == 0x1_0000_0000;
      assert Range(6) == 0x1_0000_0000_0000;
    }
    hide FromBe;
    LeadingBounds(data, 0, 0x80);
  }

  /** For a positive time the option has a clear sign bit, and no big-endian form with a clear sign bit is
      shorter. */
  lemma ShortestPositive(time: int, other: seq<Byte>)
    requires 0 < time < INT64
    requires other != [] && other[0] < 0x80 && FromBe(other) == time
    ensures Encoded(time) != [] && Encoded(time)[0] < 0x80 && FromBe(Encoded(time)) == time
    ensures |Encoded(time)| <= |other|
  {
    hide ToBe, FromBe, LeadingZeros, Encoded, Range;
    TimeRoundTrip(time);
    EncodedPositive(time);
    if |other| < |Encoded(time)| {
      LeadingBounds(other, 0, 0x80);
      RangeGrows(|other| - 1, |Encoded(time)| - 2);
      assert false;
    }
  }
}
