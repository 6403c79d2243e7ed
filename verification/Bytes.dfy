/** Bytes, C integer division and the big-endian integer codecs (`sys_put_be16/32/48/64`
    and their `sys_get` partners) that the storage, CoAP and XMODEM code share. */
module Bytes {

  type Byte = x: int | 0 <= x < 256

  /** C's `/` on a possibly negative dividend: truncation toward zero. */
  function TruncDiv(a: int, d: int): (q: int)
    requires d > 0
    ensures a >= 0 ==> q * d <= a < q * d + d
    ensures a < 0 ==> q * d - d < a <= q * d
  {
    if a >= 0 then a / d else -((-a) / d)
  }

  function Min(a: int, b: int): int { if a <= b then a else b }

  function Max(a: int, b: int): int { if a <= b then b else a }

  /** 256 to the power of `width`: the number of values of a `width`-byte integer. */
  function Range(width: nat): (n: nat)
    ensures n > 0
  {
    if width == 0 then 1 else 256 * Range(width - 1)
  }

  /** The big-endian form of `n` in `width` bytes; higher bytes of `n` are cut off. */
  function ToBe(n: nat, width: nat): (s: seq<Byte>)
    ensures |s| == width
  {
    if width == 0 then [] else ToBe(n / 256, width - 1) + [n % 256]
  }

  function FromBe(s: seq<Byte>): (n: nat)
  {
    if s == [] then 0 else 256 * FromBe(s[..|s| - 1]) + s[|s| - 1]
  }

  lemma FromBeAppend(s: seq<Byte>, b: Byte)
    ensures FromBe(s + [b]) == 256 * FromBe(s) + b
  {
    assert (s + [b])[..|s|] == s;
  }

  lemma {:induction false} BeRoundTrip(n: nat, width: nat)
    requires n < Range(width)
    ensures FromBe(ToBe(n, width)) == n
  {
    if width > 0 {
      BeRoundTrip(n / 256, width - 1);
      FromBeAppend(ToBe(n / 256, width - 1), n % 256);
    }
  }

  /** The leading byte is the quotient by all lower bytes. */
  lemma {:induction false} ToBeFirst(n: nat, width: nat)
    requires width > 0
    ensures ToBe(n, width)[0] == (n / Range(width - 1)) % 256
  {
    if width == 1 {
      assert ToBe(n / 256, 0) == [];
    } else {
      ToBeFirst(n / 256, width - 1);
      DivDiv(n, 256, Range(width - 2));
    }
  }

  lemma DivDiv(n: nat, a: nat, b: nat)
    requires a > 0 && b > 0
    ensures a * b > 0 && n / a / b == n / (a * b)
  {
    var q := n / a;
    var q2, r2 := q / b, q % b;
    MulDistributes(a, b * q2, r2);
    MulAssociates(a, b, q2);
    MulMonotone(a, r2, b - 1);
    MulDistributes(a, b, -1);
    MulMonotone(b, 1, a);
    DivUnique(n, a * b, q2, a * r2 + n % a);
  }

  lemma DivFloor(a: nat, d: nat)
    requires d > 0
    ensures 0 <= a / d * d <= a < a / d * d + d
  {
  }

  lemma MulDistributes(a: int, b: int, c: int)
    ensures a * (b + c) == a * b + a * c
  {
  }

  lemma MulAssociates(a: int, b: int, c: int)
    ensures a * (b * c) == (a * b) * c
  {
  }

  lemma MulMonotone(d: int, a: int, b: int)
    requires d >= 0 && a <= b
    ensures d * a <= d * b
  {
  }

  lemma DivUnique(n: int, d: int, q: int, r: int)
    requires d > 0 && n == d * q + r && 0 <= r < d
    ensures n / d == q && n % d == r
  {
    var q' := n / d;
    if q' < q {
      MulMonotone(d, q' + 1, q);
    } else if q < q' {
      MulMonotone(d, q + 1, q');
    }
  }
}
