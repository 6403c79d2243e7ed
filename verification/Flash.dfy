/** A NOR flash device as `appl_storage.c` uses it: erasing sets bytes to 0xff, programming
    can only clear bits, and an access outside the device is refused by the driver.
    The driver itself is a library; its byte-level behaviour is the device model below. */
module Flash {
  import opened Bytes

  const ERASE_VALUE: Byte := 0xff

  function Pow2(bits: nat): (p: nat)
    ensures p > 0
  {
    if bits == 0 then 1 else 2 * Pow2(bits - 1)
  }

  /** Bitwise AND of the low `bits` bits. */
  function AndBits(a: nat, b: nat, bits: nat): (r: nat)
    ensures r <= b
  {
    if bits == 0 then 0 else 2 * AndBits(a / 2, b / 2, bits - 1) + (if a % 2 == 1 then b % 2 else 0)
  }

  lemma {:induction false} AndAllOnes(b: nat, bits: nat)
    requires b < Pow2(bits)
    ensures AndBits(Pow2(bits) - 1, b, bits) == b
  {
    if bits > 0 { AndAllOnes(b / 2, bits - 1); }
  }

  /** What a byte reads after `data` was programmed over it. */
  function ProgramByte(stored: Byte, data: Byte): (r: Byte)
    ensures stored == ERASE_VALUE ==> r == data
  {
    assert Pow2(8) == 256 by { assert Pow2(4) == 16; }
    AndAllOnes(data, 8);
    AndBits(stored, data, 8)
  }

  function Erased(m: seq<Byte>, addr: nat, n: nat): (r: seq<Byte>)
    ensures |r| == |m|
    ensures forall i :: 0 <= i < |m| ==> r[i] == if addr <= i < addr + n then ERASE_VALUE else m[i]
  {
    seq(|m|, i requires 0 <= i < |m| => if addr <= i < addr + n then ERASE_VALUE else m[i])
  }

  function Programmed(m: seq<Byte>, addr: nat, data: seq<Byte>): (r: seq<Byte>)
    ensures |r| == |m|
    ensures forall i :: 0 <= i < |m| ==>
      r[i] == if addr <= i < addr + |data| then ProgramByte(m[i], data[i - addr]) else m[i]
  {
    seq(|m|, i requires 0 <= i < |m| =>
      if addr <= i < addr + |data| then ProgramByte(m[i], data[i - addr]) else m[i])
  }

  predicate AllErased(m: seq<Byte>, from: int, to: int) {
    forall i :: 0 <= from <= i < to <= |m| ==> m[i] == ERASE_VALUE
  }

  /** Programming an erased range stores exactly the data. */
  lemma ProgramErased(m: seq<Byte>, addr: nat, data: seq<Byte>)
    requires addr + |data| <= |m| && AllErased(m, addr, addr + |data|)
    ensures Programmed(m, addr, data)[addr..addr + |data|] == data
  {
    var r := Programmed(m, addr, data);
    forall i | 0 <= i < |data|
      ensures r[addr..addr + |data|][i] == data[i]
    {
      assert r[addr + i] == ProgramByte(m[addr + i], data[i]);
    }
  }

  method ReadMemory(mem: array<Byte>, addr: nat, n: nat) returns (ok: bool, data: seq<Byte>)
    ensures ok <==> addr + n <= mem.Length
    ensures ok ==> data == mem[addr..addr + n]
  {
    ok := addr + n <= mem.Length;
    data := if ok then mem[addr..addr + n] else [];
  }

  method WriteMemory(mem: array<Byte>, addr: nat, data: seq<Byte>) returns (ok: bool)
    modifies mem
    ensures ok <==> addr + |data| <= mem.Length
    ensures mem[..] == if ok then Programmed(old(mem[..]), addr, data) else old(mem[..])
  {
    ok := addr + |data| <= mem.Length;
    if ok {
      for i := 0 to |data|
        invariant forall k :: 0 <= k < mem.Length ==>
          mem[k] == if addr <= k < addr + i then ProgramByte(old(mem[k]), data[k - addr]) else old(mem[k])
      {
        mem[addr + i] := ProgramByte(mem[addr + i], data[i]);
      }
    }
  }

  method EraseMemory(mem: array<Byte>, addr: nat, n: nat) returns (ok: bool)
    modifies mem
    ensures ok <==> addr + n <= mem.Length
    ensures mem[..] == if ok then Erased(old(mem[..]), addr, n) else old(mem[..])
  {
    ok := addr + n <= mem.Length;
    if ok {
      for i := 0 to n
        invariant forall k :: 0 <= k < mem.Length ==>
          mem[k] == if addr <= k < addr + i then ERASE_VALUE else old(mem[k])
      {
        mem[addr + i] := ERASE_VALUE;
      }
    }
  }
}
