/** `appl_update_xmodem.c` in its own form: the receive state as an object over the buffer. */
module AppUpdateXmodem {
  import opened Bytes
  import opened XmodemSteps

  class Xmodem {
    const buffer: array<Byte>
    var len: nat
    var block: Byte
    var crc: bool
    var image: seq<Byte>

    ghost function View(): Receiver
      reads this, buffer
    {
      Receiver(buffer[..], len, block, crc, image)
    }

    ghost predicate Valid()
      reads this, buffer
    {
      View().Valid()
    }

    constructor (buffer: array<Byte>, crc: bool)
      requires buffer.Length > HEADER_LEN + 1024 + 2
      ensures this.buffer == buffer && Valid() && View() == XmodemSteps.Start(buffer[..], crc, [])
    {
      this.buffer := buffer;
      this.len, this.block, this.crc, this.image := 0, 1, crc, [];
    }

    /** `appl_update_xmodem_start` with the same buffer; the written image is not touched. */
    method Start(crc: bool)
      requires Valid()
      modifies this
      ensures Valid() && View() == XmodemSteps.Start(buffer[..], crc, old(image))
    {
      len := 0;
      block := 1;
      this.crc := crc;
    }

    method Append(data: seq<Byte>) returns (verdict: AppendResult)
      requires Valid()
      modifies this`len, buffer
      ensures Valid() && (View(), verdict) == XmodemSteps.Append(old(View()), data)
    {
      if len + |data| < buffer.Length {
        Move(len, data);
        len := len + |data|;
        var s := buffer[0];
        if s == SOH || s == STX {
          if len < HEADER_LEN {
            return Incomplete;
          }
          if buffer[2] == 255 - buffer[1] {
            var crcLen := if crc then 2 else 1;
            var blockLen := if s == SOH then 128 else 1024;
            if len < HEADER_LEN + blockLen + crcLen {
              return Incomplete;
            }
            return BlockReady;
          }
        } else if s == EOT && len == 1 {
          return TransferReady;
        }
      }
      return NotOk;
    }

    /** `memmove` into the buffer. */
    method Move(at: nat, data: seq<Byte>)
      requires at + |data| <= buffer.Length
      modifies buffer
      ensures buffer[..] == old(buffer[..at]) + data + old(buffer[at + |data|..])
    {
      for i := 0 to |data|
        invariant forall k :: 0 <= k < buffer.Length ==>
          buffer[k] == if at <= k < at + i then data[k - at] else old(buffer[k])
      {
        buffer[at + i] := data[i];
      }
    }

    method Retry()
      requires Valid()
      modifies this`len
      ensures Valid() && View() == XmodemSteps.Retry(old(View()))
    {
      len := 0;
    }

    /** The checksum loop of `appl_update_xmodem_write_block`. */
    method Checksum(blockLen: nat) returns (sum: nat)
      requires HEADER_LEN + blockLen <= buffer.Length
      ensures sum == Sum(buffer[HEADER_LEN..HEADER_LEN + blockLen])
    {
      sum := 0;
      for i := 0 to blockLen
        invariant sum == Sum(buffer[HEADER_LEN..HEADER_LEN + i])
      {
        sum := sum + buffer[HEADER_LEN + i];
        assert buffer[HEADER_LEN..HEADER_LEN + i + 1][..i] == buffer[HEADER_LEN..HEADER_LEN + i];
      }
    }

    method WriteBlock(crc16: Crc16) returns (rc: WriteResult)
      requires Valid()
      modifies this`len, this`block, this`image
      ensures Valid() && (View(), rc) == XmodemSteps.WriteBlock(old(View()), crc16)
    {
      var s: Byte := buffer[0];
      var b: int := buffer[1];
      var crcLen := if crc then 2 else 1;
      var blockLen;
      if s == SOH {
        blockLen := 128;
      } else if s == STX {
        blockLen := 1024;
      } else {
        return Invalid;
      }
      if len < HEADER_LEN + blockLen + crcLen {
        return Invalid;
      }
      var end := HEADER_LEN + blockLen;
      if crc {
        if crc16(buffer[HEADER_LEN..end]) != FromBe(buffer[end..end + 2]) {
          return BadMessage;
        }
      } else {
        var sum := Checksum(blockLen);
        if buffer[end] != sum % 256 {
          return BadMessage;
        }
      }
      if block == b {
        image := image + buffer[HEADER_LEN..end];
        var next: int := block;
        block := (next + 1) % 256;
        rc := Written;
      } else {
        b := (b + 1) % 256;
        if block == b {
          rc := Duplicate;
        } else {
          return BadMessage;
        }
      }
      len := 0;
    }
  }
}
