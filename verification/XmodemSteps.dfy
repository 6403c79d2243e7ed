/** The XMODEM receiver of `appl_update_xmodem.c` as functions on its static state.
    The CRC-16 is a library function and stays a parameter. */
module XmodemSteps {
  import opened Bytes

  const SOH: Byte := 0x01
  const STX: Byte := 0x02
  const EOT: Byte := 0x04
  const HEADER_LEN := 3

  type Crc16 = seq<Byte> -> nat

  datatype AppendResult = Incomplete | NotOk | BlockReady | TransferReady

  datatype WriteResult = Written | Duplicate | Invalid | BadMessage

  /** The receive buffer with its fill level, the expected block number, the check in use, and the bytes
      passed to `appl_update_write`. */
  datatype Receiver = Receiver(buffer: seq<Byte>, len: nat, block: Byte, crc: bool, image: seq<Byte>)
  {
    predicate Valid() { len <= |buffer| && |buffer| > HEADER_LEN + 1024 + 2 }

    /** The received bytes. */
    function Data(): seq<Byte>
      requires Valid()
    {
      buffer[..len]
    }
  }

  function Start(buffer: seq<Byte>, crc: bool, image: seq<Byte>): Receiver { Receiver(buffer, 0, 1, crc, image) }

  function BlockLen(kind: Byte): nat { if kind == SOH then 128 else 1024 }

  function CheckLen(crc: bool): nat { if crc then 2 else 1 }

  function FrameLen(kind: Byte, crc: bool): nat { HEADER_LEN + BlockLen(kind) + CheckLen(crc) }

  /** `appl_update_xmodem_append`, first the bytes, then the verdict on the buffer. */
  function Fill(r: Receiver, data: seq<Byte>): (r': Receiver)
    requires r.Valid()
    ensures r'.Valid()
  {
    if r.len + |data| < |r.buffer|
    then r.(buffer := r.buffer[..r.len] + data + r.buffer[r.len + |data|..], len := r.len + |data|)
    else r
  }

  function Verdict(r: Receiver): AppendResult
    requires r.Valid()
  {
    var s := r.buffer[0];
    if s == SOH || s == STX then
      if r.len < HEADER_LEN then Incomplete
      else if r.buffer[2] != 255 - r.buffer[1] then NotOk
      else if r.len < FrameLen(s, r.crc) then Incomplete
      else BlockReady
    else if s == EOT && r.len == 1 then TransferReady
    else NotOk
  }

  function Append(r: Receiver, data: seq<Byte>): (res: (Receiver, AppendResult))
    requires r.Valid()
    ensures res.0.Valid()
  {
    (Fill(r, data), if r.len + |data| < |r.buffer| then Verdict(Fill(r, data)) else NotOk)
  }

  function Sum(data: seq<Byte>): nat {
    if data == [] then 0 else Sum(data[..|data| - 1]) + data[|data| - 1]
  }

  /** The check bytes behind a block. */
  function Check(block: seq<Byte>, crc: bool, crc16: Crc16): (s: seq<Byte>)
    ensures |s| == CheckLen(crc)
  {
    if crc then ToBe(crc16(block), 2) else [Sum(block) % 256]
  }

  /** The check at the end of the frame in the buffer. */
  predicate Verified(r: Receiver, crc16: Crc16)
    requires r.Valid()
  {
    var end := HEADER_LEN + BlockLen(r.buffer[0]);
    var block := r.buffer[HEADER_LEN..end];
    if r.crc then crc16(block) == FromBe(r.buffer[end..end + 2])
    else Sum(block) % 256 == r.buffer[end]
  }

  /** `appl_update_xmodem_write_block`. */
  function WriteBlock(r: Receiver, crc16: Crc16): (res: (Receiver, WriteResult))
    requires r.Valid()
    ensures res.0.Valid()
  {
    var s: Byte := r.buffer[0];
    var b: int := r.buffer[1];
    if (s != SOH && s != STX) || r.len < FrameLen(s, r.crc) then (r, Invalid)
    else if !Verified(r, crc16) then (r, BadMessage)
    else if r.block == b then
      (r.(image := r.image + r.buffer[HEADER_LEN..HEADER_LEN + BlockLen(s)], block := (r.block + 1) % 256, len := 0),
       Written)
    else if r.block == (b + 1) % 256 then (r.(len := 0), Duplicate)
    else (r, BadMessage)
  }

  function Retry(r: Receiver): (r': Receiver)
    requires r.Valid()
    ensures r'.Valid()
  {
    r.(len := 0)
  }
}
