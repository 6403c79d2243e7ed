/** The main results about the XMODEM receiver: a frame may arrive in any pieces, and against a
    stop-and-wait sender over a channel that loses and damages frames and loses acknowledgements the
    receiver has written the blocks 1..r once each in order. */
module XmodemRuns {
  import opened Bytes
  import opened XmodemSteps

  // ----- fragments

  function Concat(parts: seq<seq<Byte>>): seq<Byte> {
    if parts == [] then [] else parts[0] + Concat(parts[1..])
  }

  ghost predicate NonEmptyParts(parts: seq<seq<Byte>>) { forall p :: p in parts ==> p != [] }

  /** A frame as the sender builds it. */
  function Frame(number: nat, block: seq<Byte>, crc: bool, crc16: Crc16): (s: seq<Byte>)
  {
    [if |block| == 128 then SOH else STX, number % 256, 255 - number % 256] + block + Check(block, crc, crc16)
  }

  ghost predicate BlockSized(block: seq<Byte>) { |block| == 128 || |block| == 1024 }

  /** Frame-shaped bytes: a complete frame with a correct header. */
  ghost predicate Framed(frame: seq<Byte>, crc: bool) {
    && |frame| >= HEADER_LEN && frame[0] in {SOH, STX} && frame[2] == 255 - frame[1]
    && |frame| == FrameLen(frame[0], crc)
  }

  lemma FrameFramed(number: nat, block: seq<Byte>, crc: bool, crc16: Crc16)
    requires BlockSized(block)
    ensures Framed(Frame(number, block, crc, crc16), crc)
  {
  }

  /** The receiver after a series of parts, the verdict on each, and the results of the write work. */
  datatype Fed = Fed(rx: Receiver, verdicts: seq<AppendResult>, results: seq<WriteResult>)

  /** Feeds the parts one after the other; a ready block is handed to the write work at once. */
  function Feed(r: Receiver, parts: seq<seq<Byte>>, crc16: Crc16): (f: Fed)
    requires r.Valid()
    ensures f.rx.Valid() && |f.verdicts| == |parts|
    decreases |parts|
  {
    if parts == [] then Fed(r, [], [])
    else
      var (r1, verdict) := Append(r, parts[0]);
      if verdict == BlockReady then
        var (r2, result) := WriteBlock(r1, crc16);
        var rest := Feed(r2, parts[1..], crc16);
        Fed(rest.rx, [verdict] + rest.verdicts, [result] + rest.results)
      else
        var rest := Feed(r1, parts[1..], crc16);
        Fed(rest.rx, [verdict] + rest.verdicts, rest.results)
  }

  /** The verdicts on the `n` parts of a frame: "none" for all but the last. */
  function FrameVerdicts(n: nat): (v: seq<AppendResult>)
    ensures |v| == n
  {
    seq(n, i => if i == n - 1 then BlockReady else Incomplete)
  }

  /** One more part of a frame: nothing to report before the last byte, "block ready" with it. */
  lemma AppendPart(r: Receiver, frame: seq<Byte>, part: seq<Byte>)
    requires r.Valid() && Framed(frame, r.crc) && part != []
    requires r.len + |part| <= |frame| && r.Data() + part == frame[..r.len + |part|]
    ensures
      var (r', verdict) := Append(r, part);
      && r' == r.(buffer := r'.buffer, len := r.len + |part|)
      && r'.Data() == frame[..r.len + |part|]
      && verdict == if r.len + |part| == |frame| then BlockReady else Incomplete
  {
    var r' := Fill(r, part);
    assert r'.Data() == r.Data() + part;
    assert r'.buffer[0] == r'.Data()[0] == frame[0];
    if r'.len >= HEADER_LEN {
      assert r'.buffer[1] == r'.Data()[1] && r'.buffer[2] == r'.Data()[2];
    }
  }

  lemma TailParts(parts: seq<seq<Byte>>)
    requires NonEmptyParts(parts) && parts != []
    ensures parts[0] != [] && NonEmptyParts(parts[1..])
    ensures |parts| > 1 ==> parts[1] != []
  {
    assert parts[0] in parts;
    assert forall p :: p in parts[1..] ==> p in parts;
    assert |parts| > 1 ==> parts[1] in parts;
  }

  lemma FrameVerdictsStep(n: nat)
    ensures FrameVerdicts(1) == [BlockReady] + []
    ensures n > 0 ==> FrameVerdicts(n + 1) == [Incomplete] + FrameVerdicts(n)
  {
  }

  /** Splitting a frame into any non-empty parts: every proper prefix gives "none", the last part "block
      ready", and the whole frame is handed over once, unchanged. */
  lemma {:induction false} FeedFrame(r: Receiver, frame: seq<Byte>, parts: seq<seq<Byte>>, crc16: Crc16)
    returns (full: Receiver)
    requires r.Valid() && Framed(frame, r.crc) && NonEmptyParts(parts) && parts != []
    requires r.len <= |frame| && r.Data() + Concat(parts) == frame
    ensures full == r.(buffer := full.buffer, len := |frame|) && full.Valid() && full.Data() == frame
    ensures Feed(r, parts, crc16)
         == Fed(WriteBlock(full, crc16).0, FrameVerdicts(|parts|), [WriteBlock(full, crc16).1])
    decreases |parts|
  {
    hide WriteBlock, Verified, Append, Framed, NonEmptyParts, FrameVerdicts;
    var part, rest := parts[0], parts[1..];
    assert part != [] && NonEmptyParts(rest) && (rest != [] ==> rest[0] != []) by { TailParts(parts); }
    assert Concat(parts) == part + Concat(rest);
    assert |r.Data()| == r.len;
    assert r.Data() + part == frame[..r.len + |part|];
    AppendPart(r, frame, part);
    FrameVerdictsStep(|rest|);
    var r1 := Append(r, part).0;
    if rest == [] {
      full := r1;
      assert Concat(rest) == [] && r.len + |part| == |frame|;
      assert frame[..|frame|] == frame;
      assert Feed(WriteBlock(r1, crc16).0, rest, crc16) == Fed(WriteBlock(r1, crc16).0, [], []);
      assert [WriteBlock(r1, crc16).1] + [] == [WriteBlock(r1, crc16).1];
    } else {
      assert Concat(rest) == rest[0] + Concat(rest[1..]) != [];
      assert r1.Data() + Concat(rest) == frame;
      full := FeedFrame(r1, frame, rest, crc16);
    }
  }

  // ----- writing one frame

  lemma FrameVerified(r: Receiver, number: nat, block: seq<Byte>, crc16: Crc16)
    requires r.Valid() && BlockSized(block) && (r.crc ==> crc16(block) < 0x1_0000)
    requires r.Data() == Frame(number, block, r.crc, crc16)
    ensures r.buffer[0] in {SOH, STX} && r.buffer[1] == number % 256 && r.len == FrameLen(r.buffer[0], r.crc)
    ensures r.buffer[HEADER_LEN..HEADER_LEN + BlockLen(r.buffer[0])] == block
    ensures Verified(r, crc16)
  {
    var frame, end := Frame(number, block, r.crc, crc16), HEADER_LEN + |block|;
    assert forall i :: 0 <= i < r.len ==> r.buffer[i] == frame[i];
    assert r.buffer[HEADER_LEN..end] == frame[HEADER_LEN..end] == block;
    if r.crc {
      assert r.buffer[end..end + 2] == frame[end..end + 2] == ToBe(crc16(block), 2);
      assert Range(2) == 0x1_0000;
      BeRoundTrip(crc16(block), 2);
    }
  }

  // ----- the transfer

  /** A transfer of `blocks`; block `n` is `blocks[n - 1]`. The sender sends block `sending` until it is
      acknowledged. */
  datatype System = System(rx: Receiver, sending: nat)

  datatype Event =
    | FrameLost
    | Deliver(parts: seq<seq<Byte>>, acknowledged: bool) // the frame arrives; the acknowledgement may be lost
    | Damaged(frame: seq<Byte>, parts: seq<seq<Byte>>)   // a frame with a wrong check arrives
    | Garbled(frame: seq<Byte>, parts: seq<seq<Byte>>)   // a frame with a wrong type or block number arrives
    | ReceiverRetry

  /** The bytes of the first `n` blocks. */
  function Blocks(blocks: seq<seq<Byte>>, n: nat): seq<Byte>
    requires n <= |blocks|
  {
    if n == 0 then [] else Blocks(blocks, n - 1) + blocks[n - 1]
  }

  /** The check fails for these bytes. */
  predicate WrongCheck(frame: seq<Byte>, crc: bool, crc16: Crc16)
    requires |frame| >= HEADER_LEN && |frame| == FrameLen(frame[0], crc)
  {
    var end := HEADER_LEN + BlockLen(frame[0]);
    var block := frame[HEADER_LEN..end];
    if crc then crc16(block) != FromBe(frame[end..]) else Sum(block) % 256 != frame[end]
  }

  /** The type byte is none, or the block number does not fit its complement. A type byte damaged into EOT
      counts only if more bytes arrive together with it. */
  ghost predicate WrongHead(frame: seq<Byte>, first: nat)
    requires |frame| >= HEADER_LEN
  {
    if frame[0] in {SOH, STX} then frame[2] != 255 - frame[1] else frame[0] != EOT || first > 1
  }

  ghost predicate EventOk(s: System, ev: Event, blocks: seq<seq<Byte>>, crc16: Crc16)
    requires s.rx.Valid()
  {
    match ev
    case Deliver(parts, _) =>
      1 <= s.sending <= |blocks| && NonEmptyParts(parts)
      && Concat(parts) == Frame(s.sending, blocks[s.sending - 1], s.rx.crc, crc16)
    case Damaged(frame, parts) =>
      Framed(frame, s.rx.crc) && WrongCheck(frame, s.rx.crc, crc16) && NonEmptyParts(parts) && Concat(parts) == frame
    case Garbled(frame, parts) =>
      |frame| in {FrameLen(SOH, s.rx.crc), FrameLen(STX, s.rx.crc)} && NonEmptyParts(parts) && parts != []
      && Concat(parts) == frame && WrongHead(frame, |parts[0]|)
    case _ => true
  }

  /** The receiver acknowledges a written block and a duplicate. */
  predicate Acks(results: seq<WriteResult>) { Written in results || XmodemSteps.Duplicate in results }

  function Step(s: System, ev: Event, crc16: Crc16): (s': System)
    requires s.rx.Valid()
    ensures s'.rx.Valid()
  {
    match ev
    case FrameLost => s
    case Deliver(parts, acknowledged) =>
      var fed := Feed(s.rx, parts, crc16);
      System(fed.rx, if Acks(fed.results) && acknowledged then s.sending + 1 else s.sending)
    case Damaged(_, parts) => s.(rx := Feed(s.rx, parts, crc16).rx)
    case Garbled(_, parts) => s.(rx := Feed(s.rx, parts, crc16).rx)
    case ReceiverRetry => s.(rx := Retry(s.rx))
  }

  /** A rejected frame stays in the buffer until the retry: everything behind it is rejected too. */
  ghost predicate BadHead(r: Receiver, crc16: Crc16)
    requires r.Valid()
  {
    && r.len > 0
    && if r.buffer[0] !in {SOH, STX} then r.buffer[0] != EOT || r.len > 1
       else if r.len >= HEADER_LEN && r.buffer[2] != 255 - r.buffer[1] then true
       else r.len >= FrameLen(r.buffer[0], r.crc) && !Verified(r, crc16)
  }

  /** `r` blocks are written; the sender knows of all of them or misses one acknowledgement. */
  ghost predicate InStep(s: System, blocks: seq<seq<Byte>>, crc16: Crc16, r: nat) {
    && s.rx.Valid()
    && (r + 1 == s.sending || r == s.sending) && r <= |blocks| && 1 <= s.sending
    && s.rx.block == (r + 1) % 256
    && s.rx.image == Blocks(blocks, r)
    && (s.rx.len == 0 || BadHead(s.rx, crc16))
  }

  ghost predicate GoodBlocks(blocks: seq<seq<Byte>>, crc16: Crc16) {
    forall b :: b in blocks ==> BlockSized(b) && crc16(b) < 0x1_0000
  }

  lemma BadHeadStays(r: Receiver, part: seq<Byte>, crc16: Crc16)
    requires r.Valid() && BadHead(r, crc16)
    ensures BadHead(Fill(r, part), crc16)
    ensures Fill(r, part) == r.(buffer := Fill(r, part).buffer, len := Fill(r, part).len)
    ensures Append(r, part).1 in {BlockReady, NotOk}
    ensures Append(r, part).1 == BlockReady ==> WriteBlock(Fill(r, part), crc16) == (Fill(r, part), BadMessage)
  {
    var r' := Fill(r, part);
    assert forall i :: 0 <= i < r.len ==> r'.buffer[i] == r.buffer[i];
    var end := HEADER_LEN + BlockLen(r.buffer[0]);
    if r.len >= FrameLen(r.buffer[0], r.crc) {
      assert r'.buffer[HEADER_LEN..end] == r.buffer[HEADER_LEN..end];
      if r.crc {
        assert r'.buffer[end..end + 2] == r.buffer[end..end + 2];
      }
    }
  }

  /** No result is an acknowledgement, no verdict is "none" or the end of the transfer. */
  ghost predicate AllRefused(f: Fed) {
    !Acks(f.results) && forall v :: v in f.verdicts ==> v in {BlockReady, NotOk}
  }

  lemma {:induction false} FeedBehindBadHead(r: Receiver, parts: seq<seq<Byte>>, crc16: Crc16)
    requires r.Valid() && BadHead(r, crc16)
    ensures
      var f := Feed(r, parts, crc16);
      BadHead(f.rx, crc16) && AllRefused(f) && f.rx == r.(buffer := f.rx.buffer, len := f.rx.len)
    decreases |parts|
  {
    hide BadHead, WriteBlock, Verdict, Fill;
    if parts != [] {
      BadHeadStays(r, parts[0], crc16);
      FeedBehindBadHead(Fill(r, parts[0]), parts[1..], crc16);
    }
  }

  /** One part of a frame with a wrong head, into a buffer that holds less than a header. */
  lemma AppendGarbled(r: Receiver, frame: seq<Byte>, part: seq<Byte>, crc16: Crc16)
    requires r.Valid() && |frame| <= FrameLen(STX, true) && part != [] && |frame| >= HEADER_LEN
    requires r.len + |part| <= |frame| && r.Data() + part == frame[..r.len + |part|]
    requires if r.len == 0 then WrongHead(frame, |part|) else frame[0] in {SOH, STX} && frame[2] != 255 - frame[1]
    ensures
      var (r', verdict) := Append(r, part);
      && r' == r.(buffer := r'.buffer, len := r.len + |part|)
      && r'.Data() == frame[..r.len + |part|]
      && if frame[0] in {SOH, STX} && r'.len < HEADER_LEN then verdict == Incomplete
         else verdict == NotOk && BadHead(r', crc16)
  {
    var r' := Fill(r, part);
    assert r'.Data() == r.Data() + part;
    assert r'.buffer[0] == r'.Data()[0] == frame[0];
    if r'.len >= HEADER_LEN {
      assert r'.buffer[1] == r'.Data()[1] && r'.buffer[2] == r'.Data()[2];
    }
  }

  lemma {:induction false} FeedGarbled(r: Receiver, frame: seq<Byte>, parts: seq<seq<Byte>>, crc16: Crc16)
    requires r.Valid() && HEADER_LEN <= |frame| <= FrameLen(STX, true) && NonEmptyParts(parts) && parts != []
    requires r.len < HEADER_LEN && r.Data() + Concat(parts) == frame
    requires if r.len == 0 then WrongHead(frame, |parts[0]|) else frame[0] in {SOH, STX} && frame[2] != 255 - frame[1]
    ensures
      var f := Feed(r, parts, crc16);
      BadHead(f.rx, crc16) && !Acks(f.results) && f.rx == r.(buffer := f.rx.buffer, len := f.rx.len)
    decreases |parts|
  {
    hide WriteBlock, Append, BadHead, NonEmptyParts;
    var part, rest := parts[0], parts[1..];
    assert part != [] && NonEmptyParts(rest) by { TailParts(parts); }
    assert Concat(parts) == part + Concat(rest);
    assert |r.Data()| == r.len;
    assert r.Data() + part == frame[..r.len + |part|];
    AppendGarbled(r, frame, part, crc16);
    var (r1, verdict) := Append(r, part);
    if verdict == NotOk {
      FeedBehindBadHead(r1, rest, crc16);
    } else {
      assert rest != [] by { assert Concat([]) == []; }
      assert r1.Data() + Concat(rest) == frame;
      FeedGarbled(r1, frame, rest, crc16);
    }
  }

  lemma DamagedFrame(r: Receiver, frame: seq<Byte>, crc16: Crc16)
    requires r.Valid() && Framed(frame, r.crc) && WrongCheck(frame, r.crc, crc16) && r.Data() == frame
    ensures BadHead(r, crc16) && WriteBlock(r, crc16) == (r, BadMessage)
  {
    var end := HEADER_LEN + BlockLen(frame[0]);
    assert forall i :: 0 <= i < r.len ==> r.buffer[i] == frame[i];
    assert r.buffer[HEADER_LEN..end] == frame[HEADER_LEN..end];
    if r.crc {
      assert r.buffer[end..end + 2] == frame[end..];
    }
  }

  lemma FeedDamaged(r: Receiver, frame: seq<Byte>, parts: seq<seq<Byte>>, crc16: Crc16)
    requires r.Valid() && (r.len == 0 || BadHead(r, crc16))
    requires Framed(frame, r.crc) && WrongCheck(frame, r.crc, crc16) && NonEmptyParts(parts) && Concat(parts) == frame
    ensures
      var r' := Feed(r, parts, crc16).rx;
      BadHead(r', crc16) && r' == r.(buffer := r'.buffer, len := r'.len)
  {
    hide Feed, WriteBlock, Verified;
    if r.len > 0 {
      FeedBehindBadHead(r, parts, crc16);
    } else {
      assert r.Data() + Concat(parts) == frame;
      var full := FeedFrame(r, frame, parts, crc16);
      DamagedFrame(full, frame, crc16);
    }
  }

  /** The write work on a good frame in the buffer. */
  lemma WriteGood(r: Receiver, number: nat, block: seq<Byte>, crc16: Crc16)
    requires r.Valid() && BlockSized(block) && crc16(block) < 0x1_0000
    requires r.Data() == Frame(number, block, r.crc, crc16)
    requires r.block == number % 256 || r.block == (number + 1) % 256
    ensures WriteBlock(r, crc16) ==
      if r.block == number % 256
      then (r.(image := r.image + block, block := (number + 1) % 256, len := 0), Written)
      else (r.(len := 0), XmodemSteps.Duplicate)
  {
    hide Verified, Frame, Framed, BlockSized;
    FrameVerified(r, number, block, crc16);
  }

  /** A good frame from an empty buffer: written when its number is the expected one, a duplicate when it
      is the one before. */
  lemma FeedGood(r: Receiver, number: nat, block: seq<Byte>, parts: seq<seq<Byte>>, crc16: Crc16)
    requires r.Valid() && r.len == 0 && BlockSized(block) && crc16(block) < 0x1_0000 && NonEmptyParts(parts)
    requires Concat(parts) == Frame(number, block, r.crc, crc16)
    requires r.block == number % 256 || r.block == (number + 1) % 256
    ensures
      var f := Feed(r, parts, crc16);
      && f.verdicts == FrameVerdicts(|parts|)
      && if r.block == number % 256
         then f.results == [Written]
              && f.rx == r.(buffer := f.rx.buffer, image := r.image + block, block := (number + 1) % 256)
         else f.results == [XmodemSteps.Duplicate] && f.rx == r.(buffer := f.rx.buffer)
  {
    hide Feed, Frame, Framed, BlockSized, FrameVerdicts, WriteBlock, NonEmptyParts;
    var frame := Frame(number, block, r.crc, crc16);
    FrameFramed(number, block, r.crc, crc16);
    assert r.Data() + Concat(parts) == frame;
    assert parts != [] by { FrameNotEmpty(number, block, r.crc, crc16); }
    var full := FeedFrame(r, frame, parts, crc16);
    WriteGood(full, number, block, crc16);
  }

  /** The image grows exactly with a written block, by the 128 or 1024 bytes behind the header, and then the next
      block number is expected; any other result keeps both, and a refused frame stays in the buffer. */
  lemma WriteBlockEffects(r: Receiver, crc16: Crc16)
    requires r.Valid()
    ensures
      var (r', result) := WriteBlock(r, crc16);
      if result == Written then
        && r.len >= 128 + 4 && r.buffer[1] == r.block
        && r'.image == r.image + r.buffer[3..if r.buffer[0] == 0x01 then 131 else 1027]
        && r'.block == (r.block + 1) % 256 && r'.len == 0
      else
        r'.image == r.image && r'.block == r.block && (result != XmodemSteps.Duplicate ==> r' == r)
  {
    hide Verified;
  }

  /** What does not fit the buffer is refused as a whole. */
  lemma OverlongRefused(r: Receiver, data: seq<Byte>)
    requires r.Valid() && r.len + |data| >= |r.buffer|
    ensures Append(r, data) == (r, NotOk)
  {
  }

  /** The transfer ends exactly when the bytes received since the last frame are one EOT byte. */
  lemma EndOfTransferIff(r: Receiver, data: seq<Byte>)
    requires r.Valid() && r.len < |r.buffer|
    ensures Append(r, data).1 == TransferReady <==> r.Data() + data == [EOT]
  {
    var r' := Fill(r, data);
    if r.len + |data| < |r.buffer| {
      assert r'.Data() == r.Data() + data;
      if r'.len == 1 { assert r'.Data()[0] == r'.buffer[0]; }
    }
  }

  /** A good frame with any other number is refused and changes nothing. */
  lemma OtherNumber(r: Receiver, number: nat, block: seq<Byte>, crc16: Crc16)
    requires r.Valid() && BlockSized(block) && crc16(block) < 0x1_0000
    requires r.Data() == Frame(number, block, r.crc, crc16)
    requires r.block != number % 256 && r.block != (number + 1) % 256
    ensures WriteBlock(r, crc16) == (r, BadMessage)
  {
    hide Verified, Frame, Framed, BlockSized;
    FrameVerified(r, number, block, crc16);
  }

  lemma FrameNotEmpty(number: nat, block: seq<Byte>, crc: bool, crc16: Crc16)
    ensures Frame(number, block, crc, crc16) != []
  {
  }

  lemma StepInStep(s: System, ev: Event, blocks: seq<seq<Byte>>, crc16: Crc16, r: nat) returns (r': nat)
    requires InStep(s, blocks, crc16, r) && GoodBlocks(blocks, crc16) && EventOk(s, ev, blocks, crc16)
    ensures InStep(Step(s, ev, crc16), blocks, crc16, r')
    ensures r <= r'
  {
    hide Feed, BadHead, Frame, Framed, WrongCheck, WrongHead, NonEmptyParts, BlockSized, FrameVerdicts;
    r' := r;
    match ev {
      case FrameLost =>
      case ReceiverRetry =>
      case Damaged(frame, parts) =>
        FeedDamaged(s.rx, frame, parts, crc16);
      case Garbled(frame, parts) =>
        if s.rx.len > 0 {
          FeedBehindBadHead(s.rx, parts, crc16);
        } else {
          assert s.rx.Data() + Concat(parts) == frame;
          FeedGarbled(s.rx, frame, parts, crc16);
        }
      case Deliver(parts, _) =>
        if s.rx.len > 0 {
          FeedBehindBadHead(s.rx, parts, crc16);
        } else {
          FeedGood(s.rx, s.sending, blocks[s.sending - 1], parts, crc16);
          if r + 1 == s.sending {
            r' := r + 1;
          }
        }
    }
  }

  /** No state is stuck: after a retry of the receiver, a frame that arrives and whose acknowledgement arrives
      moves the transfer on by one block. */
  lemma RetryThenDeliver(s: System, parts: seq<seq<Byte>>, blocks: seq<seq<Byte>>, crc16: Crc16, r: nat)
    requires InStep(s, blocks, crc16, r) && GoodBlocks(blocks, crc16)
    requires EventOk(s, Deliver(parts, true), blocks, crc16)
    ensures
      var retried := Step(s, ReceiverRetry, crc16);
      var s' := Step(retried, Deliver(parts, true), crc16);
      s'.sending == s.sending + 1 && InStep(s', blocks, crc16, s.sending)
  {
    hide Feed, BadHead, Frame, Framed, WrongCheck, NonEmptyParts, BlockSized;
    var retried := Step(s, ReceiverRetry, crc16);
    FeedGood(retried.rx, s.sending, blocks[s.sending - 1], parts, crc16);
  }

  ghost predicate Run(s: System, evs: seq<Event>, blocks: seq<seq<Byte>>, crc16: Crc16, s': System)
    decreases |evs|
  {
    if evs == [] then s' == s
    else s.rx.Valid() && EventOk(s, evs[0], blocks, crc16) && Run(Step(s, evs[0], crc16), evs[1..], blocks, crc16, s')
  }

  /** For every run of losses, damages, retries and deliveries in any pieces, across any number of wraps
      of the block number: the receiver has written blocks 1..r once each in order, and r is the number of
      acknowledged blocks or one more. */
  lemma {:induction false} TransferInOrder(
      s: System, evs: seq<Event>, blocks: seq<seq<Byte>>, crc16: Crc16, s': System, r: nat)
    returns (r': nat)
    requires InStep(s, blocks, crc16, r) && GoodBlocks(blocks, crc16) && Run(s, evs, blocks, crc16, s')
    ensures InStep(s', blocks, crc16, r')
    decreases |evs|
  {
    if evs == [] {
      r' := r;
    } else {
      var r1 := StepInStep(s, evs[0], blocks, crc16, r);
      r' := TransferInOrder(Step(s, evs[0], crc16), evs[1..], blocks, crc16, s', r1);
    }
  }

  /** From the start of a transfer: once all blocks are acknowledged, the image is exactly the blocks. */
  lemma CompleteTransfer(
      buffer: seq<Byte>, crc: bool, evs: seq<Event>, blocks: seq<seq<Byte>>, crc16: Crc16, s': System)
    requires Start(buffer, crc, []).Valid() && GoodBlocks(blocks, crc16)
    requires Run(System(Start(buffer, crc, []), 1), evs, blocks, crc16, s') && s'.sending == |blocks| + 1
    ensures s'.rx.Valid() && s'.rx.image == Blocks(blocks, |blocks|)
    ensures s'.rx.len == 0 ==> Append(s'.rx, [EOT]).1 == TransferReady
  {
    var r := TransferInOrder(System(Start(buffer, crc, []), 1), evs, blocks, crc16, s', 0);
  }
}
