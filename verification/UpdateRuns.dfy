/** The main results about the firmware download: for every interleaving of requests, responses and
    commands the written bytes are the payloads of consecutive offsets, a finished transfer is one
    representation of the server, and against an honest server the transfer gets there. */
module UpdateRuns {
  import opened Bytes
  import opened Flash
  import opened CoapClient
  import opened UpdateSteps

  // ----- in-order exactly-once assembly

  /** Every chunk claims exactly the number of bytes written before it: no gap, no repeat. */
  ghost predicate Consecutive(writes: seq<Chunk>) {
    forall i :: 0 <= i < |writes| ==> writes[i].offset == |Image(writes[..i])|
  }

  /** The state of a download from its first request on. */
  ghost predicate Assembling(c: Client) {
    && Consecutive(c.writes)
    && c.nextToken < TOKEN_VALUES
    && |c.requests| > 0
    && c.requests[|c.requests| - 1].token == c.token
    && (c.download ==>
         && |Image(c.writes)| == c.ctx.current
         && c.ctx.current % BlockBytes(c.ctx.blockSize) == 0
         && (!c.request ==> LastRequestFits(c)))
  }

  /** The pending request asks for the byte that follows the bytes written so far. */
  ghost predicate LastRequestFits(c: Client)
    requires |c.requests| > 0
  {
    var r := c.requests[|c.requests| - 1];
    r.num * BlockBytes(r.szx) == |Image(c.writes)| && r.szx == c.ctx.blockSize
  }

  lemma ImageSnoc(writes: seq<Chunk>, chunk: Chunk)
    ensures Image(writes + [chunk]) == Image(writes) + chunk.payload
  {
    assert (writes + [chunk])[..|writes|] == writes;
  }

  lemma ConsecutiveSnoc(writes: seq<Chunk>, chunk: Chunk)
    requires Consecutive(writes) && chunk.offset == |Image(writes)|
    ensures Consecutive(writes + [chunk])
  {
    var w := writes + [chunk];
    forall i | 0 <= i < |w|
      ensures w[i].offset == |Image(w[..i])|
    {
      assert w[..i] == writes[..i];
      assert writes[..|writes|] == writes;
    }
  }

  lemma {:induction false} BlockBytesDivide(a: nat, b: nat)
    requires a <= b
    ensures BlockBytes(b) % BlockBytes(a) == 0
    decreases b
  {
    if a < b {
      BlockBytesDivide(a, b - 1);
      var q := BlockBytes(b - 1) / BlockBytes(a);
      assert BlockBytes(b) == 2 * (q * BlockBytes(a)) == (2 * q) * BlockBytes(a);
      DivUnique(BlockBytes(b), BlockBytes(a), 2 * q, 0);
    } else {
      DivUnique(BlockBytes(b), BlockBytes(a), 1, 0);
    }
  }

  lemma MultipleOfMultiple(n: nat, b: nat, a: nat)
    requires a > 0 && b > 0 && n % b == 0 && b % a == 0
    ensures n % a == 0
  {
    var p, q := n / b, b / a;
    assert n == p * b && b == q * a;
    MulAssociates(p, q, a);
    DivUnique(n, a, p * q, 0);
  }

  lemma StaysAligned(current: nat, szx: nat, szx': nat)
    requires current % BlockBytes(szx) == 0 && szx' <= szx
    ensures current % BlockBytes(szx') == 0
    ensures (current + BlockBytes(szx')) % BlockBytes(szx') == 0
  {
    BlockBytesDivide(szx', szx);
    MultipleOfMultiple(current, BlockBytes(szx), BlockBytes(szx'));
    DivUnique(current + BlockBytes(szx'), BlockBytes(szx'), current / BlockBytes(szx') + 1, 0);
  }

  lemma AcceptedChunk(c: Client, msg: Message, update: Library)
    requires LibraryContract(update) && Assembling(c) && c.download && Refused(c, msg, update).None?
    ensures MessageOffset(msg) == |Image(c.writes)|
    ensures Consecutive(Accepted(c, msg).writes)
    ensures Image(Accepted(c, msg).writes) == Image(c.writes) + msg.payload
  {
    var chunk := Chunk(MessageOffset(msg), msg.payload);
    ConsecutiveSnoc(c.writes, chunk);
    ImageSnoc(c.writes, chunk);
  }

  lemma ResponseAssembles(c: Client, msg: Message, valid: bool, update: Library)
    requires LibraryContract(update) && Assembling(c) && c.download
    ensures Assembling(Response(c, msg, valid, update))
    ensures Response(c, msg, valid, update).requests == c.requests
  {
    hide Refused, Image, Consecutive, BlockBytes, IsLast, LibraryContract, LastRequestFits, MessageOffset, EtagBuffer;
    if Refused(c, msg, update).None? {
      AcceptedChunk(c, msg, update);
      if !IsLast(msg) {
        NotLast(c, msg, update);
        StaysAligned(c.ctx.current, c.ctx.blockSize, update(c.ctx, msg).ctx.blockSize);
      }
    }
  }

  lemma NotLast(c: Client, msg: Message, update: Library)
    requires LibraryContract(update) && Refused(c, msg, update).None? && !IsLast(msg)
    ensures update(c.ctx, msg).Updated? && update(c.ctx, msg).ctx.current == c.ctx.current
    ensures update(c.ctx, msg).ctx.blockSize <= c.ctx.blockSize
    ensures |msg.payload| == BlockBytes(update(c.ctx, msg).ctx.blockSize)
  {
  }

  lemma NextAssembles(c: Client, mid: nat)
    requires Assembling(c)
    ensures Assembling(Next(c, mid))
    ensures |Next(c, mid).requests| >= |c.requests| && Next(c, mid).requests[..|c.requests|] == c.requests
  {
    hide BlockBytes, Image, Consecutive;
    if c.download && c.request {
      BlockNumberExact(c.ctx.current, c.ctx.blockSize);
    }
  }

  lemma BlockNumberExact(current: nat, szx: nat)
    requires current % BlockBytes(szx) == 0
    ensures BlockNumber(current, szx) * BlockBytes(szx) == current
  {
    hide BlockBytes;
  }

  lemma StepAssembles(c: Client, ev: Event, update: Library)
    requires LibraryContract(update) && Assembling(c)
    ensures Assembling(Step(c, ev, update))
    ensures |Step(c, ev, update).requests| >= |c.requests|
    ensures Step(c, ev, update).requests[..|c.requests|] == c.requests
  {
    hide BlockBytes, Image, Consecutive, Response, Next, LibraryContract;
    match ev {
      case Arrive(msg, valid) =>
        if c.download { ResponseAssembles(c, msg, valid, update); }
      case SendNext(mid) => NextAssembles(c, mid);
      case _ =>
    }
  }

  lemma FirstAssembles(c: Client)
    requires AtFirstRequest(c)
    ensures Assembling(c)
  {
  }

  lemma {:induction false} RunAssembles(c: Client, evs: seq<Event>, update: Library)
    requires LibraryContract(update) && Assembling(c)
    ensures Assembling(Run(c, evs, update))
    ensures |c.requests| <= |Run(c, evs, update).requests|
    ensures Run(c, evs, update).requests[..|c.requests|] == c.requests
    decreases |evs|
  {
    if evs != [] {
      StepAssembles(c, evs[0], update);
      RunAssembles(Step(c, evs[0], update), evs[1..], update);
    }
  }

  /** For every run from the first block request on, whatever arrives: the written chunks are at
      consecutive offsets from 0, and while the download is on their total is the block context's
      offset, which is also the offset the last request asks for. */
  lemma InOrderExactlyOnce(c: Client, evs: seq<Event>, update: Library)
    requires LibraryContract(update) && AtFirstRequest(c)
    ensures
      var r := Run(c, evs, update);
      && Consecutive(r.writes)
      && (r.download ==> |Image(r.writes)| == r.ctx.current)
      && (r.download && !r.request ==> |r.requests| > 0 && LastRequestFits(r))
  {
    FirstAssembles(c);
    RunAssembles(c, evs, update);
  }

  // ----- stale responses

  /** The requests carry tokens drawn at strictly increasing draws `ds`, of `n` draws since `start`. */
  ghost predicate DrawnInOrder(c: Client, start: nat, n: nat, ds: seq<nat>) {
    && c.nextToken == (start + n) % TOKEN_VALUES
    && |ds| == |c.requests|
    && (forall j :: 0 <= j < |ds| ==> ds[j] < n && c.requests[j].token == (start + ds[j]) % TOKEN_VALUES)
    && (forall j, k :: 0 <= j < k < |ds| ==> ds[j] < ds[k])
  }

  lemma ResponseDraws(c: Client, msg: Message, valid: bool, update: Library)
    ensures
      var r := Response(c, msg, valid, update);
      r.nextToken == c.nextToken && r.requests == c.requests
  {
    hide Refused, EtagBuffer, MessageOffset, KeptFormat, BlockBytes;
  }

  /** A step draws at most one token; a token that is used goes to a request. */
  lemma StepDraws(c: Client, ev: Event, update: Library)
    ensures
      var c1 := Step(c, ev, update);
      || (c1.nextToken == c.nextToken && c1.requests == c.requests)
      || (c1.nextToken == (c.nextToken + 1) % TOKEN_VALUES
          && (c1.requests == c.requests
              || (c1.requests[..|c.requests|] == c.requests && |c1.requests| == |c.requests| + 1
                  && c1.requests[|c.requests|].token == c.nextToken)))
  {
    hide Response, BlockNumber, Match, EtagBuffer, TokenBytes;
    if ev.Arrive? { ResponseDraws(c, ev.msg, ev.valid, update); }
  }

  lemma {:induction false} RunDraws(c: Client, evs: seq<Event>, update: Library, start: nat, n: nat, ds: seq<nat>)
    returns (n': nat, ds': seq<nat>)
    requires DrawnInOrder(c, start, n, ds)
    ensures n' <= n + |evs| && DrawnInOrder(Run(c, evs, update), start, n', ds')
    decreases |evs|
  {
    if evs == [] {
      n', ds' := n, ds;
    } else {
      hide Step;
      StepDraws(c, evs[0], update);
      var c1 := Step(c, evs[0], update);
      if c1.nextToken == c.nextToken && c1.requests == c.requests {
        n', ds' := RunDraws(c1, evs[1..], update, start, n, ds);
      } else if c1.requests == c.requests {
        n', ds' := RunDraws(c1, evs[1..], update, start, n + 1, ds);
      } else {
        n', ds' := RunDraws(c1, evs[1..], update, start, n + 1, ds + [n]);
      }
    }
  }

  /** A reply to an earlier request of the application changes nothing. */
  lemma StaleIgnored(c: Client, msg: Message, valid: bool, update: Library, token: nat)
    requires msg.token == TokenBytes(token) && token < TOKEN_VALUES && c.token < TOKEN_VALUES && token != c.token
    ensures Receive(c, msg, valid, update) == c
  {
    if msg.token == TokenBytes(c.token) { TokenBytesInjective(token, c.token); }
  }

  lemma TokensDiffer(start: nat, i: nat, j: nat)
    requires i < j < i + TOKEN_VALUES
    ensures (start + i) % TOKEN_VALUES != (start + j) % TOKEN_VALUES
  {
  }

  lemma EarlierTokens(c: Client, evs: seq<Event>, update: Library, j: nat)
    requires LibraryContract(update) && AtFirstRequest(c) && |evs| < TOKEN_VALUES
    requires j + 1 < |Run(c, evs, update).requests|
    ensures Run(c, evs, update).requests[j].token < TOKEN_VALUES
    ensures Run(c, evs, update).token < TOKEN_VALUES
    ensures Run(c, evs, update).requests[j].token != Run(c, evs, update).token
  {
    hide Run, Step;
    var r := Run(c, evs, update);
    FirstAssembles(c);
    RunAssembles(c, evs, update);
    var n, ds := RunDraws(c, evs, update, c.token, 1, [0]);
    TokensDiffer(c.token, ds[j], ds[|r.requests| - 1]);
  }

  /** Within 2^32 steps of a download a late or repeated reply to any request but the last is ignored. */
  lemma LateRepliesIgnored(c: Client, evs: seq<Event>, update: Library, j: nat, msg: Message, valid: bool)
    requires LibraryContract(update) && AtFirstRequest(c) && |evs| < TOKEN_VALUES
    requires j + 1 < |Run(c, evs, update).requests|
    requires msg.token == TokenBytes(Run(c, evs, update).requests[j].token)
    ensures Receive(Run(c, evs, update), msg, valid, update) == Run(c, evs, update)
  {
    hide *;
    EarlierTokens(c, evs, update, j);
    StaleIgnored(Run(c, evs, update), msg, valid, update, Run(c, evs, update).requests[j].token);
  }

  // ----- no mixed image

  type Representations = map<seq<Byte>, seq<Byte>>

  ghost predicate DistinctEtags(reps: Representations) {
    forall e :: e in reps ==> 1 <= |e| <= ETAG_MAX
  }

  /** The message carries the block of `body` that its Block2 option names. */
  ghost predicate BlockOf(msg: Message, body: seq<Byte>) {
    var offset := MessageOffset(msg);
    && offset + |msg.payload| <= |body|
    && msg.payload == body[offset..offset + |msg.payload|]
    && (IsLast(msg) <==> offset + |msg.payload| == |body|)
  }

  /** A content response as section 2.4 of RFC 7959 has it: an ETag, and the block of the
      representation with that ETag which the Block2 option names. */
  ghost predicate Genuine(msg: Message, reps: Representations) {
    msg.code == CONTENT ==>
      msg.etag.Some? && msg.etag.value in reps && BlockOf(msg, reps[msg.etag.value])
  }

  /** Every message with a token of this download is genuine; all others may be anything. */
  ghost predicate GenuineReplies(evs: seq<Event>, requests: seq<Request>, reps: Representations) {
    forall i, j :: 0 <= i < |evs| && evs[i].Arrive? && 0 <= j < |requests| ==>
      evs[i].msg.token == TokenBytes(requests[j].token) ==> Genuine(evs[i].msg, reps)
  }

  /** What was written is the start of one representation; of the whole of it once the transfer is ready. */
  ghost predicate OneImage(c: Client, reps: Representations) {
    && (c.download && c.ctx.current > 0 ==>
         exists e :: e in reps && c.etag == EtagBuffer(e) && Image(c.writes) <= reps[e])
    && (c.ready ==> exists e :: e in reps && Image(c.writes) == reps[e])
    && !(c.download && c.ready)
  }

  lemma SameRepresentation(a: seq<Byte>, b: seq<Byte>)
    requires |a| <= ETAG_MAX && |b| <= ETAG_MAX && EtagBuffer(a) == EtagBuffer(b)
    ensures a == b
  {
    EtagBuffersAgree(a, b);
  }

  /** The stored ETag and the one of an accepted message belong to the same representation. */
  lemma SameEtag(c: Client, msg: Message, update: Library, reps: Representations)
    requires c.download && DistinctEtags(reps) && OneImage(c, reps) && Genuine(msg, reps)
    requires Refused(c, msg, update).None? && |Image(c.writes)| == c.ctx.current
    ensures msg.code == CONTENT && msg.etag.Some? && msg.etag.value in reps
    ensures Accepted(c, msg).etag == EtagBuffer(msg.etag.value)
    ensures Image(c.writes) <= reps[msg.etag.value]
  {
    hide BlockBytes, MessageOffset, Image, EtagBuffer;
    if c.ctx.current > 0 {
      var d :| d in reps && c.etag == EtagBuffer(d) && Image(c.writes) <= reps[d];
      SameRepresentation(d, msg.etag.value);
    }
  }

  lemma ExtendPrefix(image: seq<Byte>, body: seq<Byte>, payload: seq<Byte>)
    requires image <= body && |image| + |payload| <= |body|
    requires payload == body[|image|..|image| + |payload|]
    ensures image + payload <= body
    ensures |image| + |payload| == |body| <==> image + payload == body
  {
  }

  lemma AcceptedImage(c: Client, msg: Message, update: Library, reps: Representations)
    requires LibraryContract(update) && Assembling(c) && c.download
    requires DistinctEtags(reps) && OneImage(c, reps) && Genuine(msg, reps)
    requires Refused(c, msg, update).None?
    ensures msg.etag.Some? && msg.etag.value in reps
    ensures Accepted(c, msg).etag == EtagBuffer(msg.etag.value)
    ensures Image(Accepted(c, msg).writes) <= reps[msg.etag.value]
    ensures IsLast(msg) <==> Image(Accepted(c, msg).writes) == reps[msg.etag.value]
  {
    hide Image, EtagBuffer, Accepted, BlockBytes, MessageOffset, IsLast, Consecutive, LastRequestFits;
    hide Refused, OneImage;
    AcceptedChunk(c, msg, update);
    SameEtag(c, msg, update, reps);
    ExtendPrefix(Image(c.writes), reps[msg.etag.value], msg.payload);
  }

  lemma ResponseOneImage(c: Client, msg: Message, valid: bool, update: Library, reps: Representations)
    requires LibraryContract(update) && Assembling(c) && c.download && DistinctEtags(reps) && OneImage(c, reps)
    requires Genuine(msg, reps)
    ensures OneImage(Response(c, msg, valid, update), reps)
  {
    hide Image, EtagBuffer, BlockBytes, MessageOffset, LibraryContract, Refused, Genuine;
    if Refused(c, msg, update).None? {
      AcceptedImage(c, msg, update, reps);
      if !IsLast(msg) {
        NotLast(c, msg, update);
      }
    }
  }

  lemma StepOneImage(c: Client, ev: Event, update: Library, reps: Representations)
    requires LibraryContract(update) && Assembling(c) && DistinctEtags(reps) && OneImage(c, reps)
    requires ev.Arrive? && ev.msg.token == TokenBytes(c.token) ==> Genuine(ev.msg, reps)
    ensures OneImage(Step(c, ev, update), reps)
  {
    hide Image, EtagBuffer, BlockBytes, LibraryContract, Response, Genuine;
    if ev.Arrive? && c.download && Match(ev.msg, c.mid, c.token) in {ParseResponse, ParseConResponse} {
      ResponseOneImage(c, ev.msg, ev.valid, update, reps);
    }
  }

  lemma {:induction false} RunOneImage(c: Client, evs: seq<Event>, update: Library, reps: Representations)
    requires LibraryContract(update) && Assembling(c) && DistinctEtags(reps) && OneImage(c, reps)
    requires GenuineReplies(evs, Run(c, evs, update).requests, reps)
    ensures OneImage(Run(c, evs, update), reps)
    decreases |evs|
  {
    if evs != [] {
      var c1 := Step(c, evs[0], update);
      StepAssembles(c, evs[0], update);
      RunAssembles(c1, evs[1..], update);
      TokenInRun(c, evs, update);
      StepOneImage(c, evs[0], update, reps);
      RunOneImage(c1, evs[1..], update, reps);
    }
  }

  lemma TokenInRun(c: Client, evs: seq<Event>, update: Library)
    requires LibraryContract(update) && Assembling(c)
    ensures exists j :: 0 <= j < |Run(c, evs, update).requests| && Run(c, evs, update).requests[j].token == c.token
  {
    RunAssembles(c, evs, update);
    var j := |c.requests| - 1;
    assert Run(c, evs, update).requests[j] == Run(c, evs, update).requests[..|c.requests|][j];
  }

  /** No mixed image: when every reply to this download's requests is genuine, a transfer that reaches
      its final block has written exactly one of the server's representations, even if the server
      changed it in between. */
  lemma NoMixedImage(c: Client, evs: seq<Event>, update: Library, reps: Representations)
    requires LibraryContract(update) && AtFirstRequest(c) && DistinctEtags(reps)
    requires GenuineReplies(evs, Run(c, evs, update).requests, reps)
    ensures Run(c, evs, update).ready ==> exists e :: e in reps && Image(Run(c, evs, update).writes) == reps[e]
  {
    FirstAssembles(c);
    RunOneImage(c, evs, update, reps);
  }

  // ----- getting there

  /** The client waits for the block of `body` behind what it has written. */
  ghost predicate Awaiting(c: Client, body: seq<Byte>, etag: seq<Byte>) {
    && Assembling(c) && c.download && !c.request && !c.ready
    && c.ctx.totalSize <= MAX_UPDATE_SIZE
    && c.ctx.current <= |body| && Image(c.writes) == body[..c.ctx.current]
    && (c.ctx.current > 0 ==> c.ctx.current < |body| && c.etag == EtagBuffer(etag))
  }

  /** The reply an honest server gives to the pending request: the block at the requested offset, in the
      requested or a smaller size, which the library accepts. */
  ghost predicate GoodReply(c: Client, msg: Message, update: Library, body: seq<Byte>, etag: seq<Byte>)
    requires |c.requests| > 0
  {
    var r := c.requests[|c.requests| - 1];
    && msg.code == CONTENT && msg.token == TokenBytes(c.token) && msg.etag == Some(etag)
    && (msg.format.Some? && c.format >= 0 ==> msg.format.value == c.format)
    && msg.block2.Some? && msg.block2.value.szx <= r.szx
    && MessageOffset(msg) == r.num * BlockBytes(r.szx) <= |body|
    && msg.payload == body[MessageOffset(msg)..Min(MessageOffset(msg) + BlockBytes(msg.block2.value.szx), |body|)]
    && (msg.block2.value.more <==> MessageOffset(msg) + |msg.payload| < |body|)
    && update(c.ctx, msg).Updated?
    && update(c.ctx, msg).ctx.blockSize == msg.block2.value.szx
    && update(c.ctx, msg).ctx.totalSize <= MAX_UPDATE_SIZE
  }

  /** One exchange with an honest server adds the next block, or completes the image. */
  lemma ReplyAdvances(c: Client, msg: Message, mid: nat, update: Library, body: seq<Byte>, etag: seq<Byte>)
    requires LibraryContract(update) && Awaiting(c, body, etag) && GoodReply(c, msg, update, body, etag)
    ensures
      var r := Receive(c, msg, true, update);
      if msg.block2.value.more
      then Awaiting(Next(r, mid), body, etag) && Next(r, mid).ctx.current > c.ctx.current
      else r.ready && Image(r.writes) == body
  {
    hide Image, EtagBuffer, BlockBytes, MessageOffset, LibraryContract, Refused, Consecutive;
    hide LastRequestFits, BlockNumber;
    GoodAccepted(c, msg, update, body, etag);
    AcceptedChunk(c, msg, update);
    ResponseAssembles(c, msg, true, update);
    NextAssembles(Response(c, msg, true, update), mid);
    ExtendPrefix(Image(c.writes), body, msg.payload);
    if !IsLast(msg) {
      NotLast(c, msg, update);
    }
  }

  lemma GoodAccepted(c: Client, msg: Message, update: Library, body: seq<Byte>, etag: seq<Byte>)
    requires LibraryContract(update) && Awaiting(c, body, etag) && GoodReply(c, msg, update, body, etag)
    ensures Refused(c, msg, update).None?
    ensures MessageOffset(msg) == c.ctx.current == |Image(c.writes)| && msg.code != EMPTY
    ensures |Image(c.writes)| + |msg.payload| <= |body|
    ensures msg.payload == body[|Image(c.writes)|..|Image(c.writes)| + |msg.payload|]
  {
    hide Image, EtagBuffer, Consecutive;
  }

  /** Replies and next requests, `rounds` times or until the download is over. */
  function Exchange(c: Client, reply: Client -> Message, update: Library, rounds: nat): (c': Client)
    decreases rounds
  {
    if rounds == 0 || !c.download then c
    else Exchange(Next(Receive(c, reply(c), true, update), 0), reply, update, rounds - 1)
  }

  /** Against an honest server the download of a body completes, within one round per byte and one more. */
  lemma {:induction false} HonestDownloadCompletes(
      c: Client, reply: Client -> Message, update: Library, body: seq<Byte>, etag: seq<Byte>, rounds: nat)
    requires LibraryContract(update) && Awaiting(c, body, etag) && rounds > |body| - c.ctx.current
    requires forall d :: Awaiting(d, body, etag) ==> GoodReply(d, reply(d), update, body, etag)
    ensures Exchange(c, reply, update, rounds).ready
    ensures Image(Exchange(c, reply, update, rounds).writes) == body
    decreases rounds
  {
    hide Image, EtagBuffer, BlockBytes, LibraryContract, Refused, Assembling, GoodReply, Receive;
    ReplyAdvances(c, reply(c), 0, update, body, etag);
    ReplyHasBlock(c, reply(c), update, body, etag);
    var r := Receive(c, reply(c), true, update);
    if reply(c).block2.value.more {
      HonestDownloadCompletes(Next(r, 0), reply, update, body, etag, rounds - 1);
    } else {
      ReadyIsOver(c, reply(c), update);
      assert Exchange(Next(r, 0), reply, update, rounds - 1) == r;
    }
  }

  lemma ReplyHasBlock(c: Client, msg: Message, update: Library, body: seq<Byte>, etag: seq<Byte>)
    requires Awaiting(c, body, etag) && GoodReply(c, msg, update, body, etag)
    ensures msg.block2.Some?
  {
  }

  lemma ReadyIsOver(c: Client, msg: Message, update: Library)
    requires !c.ready && Receive(c, msg, true, update).ready
    ensures !Receive(c, msg, true, update).download
  {
  }
}
