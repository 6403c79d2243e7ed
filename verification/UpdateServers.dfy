/** The firmware download against servers: with an honest server it completes, and against a server that
    changes its image it writes one image in all runs exactly when the server sends ETags. */
module UpdateServers {
  import opened Bytes
  import opened Flash
  import opened CoapClient
  import opened UpdateSteps
  import opened UpdateRuns
  import ModemEvents

  /** With the time scale of the modem the first request asks for 1024 or 256 bytes, never for 512. */
  lemma FirstBlockSizes(info: ModemEvents.Coverage)
    ensures FirstBlockSize(ModemEvents.TimeScale(info)) == if ModemEvents.Poor(info, 32, -125) then 4 else 6
  {
    ModemEvents.ScaleByCoverage(info);
  }

  /** The start of every download: the area was erased and the first block request was sent. */
  function First(c: Client, scale: int, mid: nat): Client { Next(EraseDone(c, scale), mid) }

  // ----- a library

  /** Takes the offset of a block and the smaller of both block sizes. */
  function TakeBlock(ctx: BlockContext, msg: Message): Update {
    if msg.block2.None? then Rejected
    else
      var szx := msg.block2.value.szx;
      Updated(ctx.(current := MessageOffset(msg), blockSize := if szx <= ctx.blockSize then szx else ctx.blockSize))
  }

  /** A library that takes every block in the requested or a smaller size. */
  ghost predicate TakesBlocks(update: Library) {
    forall ctx: BlockContext, msg: Message :: msg.block2.Some? && msg.block2.value.szx <= ctx.blockSize ==>
      update(ctx, msg) == Updated(ctx.(current := MessageOffset(msg), blockSize := msg.block2.value.szx))
  }

  /** The contract of the library can be met. */
  lemma TakeBlockLawful()
    ensures LibraryContract(TakeBlock) && TakesBlocks(TakeBlock)
  {
  }

  // ----- an honest server

  function LastRequest(c: Client): Request {
    if c.requests == [] then Request(0, 0, 0) else c.requests[|c.requests| - 1]
  }

  /** What the server answers to a block request: the block at its offset, in the requested size or in the
      server's own size `limit` if that is smaller. */
  function Serve(r: Request, mid: nat, body: seq<Byte>, etag: seq<Byte>, limit: nat): Message {
    var szx := if limit <= r.szx then limit else r.szx;
    var num := BlockNumber(r.num * BlockBytes(r.szx), szx);
    var from := Min(num * BlockBytes(szx), |body|);
    var to := Min(from + BlockBytes(szx), |body|);
    var block := Block(num, to < |body|, szx);
    Message(ACK, CONTENT, mid, TokenBytes(r.token), None, Some(etag), Some(block), body[from..to])
  }

  lemma ServeIsGood(c: Client, body: seq<Byte>, etag: seq<Byte>, limit: nat)
    requires Awaiting(c, body, etag)
    ensures GoodReply(c, Serve(LastRequest(c), c.mid, body, etag, limit), TakeBlock, body, etag)
  {
    hide Image, EtagBuffer, BlockBytes, Consecutive, TokenBytes;
    var r := LastRequest(c);
    var szx := if limit <= r.szx then limit else r.szx;
    StaysAligned(c.ctx.current, r.szx, szx);
    BlockNumberExact(c.ctx.current, szx);
  }

  lemma FirstAwaits(c: Client, scale: int, mid: nat, body: seq<Byte>, etag: seq<Byte>)
    requires c.download && !c.ready && c.nextToken < TOKEN_VALUES
    ensures Awaiting(First(c, scale, mid), body, etag)
  {
    FirstRequestReached(c, scale, mid);
    FirstAssembles(First(c, scale, mid));
  }

  /** From the start of the download on, a server that answers every request completes it, for every body and
      whatever block size the server insists on. */
  lemma DownloadCompletes(c: Client, scale: int, mid: nat, body: seq<Byte>, etag: seq<Byte>, limit: nat)
    requires c.download && !c.ready && c.nextToken < TOKEN_VALUES
    ensures
      var reply := (d: Client) => Serve(LastRequest(d), d.mid, body, etag, limit);
      var r := Exchange(First(c, scale, mid), reply, TakeBlock, |body| + 1);
      r.ready && Image(r.writes) == body
  {
    hide GoodReply, Serve, Exchange, First, LibraryContract, Image, Consecutive, EtagBuffer, BlockBytes;
    var reply := (d: Client) => Serve(LastRequest(d), d.mid, body, etag, limit);
    FirstAwaits(c, scale, mid, body, etag);
    TakeBlockLawful();
    forall d | Awaiting(d, body, etag)
      ensures GoodReply(d, reply(d), TakeBlock, body, etag)
    {
      ServeIsGood(d, body, etag, limit);
    }
    HonestDownloadCompletes(First(c, scale, mid), reply, TakeBlock, body, etag, |body| + 1);
  }

  // ----- a server that changes its image

  /** A content response of a server with the representations `reps`, of which it may pick another one for
      every response; with `etags` it names the one it took the block from. */
  ghost predicate Served(msg: Message, reps: Representations, etags: bool) {
    if etags then Genuine(msg, reps)
    else msg.code == CONTENT ==> msg.etag.None? && exists e :: e in reps && BlockOf(msg, reps[e])
  }

  ghost predicate ServedReplies(evs: seq<Event>, requests: seq<Request>, reps: Representations, etags: bool) {
    forall i, j :: 0 <= i < |evs| && evs[i].Arrive? && 0 <= j < |requests| ==>
      evs[i].msg.token == TokenBytes(requests[j].token) ==> Served(evs[i].msg, reps, etags)
  }

  ghost predicate OneOf(image: seq<Byte>, reps: Representations) { exists e :: e in reps && image == reps[e] }

  /** All finished transfers have written one representation. */
  ghost predicate AlwaysOneImage(c: Client, update: Library, etags: bool) {
    forall reps, evs | DistinctEtags(reps) && ServedReplies(evs, Run(c, evs, update).requests, reps, etags) ::
      Run(c, evs, update).ready ==> OneOf(Image(Run(c, evs, update).writes), reps)
  }

  lemma RunThree(c: Client, a: Event, b: Event, d: Event, update: Library)
    ensures Run(c, [a, b, d], update) == Step(Step(Step(c, a, update), b, update), d, update)
  {
    hide Step;
    assert [a, b, d][1..] == [b, d] && [b, d][1..] == [d] && [d][1..] == [];
    var c1 := Step(c, a, update);
    assert Run(c1, [b, d], update) == Run(Step(c1, b, update), [d], update);
  }

  /** A block without ETag at the client's offset, in the requested size, is written. */
  lemma PlainBlock(c: Client, msg: Message, update: Library)
    requires c.download && c.ctx.totalSize <= MAX_UPDATE_SIZE && msg.token == TokenBytes(c.token)
    requires msg.code == CONTENT && msg.format.None? && msg.etag.None? && msg.block2.Some?
    requires msg.block2.value.szx == c.ctx.blockSize && MessageOffset(msg) == c.ctx.current
    requires 0 < |msg.payload| <= BlockBytes(c.ctx.blockSize)
    requires msg.block2.value.more ==> |msg.payload| == BlockBytes(c.ctx.blockSize)
    requires TakesBlocks(update)
    ensures
      var r := Step(c, Arrive(msg, true), update);
      && r.writes == c.writes + [Chunk(c.ctx.current, msg.payload)]
      && r.token == c.token && r.nextToken == c.nextToken && r.requests == c.requests
      && (msg.block2.value.more ==>
           r.download && r.request && r.ctx == c.ctx.(current := c.ctx.current + BlockBytes(c.ctx.blockSize)))
      && (!msg.block2.value.more ==> r.ready)
  {
    hide EtagBuffer, TokenBytes, MessageOffset, BlockBytes, TakesBlocks;
    assert update(c.ctx, msg) == Updated(c.ctx) by {
      hide *;
      Taken(c.ctx, msg, update);
    }
  }

  lemma Taken(ctx: BlockContext, msg: Message, update: Library)
    requires TakesBlocks(update) && msg.block2.Some?
    requires msg.block2.value.szx == ctx.blockSize && MessageOffset(msg) == ctx.current
    ensures update(ctx, msg) == Updated(ctx)
  {
  }

  /** Without ETags the first block of one image and the second of another are accepted as a finished
      transfer, from the first request of any download on. */
  lemma MixedWithoutEtags(c: Client, scale: int, mid: nat, update: Library, a: seq<Byte>, b: seq<Byte>)
    returns (evs: seq<Event>)
    requires c.download && !c.ready && c.nextToken < TOKEN_VALUES && TakesBlocks(update)
    requires var n := BlockBytes(FirstBlockSize(scale)); n < |a| && n < |b| <= 2 * n
    ensures forall i :: 0 <= i < |evs| && evs[i].Arrive? ==>
      evs[i].msg.code == CONTENT && evs[i].msg.etag.None? && (BlockOf(evs[i].msg, a) || BlockOf(evs[i].msg, b))
    ensures
      var r, n := Run(First(c, scale, mid), evs, update), BlockBytes(FirstBlockSize(scale));
      r.ready && Image(r.writes) == a[..n] + b[n..]
  {
    hide Image, TokenBytes, TakesBlocks, Run, FirstBlockSize;
    FirstRequestReached(c, scale, mid);
    var c0, k := First(c, scale, mid), FirstBlockSize(scale);
    var n := BlockBytes(k);
    var m1 := Message(NON, CONTENT, 0, TokenBytes(c0.token), None, None, Some(Block(0, true, k)), a[..n]);
    var e1 := Arrive(m1, true);
    PlainBlock(c0, m1, update);
    var c1 := Step(c0, e1, update);
    var c2 := Step(c1, SendNext(0), update);
    var m2 := Message(NON, CONTENT, 0, TokenBytes(c2.token), None, None, Some(Block(1, false, k)), b[n..]);
    var e2 := Arrive(m2, true);
    PlainBlock(c2, m2, update);
    evs := [e1, SendNext(0), e2];
    RunThree(c0, e1, SendNext(0), e2, update);
    TwoChunks(a[..n], b[n..]);
  }

  lemma TwoChunks(a: seq<Byte>, b: seq<Byte>)
    ensures Image([] + [Chunk(0, a)] + [Chunk(|a|, b)]) == a + b
  {
    ImageSnoc([], Chunk(0, a));
    ImageSnoc([] + [Chunk(0, a)], Chunk(|a|, b));
  }

  /** Two images that differ in every byte, and the mixture that is neither. */
  lemma MixtureIsNeither(n: nat)
    requires n > 0
    ensures
      var a, b: seq<Byte> := seq(n + 1, _ => 0), seq(n + 1, _ => 1);
      var reps: Representations := map[[1] := a, [2] := b];
      !OneOf(a[..n] + b[n..], reps) && DistinctEtags(reps)
  {
    var a, b: seq<Byte> := seq(n + 1, _ => 0), seq(n + 1, _ => 1);
    var mixed := a[..n] + b[n..];
    assert mixed[0] == 0 && mixed[n] == 1;
  }

  /** From the first request of any download on, all runs against servers that may change their image finish
      with one of the server's representations if and only if the servers send ETags. */
  lemma OneImageIff(c: Client, scale: int, mid: nat, update: Library, etags: bool)
    requires c.download && !c.ready && c.nextToken < TOKEN_VALUES
    requires LibraryContract(update) && TakesBlocks(update)
    ensures AlwaysOneImage(First(c, scale, mid), update, etags) <==> etags
  {
    hide Run, Image, LibraryContract, TakesBlocks, First, AtFirstRequest, FirstBlockSize, BlockBytes, MessageOffset;
    var c0 := First(c, scale, mid);
    assert AtFirstRequest(c0) by {
      hide *;
      FirstStarts(c, scale, mid);
    }
    if etags {
      forall reps, evs | DistinctEtags(reps) && ServedReplies(evs, Run(c0, evs, update).requests, reps, true)
        ensures Run(c0, evs, update).ready ==> OneOf(Image(Run(c0, evs, update).writes), reps)
      {
        NoMixedImage(c0, evs, update, reps);
      }
    } else {
      var n := BlockBytes(FirstBlockSize(scale));
      var a, b: seq<Byte> := seq(n + 1, _ => 0), seq(n + 1, _ => 1);
      var evs := MixedWithoutEtags(c, scale, mid, update, a, b);
      var reps: Representations := map[[1] := a, [2] := b];
      assert [1] in reps && [2] in reps;
      MixtureIsNeither(n);
      ServedByEither(evs, Run(c0, evs, update).requests, reps, [1], [2]);
      assert !OneOf(Image(Run(c0, evs, update).writes), reps);
    }
  }

  lemma ServedByEither(evs: seq<Event>, requests: seq<Request>, reps: Representations, d: seq<Byte>, e: seq<Byte>)
    requires d in reps && e in reps
    requires forall i :: 0 <= i < |evs| && evs[i].Arrive? ==>
      evs[i].msg.code == CONTENT && evs[i].msg.etag.None?
      && (BlockOf(evs[i].msg, reps[d]) || BlockOf(evs[i].msg, reps[e]))
    ensures ServedReplies(evs, requests, reps, false)
  {
    hide BlockOf;
  }

  lemma FirstStarts(c: Client, scale: int, mid: nat)
    requires c.download && !c.ready && c.nextToken < TOKEN_VALUES
    ensures AtFirstRequest(First(c, scale, mid))
  {
    FirstRequestReached(c, scale, mid);
  }
}
