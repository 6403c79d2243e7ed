/** What the firmware download ends with: when a response is used, when an image counts as ready, and that a
    download that is over stays over. */
module UpdateOutcomes {
  import opened Bytes
  import opened Flash
  import opened CoapClient
  import opened UpdateSteps
  import opened UpdateRuns

  // ----- the start

  /** From an idle client the start, the erase and the first request lead to the first block request with an
      empty ETag; a failed erase ends the download as canceled. */
  lemma StartThenFirst(c: Client, scale: int, mid: nat)
    requires !c.download && c.nextToken < TOKEN_VALUES
    ensures
      var first := Next(EraseFn(Start(c, false), true, scale), mid);
      && AtFirstRequest(first) && first.token == c.nextToken && first.mid == mid && !first.canceled
      && |first.etag| == 9 && forall i :: 0 <= i < 9 ==> first.etag[i] == 0
    ensures
      var failed := EraseFn(Start(c, false), false, scale);
      !failed.download && !failed.request && failed.canceled && !failed.ready && failed.reason == NotAvailable
    ensures Start(c, true) == c
  {
    FirstRequestReached(Start(c, false), scale, mid);
  }

  // ----- one response

  /** The content formats do not differ, as far as both are known. */
  predicate SameFormat(c: Client, msg: Message) {
    msg.format.None? || c.format < 0 || c.format == msg.format.value
  }

  /** Behind the first block, an ETag that is present is the one kept. */
  predicate SameEtag(c: Client, msg: Message) {
    msg.etag.None? || c.ctx.current == 0 || c.etag == EtagBuffer(msg.etag.value)
  }

  /** The library takes the block, at most 0x70000 bytes are announced, it is the block at the client's
      offset, and it is full unless it is the last one. */
  predicate BlockFits(c: Client, msg: Message, update: Library) {
    if msg.block2.None? then c.ctx.current == 0
    else
      update(c.ctx, msg).Updated? && var ctx := update(c.ctx, msg).ctx;
      && ctx.totalSize <= 0x70000
      && ctx.current == c.ctx.current
      && |msg.payload| <= BlockBytes(ctx.blockSize)
      && (msg.block2.value.more ==> |msg.payload| == BlockBytes(ctx.blockSize))
  }

  /** The block the client waits for, as far as its offset is concerned. */
  predicate WrongOffset(c: Client, msg: Message, update: Library) {
    msg.block2.Some? && update(c.ctx, msg).Updated?
    && update(c.ctx, msg).ctx.totalSize <= 0x70000 && update(c.ctx, msg).ctx.current != c.ctx.current
  }

  /** A response with a 2.05 content code that passes all three. */
  predicate Usable(c: Client, msg: Message, update: Library) {
    msg.code == 69 && SameFormat(c, msg) && SameEtag(c, msg) && BlockFits(c, msg, update)
  }

  predicate Final(msg: Message) { msg.block2.Some? ==> !msg.block2.value.more }

  /** A download that is over without an image. */
  predicate Failed(c: Client, reason: Reason) {
    !c.download && !c.request && c.canceled && !c.ready && c.reason == reason && c.etag == EtagBuffer([])
  }

  /** The first content format is kept. */
  function FormatAfter(c: Client, msg: Message): int {
    if c.format >= 0 || msg.format.None? || msg.code != 69 then c.format else msg.format.value
  }

  /** What becomes of a running download with a response: a usable one is written and asks for the next
      block, or ends the download as ready or failed by the validity of the image; any other one cancels it,
      with the reason, and writes nothing. */
  lemma ResponseOutcome(c: Client, msg: Message, valid: bool, update: Library)
    requires c.download
    ensures
      var r := Response(c, msg, valid, update);
      && r.requests == c.requests && r.token == c.token && r.nextToken == c.nextToken && r.mid == c.mid
      && r.format == FormatAfter(c, msg)
      && if Usable(c, msg, update) then
           && Image(r.writes) == Image(c.writes) + msg.payload
           && if Final(msg) then
                if valid then !r.download && !r.request && !r.canceled && r.ready && r.reason == c.reason
                else Failed(r, NotAvailable)
              else
                && r.download && r.request && r.ready == c.ready && r.canceled == c.canceled
                && r.ctx == update(c.ctx, msg).ctx.(current := c.ctx.current + |msg.payload|)
                && r.etag == if c.ctx.current == 0 && msg.etag.Some? then EtagBuffer(msg.etag.value) else c.etag
         else
           && r.writes == c.writes
           && Failed(r, if msg.code != 69 then NoContent
                        else if !SameFormat(c, msg) || !SameEtag(c, msg) then Changed
                        else if WrongOffset(c, msg, update) then BlockNo
                        else BlockOption)
  {
    hide Image, EtagBuffer, BlockBytes, MessageOffset;
    ImageSnoc(c.writes, Chunk(MessageOffset(msg), msg.payload));
  }

  // ----- over runs

  /** The response that made the image ready: a last block that was valid, with the token of a request. */
  ghost predicate Completing(ev: Event, requests: seq<Request>) {
    && ev.Arrive? && ev.valid && Final(ev.msg)
    && exists j :: 0 <= j < |requests| && ev.msg.token == TokenBytes(requests[j].token)
  }

  lemma StepReady(c: Client, ev: Event, update: Library)
    requires !c.ready && Step(c, ev, update).ready
    ensures ev.Arrive? && ev.valid && Final(ev.msg) && c.download && ev.msg.token == TokenBytes(c.token)
  {
    hide EtagBuffer, TokenBytes, BlockBytes, MessageOffset, Refused, KeptFormat, BlockNumber;
  }

  /** An image is ready only if a last block with a valid image arrived for one of the requests. */
  lemma {:induction false} ReadyIsValid(c: Client, evs: seq<Event>, update: Library)
    requires LibraryContract(update) && Assembling(c) && !c.ready
    ensures Run(c, evs, update).ready ==>
      exists i :: 0 <= i < |evs| && Completing(evs[i], Run(c, evs, update).requests)
    decreases |evs|
  {
    hide Step, Assembling, LibraryContract, Completing;
    if evs != [] {
      var c1 := Step(c, evs[0], update);
      StepAssembles(c, evs[0], update);
      if c1.ready {
        StepReady(c, evs[0], update);
        TokenInRun(c, evs, update);
        assert Completing(evs[0], Run(c, evs, update).requests) by {
          hide *;
          IsCompleting(evs[0], Run(c, evs, update).requests, c.token);
        }
      } else {
        ReadyIsValid(c1, evs[1..], update);
        if Run(c, evs, update).ready {
          var i :| 0 <= i < |evs[1..]| && Completing(evs[1..][i], Run(c, evs, update).requests);
          assert evs[i + 1] == evs[1..][i];
        }
      }
    }
  }

  lemma IsCompleting(ev: Event, requests: seq<Request>, token: nat)
    requires ev.Arrive? && ev.valid && Final(ev.msg) && ev.msg.token == TokenBytes(token)
    requires exists j :: 0 <= j < |requests| && requests[j].token == token
    ensures Completing(ev, requests)
  {
  }

  /** A download that is over writes nothing, asks for nothing and does not become ready, whatever arrives. */
  lemma {:induction false} OverStaysOver(c: Client, evs: seq<Event>, update: Library)
    requires !c.download
    ensures
      var r := Run(c, evs, update);
      !r.download && r.writes == c.writes && r.requests == c.requests && (r.ready ==> c.ready)
    decreases |evs|
  {
    hide Match, EtagBuffer;
    if evs != [] {
      OverStaysOver(Step(c, evs[0], update), evs[1..], update);
    }
  }

  /** A cancel command ends a running download for good. */
  lemma CommandEnds(c: Client, reason: Reason, evs: seq<Event>, update: Library)
    requires c.download
    ensures Failed(Step(c, Command(reason), update), reason)
    ensures
      var r := Run(Step(c, Command(reason), update), evs, update);
      !r.download && !r.ready && r.writes == c.writes && r.requests == c.requests
  {
    OverStaysOver(Step(c, Command(reason), update), evs, update);
  }
}
