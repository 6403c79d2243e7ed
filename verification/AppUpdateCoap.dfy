/** `appl_update_coap.c` in its own form: the static variables of the download as an object whose
    methods update them, each proved against the steps of `UpdateSteps`. */
module AppUpdateCoap {
  import opened Bytes
  import opened CoapClient
  import opened UpdateSteps
  import opened UpdateRuns

  class Downloader {
    var download: bool
    var request: bool
    var canceled: bool
    var ready: bool
    var reason: Reason
    var etag: array<Byte>
    var format: int
    var ctx: BlockContext
    var token: nat
    var mid: nat
    var nextToken: nat
    var writes: seq<Chunk>
    var requests: seq<Request>

    ghost predicate Valid()
      reads this
    {
      etag.Length == ETAG_MAX + 1
    }

    ghost function View(): Client
      reads this, etag
    {
      Client(download, request, canceled, ready, reason, etag[..], format, ctx, token, mid, nextToken, writes, requests)
    }

    constructor (seed: nat)
      ensures Valid() && fresh(etag)
      ensures View() == Client(false, false, false, false, NotAvailable, NoEtag(), -1, BlockContext(0, 0, 0),
                               0, 0, seed % TOKEN_VALUES, [], [])
    {
      download, request, canceled, ready, reason := false, false, false, false, NotAvailable;
      etag := new Byte[ETAG_MAX + 1];
      format, ctx, token, mid, nextToken := -1, BlockContext(0, 0, 0), 0, 0, seed % TOKEN_VALUES;
      writes, requests := [], [];
      new;
      ClearEtag();
    }

    method ClearEtag()
      requires Valid()
      modifies etag
      ensures etag[..] == NoEtag()
    {
      var _ := DecodeEtag([], etag);
    }

    /** `appl_update_coap_set_resource` and `appl_update_coap_start`; `started` is the result of preparing the
        update area. When that fails the download stays marked as running, without an erase. */
    method Start(available: bool, started: bool) returns (ok: bool)
      requires Valid()
      modifies this, etag
      ensures Valid() && etag == old(etag)
      ensures ok == (!old(download) && !available && started)
      ensures View() == UpdateSteps.Start(old(View()), available)
    {
      if download || available {
        return false;
      }
      download := true;
      request := false;
      canceled := false;
      ready := false;
      ClearEtag();
      return started;
    }

    /** `appl_update_coap_erase_fn`; `erased` is the result of erasing the update area. */
    method EraseFn(erased: bool, scale: int)
      requires Valid()
      modifies this, etag
      ensures Valid() && etag == old(etag)
      ensures View() == UpdateSteps.EraseFn(old(View()), erased, scale)
      ensures erased && old(download && !ready) && nextToken < TOKEN_VALUES ==>
        forall mid :: AtFirstRequest(UpdateSteps.Next(View(), mid))
    {
      ghost var before := View();
      if erased {
        EraseDone(scale);
        if before.download && !before.ready && before.nextToken < TOKEN_VALUES {
          forall mid ensures AtFirstRequest(UpdateSteps.Next(View(), mid)) {
            FirstRequestReached(before, scale, mid);
          }
        }
      } else {
        CancelDownload(true, NotAvailable);
      }
    }

    /** The part of it for an erased area. */
    method EraseDone(scale: int)
      requires Valid()
      modifies this
      ensures Valid() && etag == old(etag)
      ensures View() == UpdateSteps.EraseDone(old(View()), scale)
    {
      writes, requests := [], [];
      var blockSize := 6;
      if scale >= 350 {
        blockSize := 4;
      } else if scale >= 250 {
        blockSize := 5;
      }
      if download {
        ctx := BlockContext(0, 0, blockSize);
        request := true;
      }
    }

    method CancelDownload(cancel: bool, why: Reason)
      requires Valid()
      modifies this, etag
      ensures Valid() && etag == old(etag)
      ensures View() == Cancel(old(View()), cancel, why)
    {
      var wasOn := download;
      download := false;
      request := false;
      canceled := cancel;
      ready := !cancel;
      ClearEtag();
      if wasOn && cancel {
        reason := why;
      }
    }

    /** `appl_update_coap_next`: builds the request for the next block, which is sent if `built` says so. */
    method Next(messageId: nat, built: bool) returns (sent: bool)
      requires Valid()
      modifies this
      ensures Valid() && etag == old(etag)
      ensures sent == (old(download) && old(request) && built)
      ensures View() == UpdateSteps.Next(old(View()), messageId)
    {
      sent := false;
      if download {
        if request {
          request := false;
          token := nextToken;
          nextToken := (nextToken + 1) % TOKEN_VALUES;
          mid := messageId;
          requests := requests + [Request(token, BlockNumber(ctx.current, ctx.blockSize), ctx.blockSize)];
          sent := built;
        }
      }
    }

    /** The Block2 part of `appl_update_coap_resonse`. */
    method CheckBlock(msg: Message, update: Library) returns (refused: Option<Reason>, last: bool, next: BlockContext)
      ensures refused == BlockRefused(ctx, msg, update) && last == IsLast(msg)
      ensures refused.None? && !last ==> update(ctx, msg) == Updated(next)
    {
      last, next := true, ctx;
      if msg.block2.None? {
        if ctx.current != 0 {
          return Some(BlockOption), last, next;
        }
      } else {
        last := !msg.block2.value.more;
        var result := update(ctx, msg);
        if result.Rejected? {
          return Some(BlockOption), last, next;
        }
        next := result.ctx;
        if next.totalSize > MAX_UPDATE_SIZE {
          return Some(BlockOption), last, next;
        }
        if ctx.current != next.current {
          return Some(BlockNo), last, next;
        }
        var block := BlockBytes(next.blockSize);
        if |msg.payload| > block || (|msg.payload| < block && !last) {
          return Some(BlockOption), last, next;
        }
      }
      return None, last, next;
    }

    /** Compares the ETag with the kept one, or keeps the first one. */
    method CheckEtag(option: seq<Byte>) returns (same: bool)
      requires Valid()
      modifies etag
      ensures same == (ctx.current == 0 || old(etag[..]) == EtagBuffer(option))
      ensures etag[..] == if ctx.current == 0 then EtagBuffer(option) else old(etag[..])
    {
      if ctx.current != 0 {
        var received := new Byte[ETAG_MAX + 1];
        var _ := DecodeEtag(option, received);
        same := etag[..] == received[..];
      } else {
        var _ := DecodeEtag(option, etag);
        same := true;
      }
    }

    /** Code, content format and ETag of a response. */
    method CheckContent(msg: Message) returns (refused: Option<Reason>)
      requires Valid()
      modifies this`format, etag
      ensures refused == ContentRefused(old(View()), msg)
      ensures format == KeptFormat(old(View()), msg)
      ensures etag[..] == if refused.None? && msg.etag.Some? && ctx.current == 0
                          then EtagBuffer(msg.etag.value) else old(etag[..])
    {
      hide EtagBuffer;
      if msg.code != CONTENT {
        return Some(NoContent);
      }
      if msg.format.Some? {
        if 0 <= format {
          if format != msg.format.value {
            return Some(Changed);
          }
        } else {
          format := msg.format.value;
        }
      }
      if msg.etag.Some? {
        var same := CheckEtag(msg.etag.value);
        if !same {
          return Some(Changed);
        }
      }
      return None;
    }

    /** `appl_update_coap_resonse`. */
    method HandleResponse(msg: Message, valid: bool, update: Library) returns (ok: bool)
      requires Valid()
      modifies this, etag
      ensures Valid() && etag == old(etag)
      ensures View() == Response(old(View()), msg, valid, update)
    {
      hide EtagBuffer, BlockRefused, ContentRefused, MessageOffset, IsLast, KeptFormat;
      var refused := CheckContent(msg);
      var last, next := false, ctx;
      if refused.None? {
        refused, last, next := CheckBlock(msg, update);
      }
      if refused.Some? {
        CancelDownload(true, refused.value);
        return false;
      }
      if |msg.payload| > 0 {
        writes := writes + [Chunk(MessageOffset(msg), msg.payload)];
      }
      if last {
        CancelDownload(!valid, NotAvailable);
        return valid;
      }
      ctx := next.(current := next.current + BlockBytes(next.blockSize));
      request := true;
      return true;
    }

    /** `appl_update_coap_parse_data`. */
    method ParseData(msg: Message, valid: bool, update: Library) returns (r: ParseResult)
      requires Valid()
      modifies this, etag
      ensures Valid() && etag == old(etag)
      ensures r == Match(msg, old(mid), old(token))
      ensures View() == Receive(old(View()), msg, valid, update)
      ensures LibraryContract(update) && Assembling(old(View())) ==> Assembling(View())
    {
      ghost var before := View();
      r := Match(msg, mid, token);
      if (r == ParseResponse || r == ParseConResponse) && download {
        var _ := HandleResponse(msg, valid, update);
      }
      if LibraryContract(update) && Assembling(before) {
        StepAssembles(before, Arrive(msg, valid), update);
      }
    }
  }
}
