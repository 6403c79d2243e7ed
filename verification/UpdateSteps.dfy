/** The CoAP firmware download of `appl_update_coap.c` as functions on its static state.
    `coap_update_from_block` belongs to the CoAP library; it is a parameter with a contract. */
module UpdateSteps {
  import opened Bytes
  import opened Flash
  import opened CoapClient

  const MAX_UPDATE_SIZE := 0x70000

  /** `struct coap_block_context`: total size (0 if unknown), offset, block size exponent. */
  datatype BlockContext = BlockContext(totalSize: nat, current: nat, blockSize: nat)

  function BlockBytes(szx: nat): (n: nat)
    ensures n > 0
  {
    16 * Pow2(szx)
  }

  datatype Reason = NotAvailable | Cmd | Changed | BlockOption | BlockNo | NoContent

  /** One call of `appl_update_write`: the payload, and the offset its message claims for it. */
  datatype Chunk = Chunk(offset: nat, payload: seq<Byte>)

  /** A block request as it is built: its token and the Block2 option in it. */
  datatype Request = Request(token: nat, num: nat, szx: nat)

  /** The static variables of the download; `writes` and `requests` record what was handed to the
      flash, and the block requests a token was drawn for, since the download area was erased. */
  datatype Client = Client(
    download: bool, request: bool, canceled: bool, ready: bool, reason: Reason,
    etag: seq<Byte>, format: int, ctx: BlockContext,
    token: nat, mid: nat, nextToken: nat,
    writes: seq<Chunk>, requests: seq<Request>)

  /** The zeroed ETag buffer. */
  function NoEtag(): seq<Byte> { EtagBuffer([]) }

  datatype Update = Rejected | Updated(ctx: BlockContext)
  type Library = (BlockContext, Message) -> Update

  /** What the library promises for a message with a Block2 option. */
  ghost predicate LibraryContract(update: Library) {
    forall ctx: BlockContext, msg: Message :: msg.block2.Some? && update(ctx, msg).Updated? ==>
      var ctx' := update(ctx, msg).ctx;
      && ctx'.current == msg.block2.value.num * BlockBytes(msg.block2.value.szx)
      && ctx'.blockSize <= ctx.blockSize
      && (ctx.totalSize != 0 ==> ctx'.totalSize == ctx.totalSize)
  }

  /** Bytes passed to the flash so far. */
  function Image(writes: seq<Chunk>): (s: seq<Byte>)
  {
    if writes == [] then [] else Image(writes[..|writes| - 1]) + writes[|writes| - 1].payload
  }

  // ----- operations

  /** `appl_update_coap_set_resource` and `appl_update_coap_start`; `available` is the version test. */
  function Start(c: Client, available: bool): (c': Client) {
    if c.download || available then c
    else c.(download := true, request := false, canceled := false, ready := false, etag := NoEtag())
  }

  function FirstBlockSize(scale: int): nat {
    if scale >= 350 then 4 else if scale >= 250 then 5 else 6
  }

  /** `appl_update_coap_erase_fn` after the area was erased. */
  function EraseDone(c: Client, scale: int): (c': Client) {
    var e := c.(writes := [], requests := []);
    if c.download then e.(ctx := BlockContext(0, 0, FirstBlockSize(scale)), request := true) else e
  }

  /** `appl_update_coap_erase_fn`. */
  function EraseFn(c: Client, erased: bool, scale: int): (c': Client) {
    if erased then EraseDone(c, scale) else Cancel(c, true, NotAvailable)
  }

  function Cancel(c: Client, cancel: bool, reason: Reason): (c': Client) {
    c.(download := false, request := false, canceled := cancel, ready := !cancel, etag := NoEtag(),
       reason := if c.download && cancel then reason else c.reason)
  }

  /** Block number of an offset, as `coap_append_block2_option` writes it. */
  function BlockNumber(current: nat, szx: nat): nat {
    DivFloor(current, BlockBytes(szx));
    current / BlockBytes(szx)
  }

  /** `appl_update_coap_next`: the request for the block at the current offset. Its flag is cleared and its
      token is drawn before the packet is built; a packet that cannot be built is not sent, nor asked for again. */
  function Next(c: Client, mid: nat): (c': Client) {
    if !(c.download && c.request) then c
    else
      c.(request := false, token := c.nextToken, mid := mid, nextToken := (c.nextToken + 1) % TOKEN_VALUES,
         requests := c.requests + [Request(c.nextToken, BlockNumber(c.ctx.current, c.ctx.blockSize), c.ctx.blockSize)])
  }

  /** Another CoAP exchange of the application draws a token. */
  function OtherToken(c: Client): (c': Client) {
    c.(nextToken := (c.nextToken + 1) % TOKEN_VALUES)
  }

  /** The checks of `appl_update_coap_resonse` before the payload is used; `None` if they pass. */
  function Refused(c: Client, msg: Message, update: Library): Option<Reason> {
    if ContentRefused(c, msg).Some? then ContentRefused(c, msg) else BlockRefused(c.ctx, msg, update)
  }

  /** The checks on code, content format and ETag. */
  function ContentRefused(c: Client, msg: Message): Option<Reason> {
    if msg.code != CONTENT then Some(NoContent)
    else if msg.format.Some? && c.format >= 0 && c.format != msg.format.value then Some(Changed)
    else if msg.etag.Some? && c.ctx.current != 0 && c.etag != EtagBuffer(msg.etag.value) then Some(Changed)
    else None
  }

  /** The checks on the Block2 option. */
  function BlockRefused(current: BlockContext, msg: Message, update: Library): Option<Reason> {
    if msg.block2.None? then if current.current != 0 then Some(BlockOption) else None
    else
      match update(current, msg)
      case Rejected => Some(BlockOption)
      case Updated(ctx) =>
        if ctx.totalSize > MAX_UPDATE_SIZE then Some(BlockOption)
        else if current.current != ctx.current then Some(BlockNo)
        else if |msg.payload| > BlockBytes(ctx.blockSize) then Some(BlockOption)
        else if |msg.payload| < BlockBytes(ctx.blockSize) && msg.block2.value.more then Some(BlockOption)
        else None
  }

  /** The offset a message claims for its payload. */
  function MessageOffset(msg: Message): nat {
    if msg.block2.None? then 0 else msg.block2.value.num * BlockBytes(msg.block2.value.szx)
  }

  /** The content format of the first response is kept, also over later downloads. */
  function KeptFormat(c: Client, msg: Message): int {
    if msg.code == CONTENT && msg.format.Some? && c.format < 0 then msg.format.value else c.format
  }

  function Accepted(c: Client, msg: Message): (c': Client) {
    c.(format := KeptFormat(c, msg),
       etag := if msg.etag.Some? && c.ctx.current == 0 then EtagBuffer(msg.etag.value) else c.etag,
       writes := if msg.payload == [] then c.writes else c.writes + [Chunk(MessageOffset(msg), msg.payload)])
  }

  function IsLast(msg: Message): bool { msg.block2.None? || !msg.block2.value.more }

  /** `appl_update_coap_resonse`; `valid` is the joint result of finishing the image, comparing its
      version and requesting the upgrade. */
  function Response(c: Client, msg: Message, valid: bool, update: Library): (c': Client) {
    match Refused(c, msg, update)
    case Some(reason) => Cancel(c.(format := KeptFormat(c, msg)), true, reason)
    case None =>
      var a := Accepted(c, msg);
      if IsLast(msg) then Cancel(a, !valid, NotAvailable)
      else
        match update(c.ctx, msg)
        case Updated(ctx) =>
          a.(ctx := ctx.(current := ctx.current + BlockBytes(ctx.blockSize)), request := true)
        case Rejected => a
  }

  /** `appl_update_coap_parse_data`. */
  function Receive(c: Client, msg: Message, valid: bool, update: Library): (c': Client) {
    if c.download && Match(msg, c.mid, c.token) in {ParseResponse, ParseConResponse}
    then Response(c, msg, valid, update) else c
  }

  datatype Event =
    | Arrive(msg: Message, valid: bool)
    | SendNext(mid: nat)
    | Command(reason: Reason)
    | TokenDrawn

  function Step(c: Client, ev: Event, update: Library): (c': Client) {
    match ev
    case Arrive(msg, valid) => Receive(c, msg, valid, update)
    case SendNext(mid) => Next(c, mid)
    case Command(reason) => Cancel(c, true, reason)
    case TokenDrawn => OtherToken(c)
  }

  function Run(c: Client, evs: seq<Event>, update: Library): (c': Client)
    decreases |evs|
  {
    if evs == [] then c else Run(Step(c, evs[0], update), evs[1..], update)
  }

  /** A download at its first block request: area erased, nothing received. */
  predicate AtFirstRequest(c: Client) {
    && c.download && !c.request && !c.ready
    && c.ctx.current == 0 && c.writes == []
    && c.token < TOKEN_VALUES && c.nextToken == (c.token + 1) % TOKEN_VALUES
    && |c.requests| == 1 && c.requests[0] == Request(c.token, 0, c.ctx.blockSize)
  }

  /** The state a download is in after the area was erased and the first request was sent. */
  lemma FirstRequestReached(c: Client, scale: int, mid: nat)
    requires c.download && !c.ready && c.nextToken < TOKEN_VALUES
    ensures AtFirstRequest(Next(EraseDone(c, scale), mid))
  {
    DivFloor(0, BlockBytes(FirstBlockSize(scale)));
  }
}
