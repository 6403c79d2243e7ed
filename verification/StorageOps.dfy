/** The operations of the ring log in `appl_storage.c` as functions on the device bytes:
    format, write, start-up recovery and the backward read. */
module StorageOps {
  import opened Bytes
  import opened Flash
  import opened StorageLayout

  /** 2^47: the mask 0x7fffffffffff keeps the top bit of the 48-bit time clear. */
  const TIME_LIMIT: nat := 0x8000_0000_0000

  datatype Item = Item(seconds: nat, value: seq<Byte>)

  /** The bytes of the whole device and `current_offset`. */
  datatype State = State(mem: seq<Byte>, current: int)

  predicate ValidItem(cfg: Config, item: Item) {
    item.seconds < TIME_LIMIT && |item.value| == cfg.valueSize
  }

  function Seconds(time: int): (s: nat)
    ensures s < TIME_LIMIT
  {
    TruncDiv(time, 1000) % TIME_LIMIT
  }

  /** The item a write is meant to add: a longer value is cut, a shorter one padded. */
  function NewItem(cfg: Config, time: int, value: seq<Byte>): (item: Item)
    ensures ValidItem(cfg, item)
  {
    var n := Min(|value|, cfg.valueSize);
    Item(Seconds(time), value[..n] + seq(cfg.valueSize - n, _ => ERASE_VALUE))
  }

  function EncodeItem(item: Item): (s: seq<Byte>)
    ensures |s| == TIME_SIZE + |item.value|
  {
    ToBe(item.seconds, TIME_SIZE) + item.value
  }

  /** `current_offset` is the address of a slot. */
  ghost predicate OnSlot(cfg: Config, s: State) {
    && cfg.WellFormed()
    && |s.mem| == cfg.deviceSize
    && exists k: nat :: k < cfg.Slots() && s.current == cfg.SlotAddr(k)
  }

  lemma OnSlotBounds(cfg: Config, s: State)
    requires OnSlot(cfg, s)
    ensures cfg.WellFormed()
    ensures cfg.StartOffset() <= s.current
    ensures s.current + cfg.ItemSize() <= cfg.EndOffset() <= cfg.deviceSize == |s.mem|
    ensures cfg.ItemSize() <= cfg.HeaderSize()
  {
    hide Config.WellFormed, Config.SlotAddr;
    var k: nat :| k < cfg.Slots() && s.current == cfg.SlotAddr(k);
    cfg.SlotBounds(k);
    Room(cfg);
  }

  function Format(cfg: Config, m: seq<Byte>): (s: State)
  {
    var e := Erased(m, cfg.headersOffset, cfg.pages * cfg.pageSize);
    State(Programmed(e, cfg.headersOffset, cfg.Header()), cfg.StartOffset())
  }

  function NextOffset(cfg: Config, current: int): int {
    if current + cfg.ItemSize() + 1 <= cfg.EndOffset() then current + cfg.ItemSize() else cfg.StartOffset()
  }

  /** Makes the next slot free: erases its page when its first byte is in use. */
  function Prepared(cfg: Config, m: seq<Byte>, next: nat): (r: seq<Byte>)
    requires cfg.WellFormed() && next < |m|
    ensures |r| == |m|
  {
    if m[next] == ERASE_VALUE then m
    else
      var page := cfg.PageStart(next);
      var e := Erased(m, page, cfg.pageSize);
      if page == cfg.headersOffset then Programmed(e, page, cfg.Header()) else e
  }

  /** The bytes programmed for an item; the tail behind a short value is what was read before. */
  function ItemData(cfg: Config, m: seq<Byte>, current: int, time: int, value: seq<Byte>): (d: seq<Byte>)
    requires 0 <= current && current + cfg.ItemSize() <= |m|
    ensures |d| == cfg.ItemSize()
  {
    var n := Min(|value|, cfg.valueSize);
    ToBe(Seconds(time), TIME_SIZE) + value[..n] + m[current + TIME_SIZE + n..current + cfg.ItemSize()]
  }

  function WriteItem(cfg: Config, s: State, time: int, value: seq<Byte>): (s': State)
    requires OnSlot(cfg, s)
  {
    OnSlotBounds(cfg, s);
    var next := NextOffset(cfg, s.current);
    var data := ItemData(cfg, s.mem, s.current, time, value);
    State(Programmed(Prepared(cfg, s.mem, next), s.current, data), next)
  }

  predicate HeaderOk(cfg: Config, m: seq<Byte>)
    requires cfg.WellFormed() && |m| == cfg.deviceSize
  {
    Room(cfg);
    m[cfg.headersOffset..cfg.headersOffset + HEADER_BYTES] == cfg.Header()
  }

  lemma Room(cfg: Config)
    requires cfg.WellFormed()
    ensures cfg.headersOffset + HEADER_BYTES <= cfg.StartOffset() < cfg.headersOffset + cfg.pageSize
    ensures cfg.ItemSize() <= cfg.HeaderSize()
    ensures cfg.headersOffset + cfg.pageSize < cfg.EndOffset() <= cfg.deviceSize
    ensures cfg.StartOffset() + cfg.ItemSize() <= cfg.EndOffset()
  {
    cfg.Shape();
    PagesApart(cfg.pageSize, 1, cfg.pages);
  }

  /** Start-up reads 32 bytes at a time; the chunk that covers slot `k` has to lie in the device. */
  predicate ChunkReadable(cfg: Config, k: int)
    requires cfg.WellFormed()
  {
    cfg.Shape();
    var perChunk := MAX_ITEM_SIZE / cfg.ItemSize();
    cfg.StartOffset() + (k / perChunk + 1) * MAX_ITEM_SIZE <= cfg.deviceSize
  }

  predicate TimeErased(cfg: Config, m: seq<Byte>, k: int) {
    AllErased(m, cfg.SlotAddr(k), cfg.SlotAddr(k) + TIME_SIZE)
  }

  /** First slot from `k` on that the scan reads as erased; `Slots()` if there is none. */
  function Scan(cfg: Config, m: seq<Byte>, k: nat): (r: nat)
    requires cfg.WellFormed() && k <= cfg.Slots()
    ensures k <= r <= cfg.Slots()
    decreases cfg.Slots() - k
  {
    if k == cfg.Slots() || (ChunkReadable(cfg, k) && TimeErased(cfg, m, k)) then k else Scan(cfg, m, k + 1)
  }

  /** Start-up: `current_offset` is found by scanning, or the section is formatted. */
  function Recover(cfg: Config, m: seq<Byte>): (s: State)
    requires cfg.WellFormed() && |m| == cfg.deviceSize
  {
    cfg.SlotsFill();
    if !HeaderOk(cfg, m) || Scan(cfg, m, 0) == cfg.Slots() then Format(cfg, m)
    else State(m, cfg.SlotAddr(Scan(cfg, m, 0)))
  }

  /** Result of one backward read step: the offset read and the item there, if any. */
  datatype ReadResult = End(offset: int) | Found(offset: int, time: int, value: seq<Byte>)

  function ReadBack(cfg: Config, m: seq<Byte>, current: int): (r: ReadResult)
    requires OnSlot(cfg, State(m, current))
    ensures OnSlot(cfg, State(m, r.offset))
    ensures r.Found? ==> |r.value| == cfg.valueSize
  {
    OnSlotBounds(cfg, State(m, current));
    BackOnSlot(cfg, m, current);
    var offset := BackOffset(cfg, current);
    if AllErased(m, offset, offset + TIME_SIZE) then End(offset)
    else Found(offset, FromBe(m[offset..offset + TIME_SIZE]) * 1000,
               m[offset + TIME_SIZE..offset + cfg.ItemSize()])
  }

  /** The slot before `current`, around the ring. */
  function BackOffset(cfg: Config, current: int): int {
    (if current == cfg.StartOffset() then cfg.EndOffset() else current) - cfg.ItemSize()
  }

  lemma BackOffsetSlot(cfg: Config, k: nat)
    requires cfg.WellFormed() && k < cfg.Slots()
    ensures BackOffset(cfg, cfg.SlotAddr(k)) == cfg.SlotAddr(if k == 0 then cfg.Slots() - 1 else k - 1)
  {
    hide Config.WellFormed, Config.SlotAddr;
    cfg.SlotsFill();
    if k == 0 {
      cfg.SlotOrder(cfg.Slots() - 1, cfg.Slots());
    } else {
      cfg.SlotOrder(0, k);
      cfg.SlotOrder(k - 1, k);
    }
  }

  lemma BackOnSlot(cfg: Config, m: seq<Byte>, current: int)
    requires OnSlot(cfg, State(m, current))
    ensures OnSlot(cfg, State(m, BackOffset(cfg, current)))
  {
    hide Config.WellFormed, Config.SlotAddr;
    var k: nat :| k < cfg.Slots() && current == cfg.SlotAddr(k);
    BackOffsetSlot(cfg, k);
  }

  /** The loop of the indexed reads: skips `index` items, then collects up to `count`, newest first,
      until a slot reads as erased. */
  function ReadItems(cfg: Config, m: seq<Byte>, current: int, index: nat, count: nat): (r: seq<(int, seq<Byte>)>)
    requires OnSlot(cfg, State(m, current))
    decreases index + count
  {
    if count == 0 then []
    else
      match ReadBack(cfg, m, current)
      case End(_) => []
      case Found(offset, time, value) =>
        if index > 0 then ReadItems(cfg, m, offset, index - 1, count)
        else [(time, value)] + ReadItems(cfg, m, offset, 0, count - 1)
  }
}
