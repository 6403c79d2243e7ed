/** What the ring log promises in bytes and milliseconds: what a write lets a reader see, and what start-up
    makes of any device content. */
module StorageContents {
  import opened Bytes
  import opened Flash
  import opened StorageLayout
  import opened StorageOps
  import opened RingLog
  import opened RingLogRuns

  // ----- a write, read back

  /** One entry: the time in whole seconds of a 47-bit counter, and the value, cut or padded with 0xff. */
  ghost predicate ReadsAs(cfg: Config, entries: seq<(int, seq<Byte>)>, time: int, value: seq<Byte>) {
    && |entries| == 1
    && var (t, v) := entries[0];
       && t % 1000 == 0 && 0 <= t < 1000 * 0x8000_0000_0000
       && (0 <= time < 1000 * 0x8000_0000_0000 ==> t <= time < t + 1000)
       && (TruncDiv(time, 1000) - t / 1000) % 0x8000_0000_0000 == 0
       && |v| == cfg.valueSize
       && (forall i :: 0 <= i < |v| ==> v[i] == if i < |value| then value[i] else 0xff)
  }

  lemma WholeSeconds(time: int)
    ensures
      var t := Seconds(time) * 1000;
      && t % 1000 == 0 && t / 1000 == Seconds(time) && 0 <= t < 1000 * 0x8000_0000_0000
      && (0 <= time < 1000 * 0x8000_0000_0000 ==> t <= time < t + 1000)
      && (TruncDiv(time, 1000) - t / 1000) % 0x8000_0000_0000 == 0
  {
    var q, m := TruncDiv(time, 1000), 0x8000_0000_0000;
    DivUnique(q - q % m, m, q / m, 0);
  }

  /** The newest entry after a write is what was written. */
  lemma WriteThenRead(cfg: Config, s: State, c: nat, log: seq<Item>, time: int, value: seq<Byte>)
    requires Holds(cfg, s, c, log)
    ensures OnSlot(cfg, s) && OnSlot(cfg, WriteItem(cfg, s, time, value))
    ensures
      var s' := WriteItem(cfg, s, time, value);
      ReadsAs(cfg, ReadItems(cfg, s'.mem, s'.current, 0, 1), time, value)
  {
    hide *;
    WriteAppends(cfg, s, c, log, time, value);
    var item, n := NewItem(cfg, time, value), NextSlot(cfg, c);
    var s' := WriteItem(cfg, s, time, value);
    ReadsNewestFirst(cfg, s', n, log + [item], 0, 1);
    NewestEntry(cfg, s', n, log, item);
    ItemReadsAs(cfg, time, value);
  }

  lemma NewestEntry(cfg: Config, s: State, c: nat, log: seq<Item>, item: Item)
    requires Holds(cfg, s, c, log + [item])
    ensures cfg.WellFormed() && c < cfg.Slots() && c <= |log| + 1 && (|log| + 1 == c || |log| + 1 - c >= cfg.Slots())
    ensures NewestFirst(Readable(cfg, c, log + [item]), 0, 1) == [Entry(item)]
  {
    hide *;
    ReadableAt(cfg, s, c, log + [item]);
    cfg.SlotsFill();
    ReadsNewestFirst(cfg, s, c, log + [item], 0, 1);
    MinPositive(|log| + 1, cfg.Slots() - cfg.PerPage());
    LastOfSuffix(log, item, Readable(cfg, c, log + [item]));
  }

  lemma MinPositive(a: int, b: int)
    requires a > 0 && b > 0
    ensures Min(a, b) > 0
  {
  }

  lemma LastOfSuffix(log: seq<Item>, item: Item, all: seq<Item>)
    requires 0 < |all| <= |log| + 1 && all == (log + [item])[|log| + 1 - |all|..]
    ensures NewestFirst(all, 0, 1) == [Entry(item)]
  {
    assert all[|all| - 1] == (log + [item])[|log|] == item;
  }

  lemma ItemReadsAs(cfg: Config, time: int, value: seq<Byte>)
    ensures ReadsAs(cfg, [Entry(NewItem(cfg, time, value))], time, value)
  {
    hide Seconds, TruncDiv;
    WholeSeconds(time);
  }

  // ----- start-up on any content

  /** The 10 header bytes of a section. */
  function SectionHeader(magic: nat, version: nat, valueSize: nat): (h: seq<Byte>)
    ensures |h| == 10
  {
    ToBe(magic, 4) + ToBe(version, 4) + ToBe(valueSize, 2)
  }

  lemma SplitHeader(a: seq<Byte>, b: seq<Byte>, c: seq<Byte>, a': seq<Byte>, b': seq<Byte>, c': seq<Byte>)
    requires |a| == |a'| == |b| == |b'| == 4 && a + b + c == a' + b' + c'
    ensures a == a' && b == b' && c == c'
  {
    assert (a + b + c)[..4] == a && (a' + b' + c')[..4] == a';
    assert (a + b + c)[4..8] == b && (a' + b' + c')[4..8] == b';
    assert (a + b + c)[8..] == c && (a' + b' + c')[8..] == c';
  }

  /** Magic, version and value size all count: headers are equal only if all three are. */
  lemma HeadersDiffer(magic: nat, version: nat, size: nat, magic': nat, version': nat, size': nat)
    requires magic < 0x1_0000_0000 && version < 0x1_0000_0000 && size < 0x1_0000
    requires magic' < 0x1_0000_0000 && version' < 0x1_0000_0000 && size' < 0x1_0000
    ensures SectionHeader(magic, version, size) == SectionHeader(magic', version', size') <==>
      magic == magic' && version == version' && size == size'
  {
    if SectionHeader(magic, version, size) == SectionHeader(magic', version', size') {
      SplitHeader(ToBe(magic, 4), ToBe(version, 4), ToBe(size, 2), ToBe(magic', 4), ToBe(version', 4), ToBe(size', 2));
      assert Range(2) == 0x1_0000 && Range(4) == 0x1_0000_0000 by { assert Range(3) == 0x100_0000; }
      BeRoundTrip(magic, 4);
      BeRoundTrip(magic', 4);
      BeRoundTrip(version, 4);
      BeRoundTrip(version', 4);
      BeRoundTrip(size, 2);
      BeRoundTrip(size', 2);
    }
  }

  /** The header bytes of the section are in place. */
  ghost predicate HasHeader(cfg: Config, m: seq<Byte>) {
    && cfg.headersOffset + 10 <= |m|
    && m[cfg.headersOffset..cfg.headersOffset + 10] == SectionHeader(cfg.magic, cfg.version, cfg.valueSize)
  }

  /** The scan can read slot `k`, and its 6 time bytes are 0xff. */
  ghost predicate FreeSlot(cfg: Config, m: seq<Byte>, k: nat) {
    && cfg.WellFormed() && k < cfg.Slots() && ChunkReadable(cfg, k)
    && cfg.SlotAddr(k) + 6 <= |m|
    && forall i {:trigger m[i]} :: cfg.SlotAddr(k) <= i < cfg.SlotAddr(k) + 6 ==> m[i] == 0xff
  }

  /** What start-up makes of the device bytes `m`: with a foreign header, or without a free slot, the empty
      list; otherwise no byte is touched and the first free slot is next. */
  ghost predicate StartedUp(cfg: Config, m: seq<Byte>, s: State) {
    && OnSlot(cfg, s) && HasHeader(cfg, s.mem) && Elsewhere(cfg, m, s.mem)
    && (forall i {:trigger s.mem[i]} :: s.current <= i < s.current + 6 ==> 0 <= i < |s.mem| && s.mem[i] == 0xff)
    && (!HasHeader(cfg, m) ==> Represents(cfg, s, []))
    && ((forall k: nat :: !FreeSlot(cfg, m, k)) ==> Represents(cfg, s, []))
    && (forall k: nat :: HasHeader(cfg, m) && FirstFree(cfg, m, k) ==> s == State(m, cfg.SlotAddr(k)))
  }

  ghost predicate FirstFree(cfg: Config, m: seq<Byte>, k: nat) {
    FreeSlot(cfg, m, k) && forall j: nat :: j < k ==> !FreeSlot(cfg, m, j)
  }

  lemma FreeIsErased(cfg: Config, m: seq<Byte>, k: nat)
    requires cfg.WellFormed() && |m| == cfg.deviceSize && k < cfg.Slots()
    ensures FreeSlot(cfg, m, k) <==> ChunkReadable(cfg, k) && TimeErased(cfg, m, k)
  {
    hide Config.WellFormed, Config.SlotAddr, ChunkReadable;
    cfg.SlotBounds(k);
    cfg.Shape();
  }

  /** The scan stops at the first free slot. */
  lemma {:induction false} ScanFirst(cfg: Config, m: seq<Byte>, k: nat)
    requires cfg.WellFormed() && |m| == cfg.deviceSize && k <= cfg.Slots()
    ensures
      var r := Scan(cfg, m, k);
      (r < cfg.Slots() ==> FreeSlot(cfg, m, r)) && (forall j: nat :: k <= j < r ==> !FreeSlot(cfg, m, j))
    decreases cfg.Slots() - k
  {
    hide Config.WellFormed, ChunkReadable, TimeErased, FreeSlot;
    if k < cfg.Slots() {
      FreeIsErased(cfg, m, k);
      if !FreeSlot(cfg, m, k) {
        ScanFirst(cfg, m, k + 1);
      }
    }
  }

  lemma FormatStartsUp(cfg: Config, m: seq<Byte>)
    requires cfg.WellFormed() && |m| == cfg.deviceSize
    requires HasHeader(cfg, m) ==> forall k: nat :: !FreeSlot(cfg, m, k)
    ensures StartedUp(cfg, m, Format(cfg, m))
  {
    hide Config.WellFormed, Config.SlotAddr, FreeSlot, Format, SlotOk, ItemIndex, Elsewhere;
    var s := Format(cfg, m);
    FormatEmpty(cfg, m);
    cfg.SlotsFill();
    cfg.PageBounds(0);
    WrittenOrErased(cfg, s, 0, [], 0);
    FirstErased(cfg, s.mem);
    cfg.SlotBounds(0);
    cfg.Shape();
    Room(cfg);
  }

  lemma FirstErased(cfg: Config, m: seq<Byte>)
    requires cfg.WellFormed() && 0 < cfg.Slots()
    ensures ItemIndex(cfg, 0, 0, 0) == -1
  {
    cfg.PageBounds(0);
  }

  lemma OneFirst(cfg: Config, m: seq<Byte>, j: nat, k: nat)
    requires FirstFree(cfg, m, j) && FirstFree(cfg, m, k)
    ensures j == k
  {
    hide FreeSlot;
  }

  lemma ScanStartsUp(cfg: Config, m: seq<Byte>, r: nat)
    requires cfg.WellFormed() && |m| == cfg.deviceSize && HasHeader(cfg, m) && FirstFree(cfg, m, r)
    ensures StartedUp(cfg, m, State(m, cfg.SlotAddr(r)))
  {
    hide Config.WellFormed, Config.SlotAddr, ChunkReadable, Represents, FirstFree, HasHeader;
    assert FreeSlot(cfg, m, r) by { hide *; FirstIsFree(cfg, m, r); }
    cfg.SlotBounds(r);
    forall k: nat | FirstFree(cfg, m, k)
      ensures k == r
    {
      OneFirst(cfg, m, k, r);
    }
  }

  lemma FirstIsFree(cfg: Config, m: seq<Byte>, k: nat)
    requires FirstFree(cfg, m, k)
    ensures FreeSlot(cfg, m, k)
  {
  }

  /** Start-up on any device content. */
  lemma StartUp(cfg: Config, m: seq<Byte>)
    requires cfg.WellFormed() && |m| == cfg.deviceSize
    ensures StartedUp(cfg, m, Recover(cfg, m))
  {
    hide Config.WellFormed, Config.SlotAddr, Format, Scan, StartedUp, FreeSlot;
    cfg.SlotsFill();
    Room(cfg);
    ScanFirst(cfg, m, 0);
    if HasHeader(cfg, m) && Scan(cfg, m, 0) < cfg.Slots() {
      ScanStartsUp(cfg, m, Scan(cfg, m, 0));
    } else {
      if HasHeader(cfg, m) {
        forall k: nat
          ensures !FreeSlot(cfg, m, k)
        {
          if k >= cfg.Slots() { NoSlot(cfg, m, k); }
        }
      }
      FormatStartsUp(cfg, m);
    }
  }

  lemma NoSlot(cfg: Config, m: seq<Byte>, k: nat)
    requires cfg.WellFormed() && k >= cfg.Slots()
    ensures !FreeSlot(cfg, m, k)
  {
  }
}
