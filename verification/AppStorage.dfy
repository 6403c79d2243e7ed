/** `appl_storage.c` in its own form: one storage section as an object over the device bytes, with
    the scan, write and read loops of the source, each proved against `StorageOps` and the item list. */
module AppStorage {
  import opened Bytes
  import opened Flash
  import opened StorageLayout
  import opened StorageOps
  import opened RingLog
  import opened RingLogRuns
  import opened StorageContents

  const EINVAL := 22

  method IsErased(data: seq<Byte>, len: nat) returns (erased: bool)
    requires len <= |data|
    ensures erased <==> AllErased(data, 0, len)
  {
    for index := 0 to len
      invariant AllErased(data, 0, index)
    {
      if data[index] != ERASE_VALUE {
        return false;
      }
    }
    return true;
  }

  /** A buffer read from `addr` looks erased exactly when the device bytes are. */
  lemma SameErased(m: seq<Byte>, addr: nat, data: seq<Byte>, len: nat)
    requires len <= |data| && addr + |data| <= |m| && data == m[addr..addr + |data|]
    ensures AllErased(data, 0, len) <==> AllErased(m, addr, addr + len)
  {
    assert forall t :: 0 <= t < len ==> data[t] == m[addr + t];
    assert forall t :: addr <= t < addr + len ==> m[t] == data[t - addr];
  }

  // ----- facts for the chunked scan

  function PerChunk(cfg: Config): (n: nat)
    requires cfg.WellFormed()
    ensures n in {1, 2, 4} && n * cfg.ItemSize() == MAX_ITEM_SIZE
  {
    cfg.Shape();
    MAX_ITEM_SIZE / cfg.ItemSize()
  }

  lemma ChunkArithmetic(start: int, k: nat, i: nat, n: nat, item: nat)
    requires n in {1, 2, 4} && n * item == MAX_ITEM_SIZE && k % n == 0 && i < n
    ensures start + ((k + i) / n + 1) * MAX_ITEM_SIZE == start + k * item + MAX_ITEM_SIZE
    ensures (k + i) * item == k * item + i * item
    ensures (k + n) * item == k * item + MAX_ITEM_SIZE
  {
    if n == 1 {
      assert item == 32;
    } else if n == 2 {
      assert item == 16;
    } else {
      assert item == 8;
    }
  }

  /** Slot `k` starts a chunk: the chunk is readable as a whole or not at all. */
  lemma ChunkSlots(cfg: Config, k: nat, i: nat)
    requires cfg.WellFormed() && k % PerChunk(cfg) == 0 && i < PerChunk(cfg)
    ensures ChunkReadable(cfg, k + i) <==> cfg.SlotAddr(k) + MAX_ITEM_SIZE <= cfg.deviceSize
    ensures cfg.SlotAddr(k + i) == cfg.SlotAddr(k) + i * cfg.ItemSize()
    ensures cfg.SlotAddr(k + PerChunk(cfg)) == cfg.SlotAddr(k) + MAX_ITEM_SIZE
  {
    hide Config.WellFormed;
    cfg.Shape();
    ChunkArithmetic(cfg.StartOffset(), k, i, PerChunk(cfg), cfg.ItemSize());
  }

  lemma {:induction false} ScanSkips(cfg: Config, m: seq<Byte>, k: nat, j: nat)
    requires cfg.WellFormed() && k <= j <= cfg.Slots()
    requires forall i: nat :: k <= i < j ==> !(ChunkReadable(cfg, i) && TimeErased(cfg, m, i))
    ensures Scan(cfg, m, k) == Scan(cfg, m, j)
    decreases j - k
  {
    hide Config.WellFormed, ChunkReadable, TimeErased;
    if k < j { ScanSkips(cfg, m, k + 1, j); }
  }

  lemma SlotBeforeEnd(cfg: Config, k: nat)
    requires cfg.WellFormed()
    ensures cfg.SlotAddr(k) < cfg.EndOffset() <==> k < cfg.Slots()
  {
    hide Config.WellFormed, Config.SlotAddr;
    cfg.SlotsFill();
    cfg.Shape();
    if k < cfg.Slots() { cfg.SlotOrder(k, cfg.Slots()); }
    if k > cfg.Slots() { cfg.SlotOrder(cfg.Slots(), k); }
  }

  lemma SkipUnreadable(cfg: Config, m: seq<Byte>, k: nat)
    requires cfg.WellFormed() && k < cfg.Slots() && k % PerChunk(cfg) == 0
    requires cfg.SlotAddr(k) + MAX_ITEM_SIZE > cfg.deviceSize
    ensures Scan(cfg, m, k) == Scan(cfg, m, Min(k + PerChunk(cfg), cfg.Slots()))
  {
    hide Config.WellFormed, Config.SlotAddr, ChunkReadable;
    var j := Min(k + PerChunk(cfg), cfg.Slots());
    forall i: nat | k <= i < j
      ensures !(ChunkReadable(cfg, i) && TimeErased(cfg, m, i))
    {
      ChunkSlots(cfg, k, i - k);
    }
    ScanSkips(cfg, m, k, j);
  }

  /** Slot `k + i` of a chunk starts `i` items into the chunk. */
  lemma InChunk(cfg: Config, k: nat, i: nat)
    requires cfg.WellFormed() && k < cfg.Slots() && k % PerChunk(cfg) == 0
    ensures i * cfg.ItemSize() < MAX_ITEM_SIZE <==> i < PerChunk(cfg)
    ensures i <= PerChunk(cfg) ==> cfg.SlotAddr(k + i) == cfg.SlotAddr(k) + i * cfg.ItemSize()
    ensures (i + 1) * cfg.ItemSize() == i * cfg.ItemSize() + cfg.ItemSize()
    ensures i < PerChunk(cfg) ==> i * cfg.ItemSize() + cfg.ItemSize() <= MAX_ITEM_SIZE
    ensures TIME_SIZE < cfg.ItemSize()
  {
    cfg.Shape();
  }

  /** Times and 16-bit codes of a list of read items. */
  predicate IntItems(items: seq<(int, seq<Byte>)>, times: seq<int>, codes: seq<nat>) {
    && |times| == |codes| == |items|
    && forall j :: 0 <= j < |items| ==>
         |items[j].1| >= 2 && times[j] == items[j].0 && codes[j] == FromBe(items[j].1[..2])
  }

  lemma NoIntItems()
    ensures IntItems([], [], [])
  {
  }

  lemma MoreIntItems(items: seq<(int, seq<Byte>)>, times: seq<int>, codes: seq<nat>, time: int, value: seq<Byte>)
    requires IntItems(items, times, codes) && |value| >= 2
    ensures IntItems(items + [(time, value)], times + [time], codes + [FromBe(value[..2])])
  {
  }

  lemma ScanOne(cfg: Config, m: seq<Byte>, k: nat)
    requires cfg.WellFormed() && k < cfg.Slots() && ChunkReadable(cfg, k)
    ensures Scan(cfg, m, k) == if TimeErased(cfg, m, k) then k else Scan(cfg, m, k + 1)
  {
    hide Config.WellFormed, ChunkReadable, TimeErased;
  }

  /** One step of the scan, seen in the chunk buffer `offset` bytes behind its start. */
  lemma ScanSlot(cfg: Config, m: seq<Byte>, k: nat, i: nat, data: seq<Byte>, offset: nat)
    requires cfg.WellFormed() && |m| == cfg.deviceSize
    requires k % PerChunk(cfg) == 0 && i < PerChunk(cfg) && k + i < cfg.Slots()
    requires 0 <= cfg.SlotAddr(k) && cfg.SlotAddr(k) + MAX_ITEM_SIZE <= |m|
    requires data == m[cfg.SlotAddr(k)..cfg.SlotAddr(k) + MAX_ITEM_SIZE]
    requires offset == i * cfg.ItemSize() && offset + TIME_SIZE <= |data|
    ensures Scan(cfg, m, k + i) == if AllErased(data[offset..], 0, TIME_SIZE) then k + i else Scan(cfg, m, k + i + 1)
  {
    hide *;
    ChunkSlots(cfg, k, i);
    ScanOne(cfg, m, k + i);
    ErasedInChunk(cfg, m, k + i, cfg.SlotAddr(k), data, offset);
  }

  lemma ErasedInChunk(cfg: Config, m: seq<Byte>, k: nat, addr: nat, data: seq<Byte>, offset: nat)
    requires addr + |data| <= |m| && data == m[addr..addr + |data|]
    requires cfg.SlotAddr(k) == addr + offset && offset + TIME_SIZE <= |data|
    ensures AllErased(data[offset..], 0, TIME_SIZE) <==> TimeErased(cfg, m, k)
  {
    hide Config.SlotAddr;
    SameErased(m, addr + offset, data[offset..], TIME_SIZE);
  }

  lemma DataFromSlot(cfg: Config, m: seq<Byte>, current: nat, time: int, value: seq<Byte>, slot: seq<Byte>)
    requires current + cfg.ItemSize() <= |m| && slot == m[current..current + cfg.ItemSize()]
    ensures
      var n := Min(|value|, cfg.valueSize);
      ToBe(Seconds(time), TIME_SIZE) + value[..n] + slot[TIME_SIZE + n..] == ItemData(cfg, m, current, time, value)
  {
    var n := Min(|value|, cfg.valueSize);
    assert slot[TIME_SIZE + n..] == m[current + TIME_SIZE + n..current + cfg.ItemSize()];
  }

  /** A read step seen in the buffer it fills. */
  lemma BackRead(cfg: Config, m: seq<Byte>, from: int, data: seq<Byte>)
    requires OnSlot(cfg, State(m, from)) && cfg.ItemSize() > TIME_SIZE
    requires 0 <= BackOffset(cfg, from) && BackOffset(cfg, from) + cfg.ItemSize() <= |m|
    requires data == m[BackOffset(cfg, from)..BackOffset(cfg, from) + cfg.ItemSize()]
    ensures ReadBack(cfg, m, from) ==
      if AllErased(data, 0, TIME_SIZE) then End(BackOffset(cfg, from))
      else Found(BackOffset(cfg, from), FromBe(data[..TIME_SIZE]) * 1000, data[TIME_SIZE..])
  {
    hide Config.WellFormed, Config.SlotAddr, OnSlot, BackOffset, FromBe;
    var offset := BackOffset(cfg, from);
    SameErased(m, offset, data, TIME_SIZE);
    assert data[..TIME_SIZE] == m[offset..offset + TIME_SIZE];
    assert data[TIME_SIZE..] == m[offset + TIME_SIZE..offset + cfg.ItemSize()];
  }

  lemma NextMultiple(k: nat, n: nat)
    requires n > 0 && k % n == 0
    ensures (k + n) % n == 0
  {
    DivUnique(k + n, n, k / n + 1, 0);
  }

  lemma WriteRepresents(cfg: Config, s: State, log: seq<Item>, time: int, value: seq<Byte>)
    requires OnSlot(cfg, s) && Represents(cfg, s, log)
    ensures Represents(cfg, StorageOps.WriteItem(cfg, s, time, value), log + [NewItem(cfg, time, value)])
    ensures
      var s' := StorageOps.WriteItem(cfg, s, time, value);
      OnSlot(cfg, s') && ReadsAs(cfg, ReadItems(cfg, s'.mem, s'.current, 0, 1), time, value)
  {
    hide Holds, OnSlot, StorageOps.WriteItem, ReadsAs, ReadItems;
    var c: nat :| Holds(cfg, s, c, log);
    WriteAppends(cfg, s, c, log, time, value);
    WriteThenRead(cfg, s, c, log, time, value);
  }

  lemma AllReads(cfg: Config, s: State, index: nat, count: nat)
    requires OnSlot(cfg, s)
    ensures forall c: nat, log | Holds(cfg, s, c, log) ::
      ReadItems(cfg, s.mem, s.current, index, count) == NewestFirst(Readable(cfg, c, log), index, count)
  {
    hide Config.WellFormed, Config.SlotAddr, SlotOk, HeaderOk, ReadItems, Readable, NewestFirst;
    forall c: nat, log | Holds(cfg, s, c, log)
      ensures ReadItems(cfg, s.mem, s.current, index, count) == NewestFirst(Readable(cfg, c, log), index, count)
    {
      ReadsNewestFirst(cfg, s, c, log, index, count);
    }
  }

  lemma OnSlotWellFormed(cfg: Config, s: State)
    requires OnSlot(cfg, s)
    ensures cfg.valueSize >= 2
  {
    cfg.Shape();
  }

  lemma WriteBounds(cfg: Config, s: State)
    requires OnSlot(cfg, s)
    ensures 0 <= NextOffset(cfg, s.current) < cfg.deviceSize
    ensures cfg.pageSize > 0 && cfg.PageStart(NextOffset(cfg, s.current)) + cfg.pageSize <= cfg.deviceSize
    ensures OnSlot(cfg, State(s.mem, NextOffset(cfg, s.current)))
  {
    hide Config.WellFormed, Config.SlotAddr, Config.PageStart, Config.PageOf, NextOffset;
    Room(cfg);
    var k: nat :| k < cfg.Slots() && s.current == cfg.SlotAddr(k);
    NextOffsetSlot(cfg, k);
    cfg.SlotPage(NextSlot(cfg, k));
  }

  lemma WriteOnSlot(cfg: Config, s: State, time: int, value: seq<Byte>)
    requires OnSlot(cfg, s)
    ensures OnSlot(cfg, StorageOps.WriteItem(cfg, s, time, value))
  {
    hide Config.WellFormed, Config.SlotAddr, NextOffset, Prepared, ItemData;
    WriteBounds(cfg, s);
    OnSlotBounds(cfg, s);
  }

  /** Start-up on the bytes of a running writer finds that writer's offset. */
  lemma RecoverSame(cfg: Config, s: State, log: seq<Item>)
    requires cfg.WellFormed() && Represents(cfg, s, log) && ScanFits(cfg)
    ensures Recover(cfg, s.mem) == s
  {
    hide Config.WellFormed, Config.SlotAddr, Recover, ChunkReadable, SlotOk, HeaderOk;
    var c: nat :| Holds(cfg, s, c, log);
    RebootKeeps(cfg, s, c, log);
    ChunkOrder(cfg, c, cfg.Slots() - 1);
  }

  class Storage {
    const cfg: Config
    const flash: array<Byte>
    var current: int

    ghost function View(): State
      reads this, flash
    {
      State(flash[..], current)
    }

    ghost predicate Valid()
      reads this, flash
    {
      OnSlot(cfg, View())
    }

    /** `appl_storage_init_setup`: start-up on whatever the device holds. */
    constructor (flash: array<Byte>, cfg: Config)
      requires cfg.WellFormed() && flash.Length == cfg.deviceSize
      modifies flash
      ensures this.cfg == cfg && this.flash == flash
      ensures View() == Recover(cfg, old(flash[..])) && StartedUp(cfg, old(flash[..]), View())
      ensures forall off, log | Represents(cfg, State(old(flash[..]), off), log) && ScanFits(cfg) ::
        View() == State(old(flash[..]), off)
    {
      this.cfg := cfg;
      this.flash := flash;
      this.current := cfg.StartOffset();
      new;
      hide *;
      InitOffset();
      forall off, log | Represents(cfg, State(old(flash[..]), off), log) && ScanFits(cfg)
        ensures View() == State(old(flash[..]), off)
      {
        RecoverSame(cfg, State(old(flash[..]), off), log);
      }
    }

    method Format() returns (ok: bool)
      requires cfg.WellFormed() && flash.Length == cfg.deviceSize
      modifies this`current, flash
      ensures ok && View() == StorageOps.Format(cfg, old(flash[..]))
      ensures Represents(cfg, View(), [])
    {
      hide Config.WellFormed, Config.SlotAddr, Holds;
      Room(cfg);
      ok := EraseMemory(flash, cfg.headersOffset, cfg.EndOffset() - cfg.headersOffset);
      if ok {
        var _ := WriteMemory(flash, cfg.headersOffset, cfg.Header());
        current := cfg.StartOffset();
      }
      FormatEmpty(cfg, old(flash[..]));
    }

    /** `appl_storage_init_offset`. */
    method InitOffset()
      requires cfg.WellFormed() && flash.Length == cfg.deviceSize
      modifies this`current, flash
      ensures View() == Recover(cfg, old(flash[..])) && StartedUp(cfg, old(flash[..]), View())
    {
      hide Config.WellFormed, Config.SlotAddr, Scan, StorageOps.Format, Represents, StartedUp;
      StartUp(cfg, flash[..]);
      Room(cfg);
      cfg.SlotsFill();
      var ok, data := ReadMemory(flash, cfg.headersOffset, HEADER_BYTES);
      if data == cfg.Header() {
        var found, offset := FindFree();
        if found {
          current := offset;
          return;
        }
      }
      ok := Format();
    }

    /** The scan for the first erased slot, 32 bytes per read; a chunk that cannot be read is skipped. */
    method FindFree() returns (found: bool, offset: int)
      requires cfg.WellFormed() && flash.Length == cfg.deviceSize
      ensures 0 <= cfg.Slots() && (found <==> Scan(cfg, flash[..], 0) < cfg.Slots())
      ensures found ==> offset == cfg.SlotAddr(Scan(cfg, flash[..], 0))
    {
      hide Config.WellFormed, Config.SlotAddr, Scan, PerChunk;
      cfg.SlotsFill();
      var addr := cfg.StartOffset();
      ghost var k: nat := 0;
      while addr < cfg.EndOffset()
        invariant addr == cfg.SlotAddr(k) && k % PerChunk(cfg) == 0
        invariant Scan(cfg, flash[..], 0) == Scan(cfg, flash[..], Min(k, cfg.Slots()))
        decreases cfg.EndOffset() - addr
      {
        SlotBeforeEnd(cfg, k);
        ChunkSlots(cfg, k, 0);
        var ok, data := ReadMemory(flash, addr, MAX_ITEM_SIZE);
        if ok {
          found, offset := ScanChunk(data, addr, k);
          if found {
            return;
          }
        } else {
          SkipUnreadable(cfg, flash[..], k);
        }
        addr := addr + MAX_ITEM_SIZE;
        NextMultiple(k, PerChunk(cfg));
        k := k + PerChunk(cfg);
      }
      SlotBeforeEnd(cfg, k);
      return false, 0;
    }

    /** The inner loop of the scan over one chunk that starts with slot `k`. */
    method ScanChunk(data: seq<Byte>, addr: int, ghost k: nat) returns (found: bool, offset: int)
      requires cfg.WellFormed() && flash.Length == cfg.deviceSize
      requires k < cfg.Slots() && k % PerChunk(cfg) == 0 && addr == cfg.SlotAddr(k)
      requires addr + MAX_ITEM_SIZE <= flash.Length && data == flash[addr..addr + MAX_ITEM_SIZE]
      ensures found ==> Scan(cfg, flash[..], k) < cfg.Slots() && offset == cfg.SlotAddr(Scan(cfg, flash[..], k))
      ensures !found ==> Scan(cfg, flash[..], k) == Scan(cfg, flash[..], Min(k + PerChunk(cfg), cfg.Slots()))
    {
      hide Config.WellFormed, Config.SlotAddr, PerChunk, Scan, AllErased;
      var index := 0;
      ghost var i: nat := 0;
      InChunk(cfg, k, 0);
      while index < MAX_ITEM_SIZE && addr + index < cfg.EndOffset()
        invariant index == i * cfg.ItemSize() && i <= PerChunk(cfg) && k + i <= cfg.Slots()
        invariant Scan(cfg, flash[..], k) == Scan(cfg, flash[..], k + i)
        decreases MAX_ITEM_SIZE - index
      {
        InChunk(cfg, k, i);
        SlotBeforeEnd(cfg, k + i);
        var erased := IsErased(data[index..], TIME_SIZE);
        ScanSlot(cfg, flash[..], k, i, data, index);
        if erased {
          return true, addr + index;
        }
        index := index + cfg.ItemSize();
        i := i + 1;
      }
      InChunk(cfg, k, i);
      SlotBeforeEnd(cfg, k + i);
      return false, 0;
    }

    /** The read before a write: the slot to program and the first byte of the one behind it. */
    method ReadAhead() returns (next: int, slot: seq<Byte>, nextByte: Byte)
      requires Valid()
      ensures next == NextOffset(cfg, current) && 0 <= next < flash.Length
      ensures 0 <= current && current + cfg.ItemSize() <= flash.Length
      ensures slot == flash[current..current + cfg.ItemSize()] && nextByte == flash[next]
    {
      hide Config.WellFormed, Config.SlotAddr, OnSlot, Config.PageStart;
      OnSlotBounds(cfg, View());
      WriteBounds(cfg, View());
      var ok, item, first := true, cfg.ItemSize(), [];
      if current + item + 1 <= cfg.EndOffset() {
        ok, slot := ReadMemory(flash, current, item + 1);
        next := current + item;
        nextByte := slot[item];
        slot := slot[..item];
      } else {
        ok, slot := ReadMemory(flash, current, item);
        next := cfg.StartOffset();
        ok, first := ReadMemory(flash, next, 1);
        nextByte := first[0];
      }
    }

    /** Erases the page of a next slot that is in use; an erased header page gets its header again. */
    method FreeNext(next: nat, nextByte: Byte)
      requires cfg.WellFormed() && flash.Length == cfg.deviceSize && next < flash.Length
      requires nextByte == flash[next] && cfg.PageStart(next) + cfg.pageSize <= cfg.deviceSize
      modifies flash
      ensures flash[..] == Prepared(cfg, old(flash[..]), next)
    {
      hide Config.WellFormed, Config.PageStart;
      Room(cfg);
      if nextByte != ERASE_VALUE {
        var page := cfg.PageStart(next);
        var ok := EraseMemory(flash, page, cfg.pageSize);
        if ok && page == cfg.headersOffset {
          ok := WriteMemory(flash, page, cfg.Header());
        }
      }
    }

    method WriteItem(time: int, value: seq<Byte>) returns (ok: bool)
      requires Valid()
      modifies this`current, flash
      ensures ok && Valid() && View() == StorageOps.WriteItem(cfg, old(View()), time, value)
      ensures forall log | Represents(cfg, old(View()), log) ::
        Represents(cfg, View(), log + [NewItem(cfg, time, value)])
      ensures forall log | Represents(cfg, old(View()), log) ::
        ReadsAs(cfg, ReadItems(cfg, flash[..], current, 0, 1), time, value)
    {
      hide Config.WellFormed, Config.SlotAddr, OnSlot, Config.PageStart, Represents;
      hide NextOffset, ItemData, Prepared, ToBe, NewItem;
      OnSlotBounds(cfg, View());
      WriteBounds(cfg, View());
      var next, slot, nextByte := ReadAhead();
      FreeNext(next, nextByte);
      var n := Min(|value|, cfg.valueSize);
      var data := ToBe(Seconds(time), TIME_SIZE) + value[..n] + slot[TIME_SIZE + n..];
      DataFromSlot(cfg, old(flash[..]), current, time, value, slot);
      ok := WriteMemory(flash, current, data);
      if ok {
        current := next;
      }
      WriteOnSlot(cfg, old(View()), time, value);
      forall log | Represents(cfg, old(View()), log)
        ensures Represents(cfg, View(), log + [NewItem(cfg, time, value)])
        ensures ReadsAs(cfg, ReadItems(cfg, flash[..], current, 0, 1), time, value)
      {
        WriteRepresents(cfg, old(View()), log, time, value);
      }
    }

    /** `appl_storage_read_item`: one step back from `from`. */
    method ReadItem(from: int) returns (r: ReadResult)
      requires OnSlot(cfg, State(flash[..], from)) && flash.Length == cfg.deviceSize
      ensures r == ReadBack(cfg, flash[..], from)
    {
      hide Config.WellFormed, Config.SlotAddr, OnSlot, ReadBack, FromBe;
      OnSlotWellFormed(cfg, State(flash[..], from));
      BackOnSlot(cfg, flash[..], from);
      var offset := from;
      if offset == cfg.StartOffset() {
        offset := cfg.EndOffset();
      }
      offset := offset - cfg.ItemSize();
      OnSlotBounds(cfg, State(flash[..], offset));
      var ok, data := ReadMemory(flash, offset, cfg.ItemSize());
      BackRead(cfg, flash[..], from, data);
      var erased := IsErased(data, TIME_SIZE);
      if erased {
        r := End(offset);
      } else {
        r := Found(offset, FromBe(data[..TIME_SIZE]) * 1000, data[TIME_SIZE..]);
      }
    }

    /** `appl_storage_read_int_items`: up to `count` times and 16-bit codes, newest first. */
    method ReadIntItems(index: nat, count: nat) returns (rc: int, times: seq<int>, codes: seq<nat>)
      requires Valid() && flash.Length == cfg.deviceSize
      ensures IntItems(ReadItems(cfg, flash[..], current, index, count), times, codes)
      ensures rc == if count == 0 then -EINVAL else |times|
      ensures forall c: nat, log | Holds(cfg, View(), c, log) ::
        ReadItems(cfg, flash[..], current, index, count) == NewestFirst(Readable(cfg, c, log), index, count)
    {
      hide Config.WellFormed, Config.SlotAddr, OnSlot, ReadItems, Holds, Readable, NewestFirst, ReadBack, IntItems;
      var read: nat, skip: nat, at := 0, index, current;
      rc, times, codes := -EINVAL, [], [];
      assert IntItems([], [], []) by { NoIntItems(); }
      ghost var all := ReadItems(cfg, flash[..], current, index, count);
      ghost var done: seq<(int, seq<Byte>)> := [];
      assert cfg.valueSize >= 2 by { OnSlotWellFormed(cfg, View()); }
      while read < count
        invariant OnSlot(cfg, State(flash[..], at)) && read <= count
        invariant IntItems(done, times, codes) && |done| == |times| == read && (read > 0 ==> skip == 0)
        invariant all == done + ReadItems(cfg, flash[..], at, skip, count - read)
        invariant count > 0 || rc == -EINVAL
        decreases skip + count - read
      {
        ReadStep(cfg, flash[..], at, skip, count - read);
        var r := ReadItem(at);
        if r.End? {
          rc := 0;
          assert all == done;
          break;
        }
        at := r.offset;
        if skip > 0 {
          skip := skip - 1;
        } else {
          MoreIntItems(done, times, codes, r.time, r.value);
          times := times + [r.time];
          codes := codes + [FromBe(r.value[..2])];
          done := done + [(r.time, r.value)];
          read := read + 1;
        }
      }
      if read == count {
        ReadNothing(cfg, flash[..], at, skip, [], 0);
      }
      assert all == done;
      if read > 0 {
        rc := read;
      }
      AllReads(cfg, View(), index, count);
    }

    /** `appl_storage_read_bytes_item`: the value of the item `index` places before the newest, cut to
        `size` bytes; 0 when the walk ends before it. */
    method ReadBytesItem(index: nat, size: nat) returns (rc: nat, time: int, data: seq<Byte>)
      requires Valid() && flash.Length == cfg.deviceSize
      ensures var items := ReadItems(cfg, flash[..], current, index, 1);
        if items == [] then rc == 0
        else rc == |data| == Min(size, |items[0].1|) && time == items[0].0 && data == items[0].1[..rc]
    {
      hide Config.WellFormed, Config.SlotAddr, OnSlot, ReadItems, ReadBack;
      var skip, at := index, current;
      rc, time, data := 0, 0, [];
      while skip > 0
        invariant OnSlot(cfg, State(flash[..], at))
        invariant skip >= 0 && ReadItems(cfg, flash[..], current, index, 1) == ReadItems(cfg, flash[..], at, skip, 1)
      {
        ReadStep(cfg, flash[..], at, skip, 1);
        var r := ReadItem(at);
        if r.End? {
          return;
        }
        at := r.offset;
        skip := skip - 1;
      }
      ReadStep(cfg, flash[..], at, 0, 1);
      var r := ReadItem(at);
      if r.Found? {
        ReadNothing(cfg, flash[..], r.offset, 0, [], 0);
        rc, time := Min(size, |r.value|), r.time;
        data := r.value[..rc];
      }
    }
  }
}
