/** The list behind the bytes: which item every slot of a section holds, and what a write, a
    start-up and a backward read do to the list of items written since the last format. */
module RingLog {
  import opened Bytes
  import opened Flash
  import opened StorageLayout
  import opened StorageOps

  /** With `c` the slot written next and `b` the items written before the current lap, the index of
      the item in slot `k`; -1 for an erased slot. The erased slots are one run that starts at `c`. */
  function ItemIndex(cfg: Config, c: nat, b: nat, k: nat): int
    requires cfg.WellFormed()
  {
    if k < c then b + k
    else if k < cfg.PageEnd(c) then -1
    else Max(-1, b - cfg.Slots() + k)
  }

  /** Number of items that can be read back: all of the first lap, later all but the erased page. */
  function Available(cfg: Config, c: nat, b: nat): int
    requires cfg.WellFormed()
  {
    if b == 0 then c else cfg.Slots() - (cfg.PageEnd(c) - c)
  }

  predicate SlotErased(cfg: Config, m: seq<Byte>, k: int) {
    AllErased(m, cfg.SlotAddr(k), cfg.SlotAddr(k) + cfg.ItemSize())
  }

  function SlotBytes(cfg: Config, m: seq<Byte>, k: nat): (s: seq<Byte>)
    requires cfg.WellFormed() && |m| == cfg.deviceSize && k < cfg.Slots()
    ensures |s| == cfg.ItemSize()
  {
    cfg.SlotBounds(k);
    m[cfg.SlotAddr(k)..cfg.SlotAddr(k) + cfg.ItemSize()]
  }

  predicate SlotOk(cfg: Config, m: seq<Byte>, c: nat, log: seq<Item>, k: nat)
    requires cfg.WellFormed() && |m| == cfg.deviceSize && c <= |log| && k < cfg.Slots()
  {
    var i := ItemIndex(cfg, c, |log| - c, k);
    if i < 0 then SlotErased(cfg, m, k)
    else i < |log| && SlotBytes(cfg, m, k) == EncodeItem(log[i])
  }

  /** The device state of a section that holds the items of `log` (oldest first), slot `c` being next. */
  ghost predicate Holds(cfg: Config, s: State, c: nat, log: seq<Item>) {
    && cfg.WellFormed()
    && |s.mem| == cfg.deviceSize
    && c < cfg.Slots() && s.current == cfg.SlotAddr(c)
    && c <= |log| && (|log| == c || |log| - c >= cfg.Slots())
    && (forall i :: 0 <= i < |log| ==> ValidItem(cfg, log[i]))
    && HeaderOk(cfg, s.mem)
    && (forall k :: 0 <= k < cfg.Slots() ==> SlotOk(cfg, s.mem, c, log, k))
  }

  ghost predicate Represents(cfg: Config, s: State, log: seq<Item>) {
    exists c: nat :: Holds(cfg, s, c, log)
  }

  /** The items a reader can get, oldest first. */
  function Readable(cfg: Config, c: nat, log: seq<Item>): (r: seq<Item>)
    requires cfg.WellFormed() && c < cfg.Slots() && c <= |log|
    requires |log| == c || |log| - c >= cfg.Slots()
  {
    cfg.PageBounds(c);
    log[|log| - Available(cfg, c, |log| - c)..]
  }

  // ----- bytes of items

  /** The masked time keeps the first byte of an item below 0x80: a written slot never reads as erased. */
  lemma ItemFirstByte(cfg: Config, item: Item)
    requires ValidItem(cfg, item)
    ensures EncodeItem(item)[0] < 0x80
  {
    ToBeFirst(item.seconds, 6);
    assert Range(5) == 0x100_0000_0000 by { assert Range(2) == 0x1_0000; assert Range(3) == 0x100_0000; }
    assert item.seconds / 0x100_0000_0000 < 0x80;
  }

  lemma DecodeItem(cfg: Config, item: Item, s: seq<Byte>)
    requires ValidItem(cfg, item) && s == EncodeItem(item)
    ensures FromBe(s[..TIME_SIZE]) == item.seconds
    ensures s[TIME_SIZE..] == item.value
  {
    assert Range(6) == 0x1_0000_0000_0000 by { assert Range(2) == 0x1_0000; assert Range(4) == 0x1_0000_0000; }
    BeRoundTrip(item.seconds, TIME_SIZE);
    assert s[..TIME_SIZE] == ToBe(item.seconds, TIME_SIZE);
  }

  /** What a slot reads as tells written from erased. */
  lemma WrittenOrErased(cfg: Config, s: State, c: nat, log: seq<Item>, k: nat)
    requires Holds(cfg, s, c, log) && k < cfg.Slots()
    ensures 0 <= cfg.SlotAddr(k) && cfg.SlotAddr(k) + cfg.ItemSize() <= |s.mem|
    ensures s.mem[cfg.SlotAddr(k)] == ERASE_VALUE <==> ItemIndex(cfg, c, |log| - c, k) < 0
    ensures TimeErased(cfg, s.mem, k) <==> ItemIndex(cfg, c, |log| - c, k) < 0
    ensures SlotErased(cfg, s.mem, k) <==> ItemIndex(cfg, c, |log| - c, k) < 0
  {
    cfg.SlotBounds(k);
    var i := ItemIndex(cfg, c, |log| - c, k);
    assert SlotOk(cfg, s.mem, c, log, k);
    if i >= 0 {
      ItemFirstByte(cfg, log[i]);
      assert SlotBytes(cfg, s.mem, k)[0] == s.mem[cfg.SlotAddr(k)];
    } else {
      assert s.mem[cfg.SlotAddr(k)] == ERASE_VALUE;
    }
  }

  // ----- format

  lemma SlotsBehindHeader(cfg: Config, k: nat)
    requires cfg.WellFormed() && k < cfg.Slots()
    ensures cfg.headersOffset + HEADER_BYTES <= cfg.SlotAddr(k)
    ensures cfg.SlotAddr(k) + cfg.ItemSize() <= cfg.EndOffset() <= cfg.deviceSize
  {
    Room(cfg);
    cfg.SlotBounds(k);
  }

  lemma HeaderWritten(cfg: Config, m: seq<Byte>)
    requires cfg.WellFormed() && |m| == cfg.deviceSize
    requires AllErased(m, cfg.headersOffset, cfg.headersOffset + cfg.pageSize)
    ensures HeaderOk(cfg, Programmed(m, cfg.headersOffset, cfg.Header()))
  {
    Room(cfg);
    ProgramErased(m, cfg.headersOffset, cfg.Header());
  }

  /** A formatted section is the empty list, whatever was on the device before. */
  lemma FormatEmpty(cfg: Config, m: seq<Byte>)
    requires cfg.WellFormed() && |m| == cfg.deviceSize
    ensures Holds(cfg, Format(cfg, m), 0, [])
    ensures Elsewhere(cfg, m, Format(cfg, m).mem)
  {
    Room(cfg);
    cfg.SlotsFill();
    cfg.PageBounds(0);
    var e := Erased(m, cfg.headersOffset, cfg.pages * cfg.pageSize);
    HeaderWritten(cfg, e);
    var s := Format(cfg, m);
    forall k | 0 <= k < cfg.Slots()
      ensures SlotOk(cfg, s.mem, 0, [], k)
    {
      SlotsBehindHeader(cfg, k);
    }
  }

  /** Bytes outside the section, such as other sections of the device, are untouched. */
  predicate Elsewhere(cfg: Config, m: seq<Byte>, m': seq<Byte>) {
    |m'| == |m| && forall i :: 0 <= i < |m| && !(cfg.headersOffset <= i < cfg.EndOffset()) ==> m'[i] == m[i]
  }

  // ----- write

  function NextSlot(cfg: Config, c: nat): nat { if c + 1 < cfg.Slots() then c + 1 else 0 }

  lemma NextOffsetSlot(cfg: Config, c: nat)
    requires cfg.WellFormed() && c < cfg.Slots()
    ensures NextSlot(cfg, c) < cfg.Slots() && NextSlot(cfg, c) != c
    ensures NextOffset(cfg, cfg.SlotAddr(c)) == cfg.SlotAddr(NextSlot(cfg, c))
    ensures cfg.StartOffset() <= NextOffset(cfg, cfg.SlotAddr(c)) < cfg.deviceSize
  {
    cfg.SlotsFill();
    cfg.Shape();
    cfg.SlotOrder(c, c + 1);
    if c + 1 < cfg.Slots() {
      cfg.SlotOrder(c + 1, cfg.Slots());
    } else {
      cfg.PageBounds(0);
    }
    cfg.SlotBounds(NextSlot(cfg, c));
  }

  /** When the next slot is in use it starts a page other than the one being written. */
  lemma NextInUse(cfg: Config, c: nat, b: nat)
    requires cfg.WellFormed() && c < cfg.Slots() && (b == 0 || b >= cfg.Slots())
    requires ItemIndex(cfg, c, b, NextSlot(cfg, c)) >= 0
    ensures cfg.PageOf(NextSlot(cfg, c)) != cfg.PageOf(c)
    ensures NextSlot(cfg, c) == 0 || (NextSlot(cfg, c) == cfg.PageEnd(c) && b > 0)
  {
    cfg.SlotsFill();
    cfg.PageBounds(c);
    if c + 1 < cfg.Slots() {
      cfg.PageOrder(c + 1, c);
    } else {
      cfg.PageBounds(0);
      cfg.PageOrder(c, 0);
      PageOfFirst(cfg);
    }
  }

  lemma PageOfFirst(cfg: Config)
    requires cfg.WellFormed()
    ensures cfg.PageOf(0) == 0
    ensures cfg.PageEnd(0) < cfg.Slots()
  {
    cfg.Shape();
    cfg.SlotsFill();
    DivUnique(cfg.HeaderSlots(), cfg.PerPage(), 0, cfg.HeaderSlots());
  }

  /** Which slots the page erase before a write clears: those of the next slot's page. */
  predicate InErasedPage(cfg: Config, c: nat, b: nat, k: nat)
    requires cfg.WellFormed()
  {
    ItemIndex(cfg, c, b, NextSlot(cfg, c)) >= 0 && cfg.PageOf(k) == cfg.PageOf(NextSlot(cfg, c))
  }

  lemma PreparedHeader(cfg: Config, m: seq<Byte>, n: nat)
    requires cfg.WellFormed() && |m| == cfg.deviceSize && n < cfg.Slots() && HeaderOk(cfg, m)
    ensures 0 <= cfg.SlotAddr(n) < |m|
    ensures HeaderOk(cfg, Prepared(cfg, m, cfg.SlotAddr(n)))
    ensures Elsewhere(cfg, m, Prepared(cfg, m, cfg.SlotAddr(n)))
  {
    Room(cfg);
    cfg.SlotBounds(n);
    cfg.SlotPage(n);
    cfg.HeaderPage(n);
    var next := cfg.SlotAddr(n);
    if m[next] != ERASE_VALUE {
      var e := Erased(m, cfg.PageStart(next), cfg.pageSize);
      if cfg.PageOf(n) == 0 {
        HeaderWritten(cfg, e);
      } else {
        assert e[cfg.headersOffset..cfg.headersOffset + HEADER_BYTES]
            == m[cfg.headersOffset..cfg.headersOffset + HEADER_BYTES];
      }
    }
  }

  lemma PreparedSlot(cfg: Config, m: seq<Byte>, n: nat, k: nat)
    requires cfg.WellFormed() && |m| == cfg.deviceSize && n < cfg.Slots() && k < cfg.Slots()
    ensures 0 <= cfg.SlotAddr(n) < |m|
    ensures m[cfg.SlotAddr(n)] != ERASE_VALUE && cfg.PageOf(k) == cfg.PageOf(n) ==>
      SlotErased(cfg, Prepared(cfg, m, cfg.SlotAddr(n)), k)
    ensures m[cfg.SlotAddr(n)] == ERASE_VALUE || cfg.PageOf(k) != cfg.PageOf(n) ==>
      SlotBytes(cfg, Prepared(cfg, m, cfg.SlotAddr(n)), k) == SlotBytes(cfg, m, k)
  {
    cfg.SlotBounds(n);
    SlotsBehindHeader(cfg, k);
    cfg.SlotsAndPages(k, n);
    var p := Prepared(cfg, m, cfg.SlotAddr(n));
    if m[cfg.SlotAddr(n)] != ERASE_VALUE && cfg.PageOf(k) != cfg.PageOf(n) {
      assert forall i :: cfg.SlotAddr(k) <= i < cfg.SlotAddr(k) + cfg.ItemSize() ==> p[i] == m[i];
    }
  }

  /** Flash discipline of one write: the item is programmed over a fully erased slot; the page erased
      before it, if any, is not the page written and is the one behind the last erased slot. */
  lemma WriteHitsErasedSlot(cfg: Config, s: State, c: nat, log: seq<Item>)
    requires Holds(cfg, s, c, log)
    ensures 0 <= s.current && s.current + cfg.ItemSize() <= cfg.deviceSize
    ensures 0 <= NextOffset(cfg, s.current) < cfg.deviceSize
    ensures SlotErased(cfg, Prepared(cfg, s.mem, NextOffset(cfg, s.current)), c)
    ensures s.mem[NextOffset(cfg, s.current)] != ERASE_VALUE ==>
      && cfg.PageOf(NextSlot(cfg, c)) != cfg.PageOf(c)
      && NextSlot(cfg, c) == (if c + 1 == cfg.Slots() then 0 else cfg.PageEnd(c))
  {
    var n := NextSlot(cfg, c);
    NextOffsetSlot(cfg, c);
    cfg.SlotBounds(c);
    cfg.PageBounds(c);
    WrittenOrErased(cfg, s, c, log, n);
    WrittenOrErased(cfg, s, c, log, c);
    if ItemIndex(cfg, c, |log| - c, n) >= 0 {
      NextInUse(cfg, c, |log| - c);
    }
    PreparedSlot(cfg, s.mem, n, c);
    ErasedBytes(cfg, s.mem, Prepared(cfg, s.mem, cfg.SlotAddr(n)), c);
  }

  lemma ErasedBytes(cfg: Config, m: seq<Byte>, m': seq<Byte>, k: nat)
    requires cfg.WellFormed() && |m| == |m'| == cfg.deviceSize && k < cfg.Slots()
    requires SlotErased(cfg, m, k) && SlotBytes(cfg, m', k) == SlotBytes(cfg, m, k)
    ensures SlotErased(cfg, m', k)
  {
    cfg.SlotBounds(k);
    forall i | cfg.SlotAddr(k) <= i < cfg.SlotAddr(k) + cfg.ItemSize()
      ensures m'[i] == ERASE_VALUE
    {
      assert m'[i] == SlotBytes(cfg, m', k)[i - cfg.SlotAddr(k)];
      assert m[i] == SlotBytes(cfg, m, k)[i - cfg.SlotAddr(k)];
    }
  }

  lemma DataIsItem(cfg: Config, m: seq<Byte>, k: nat, time: int, value: seq<Byte>)
    requires cfg.WellFormed() && |m| == cfg.deviceSize && k < cfg.Slots() && SlotErased(cfg, m, k)
    ensures 0 <= cfg.SlotAddr(k) && cfg.SlotAddr(k) + cfg.ItemSize() <= |m|
    ensures ItemData(cfg, m, cfg.SlotAddr(k), time, value) == EncodeItem(NewItem(cfg, time, value))
  {
    cfg.SlotBounds(k);
    var n, a := Min(|value|, cfg.valueSize), cfg.SlotAddr(k);
    assert m[a + TIME_SIZE + n..a + cfg.ItemSize()] == seq(cfg.valueSize - n, _ => ERASE_VALUE);
  }

  /** The bytes of every slot after a write. */
  lemma WrittenSlot(cfg: Config, s: State, c: nat, log: seq<Item>, time: int, value: seq<Byte>, k: nat)
    requires Holds(cfg, s, c, log) && k < cfg.Slots() && OnSlot(cfg, s)
    ensures k == c ==>
      SlotBytes(cfg, WriteItem(cfg, s, time, value).mem, k) == EncodeItem(NewItem(cfg, time, value))
    ensures k != c && InErasedPage(cfg, c, |log| - c, k) ==> SlotErased(cfg, WriteItem(cfg, s, time, value).mem, k)
    ensures k != c && !InErasedPage(cfg, c, |log| - c, k) ==>
      SlotBytes(cfg, WriteItem(cfg, s, time, value).mem, k) == SlotBytes(cfg, s.mem, k)
  {
    var n := NextSlot(cfg, c);
    NextOffsetSlot(cfg, c);
    WriteHitsErasedSlot(cfg, s, c, log);
    WrittenOrErased(cfg, s, c, log, n);
    WrittenOrErased(cfg, s, c, log, c);
    cfg.PageBounds(c);
    DataIsItem(cfg, s.mem, c, time, value);
    PreparedSlot(cfg, s.mem, n, k);
    var p := Prepared(cfg, s.mem, cfg.SlotAddr(n));
    var data := ItemData(cfg, s.mem, s.current, time, value);
    ProgrammedSlot(cfg, p, c, data, k);
  }

  lemma ProgrammedSlot(cfg: Config, p: seq<Byte>, c: nat, data: seq<Byte>, k: nat)
    requires cfg.WellFormed() && |p| == cfg.deviceSize && c < cfg.Slots() && k < cfg.Slots()
    requires SlotErased(cfg, p, c) && |data| == cfg.ItemSize()
    ensures 0 <= cfg.SlotAddr(c)
    ensures k == c ==> SlotBytes(cfg, Programmed(p, cfg.SlotAddr(c), data), k) == data
    ensures k != c ==> SlotBytes(cfg, Programmed(p, cfg.SlotAddr(c), data), k) == SlotBytes(cfg, p, k)
    ensures k != c && SlotErased(cfg, p, k) ==> SlotErased(cfg, Programmed(p, cfg.SlotAddr(c), data), k)
  {
    cfg.SlotBounds(c);
    cfg.SlotBounds(k);
    var r := Programmed(p, cfg.SlotAddr(c), data);
    if k == c {
      ProgramErased(p, cfg.SlotAddr(c), data);
    } else {
      if k < c { cfg.SlotOrder(k, c); } else { cfg.SlotOrder(c, k); }
      assert forall i :: cfg.SlotAddr(k) <= i < cfg.SlotAddr(k) + cfg.ItemSize() ==> r[i] == p[i];
      assert SlotBytes(cfg, r, k) == SlotBytes(cfg, p, k);
    }
  }

  /** How the slot contents move on with a write. */
  lemma ItemIndexStep(cfg: Config, c: nat, b: nat, k: nat)
    requires cfg.WellFormed() && c < cfg.Slots() && k < cfg.Slots() && (b == 0 || b >= cfg.Slots())
    ensures
      var n := NextSlot(cfg, c);
      var b' := b + c + 1 - n;
      && n <= b + c + 1 && (b' == 0 || b' >= cfg.Slots())
      && ItemIndex(cfg, n, b', k) ==
         if k == c then b + c
         else if InErasedPage(cfg, c, b, k) then -1
         else ItemIndex(cfg, c, b, k)
  {
    var n := NextSlot(cfg, c);
    cfg.PageBounds(c);
    cfg.SlotsFill();
    cfg.Shape();
    if n == 0 {
      PageOfFirst(cfg);
      cfg.PageOrder(k, 0);
    } else {
      cfg.PageBounds(n);
      cfg.PageOrder(n, c);
      if k >= n { cfg.PageOrder(k, n); }
      if k <= c { cfg.PageOrder(c, k); cfg.PageOrder(n, k); }
      if n < cfg.PageEnd(c) {
        assert cfg.PageEnd(n) == cfg.PageEnd(c);
      } else {
        assert cfg.PageOf(n) == cfg.PageOf(c) + 1 by { NextPage(cfg, c); }
      }
    }
  }

  lemma NextPage(cfg: Config, c: nat)
    requires cfg.WellFormed() && c + 1 < cfg.Slots() && c + 1 == cfg.PageEnd(c)
    ensures cfg.PageOf(c + 1) == cfg.PageOf(c) + 1
  {
    cfg.Shape();
    DivUnique(cfg.HeaderSlots() + c + 1, cfg.PerPage(), cfg.PageOf(c) + 1, 0);
  }

  lemma WrittenHeader(cfg: Config, s: State, c: nat, log: seq<Item>, time: int, value: seq<Byte>)
    requires Holds(cfg, s, c, log) && OnSlot(cfg, s)
    ensures HeaderOk(cfg, WriteItem(cfg, s, time, value).mem)
    ensures Elsewhere(cfg, s.mem, WriteItem(cfg, s, time, value).mem)
  {
    NextOffsetSlot(cfg, c);
    PreparedHeader(cfg, s.mem, NextSlot(cfg, c));
    SlotsBehindHeader(cfg, c);
    Room(cfg);
    hide Config.WellFormed, Config.SlotAddr, Config.PageEnd, Config.PageOf, SlotOk, OnSlot;
    var s', p := WriteItem(cfg, s, time, value), Prepared(cfg, s.mem, cfg.SlotAddr(NextSlot(cfg, c)));
    assert s'.mem[cfg.headersOffset..cfg.headersOffset + HEADER_BYTES]
        == p[cfg.headersOffset..cfg.headersOffset + HEADER_BYTES];
  }

  lemma WrittenSlotOk(cfg: Config, s: State, c: nat, log: seq<Item>, time: int, value: seq<Byte>, k: nat)
    requires Holds(cfg, s, c, log) && OnSlot(cfg, s) && k < cfg.Slots()
    ensures NextSlot(cfg, c) <= |log| + 1
    ensures SlotOk(cfg, WriteItem(cfg, s, time, value).mem, NextSlot(cfg, c), log + [NewItem(cfg, time, value)], k)
  {
    hide Config.WellFormed, Config.SlotAddr, Config.PageEnd, Config.PageOf, HeaderOk, OnSlot, InErasedPage;
    assert SlotOk(cfg, s.mem, c, log, k);
    WrittenSlot(cfg, s, c, log, time, value, k);
    ItemIndexStep(cfg, c, |log| - c, k);
    hide Holds, ItemIndex, WriteItem, NextSlot;
    if k != c && !InErasedPage(cfg, c, |log| - c, k) && ItemIndex(cfg, c, |log| - c, k) < 0 {
      ErasedBytes(cfg, s.mem, WriteItem(cfg, s, time, value).mem, k);
    }
  }

  /** A completed write appends its item to the list and keeps the header and everything outside. */
  lemma WriteAppends(cfg: Config, s: State, c: nat, log: seq<Item>, time: int, value: seq<Byte>)
    requires Holds(cfg, s, c, log)
    ensures OnSlot(cfg, s)
    ensures Holds(cfg, WriteItem(cfg, s, time, value), NextSlot(cfg, c), log + [NewItem(cfg, time, value)])
    ensures Elsewhere(cfg, s.mem, WriteItem(cfg, s, time, value).mem)
  {
    hide Config.WellFormed, Config.SlotAddr, Config.PageEnd, Config.PageOf, HeaderOk, SlotOk, NewItem, ItemIndex;
    NextOffsetSlot(cfg, c);
    WrittenHeader(cfg, s, c, log, time, value);
    ItemIndexStep(cfg, c, |log| - c, c);
    forall k | 0 <= k < cfg.Slots()
      ensures SlotOk(cfg, WriteItem(cfg, s, time, value).mem, NextSlot(cfg, c), log + [NewItem(cfg, time, value)], k)
    {
      WrittenSlotOk(cfg, s, c, log, time, value, k);
    }
  }
}
