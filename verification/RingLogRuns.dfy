/** The main results about the ring log: indexed reads see the newest items first, a reboot finds
    the write position again, and whole runs of writes, reboots and clears refine a plain list. */
module RingLogRuns {
  import opened Bytes
  import opened Flash
  import opened StorageLayout
  import opened StorageOps
  import opened RingLog

  /** What a reader gets for an item: the time in ms and the stored value. */
  function Entry(item: Item): (int, seq<Byte>) { (item.seconds * 1000, item.value) }

  /** At most `count` entries of a list, newest first, after skipping the `index` newest. */
  function NewestFirst(items: seq<Item>, index: nat, count: nat): (r: seq<(int, seq<Byte>)>)
    ensures |r| == if index >= |items| then 0 else Min(count, |items| - index)
    ensures forall j :: 0 <= j < |r| ==> r[j] == Entry(items[|items| - 1 - index - j])
  {
    var n := if index >= |items| then 0 else Min(count, |items| - index);
    seq(n, j requires 0 <= j < n => Entry(items[|items| - 1 - index - j]))
  }

  // ----- reading

  /** Slot of the `i`-th step of a backward walk that starts at slot `c`. */
  function BackSlot(cfg: Config, c: nat, i: nat): int { if i <= c then c - i else cfg.Slots() + c - i }

  /** Step `i` of the walk looks at the slot of the `i`-th newest item, or at an erased slot. */
  lemma BackItem(cfg: Config, c: nat, b: nat, i: nat)
    requires cfg.WellFormed() && c < cfg.Slots() && (b == 0 || b >= cfg.Slots()) && i <= Available(cfg, c, b)
    ensures Available(cfg, c, b) < cfg.Slots() && Available(cfg, c, b) <= b + c
    ensures 0 <= BackSlot(cfg, c, i) < cfg.Slots() && 0 <= BackSlot(cfg, c, i + 1) < cfg.Slots()
    ensures BackSlot(cfg, c, i + 1)
         == if BackSlot(cfg, c, i) == 0 then cfg.Slots() - 1 else BackSlot(cfg, c, i) - 1
    ensures ItemIndex(cfg, c, b, BackSlot(cfg, c, i + 1)) == if i < Available(cfg, c, b) then b + c - 1 - i else -1
  {
    hide Config.WellFormed, Config.SlotAddr, Config.PageEnd, Config.PageOf;
    cfg.PageBounds(c);
  }

  lemma BackStep(cfg: Config, s: State, c: nat, log: seq<Item>, i: nat)
    requires Holds(cfg, s, c, log) && i <= Available(cfg, c, |log| - c)
    ensures Available(cfg, c, |log| - c) <= |log|
    ensures 0 <= BackSlot(cfg, c, i) < cfg.Slots() && 0 <= BackSlot(cfg, c, i + 1)
    ensures OnSlot(cfg, State(s.mem, cfg.SlotAddr(BackSlot(cfg, c, i))))
    ensures
      var r := ReadBack(cfg, s.mem, cfg.SlotAddr(BackSlot(cfg, c, i)));
      var next := cfg.SlotAddr(BackSlot(cfg, c, i + 1));
      if i < Available(cfg, c, |log| - c)
      then r.Found? && r.offset == next && (r.time, r.value) == Entry(log[|log| - 1 - i])
      else r == End(next)
  {
    hide Config.WellFormed, Config.SlotAddr, Config.PageEnd, Config.PageOf, HeaderOk, Available, BackSlot, ValidItem;
    BackItem(cfg, c, |log| - c, i);
    var k, k' := BackSlot(cfg, c, i), BackSlot(cfg, c, i + 1);
    BackOffsetSlot(cfg, k);
    assert SlotOk(cfg, s.mem, c, log, k');
    WrittenOrErased(cfg, s, c, log, k');
    var x := ItemIndex(cfg, c, |log| - c, k');
    hide Holds, SlotOk;
    if x >= 0 {
      SlotItem(cfg, s.mem, k', log[x]);
    }
  }

  /** What the reader decodes from a slot that stores `item`. */
  lemma SlotItem(cfg: Config, m: seq<Byte>, k: nat, item: Item)
    requires cfg.WellFormed() && |m| == cfg.deviceSize && k < cfg.Slots() && ValidItem(cfg, item)
    requires SlotBytes(cfg, m, k) == EncodeItem(item)
    ensures 0 <= cfg.SlotAddr(k) && cfg.SlotAddr(k) + cfg.ItemSize() <= |m|
    ensures FromBe(m[cfg.SlotAddr(k)..cfg.SlotAddr(k) + TIME_SIZE]) == item.seconds
    ensures m[cfg.SlotAddr(k) + TIME_SIZE..cfg.SlotAddr(k) + cfg.ItemSize()] == item.value
  {
    hide Config.WellFormed, Config.SlotAddr;
    cfg.SlotBounds(k);
    DecodeItem(cfg, item, SlotBytes(cfg, m, k));
    var a := cfg.SlotAddr(k);
    assert m[a..a + TIME_SIZE] == SlotBytes(cfg, m, k)[..TIME_SIZE];
    assert m[a + TIME_SIZE..a + cfg.ItemSize()] == SlotBytes(cfg, m, k)[TIME_SIZE..];
  }

  lemma ReadableAt(cfg: Config, s: State, c: nat, log: seq<Item>)
    requires Holds(cfg, s, c, log)
    ensures cfg.WellFormed()
    ensures c < cfg.Slots() && c <= |log| && (|log| == c || |log| - c >= cfg.Slots())
    ensures |Readable(cfg, c, log)| == Available(cfg, c, |log| - c) <= |log|
    ensures forall i {:trigger log[|log| - 1 - i]} :: 0 <= i < |Readable(cfg, c, log)| ==>
      log[|log| - 1 - i] == Readable(cfg, c, log)[|Readable(cfg, c, log)| - 1 - i]
  {
    hide Config.WellFormed, Config.SlotAddr, Config.PageEnd, Config.PageOf, SlotOk;
    cfg.PageBounds(c);
  }

  lemma NewestStep(items: seq<Item>, i: nat, count: nat)
    requires count > 0
    ensures i >= |items| ==> NewestFirst(items, i, count) == []
    ensures i < |items| ==>
      NewestFirst(items, i, count) == [Entry(items[|items| - 1 - i])] + NewestFirst(items, i + 1, count - 1)
  {
  }

  lemma ReadStep(cfg: Config, m: seq<Byte>, current: int, index: nat, count: nat)
    requires OnSlot(cfg, State(m, current)) && count > 0
    ensures
      var r := ReadBack(cfg, m, current);
      ReadItems(cfg, m, current, index, count) ==
      if r.End? then []
      else if index > 0 then ReadItems(cfg, m, r.offset, index - 1, count)
      else [(r.time, r.value)] + ReadItems(cfg, m, r.offset, 0, count - 1)
  {
    hide OnSlot, ReadBack;
  }

  /** The walk from step `i` on yields the list, newest first, and stops at the first erased slot,
      within one lap. */
  lemma {:induction false} WalkReads(cfg: Config, s: State, c: nat, log: seq<Item>, i: nat, index: nat, count: nat)
    requires Holds(cfg, s, c, log) && i <= Available(cfg, c, |log| - c)
    ensures 0 <= BackSlot(cfg, c, i) && OnSlot(cfg, State(s.mem, cfg.SlotAddr(BackSlot(cfg, c, i))))
    ensures ReadItems(cfg, s.mem, cfg.SlotAddr(BackSlot(cfg, c, i)), index, count)
         == NewestFirst(Readable(cfg, c, log), i + index, count)
    decreases index + count
  {
    hide *;
    ReadableAt(cfg, s, c, log);
    BackStep(cfg, s, c, log, i);
    var all, current := Readable(cfg, c, log), cfg.SlotAddr(BackSlot(cfg, c, i));
    if count == 0 {
      ReadNothing(cfg, s.mem, current, index, all, i + index);
    } else {
      ReadStep(cfg, s.mem, current, index, count);
      if i == |all| {
        NewestStep(all, i + index, count);
      } else if index > 0 {
        WalkReads(cfg, s, c, log, i + 1, index - 1, count);
      } else {
        WalkReads(cfg, s, c, log, i + 1, 0, count - 1);
        NewestStep(all, i, count);
      }
    }
  }

  lemma ReadNothing(cfg: Config, m: seq<Byte>, current: int, index: nat, items: seq<Item>, skip: nat)
    requires OnSlot(cfg, State(m, current))
    ensures ReadItems(cfg, m, current, index, 0) == [] == NewestFirst(items, skip, 0)
  {
  }

  /** Indexed reads return the written items newest first; at least the newest
      min(written, slots - slots per page) are there. */
  lemma ReadsNewestFirst(cfg: Config, s: State, c: nat, log: seq<Item>, index: nat, count: nat)
    requires Holds(cfg, s, c, log)
    ensures OnSlot(cfg, s)
    ensures ReadItems(cfg, s.mem, s.current, index, count) == NewestFirst(Readable(cfg, c, log), index, count)
    ensures |Readable(cfg, c, log)| >= Min(|log|, cfg.Slots() - cfg.PerPage())
    ensures |Readable(cfg, c, log)| < cfg.Slots()
    ensures Readable(cfg, c, log) == log[|log| - |Readable(cfg, c, log)|..]
  {
    cfg.PageBounds(c);
    cfg.Shape();
    WalkReads(cfg, s, c, log, 0, index, count);
    assert (cfg.PageOf(c) + 1) * cfg.PerPage() == cfg.PageOf(c) * cfg.PerPage() + cfg.PerPage();
  }

  lemma AvailableStep(cfg: Config, c: nat, b: nat)
    requires cfg.WellFormed() && c < cfg.Slots() && (b == 0 || b >= cfg.Slots())
    ensures
      var n := NextSlot(cfg, c);
      var lost := if ItemIndex(cfg, c, b, n) < 0 then 0 else cfg.PageEnd(n) - n;
      && n < cfg.Slots() && n <= b + c + 1
      && 0 <= lost <= Available(cfg, c, b) <= b + c
      && Available(cfg, n, b + c + 1 - n) == Available(cfg, c, b) + 1 - lost
  {
    var n := NextSlot(cfg, c);
    cfg.SlotsFill();
    cfg.PageBounds(c);
    cfg.PageBounds(n);
    PageOfFirst(cfg);
    hide Config.WellFormed, Config.SlotAddr;
    if ItemIndex(cfg, c, b, n) >= 0 {
      NextInUse(cfg, c, b);
    } else if n > 0 && n < cfg.PageEnd(c) {
      cfg.PageOrder(n, c);
    }
  }

  /** A write adds its item to what can be read; the page it erases, if any, held the oldest items. */
  lemma WriteReadable(cfg: Config, s: State, c: nat, log: seq<Item>, time: int, value: seq<Byte>)
    requires Holds(cfg, s, c, log)
    ensures OnSlot(cfg, s) && 0 <= NextOffset(cfg, s.current) < |s.mem|
    ensures
      var n, item := NextSlot(cfg, c), NewItem(cfg, time, value);
      var lost := if s.mem[NextOffset(cfg, s.current)] == ERASE_VALUE then 0 else cfg.PageEnd(n) - n;
      && Holds(cfg, WriteItem(cfg, s, time, value), n, log + [item])
      && 0 <= lost <= |Readable(cfg, c, log)|
      && Readable(cfg, n, log + [item]) == Readable(cfg, c, log)[lost..] + [item]
  {
    var n := NextSlot(cfg, c);
    WriteAppends(cfg, s, c, log, time, value);
    NextOffsetSlot(cfg, c);
    WrittenOrErased(cfg, s, c, log, n);
    AvailableStep(cfg, c, |log| - c);
    hide Config.WellFormed, Config.SlotAddr, Config.PageEnd, Config.PageOf, SlotOk, OnSlot;
    hide WriteItem, Available, ItemIndex;
  }

  // ----- reboot

  lemma ChunkOrder(cfg: Config, j: nat, k: nat)
    requires cfg.WellFormed() && j <= k && ChunkReadable(cfg, k)
    ensures ChunkReadable(cfg, j)
  {
    cfg.Shape();
  }

  lemma {:induction false} ScanFinds(cfg: Config, s: State, c: nat, log: seq<Item>, k: nat)
    requires Holds(cfg, s, c, log) && k <= cfg.Slots()
    requires k <= c || !ChunkReadable(cfg, c)
    ensures Scan(cfg, s.mem, k) == if ChunkReadable(cfg, c) then c else cfg.Slots()
    decreases cfg.Slots() - k
  {
    cfg.PageBounds(c);
    if k < cfg.Slots() {
      WrittenOrErased(cfg, s, c, log, k);
      if k > c && ChunkReadable(cfg, k) { ChunkOrder(cfg, c, k); }
      if !(ChunkReadable(cfg, k) && TimeErased(cfg, s.mem, k)) {
        ScanFinds(cfg, s, c, log, k + 1);
      }
    }
  }

  /** The write position tells how many slots of the lap are in use. */
  lemma SameState(cfg: Config, s: State, c: nat, log: seq<Item>, c': nat, log': seq<Item>)
    requires Holds(cfg, s, c, log) && Holds(cfg, s, c', log')
    ensures c == c'
    ensures |log| < cfg.Slots() && |log'| < cfg.Slots() ==> |log| == |log'|
  {
    hide SlotOk, HeaderOk;
    if c < c' { cfg.SlotOrder(c, c'); }
    if c' < c { cfg.SlotOrder(c', c); }
    cfg.Shape();
  }

  lemma FormatForgets(cfg: Config, s: State, c: nat, log: seq<Item>)
    requires Holds(cfg, s, c, log) && log != []
    ensures Format(cfg, s.mem) != s
  {
    FormatEmpty(cfg, s.mem);
    if Format(cfg, s.mem) == s {
      SameState(cfg, s, c, log, 0, []);
      cfg.SlotsFill();
      WrittenOrErased(cfg, s, c, log, cfg.Slots() - 1);
      WrittenOrErased(cfg, s, 0, [], cfg.Slots() - 1);
      cfg.PageBounds(0);
      PageOfFirst(cfg);
      assert false;
    }
  }

  /** Start-up finds exactly the running writer's offset, unless the 32-byte chunk that covers it
      reaches behind the device: then the whole section is formatted. */
  lemma RebootKeeps(cfg: Config, s: State, c: nat, log: seq<Item>)
    requires Holds(cfg, s, c, log)
    ensures Recover(cfg, s.mem) == if ChunkReadable(cfg, c) then s else Format(cfg, s.mem)
    ensures log != [] ==> (Recover(cfg, s.mem) == s <==> ChunkReadable(cfg, c))
  {
    ScanFinds(cfg, s, c, log, 0);
    hide SlotOk, ChunkReadable;
    if log != [] {
      FormatForgets(cfg, s, c, log);
    }
  }

  /** The scan never reads behind the device. */
  predicate ScanFits(cfg: Config)
    requires cfg.WellFormed()
  {
    cfg.SlotsFill();
    ChunkReadable(cfg, cfg.Slots() - 1)
  }

  // ----- whole runs

  datatype Op = Write(time: int, value: seq<Byte>) | Reboot | Clear

  function Apply(cfg: Config, s: State, op: Op): (s': State)
    requires OnSlot(cfg, s)
  {
    match op
    case Write(time, value) => WriteItem(cfg, s, time, value)
    case Reboot => Recover(cfg, s.mem)
    case Clear => Format(cfg, s.mem)
  }

  /** Runs a sequence of operations; every state of a run has its offset on a slot. */
  ghost predicate Run(cfg: Config, s: State, ops: seq<Op>, s': State)
    decreases |ops|
  {
    if ops == [] then s' == s
    else OnSlot(cfg, s) && Run(cfg, Apply(cfg, s, ops[0]), ops[1..], s')
  }

  /** What the operations mean on a plain list of items. */
  function ListOf(cfg: Config, log: seq<Item>, ops: seq<Op>): (r: seq<Item>)
    decreases |ops|
  {
    if ops == [] then log
    else
      var next := match ops[0]
        case Write(time, value) => log + [NewItem(cfg, time, value)]
        case Reboot => log
        case Clear => [];
      ListOf(cfg, next, ops[1..])
  }

  /** Every run of writes, reboots and clears refines the list, provided the scan stays in the device.
      The run never gets stuck and leaves the bytes of other sections alone. */
  lemma {:induction false} RunRefinesList(cfg: Config, s: State, log: seq<Item>, ops: seq<Op>) returns (s': State)
    requires Represents(cfg, s, log) && ScanFits(cfg)
    ensures Run(cfg, s, ops, s')
    ensures Represents(cfg, s', ListOf(cfg, log, ops))
    ensures Elsewhere(cfg, s.mem, s'.mem)
    decreases |ops|
  {
    if ops == [] {
      s' := s;
    } else {
      var c: nat :| Holds(cfg, s, c, log);
      WriteAppends(cfg, s, c, log, 0, []);
      var s1 := Apply(cfg, s, ops[0]);
      match ops[0] {
        case Write(time, value) =>
          WriteAppends(cfg, s, c, log, time, value);
          s' := RunRefinesList(cfg, s1, log + [NewItem(cfg, time, value)], ops[1..]);
        case Reboot =>
          RebootKeeps(cfg, s, c, log);
          ChunkOrder(cfg, c, cfg.Slots() - 1);
          s' := RunRefinesList(cfg, s1, log, ops[1..]);
        case Clear =>
          FormatEmpty(cfg, s.mem);
          s' := RunRefinesList(cfg, s1, [], ops[1..]);
      }
    }
  }

  lemma {:induction false} RunIsFunction(cfg: Config, s: State, ops: seq<Op>, s1: State, s2: State)
    requires Run(cfg, s, ops, s1) && Run(cfg, s, ops, s2)
    ensures s1 == s2
    decreases |ops|
  {
    if ops != [] {
      RunIsFunction(cfg, Apply(cfg, s, ops[0]), ops[1..], s1, s2);
    }
  }

  function Zeros(n: nat): seq<Op> { seq(n, _ => Write(0, [])) }

  /** Filling the slots without a reboot works on any device. */
  lemma {:induction false} FillSlots(cfg: Config, s: State, c: nat, log: seq<Item>, n: nat)
    returns (s': State, log': seq<Item>)
    requires Holds(cfg, s, c, log) && c == |log| && c + n < cfg.Slots()
    ensures Run(cfg, s, Zeros(n), s') && Holds(cfg, s', c + n, log') && |log'| == c + n
    ensures log' == ListOf(cfg, log, Zeros(n))
    decreases n
  {
    if n == 0 {
      s', log' := s, log;
    } else {
      WriteAppends(cfg, s, c, log, 0, []);
      assert Zeros(n)[1..] == Zeros(n - 1);
      s', log' := FillSlots(cfg, WriteItem(cfg, s, 0, []), c + 1, log + [NewItem(cfg, 0, [])], n - 1);
    }
  }

  ghost predicate LosslessFromFormat(cfg: Config, m: seq<Byte>, ops: seq<Op>)
    requires cfg.WellFormed() && |m| == cfg.deviceSize
  {
    exists s' :: Run(cfg, Format(cfg, m), ops, s') && Represents(cfg, s', ListOf(cfg, [], ops))
  }

  lemma {:induction false} RunThen(cfg: Config, s: State, ops: seq<Op>, s1: State, op: Op)
    requires Run(cfg, s, ops, s1) && OnSlot(cfg, s1)
    ensures Run(cfg, s, ops + [op], Apply(cfg, s1, op))
    decreases |ops|
  {
    if ops == [] {
      assert Run(cfg, Apply(cfg, s1, op), [], Apply(cfg, s1, op));
      assert ([op])[1..] == [];
    } else {
      assert (ops + [op])[1..] == ops[1..] + [op];
      RunThen(cfg, Apply(cfg, s, ops[0]), ops[1..], s1, op);
    }
  }

  lemma {:induction false} ListThenReboot(cfg: Config, log: seq<Item>, ops: seq<Op>)
    ensures ListOf(cfg, log, ops + [Reboot]) == ListOf(cfg, log, ops)
    decreases |ops|
  {
    if ops != [] {
      assert (ops + [Reboot])[1..] == ops[1..] + [Reboot];
      var next := match ops[0]
        case Write(time, value) => log + [NewItem(cfg, time, value)]
        case Reboot => log
        case Clear => [];
      ListThenReboot(cfg, next, ops[1..]);
    } else {
      assert ([Reboot])[1..] == [];
    }
  }

  /** A device that ends inside the last scan chunk: fill all but the last slot, reboot, and the items are gone. */
  lemma RebootLoses(cfg: Config, m: seq<Byte>)
    requires cfg.WellFormed() && |m| == cfg.deviceSize && !ScanFits(cfg)
    ensures 0 < cfg.Slots() && !LosslessFromFormat(cfg, m, Zeros(cfg.Slots() - 1) + [Reboot])
  {
    SomeSlots(cfg);
    hide *;
    var s, n := Format(cfg, m), cfg.Slots() - 1;
    FormatEmpty(cfg, m);
    var s1, log1 := FillSlots(cfg, s, 0, [], n);
    RebootFormats(cfg, s1, n, log1);
    RunThen(cfg, s, Zeros(n), s1, Reboot);
    ListThenReboot(cfg, [], Zeros(n));
    Lossy(cfg, m, Zeros(n) + [Reboot], Apply(cfg, s1, Reboot), log1);
  }

  lemma SomeSlots(cfg: Config)
    requires cfg.WellFormed()
    ensures 1 < cfg.Slots()
  {
    cfg.SlotsFill();
    cfg.Shape();
  }

  lemma RebootFormats(cfg: Config, s: State, c: nat, log: seq<Item>)
    requires Holds(cfg, s, c, log) && c == cfg.Slots() - 1 && !ScanFits(cfg)
    ensures OnSlot(cfg, s) && Holds(cfg, Apply(cfg, s, Reboot), 0, [])
  {
    hide SlotOk, ChunkReadable;
    WriteAppends(cfg, s, c, log, 0, []);
    RebootKeeps(cfg, s, c, log);
    FormatEmpty(cfg, s.mem);
  }

  lemma Lossy(cfg: Config, m: seq<Byte>, ops: seq<Op>, s: State, log: seq<Item>)
    requires cfg.WellFormed() && |m| == cfg.deviceSize
    requires Run(cfg, Format(cfg, m), ops, s) && log == ListOf(cfg, [], ops)
    requires Holds(cfg, s, 0, []) && 0 < |log| < cfg.Slots()
    ensures !LosslessFromFormat(cfg, m, ops)
  {
    hide *;
    if LosslessFromFormat(cfg, m, ops) {
      var s', c: nat := LossyWitness(cfg, m, ops);
      RunIsFunction(cfg, Format(cfg, m), ops, s', s);
      SameState(cfg, s, 0, [], c, log);
      assert false;
    }
  }

  lemma LossyWitness(cfg: Config, m: seq<Byte>, ops: seq<Op>) returns (s': State, c: nat)
    requires cfg.WellFormed() && |m| == cfg.deviceSize && LosslessFromFormat(cfg, m, ops)
    ensures Run(cfg, Format(cfg, m), ops, s') && Holds(cfg, s', c, ListOf(cfg, [], ops))
  {
    s' :| Run(cfg, Format(cfg, m), ops, s') && Represents(cfg, s', ListOf(cfg, [], ops));
    c :| Holds(cfg, s', c, ListOf(cfg, [], ops));
  }

  /** Exactly when reboots never lose items: the section's last scan chunk lies in the device. */
  lemma RebootLosslessIff(cfg: Config, m: seq<Byte>)
    requires cfg.WellFormed() && |m| == cfg.deviceSize
    ensures ScanFits(cfg) <==> forall ops :: LosslessFromFormat(cfg, m, ops)
  {
    hide Config.WellFormed, Config.SlotAddr, ChunkReadable, Holds;
    if ScanFits(cfg) {
      FormatEmpty(cfg, m);
      forall ops
        ensures LosslessFromFormat(cfg, m, ops)
      {
        var s' := RunRefinesList(cfg, Format(cfg, m), [], ops);
      }
    } else {
      RebootLoses(cfg, m);
    }
  }

  /** The section the firmware declares (2-byte values, 4 pages at offset 0): safe on any device that
      is 16 bytes longer than the section, and not on a device that ends with it. */
  lemma ShippedSection(cfg: Config)
    requires cfg.headersOffset == 0 && cfg.pages == 4 && cfg.valueSize == 2
    requires cfg.pageSize >= 32 && cfg.pageSize % 32 == 0 && 4 * cfg.pageSize <= cfg.deviceSize
    ensures cfg.WellFormed()
    ensures ScanFits(cfg) <==> cfg.deviceSize >= 4 * cfg.pageSize + 16
  {
    assert cfg.HeaderSize() == HeaderRoom(8, 16) == 16;
    assert cfg.pageSize % 8 == 0;
  }
}
