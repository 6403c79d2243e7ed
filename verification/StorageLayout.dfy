/** Geometry of one storage section of `appl_storage.c`: a header followed by fixed-size
    item slots, spread over whole erase pages. Slots are numbered from 0 at `start_offset`. */
module StorageLayout {
  import opened Bytes

  const TIME_SIZE := 6
  const MAX_ITEM_SIZE := 32
  const HEADER_BYTES := 10

  /** The rounding loop of `appl_storage_init_setup`. */
  function HeaderRoom(item: nat, room: nat): (r: nat)
    requires item > 0
    ensures r >= HEADER_BYTES
    decreases HEADER_BYTES - room
  {
    if room >= HEADER_BYTES then room else HeaderRoom(item, room + item)
  }

  lemma QuotientBounds(p: nat, per: nat, pages: nat)
    requires per > 0 && p < pages * per
    ensures p / per < pages
    ensures p / per * per <= p < (p / per + 1) * per <= pages * per
  {
    var q := p / per;
    assert q * per <= p < q * per + per;
    assert (q + 1) * per == q * per + per;
    if q >= pages {
      MulMonotone(per, pages, q);
    }
    MulMonotone(per, q + 1, pages);
  }

  /** Position `p` of `item`-byte positions, counted from a page-aligned offset. */
  lemma PositionInPage(offset: nat, pageSize: nat, per: nat, item: nat, p: nat)
    requires item > 0 && per > 0 && pageSize == per * item && offset % pageSize == 0
    ensures pageSize > 0
    ensures (offset + p * item) / pageSize * pageSize == offset + p / per * pageSize
    ensures p / per * pageSize <= p * item
    ensures p * item + item <= p / per * pageSize + pageSize
  {
    var q, r, h := p / per, p % per, offset / pageSize;
    assert p * item == q * pageSize + r * item by {
      assert p == q * per + r;
      assert (q * per + r) * item == q * (per * item) + r * item;
    }
    assert r * item + item <= pageSize by {
      assert (r + 1) * item == r * item + item;
      MulMonotone(item, r + 1, per);
    }
    assert offset == pageSize * h;
    assert pageSize * (h + q) == pageSize * h + q * pageSize;
    DivUnique(offset + p * item, pageSize, h + q, r * item);
  }

  lemma PagesApart(pageSize: nat, a: nat, b: nat)
    requires a < b
    ensures a * pageSize + pageSize <= b * pageSize
  {
    MulMonotone(pageSize, a + 1, b);
    assert (a + 1) * pageSize == a * pageSize + pageSize;
  }

  lemma SameQuotient(p: nat, q: nat, per: nat)
    requires per > 0
    ensures q * per <= p < (q + 1) * per ==> p / per == q
    ensures p >= (q + 1) * per ==> p / per > q
  {
    if q * per <= p < (q + 1) * per {
      DivUnique(p, per, q, p - q * per);
    }
    if p >= (q + 1) * per && p / per <= q {
      MulMonotone(per, p / per + 1, q + 1);
    }
  }

  datatype Config = Config(
    deviceSize: nat, pageSize: nat, pages: nat, headersOffset: nat,
    valueSize: nat, magic: nat, version: nat)
  {
    function ItemSize(): nat { valueSize + TIME_SIZE }

    function HeaderSize(): nat { HeaderRoom(ItemSize(), ItemSize()) }

    function StartOffset(): nat { headersOffset + HeaderSize() }

    function EndOffset(): nat { headersOffset + pages * pageSize }

    /** magic, version and value size, as `setup->header`. */
    function Header(): (h: seq<Byte>)
      ensures |h| == HEADER_BYTES
    {
      ToBe(magic, 4) + ToBe(version, 4) + ToBe(valueSize, 2)
    }

    /** What the flash configuration has to provide: whole aligned pages, at least two of them,
        a header that leaves room for a slot in its page, and an item size that divides both the
        page and the 32-byte buffer of the start-up scan. */
    predicate WellFormed() {
      && ItemSize() <= MAX_ITEM_SIZE
      && MAX_ITEM_SIZE % ItemSize() == 0
      && pageSize > 0
      && pageSize % ItemSize() == 0
      && HeaderSize() < pageSize
      && headersOffset % pageSize == 0
      && pages >= 2
      && EndOffset() <= deviceSize
    }

    /** Slots in a page that holds no header. */
    function PerPage(): nat { pageSize / ItemSize() }

    /** Slot positions taken by the header in the first page. */
    function HeaderSlots(): nat { HeaderSize() / ItemSize() }

    function Slots(): int { pages * PerPage() - HeaderSlots() }

    function SlotAddr(k: int): (addr: int)
      ensures k >= 0 ==> addr >= 0
    {
      StartOffset() + k * ItemSize()
    }

    /** Page, counted from the header page, that holds slot `k`. */
    function PageOf(k: nat): nat
      requires WellFormed()
    {
      Shape();
      (HeaderSlots() + k) / PerPage()
    }

    /** First slot behind the page of slot `k`. */
    function PageEnd(k: nat): int
      requires WellFormed()
    {
      (PageOf(k) + 1) * PerPage() - HeaderSlots()
    }

    /** `flash_get_page_info_by_offs` on a device with uniform pages. */
    function PageStart(addr: nat): nat
      requires pageSize > 0
    {
      DivFloor(addr, pageSize);
      addr / pageSize * pageSize
    }

    lemma Shape()
      requires WellFormed()
      ensures ItemSize() in {8, 16, 32}
      ensures HeaderSize() == HeaderSlots() * ItemSize()
      ensures HeaderSlots() in {1, 2}
      ensures pageSize == PerPage() * ItemSize()
      ensures 0 < HeaderSlots() < PerPage()
    {
      assert ItemSize() in {8, 16, 32} by {
        assert forall n :: 6 <= n <= 32 && 32 % n == 0 ==> n in {8, 16, 32};
      }
      if ItemSize() == 8 {
        assert HeaderSize() == HeaderRoom(8, 16);
      }
    }

    /** The slots fill the section exactly, and every page boundary is a slot boundary. */
    lemma SlotsFill()
      requires WellFormed()
      ensures Slots() > PerPage()
      ensures SlotAddr(Slots()) == EndOffset()
      ensures SlotAddr(0) == StartOffset()
    {
      Shape();
      MulMonotone(PerPage(), 2, pages);
      assert (pages * PerPage() - HeaderSlots()) * ItemSize()
          == pages * PerPage() * ItemSize() - HeaderSlots() * ItemSize();
      assert pages * PerPage() * ItemSize() == pages * (PerPage() * ItemSize());
    }

    lemma SlotOrder(j: int, k: int)
      requires WellFormed() && j < k
      ensures SlotAddr(j) + ItemSize() == SlotAddr(j + 1) <= SlotAddr(k)
    {
      assert (j + 1) * ItemSize() == j * ItemSize() + ItemSize();
      MulMonotone(ItemSize(), j + 1, k);
    }

    lemma SlotBounds(k: nat)
      requires WellFormed() && k < Slots()
      ensures StartOffset() <= SlotAddr(k)
      ensures SlotAddr(k) + ItemSize() <= EndOffset() <= deviceSize
    {
      SlotsFill();
      SlotOrder(k, Slots());
      if k > 0 { SlotOrder(0, k); }
    }

    lemma PageBounds(k: nat)
      requires WellFormed() && k < Slots()
      ensures k < PageEnd(k) <= Slots()
      ensures PageOf(k) < pages
      ensures PageOf(k) * PerPage() <= HeaderSlots() + k < (PageOf(k) + 1) * PerPage()
    {
      Shape();
      QuotientBounds(HeaderSlots() + k, PerPage(), pages);
    }

    /** Slots before `PageEnd(k)` share the page of slot `k`, later slots are in later pages. */
    lemma PageOrder(j: nat, k: nat)
      requires WellFormed() && k <= j < Slots()
      ensures PageOf(j) == PageOf(k) <==> j < PageEnd(k)
      ensures j >= PageEnd(k) ==> PageOf(j) > PageOf(k)
    {
      Shape();
      PageBounds(k);
      SameQuotient(HeaderSlots() + j, PageOf(k), PerPage());
    }

    lemma SlotPosition(k: nat)
      requires WellFormed()
      ensures SlotAddr(k) == headersOffset + (HeaderSlots() + k) * ItemSize()
    {
      Shape();
      assert (HeaderSlots() + k) * ItemSize() == HeaderSlots() * ItemSize() + k * ItemSize();
    }

    /** The device page found for a slot address starts where the slot's page starts, and the slot
        lies inside it. */
    lemma SlotPage(k: nat)
      requires WellFormed() && k < Slots()
      ensures PageStart(SlotAddr(k)) == headersOffset + PageOf(k) * pageSize
      ensures PageStart(SlotAddr(k)) <= SlotAddr(k)
      ensures SlotAddr(k) + ItemSize() <= PageStart(SlotAddr(k)) + pageSize <= EndOffset()
    {
      Shape();
      PageBounds(k);
      SlotPosition(k);
      var p := HeaderSlots() + k;
      PositionInPage(headersOffset, pageSize, PerPage(), ItemSize(), p);
      assert PageStart(SlotAddr(k)) == headersOffset + p / PerPage() * pageSize;
      PagesApart(pageSize, PageOf(k), pages);
    }

    /** A slot is inside the erase page of another slot or completely outside it. */
    lemma SlotsAndPages(j: nat, k: nat)
      requires WellFormed() && j < Slots() && k < Slots()
      ensures PageOf(j) == PageOf(k) ==>
        PageStart(SlotAddr(k)) <= SlotAddr(j) && SlotAddr(j) + ItemSize() <= PageStart(SlotAddr(k)) + pageSize
      ensures PageOf(j) != PageOf(k) ==>
        SlotAddr(j) + ItemSize() <= PageStart(SlotAddr(k)) || PageStart(SlotAddr(k)) + pageSize <= SlotAddr(j)
    {
      SlotPage(j);
      SlotPage(k);
      if PageOf(j) < PageOf(k) {
        PagesApart(pageSize, PageOf(j), PageOf(k));
      } else if PageOf(j) > PageOf(k) {
        PagesApart(pageSize, PageOf(k), PageOf(j));
      }
    }

    /** The erase page of a slot carries the header exactly when it is the first page. */
    lemma HeaderPage(k: nat)
      requires WellFormed() && k < Slots()
      ensures PageStart(SlotAddr(k)) == headersOffset <==> PageOf(k) == 0
      ensures PageOf(k) != 0 ==> headersOffset + pageSize <= PageStart(SlotAddr(k))
    {
      SlotPage(k);
      if PageOf(k) > 0 {
        PagesApart(pageSize, 0, PageOf(k));
      }
    }
  }
}
