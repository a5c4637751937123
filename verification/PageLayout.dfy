/** How the page system divides physical memory: metainfo records first, pages after them. */
module PageLayout {
  import opened Powers
  import opened PageBlocks

  const PAGE_SIZE := 4096
  const NIL := -1
  const ADDRESS_LIMIT := Pow2(64)

  function AlignUp(x: nat, m: nat): (r: nat)
    requires m > 0
    ensures r % m == 0 && x <= r < x + m
  {
    assert ((x + m - 1) / m) * m % m == 0 by {
      MultipleOf((x + m - 1) / m, m);
    }
    ((x + m - 1) / m) * m
  }

  /** metaStart, pageNum records of 2^metaBits bytes, padding, memStart, pageNum pages. */
  datatype Layout = Layout(metaStart: nat, metaBits: nat, memStart: nat, pageNum: nat) {
    function MetaSize(): nat { Pow2(metaBits) }
    function MetaEnd(): nat { metaStart + pageNum * MetaSize() }
    function MemEnd(): nat { memStart + pageNum * PAGE_SIZE }

    /** The metainfo address of a page address; NIL stands for the null pointer. */
    function AddrToMeta(addr: nat): int {
      if addr < memStart then NIL
      else
        var r := (addr - memStart) / PAGE_SIZE * MetaSize() + metaStart;
        if r >= MetaEnd() then NIL else r
    }

    /** The page address of a metainfo address, 0 outside the region. */
    function MetaToAddr(meta: nat): int
      requires meta >= metaStart
    {
      var r := (meta - metaStart) / MetaSize() * PAGE_SIZE + memStart;
      if r >= MemEnd() then 0 else r
    }

    function MetaOf(p: nat): nat { metaStart + p * MetaSize() }
    function AddrOf(p: nat): nat { memStart + p * PAGE_SIZE }

    /** The frame an address belongs to; NIL outside the region. */
    function PageOf(addr: int): int {
      if addr < memStart then NIL
      else if (addr - memStart) / PAGE_SIZE < pageNum then (addr - memStart) / PAGE_SIZE else NIL
    }

    /** The frame number, counted from address 0, of the region's first page. */
    function Base(): nat { memStart / PAGE_SIZE }

    function BuddyGet(p: nat, order: nat): int {
      PageOf(FlipBit(AddrOf(p), order))
    }

    predicate Valid() {
      && memStart % PAGE_SIZE == 0 && memStart > 0
      && MemEnd() <= ADDRESS_LIMIT
    }
  }

  /** The division os_memory_page_init makes of page-aligned memory. */
  function Divide(start: nat, end: nat, metaBits: nat): Layout
    requires start <= end
  {
    var pageNum := (end - start) / (Pow2(metaBits) + PAGE_SIZE);
    Layout(start, metaBits, AlignUp(start + pageNum * Pow2(metaBits), PAGE_SIZE), pageNum)
  }

  lemma RoundUpBelow(x: nat, y: nat)
    requires x <= y < x + 2 * PAGE_SIZE && y % PAGE_SIZE == 0
    ensures AlignUp(x, PAGE_SIZE) == y || AlignUp(x, PAGE_SIZE) + PAGE_SIZE == y
  {
  }

  /** Records, padding and pages fit, and at most one page is left over. */
  lemma DivisionFits(start: nat, end: nat, metaBits: nat)
    requires start <= end && start % PAGE_SIZE == 0 && end % PAGE_SIZE == 0 && metaBits <= PAGE_BITS
    ensures var l := Divide(start, end, metaBits);
            && l.metaStart == start && l.MetaSize() == Pow2(metaBits) && l.memStart % PAGE_SIZE == 0
            && l.MetaEnd() <= l.memStart
            && l.MemEnd() <= end
            && (l.MemEnd() == end || l.MemEnd() + PAGE_SIZE == end)
  {
    hide AlignUp, Pow2;
    PageSizeIsPower();
    Pow2Monotone(metaBits, PAGE_BITS);
    Leftover(start, end, Divide(start, end, metaBits).pageNum, Pow2(metaBits));
  }

  lemma DivisionValid(start: nat, end: nat, metaBits: nat)
    requires 0 < start <= end && start % PAGE_SIZE == 0 && end % PAGE_SIZE == 0 && metaBits <= PAGE_BITS
    requires end <= ADDRESS_LIMIT
    ensures Divide(start, end, metaBits).Valid()
  {
    hide AlignUp, Pow2;
    DivisionFits(start, end, metaBits);
    NonNegative((end - start) / (Pow2(metaBits) + PAGE_SIZE), Pow2(metaBits));
  }

  lemma Leftover(start: nat, end: nat, n: nat, m: nat)
    requires start <= end && start % PAGE_SIZE == 0 && end % PAGE_SIZE == 0
    requires 0 < m <= PAGE_SIZE && n == (end - start) / (m + PAGE_SIZE)
    ensures var top := AlignUp(start + n * m, PAGE_SIZE) + n * PAGE_SIZE;
            top == end || top + PAGE_SIZE == end
  {
    QuotientBound(end - start, n, m + PAGE_SIZE);
    Distribute(n, m, PAGE_SIZE);
    RoundUpBelow(start + n * m, end - n * PAGE_SIZE);
  }

  lemma QuotientBound(x: nat, n: nat, d: nat)
    requires d > 0 && n == x / d
    ensures n * d <= x < n * d + d
  {
  }

  lemma PageSizeIsPower()
    ensures Pow2(PAGE_BITS) == PAGE_SIZE
  {
    assert Pow2(4) == 16;
    Pow2Add(4, 4);
    Pow2Add(8, 4);
  }

  /** On managed pages the two conversions are inverse, and interior addresses find their page's record. */
  lemma ConversionsInverse(l: Layout, p: nat, offset: nat)
    requires p < l.pageNum && offset < PAGE_SIZE
    ensures l.AddrToMeta(l.AddrOf(p) + offset) == l.MetaOf(p)
    ensures l.MetaToAddr(l.MetaOf(p)) == l.AddrOf(p)
    ensures l.PageOf(l.AddrOf(p) + offset) == p
  {
    var m := l.MetaSize();
    MultipleMod(p, m, 0);
    MultipleMod(p, PAGE_SIZE, offset);
    AtLeast(l.pageNum - p, m);
    assert (l.pageNum - p) * m == l.pageNum * m - p * m;
  }

  /** The record lookup is null exactly outside the managed pages. */
  lemma RecordExistsInside(l: Layout, addr: nat)
    ensures l.AddrToMeta(addr) == NIL <==> !(l.memStart <= addr < l.MemEnd())
    ensures l.PageOf(addr) == NIL <==> l.AddrToMeta(addr) == NIL
    ensures l.PageOf(addr) != NIL ==> l.AddrToMeta(addr) == l.MetaOf(l.PageOf(addr))
  {
    if addr >= l.memStart {
      var p, m := (addr - l.memStart) / PAGE_SIZE, l.MetaSize();
      if p < l.pageNum {
        ConversionsInverse(l, p, (addr - l.memStart) % PAGE_SIZE);
      } else {
        assert (p - l.pageNum) * m >= 0;
        assert (p - l.pageNum) * m == p * m - l.pageNum * m;
      }
    }
  }

  lemma PageOfFrame(l: Layout, b: int)
    requires l.Valid()
    ensures l.PageOf((l.Base() + b) * PAGE_SIZE) == if 0 <= b < l.pageNum then b else NIL
  {
  }

  /** Alignment in bytes is alignment in frames. */
  lemma FrameAlignment(f: int, order: nat)
    requires order >= PAGE_BITS
    ensures Aligned(f * PAGE_SIZE, order) <==> Aligned(f, order - PAGE_BITS)
  {
    PageSizeIsPower();
    AlignedScaled(f, PAGE_BITS, order - PAGE_BITS);
  }

  /** The exclusive-or buddy is the other half of the enclosing block, when that lies in the region. */
  lemma BuddyIsOtherHalf(l: Layout, p: nat, order: nat)
    requires l.Valid() && IsRun(l.Base(), l.pageNum, p, order)
    ensures var b := if Aligned(l.Base() + p, order + 1 - PAGE_BITS) then p + Span(order) else p - Span(order);
            l.BuddyGet(p, order) == if 0 <= b < l.pageNum then b else NIL
  {
    hide Aligned, FlipBit;
    var f := l.Base() + p;
    FrameAlignment(f, order);
    FrameAlignment(f, order + 1);
    FlipBitOfAligned(f * PAGE_SIZE, order);
    BlockBytes(order);
    PageOfFrame(l, if Aligned(f, order + 1 - PAGE_BITS) then p + Span(order) else p - Span(order));
  }

  lemma BlockBytes(order: nat)
    requires order >= PAGE_BITS
    ensures Pow2(order) == Span(order) * PAGE_SIZE
  {
    Pow2Add(PAGE_BITS, order - PAGE_BITS);
    PageSizeIsPower();
  }

  /** The smallest order of at least a page that holds size bytes. */
  function SizeToOrder(size: nat): (order: nat)
    requires size > 0
  {
    var pos := CeilLog2(size);
    if pos < PAGE_BITS then PAGE_BITS else pos
  }

  lemma SizeToOrderIsLeast(size: nat)
    requires size > 0
    ensures size <= Pow2(SizeToOrder(size)) && SizeToOrder(size) >= PAGE_BITS
    ensures forall k :: k >= PAGE_BITS && size <= Pow2(k) ==> SizeToOrder(size) <= k
  {
    CeilLog2IsLeast(size);
    if CeilLog2(size) < PAGE_BITS {
      Pow2Monotone(CeilLog2(size), PAGE_BITS);
    }
  }
}
