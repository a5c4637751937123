/** The buddy page allocator over the linked free lists. */
module PageAllocator {
  import opened Powers
  import opened PageBlocks
  import opened PageLayout
  import opened PageInit
  import PageLists

  /** The free frames of t are those of s without the run. */
  ghost predicate CoverLess(s: Orders, t: Orders, p: int, order: nat)
    requires order >= PAGE_BITS
  {
    |t| == |s| && forall q :: Covered(t, q) <==> Covered(s, q) && !(p <= q < p + Span(order))
  }

  /** The free frames of t are those of s and the run. */
  ghost predicate CoverMore(s: Orders, t: Orders, p: int, order: nat)
    requires order >= PAGE_BITS
  {
    |t| == |s| && forall q :: Covered(t, q) <==> Covered(s, q) || p <= q < p + Span(order)
  }

  /** The free blocks are those of s0 less the run, which was free in s0. */
  ghost predicate Carved(base: nat, s0: Orders, s: Orders, p: int, order: nat) {
    && Canonical(base, s) && IsRun(base, |s|, p, order)
    && CoverLess(s0, s, p, order) && RunCovered(s0, p, order)
    && TotalPages(s) + Span(order) == TotalPages(s0)
  }

  /** Taking the block chosen by the list scan out of the lists. */
  lemma TakeStep(base: nat, s: Orders, p: int)
    requires Canonical(base, s) && Head(s, p)
    ensures Carved(base, s, s[p := ORDER_NONE], p, s[p]) && RunClear(s[p := ORDER_NONE], p, s[p])
  {
    RemoveBlock(base, s, p);
    HeadCoversItsRun(s, p);
    TotalPagesUpdate(s, p, ORDER_NONE);
  }

  /** One round of splitting: give back the upper half of the run being carved out. */
  lemma SplitStep(base: nat, s0: Orders, s: Orders, p: int, order: nat)
    requires Carved(base, s0, s, p, order) && order > PAGE_BITS
    ensures var r := p + Span(order - 1);
            r < |s| && s[r] == ORDER_NONE && Carved(base, s0, s[r := order - 1], p, order - 1)
  {
    Halves(base, |s|, p, order);
    var r := p + Span(order - 1);
    assert !Covered(s, p);
    if Head(s, p) {
      HeadCoversItsRun(s, p);
    }
    InsertBlock(base, s, r, order - 1);
    InsertCoalesced(base, s, r, order - 1);
    TotalPagesUpdate(s, r, order - 1);
  }

  /** The scan finds nothing exactly when no aligned run of the wanted size is free. */
  lemma NoBlockMeansNoRun(base: nat, s: Orders, order: nat)
    requires Canonical(base, s) && order >= PAGE_BITS
    ensures (forall h :: Head(s, h) ==> s[h] < order) <==>
            (forall p :: IsRun(base, |s|, p, order) ==> !RunCovered(s, p, order))
  {
    if forall h :: Head(s, h) ==> s[h] < order {
      forall p | IsRun(base, |s|, p, order)
        ensures !RunCovered(s, p, order)
      {
        if RunCovered(s, p, order) {
          var h := CoveredRunInOneBlock(base, s, p, order);
          assert false;
        }
      }
    }
    if h :| Head(s, h) && s[h] >= order {
      HeadCoversItsRun(s, h);
      AlignedSmaller(base + h, order - PAGE_BITS, s[h] - PAGE_BITS);
      Pow2Monotone(order - PAGE_BITS, s[h] - PAGE_BITS);
      assert IsRun(base, |s|, h, order) && RunCovered(s, h, order);
    }
  }

  /** The run of the given order at p is on its way back: it holds the run of order o at p0
      and the buddies absorbed so far. */
  ghost predicate Returning(base: nat, s0: Orders, p0: int, o: nat, s: Orders, p: int, order: nat) {
    && o >= PAGE_BITS && |s| == |s0|
    && Canonical(base, s) && IsRun(base, |s|, p, order) && RunClear(s, p, order)
    && TotalPages(s) + Span(order) == TotalPages(s0) + Span(o)
    && forall q :: Covered(s, q) || p <= q < p + Span(order) <==> Covered(s0, q) || p0 <= q < p0 + Span(o)
  }

  lemma BuddyInside(l: Layout, p: nat, order: nat)
    ensures l.BuddyGet(p, order) != NIL ==> 0 <= l.BuddyGet(p, order) < l.pageNum
  {
  }

  lemma ReturningBegins(base: nat, s: Orders, p: int, o: nat)
    requires Canonical(base, s) && IsRun(base, |s|, p, o) && RunClear(s, p, o)
    ensures Returning(base, s, p, o, s, p, o) && 0 <= p < |s| && o <= ORDER_MAX
  {
  }

  /** One round of coalescing: absorb the free buddy into the run being returned. */
  lemma MergeStep(l: Layout, s0: Orders, p0: int, o: nat, s: Orders, p: nat, order: nat, b: int, big: int)
    requires l.Valid() && |s| == l.pageNum && Returning(l.Base(), s0, p0, o, s, p, order) && order < ORDER_MAX
    requires b == l.BuddyGet(p, order) && b != NIL && 0 <= b < |s| && s[b] == order
    requires big == if p <= b then p else b
    ensures Returning(l.Base(), s0, p0, o, s[b := ORDER_NONE], big, order + 1)
    ensures 0 <= big < l.pageNum
  {
    TakeStep(l.Base(), s, b);
    MergeRun(l, p, order, b, big);
    hide Aligned, Canonical, Layout.BuddyGet, IsRun;
  }

  /** A run and its buddy make up the run of the next order at the lower of the two. */
  lemma MergeRun(l: Layout, p: nat, order: nat, b: int, big: int)
    requires l.Valid() && order < ORDER_MAX
    requires IsRun(l.Base(), l.pageNum, p, order) && IsRun(l.Base(), l.pageNum, b, order)
    requires b == l.BuddyGet(p, order) && big == if p <= b then p else b
    ensures IsRun(l.Base(), l.pageNum, big, order + 1) && Span(order + 1) == 2 * Span(order)
    ensures (big == p && b == p + Span(order)) || (big == b && p == b + Span(order))
  {
    SpanNext(order);
    BuddyIsOtherHalf(l, p, order);
    hide Aligned, Pow2, Layout.BuddyGet;
    AlignedNext(l.Base() + p, order - PAGE_BITS);
    assert l.Base() + p - Span(order) == l.Base() + (p - Span(order));
  }

  /** The end of coalescing: the run becomes a free block. */
  lemma PlaceStep(l: Layout, s0: Orders, p0: int, o: nat, s: Orders, p: nat, order: nat, b: int)
    requires l.Valid() && |s| == l.pageNum && Returning(l.Base(), s0, p0, o, s, p, order)
    requires b == l.BuddyGet(p, order) && !(b != NIL && 0 <= b < |s| && s[b] == order && order < ORDER_MAX)
    ensures var t := s[p := order];
            && s[p] == ORDER_NONE && Canonical(l.Base(), t) && CoverMore(s0, t, p0, o)
            && TotalPages(t) == TotalPages(s0) + Span(o)
  {
    BuddyIsOtherHalf(l, p, order);
    TopHasNoBuddy(l, p, order);
    InsertBlock(l.Base(), s, p, order);
    InsertCoalesced(l.Base(), s, p, order);
    TotalPagesUpdate(s, p, order);
  }

  lemma TopHasNoBuddy(l: Layout, p: nat, order: nat)
    requires l.Valid() && IsRun(l.Base(), l.pageNum, p, order)
    ensures order == ORDER_MAX ==> l.BuddyGet(p, order) == NIL
  {
    if order == ORDER_MAX {
      BuddyIsOtherHalf(l, p, order);
      BlockBytes(ORDER_MAX);
    }
  }

  /** The live blocks fill exactly the frames that are not free. */
  ghost predicate Partition(base: nat, free: Orders, live: Orders) {
    && |live| == |free| && Blocks(base, live)
    && forall q :: 0 <= q < |free| ==> (Covered(free, q) <==> !Covered(live, q))
  }

  lemma PartitionAlloc(base: nat, free: Orders, live: Orders, free': Orders, p: nat, order: nat)
    requires Partition(base, free, live) && Canonical(base, free) && Carved(base, free, free', p, order)
    ensures p < |live| && live[p] == ORDER_NONE && Partition(base, free', live[p := order])
    ensures TotalPages(live[p := order]) == TotalPages(live) + Span(order)
    ensures TotalPages(free') + Span(order) == TotalPages(free)
    ensures Canonical(base, free') && IsRun(base, |free|, p, order)
    ensures RunCovered(free, p, order) && CoverLess(free, free', p, order)
  {
    InsertBlock(base, live, p, order);
    TotalPagesUpdate(live, p, order);
  }

  lemma PartitionFree(base: nat, free: Orders, live: Orders, p: nat)
    requires Partition(base, free, live) && Head(live, p)
    ensures RunClear(free, p, live[p]) && IsRun(base, |free|, p, live[p])
    ensures TotalPages(live[p := ORDER_NONE]) == TotalPages(live) - Span(live[p])
    ensures forall free' :: CoverMore(free, free', p, live[p]) ==> Partition(base, free', live[p := ORDER_NONE])
  {
    HeadCoversItsRun(live, p);
    RemoveBlock(base, live, p);
    TotalPagesUpdate(live, p, ORDER_NONE);
  }

  /** The metainfo record has four 8-byte fields. */
  const META_BITS := 5

  lemma {:induction false} EmptyOrders(base: nat, n: nat)
    ensures var s: Orders := seq(n, _ => ORDER_NONE);
            Canonical(base, s) && TotalPages(s) == 0 && forall q :: !Covered(s, q)
  {
    var s: Orders := seq(n, _ => ORDER_NONE);
    if n == 0 {
    } else {
      EmptyOrders(base, n - 1);
      assert s[1..] == seq(n - 1, _ => ORDER_NONE);
    }
    forall p
      ensures !Head(s, p)
    {
    }
  }

  /** Each block the walk releases is a run of the region, and the next one is better aligned. */
  lemma WalkRun(l: Layout, done: nat)
    requires l.Valid() && l.MemEnd() < ADDRESS_LIMIT && done < l.pageNum
    requires EndsInReach(l.AddrOf(done), l.MemEnd())
    ensures var cur := l.AddrOf(done); var bits := StepBits(cur);
            && bits >= PAGE_BITS && IsRun(l.Base(), l.pageNum, done, bits)
            && l.PageOf(cur) == done && Step(cur) == l.AddrOf(done + Span(bits))
            && EndsInReach(Step(cur), l.MemEnd())
            && (Step(cur) < l.MemEnd() ==> StepBits(Step(cur)) > bits)
  {
    hide Aligned, Step, FloorLog2, TrailingZeros;
    var cur := l.AddrOf(done);
    StepAligned(cur);
    StepBitsIsAlignment(cur);
    StepStaysInReach(cur, l.MemEnd());
    StepRaisesAlignment(cur);
    if Step(cur) < l.MemEnd() {
      StepBitsIsAlignment(Step(cur));
    }
    ConversionsInverse(l, done, 0);
    TrailingZerosIsLargest(cur, StepBits(cur));
    BlockBytes(StepBits(cur));
    FrameAlignment(l.Base() + done, StepBits(cur));
  }

  /** A block of a new largest order goes on the lists without coalescing. */
  lemma LargerBlockStaysApart(base: nat, s: Orders, done: nat, bits: nat)
    requires Canonical(base, s) && IsRun(base, |s|, done, bits)
    requires forall q :: Covered(s, q) <==> 0 <= q < done
    requires forall p :: Head(s, p) ==> s[p] < bits
    ensures RunClear(s, done, bits) && Canonical(base, s[done := bits]) && CoverMore(s, s[done := bits], done, bits)
  {
    InsertBlock(base, s, done, bits);
    InsertCoalesced(base, s, done, bits);
  }

  /** The walk has released the frames before done, each block at the alignment of its address. */
  ghost predicate Walked(l: Layout, s: Orders, done: nat) {
    && |s| == l.pageNum && done <= l.pageNum && Canonical(l.Base(), s)
    && l.memStart > 0 && l.MemEnd() < ADDRESS_LIMIT && EndsInReach(l.AddrOf(done), l.MemEnd())
    && (forall q :: Covered(s, q) <==> 0 <= q < done)
    && (forall p :: Head(s, p) ==> s[p] == StepBits(l.AddrOf(p)))
    && (done < l.pageNum ==> forall p :: Head(s, p) ==> s[p] < StepBits(l.AddrOf(done)))
  }

  lemma WalkBegins(l: Layout)
    requires l.Valid() && l.MemEnd() < ADDRESS_LIMIT && EndsInReach(l.memStart, l.MemEnd())
    ensures var s: Orders := seq(l.pageNum, _ => ORDER_NONE);
            Walked(l, s, 0) && TotalPages(s) == 0 && Canonical(l.Base(), s)
  {
    EmptyOrders(l.Base(), l.pageNum);
  }

  lemma WalkEnds(l: Layout, s: Orders, done: nat)
    requires l.Valid() && Walked(l, s, done) && l.AddrOf(done) >= l.MemEnd()
    ensures var live: Orders := seq(l.pageNum, _ => ORDER_NONE);
            done == l.pageNum && Partition(l.Base(), s, live) && TotalPages(live) == 0
  {
    EmptyOrders(l.Base(), l.pageNum);
  }

  lemma WalkAdvance(l: Layout, s: Orders, done: nat)
    requires l.Valid() && Walked(l, s, done) && done < l.pageNum
    ensures var bits := StepBits(l.AddrOf(done));
            && bits >= PAGE_BITS && IsRun(l.Base(), l.pageNum, done, bits) && RunClear(s, done, bits)
            && l.PageOf(l.AddrOf(done)) == done && Pow2(bits) == Span(bits) * PAGE_SIZE
            && done + Span(bits) <= l.pageNum
            && Walked(l, s[done := bits], done + Span(bits)) && CoverMore(s, s[done := bits], done, bits)
  {
    var bits := StepBits(l.AddrOf(done));
    WalkRun(l, done);
    BlockBytes(bits);
    LargerBlockStaysApart(l.Base(), s, done, bits);
  }

  /** Whatever canonical arrangement the release of the next block leaves, it is the one with that block added. */
  lemma WalkReleased(l: Layout, s: Orders, t: Orders, done: nat)
    requires l.Valid() && Walked(l, s, done) && done < l.pageNum && StepBits(l.AddrOf(done)) >= PAGE_BITS
    requires Canonical(l.Base(), t) && CoverMore(s, t, done, StepBits(l.AddrOf(done)))
    ensures Walked(l, t, done + Span(StepBits(l.AddrOf(done))))
  {
    WalkAdvance(l, s, done);
    CoverDeterminesBlocks(l.Base(), t, s[done := StepBits(l.AddrOf(done))]);
  }

  /**
   * First fit: k is the first order from the wanted one on whose list is not empty, and p the first block there. The
   * lists between get the upper halves split off p, one each; no other list changes.
   */
  ghost predicate TakenFrom(before: seq<seq<nat>>, after: seq<seq<nat>>, order: nat, k: nat, p: nat)
    requires order >= PAGE_BITS
  {
    && order <= k < |before| == |after| && before[k] != [] && before[k][0] == p && after[k] == before[k][1..]
    && (forall j :: order <= j < k ==> before[j] == [] && after[j] == [p + Span(j)])
    && forall j :: 0 <= j < order || k < j < |before| ==> after[j] == before[j]
  }

  /**
   * A return: block b comes to stand in front of the list of order o. The lists from the returned order on to that
   * one lose a block each, a buddy; no other list changes.
   */
  ghost predicate ReturnedTo(before: seq<seq<nat>>, after: seq<seq<nat>>, order: nat, o: nat, b: nat) {
    && order <= o < |before| == |after| && after[o] == [b] + before[o]
    && (forall j :: order <= j < o ==> LosesOne(before[j], after[j]))
    && forall j :: 0 <= j < order || o < j < |before| ==> after[j] == before[j]
  }

  /** On the way there, the lists of orders order .. i have lost a buddy each. */
  ghost predicate Absorbing(before: seq<seq<nat>>, now: seq<seq<nat>>, order: nat, i: nat) {
    && |before| == |now| == ORDER_NONE && (forall j :: order <= j < i && j < |now| ==> LosesOne(before[j], now[j]))
    && forall j :: 0 <= j < |now| && (j < order || i <= j) ==> now[j] == before[j]
  }

  lemma AbsorbingMore(before: seq<seq<nat>>, now: seq<seq<nat>>, more: seq<seq<nat>>, order: nat, i: nat, k: nat)
    requires Absorbing(before, now, order, i) && order <= i < |now| && k < |now[i]|
    requires more == now[i := PageLists.Without(now[i], k)]
    ensures Absorbing(before, more, order, i + 1)
  {
  }

  lemma AbsorbingEnds(before: seq<seq<nat>>, now: seq<seq<nat>>, order: nat, i: nat, b: nat)
    requires Absorbing(before, now, order, i) && order <= i < |now|
    ensures ReturnedTo(before, now[i := [b] + now[i]], order, i, b)
  {
  }

  ghost predicate LosesOne(before: seq<nat>, after: seq<nat>) {
    exists i :: 0 <= i < |before| && after == PageLists.Without(before, i)
  }

  class Allocator {
    const layout: Layout
    const lists: PageLists.FreeLists
    const orderAllocated: array<nat>
    var pageAllocated: nat
    ghost var live: Orders

    /** The free side: canonical free lists, and a count of the frames not on them. */
    ghost predicate FreeSide()
      reads this, lists, lists.first, lists.next, lists.prev, lists.order, orderAllocated
    {
      && layout.Valid() && lists.Valid() && lists.n == layout.pageNum
      && orderAllocated.Length == layout.pageNum && orderAllocated != lists.order
      && Canonical(layout.Base(), lists.order[..])
      && pageAllocated + TotalPages(lists.order[..]) == layout.pageNum
    }

    ghost predicate Valid()
      reads this, lists, lists.first, lists.next, lists.prev, lists.order, orderAllocated
    {
      && FreeSide()
      && Partition(layout.Base(), lists.order[..], live)
      && pageAllocated == TotalPages(live)
      && forall p :: Head(live, p) ==> orderAllocated[p] == live[p]
    }

    ghost predicate FreeFrame(q: int)
      reads lists, lists.order
    {
      Covered(lists.order[..], q)
    }

    /** Set up empty lists, then release the whole region block by block. */
    constructor (start: nat, end: nat)
      requires start <= end && end < ADDRESS_LIMIT && start % PAGE_SIZE == 0 && end % PAGE_SIZE == 0 && start > 0
      requires var l := Divide(start, end, META_BITS); EndsInReach(l.memStart, l.MemEnd())
      ensures Valid() && layout == Divide(start, end, META_BITS)
      ensures pageAllocated == 0 && live == seq(layout.pageNum, _ => ORDER_NONE)
      ensures forall q :: 0 <= q < layout.pageNum ==> FreeFrame(q)
      ensures forall p :: Head(lists.order[..], p) ==> lists.order[p] == StepBits(layout.AddrOf(p))
    {
      var l := Divide(start, end, META_BITS);
      DivisionFits(start, end, META_BITS);
      DivisionValid(start, end, META_BITS);
      layout := l;
      lists := new PageLists.FreeLists(l.pageNum);
      orderAllocated := new nat[l.pageNum](_ => 0);
      pageAllocated := l.pageNum;
      live := seq(l.pageNum, _ => ORDER_NONE);
      new;
      hide Walked, Canonical, PageLists.AllLinked, EndsInReach;
      WalkBegins(l);
      assert lists.order[..] == seq(l.pageNum, _ => ORDER_NONE);
      ReleaseRegion();
    }

    /** The closing loop of initialisation: release the region block by block. */
    method ReleaseRegion()
      requires FreeSide() && Walked(layout, lists.order[..], 0) && pageAllocated == layout.pageNum
      requires live == seq(layout.pageNum, _ => ORDER_NONE)
      modifies this`pageAllocated, lists, lists.first, lists.next, lists.prev, lists.order
      ensures Valid() && pageAllocated == 0
      ensures Walked(layout, lists.order[..], layout.pageNum)
    {
      hide Walked, Canonical, CoverMore, PageLists.AllLinked;
      var cur := layout.memStart;
      ghost var done: nat := 0;
      while cur < layout.MemEnd()
        invariant FreeSide() && Walked(layout, lists.order[..], done)
        invariant cur == layout.AddrOf(done) && pageAllocated == layout.pageNum - done
        decreases layout.MemEnd() - cur
      {
        var bits := StepBits(cur);
        ghost var s := lists.order[..];
        WalkAdvance(layout, s, done);
        Release(cur, bits);
        WalkReleased(layout, s, lists.order[..], done);
        cur := cur + Pow2(bits);
        done := done + Span(bits);
      }
      WalkEnds(layout, lists.order[..], done);
    }

    /** Return the run of the given order at addr, absorbing free buddies as long as there are any. */
    method Release(addr: nat, oldOrder: nat)
      requires FreeSide() && oldOrder >= PAGE_BITS && Span(oldOrder) <= pageAllocated
      requires var p := layout.PageOf(addr);
               IsRun(layout.Base(), layout.pageNum, p, oldOrder) && RunClear(lists.order[..], p, oldOrder)
      modifies this`pageAllocated, lists, lists.first, lists.next, lists.prev, lists.order
      ensures FreeSide()
      ensures CoverMore(old(lists.order[..]), lists.order[..], layout.PageOf(addr), oldOrder)
      ensures pageAllocated == old(pageAllocated) - Span(oldOrder)
      ensures exists o, b :: ReturnedTo(old(lists.lists), lists.lists, oldOrder, o, b)
    {
      hide Returning, IsRun, RunClear, Canonical, CoverMore, Covered, PageLists.AllLinked, Absorbing, ReturnedTo,
           Layout.Valid, Layout.BuddyGet, Layout.PageOf, Layout.Base;
      ghost var base, s0, p0 := layout.Base(), lists.order[..], layout.PageOf(addr);
      ghost var s := s0;
      ReturningBegins(base, s0, p0, oldOrder);
      NothingAbsorbed(lists, oldOrder);
      var page := layout.PageOf(addr);
      var i := oldOrder;
      while i < ORDER_NONE
        invariant oldOrder <= i <= ORDER_MAX && lists.Valid() && lists.order[..] == s && 0 <= page < layout.pageNum
        invariant Returning(base, s0, p0, oldOrder, s, page, i) && pageAllocated == old(pageAllocated)
        invariant Absorbing(old(lists.lists), lists.lists, oldOrder, i)
      {
        var buddy := layout.BuddyGet(page, i);
        BuddyInside(layout, page, i);
        if buddy != NIL && lists.order[buddy] == i && i < ORDER_MAX {
          var big := if page <= buddy then page else buddy;
          MergeStep(layout, s0, p0, oldOrder, s, page, i, buddy, big);
          ghost var before := lists.lists;
          ghost var k := lists.Remove(buddy);
          AbsorbingMore(old(lists.lists), before, lists.lists, oldOrder, i, k);
          s := s[buddy := ORDER_NONE];
          page := big;
        } else {
          PlaceStep(layout, s0, p0, oldOrder, s, page, i, buddy);
          pageAllocated := pageAllocated - Pow2(oldOrder - PAGE_BITS);
          AbsorbingEnds(old(lists.lists), lists.lists, oldOrder, i, page);
          lists.Insert(i, page);
          return;
        }
        i := i + 1;
      }
      assert false;
    }

    /** Free the live block at addr. */
    method Free(addr: nat)
      requires Valid() && Head(live, layout.PageOf(addr)) && addr == layout.AddrOf(layout.PageOf(addr))
      modifies this, lists, lists.first, lists.next, lists.prev, lists.order
      ensures Valid()
      ensures var p := layout.PageOf(addr);
              && CoverMore(old(lists.order[..]), lists.order[..], p, old(live)[p])
              && live == old(live)[p := ORDER_NONE]
              && pageAllocated == old(pageAllocated) - Span(old(live)[p])
              && exists o, b :: ReturnedTo(old(lists.lists), lists.lists, old(live)[p], o, b)
    {
      var page := layout.PageOf(addr);
      PartitionFree(layout.Base(), lists.order[..], live, page);
      Release(addr, orderAllocated[page]);
      live := live[page := ORDER_NONE];
    }

    /** Allocate at least size bytes; 0 when no aligned run of the least sufficient order is free. */
    method Alloc(size: nat) returns (addr: nat)
      requires Valid() && size > 0
      modifies this, lists, lists.first, lists.next, lists.prev, lists.order, orderAllocated
      ensures Valid()
      ensures addr == 0 <==> forall p :: IsRun(layout.Base(), layout.pageNum, p, SizeToOrder(size))
                                         ==> !old(RunCovered(lists.order[..], p, SizeToOrder(size)))
      ensures addr == 0 ==> live == old(live) && lists.order[..] == old(lists.order[..])
      ensures addr != 0 ==>
                var p := layout.PageOf(addr);
                && IsRun(layout.Base(), layout.pageNum, p, SizeToOrder(size)) && addr == layout.AddrOf(p)
                && CoverLess(old(lists.order[..]), lists.order[..], p, SizeToOrder(size))
                && old(live)[p] == ORDER_NONE && live == old(live)[p := SizeToOrder(size)]
                && pageAllocated == old(pageAllocated) + Span(SizeToOrder(size))
                && exists k :: TakenFrom(old(lists.lists), lists.lists, SizeToOrder(size), k, p)
    {
      addr := AllocOrder(SizeToOrder(size));
    }

    /** Allocate a block of the given order: the first block of the first non-empty list
        from that order on, split down; 0 when there is none. */
    method AllocOrder(order: nat) returns (addr: nat)
      requires Valid() && order >= PAGE_BITS
      modifies this, lists, lists.first, lists.next, lists.prev, lists.order, orderAllocated
      ensures Valid()
      ensures addr == 0 <==> forall p :: IsRun(layout.Base(), layout.pageNum, p, order) ==>
                !old(RunCovered(lists.order[..], p, order))
      ensures addr == 0 ==> unchanged(this) && unchanged(lists) && lists.order[..] == old(lists.order[..])
      ensures addr != 0 ==>
                var p := layout.PageOf(addr);
                && IsRun(layout.Base(), layout.pageNum, p, order) && addr == layout.AddrOf(p)
                && RunCovered(old(lists.order[..]), p, order)
                && CoverLess(old(lists.order[..]), lists.order[..], p, order)
                && old(live)[p] == ORDER_NONE && live == old(live)[p := order]
                && pageAllocated == old(pageAllocated) + Span(order)
                && exists k :: TakenFrom(old(lists.lists), lists.lists, order, k, p)
    {
      NoBlockMeansNoRun(layout.Base(), lists.order[..], order);
      var i := FirstNonEmpty(order);
      if i < ORDER_NONE {
        addr := Take(i, order);
      } else {
        addr := 0;
        NothingListed(lists, order);
      }
    }

    /** Scan the lists from the given order on. */
    method FirstNonEmpty(order: nat) returns (i: nat)
      requires lists.Valid()
      ensures order <= i && (i < ORDER_NONE ==> lists.first[i] != PageLists.NIL)
      ensures forall j :: order <= j < i && j < ORDER_NONE ==> lists.lists[j] == []
    {
      i := order;
      while i < ORDER_NONE && lists.first[i] == PageLists.NIL
        invariant order <= i && (i <= ORDER_NONE || i == order)
        invariant forall j :: order <= j < i && j < ORDER_NONE ==> lists.lists[j] == []
      {
        EmptyList(lists, i);
        i := i + 1;
      }
    }

    /** Take the first block of a list and split it down to the wanted order. */
    method Take(from: nat, order: nat) returns (addr: nat)
      requires Valid() && PAGE_BITS <= order <= from < ORDER_NONE && lists.first[from] != PageLists.NIL
      requires forall j :: order <= j < from ==> lists.lists[j] == []
      modifies this, lists, lists.first, lists.next, lists.prev, lists.order, orderAllocated
      ensures Valid() && addr == layout.AddrOf(old(lists.first[from])) && addr != 0
      ensures var p := old(lists.first[from]);
              && layout.PageOf(addr) == p
              && IsRun(layout.Base(), layout.pageNum, p, order)
              && RunCovered(old(lists.order[..]), p, order)
              && CoverLess(old(lists.order[..]), lists.order[..], p, order)
              && old(live)[p] == ORDER_NONE && live == old(live)[p := order]
              && pageAllocated == old(pageAllocated) + Span(order)
              && TakenFrom(old(lists.lists), lists.lists, order, from, p)
    {
      hide Carved, Partition, Canonical, IsRun, RunCovered, CoverLess, PageLists.AllLinked, TakenFrom;
      ghost var base, s0 := layout.Base(), lists.order[..];
      var page := lists.first[from];
      FirstOfList(lists, from);
      addr := layout.AddrOf(page);
      ConversionsInverse(layout, page, 0);
      Carve(page, from, order);
      orderAllocated[page] := order;
      pageAllocated := pageAllocated + Pow2(order - PAGE_BITS);
      PartitionAlloc(base, s0, live, lists.order[..], page, order);
      live := live[page := order];
    }

    /** Take the first block off its list and list the upper halves split off it. */
    method Carve(page: nat, from: nat, order: nat)
      requires layout.Valid() && lists.Valid() && lists.n == layout.pageNum && PAGE_BITS <= order <= from < ORDER_NONE
      requires Canonical(layout.Base(), lists.order[..]) && lists.first[from] == page
      requires forall j :: order <= j < from ==> lists.lists[j] == []
      modifies lists, lists.first, lists.next, lists.prev, lists.order
      ensures lists.Valid() && TakenFrom(old(lists.lists), lists.lists, order, from, page)
      ensures Carved(layout.Base(), old(lists.order[..]), lists.order[..], page, order)
    {
      hide Carved, Canonical, PageLists.AllLinked;
      FirstOfList(lists, from);
      TakeStep(layout.Base(), lists.order[..], page);
      ghost var s0 := lists.order[..];
      Unlist(page, from);
      SplitDown(page, from, order, s0);
    }

    /** Take the first block off a list. */
    method Unlist(page: nat, ghost k: nat)
      requires lists.Valid() && k < ORDER_NONE && lists.first[k] == page
      modifies lists, lists.first, lists.next, lists.prev, lists.order
      ensures lists.Valid() && lists.order[..] == old(lists.order[..])[page := ORDER_NONE]
      ensures k < |old(lists.lists)| == ORDER_NONE && old(lists.lists)[k] != []
      ensures lists.lists == old(lists.lists)[k := old(lists.lists)[k][1..]]
    {
      hide PageLists.FreeLists.Valid;
      FirstOfList(lists, k);
      ghost var i := lists.Remove(page);
      assert PageLists.Without(old(lists.lists)[k], 0) == old(lists.lists)[k][1..];
    }

    /** Split the block just taken until it has the wanted order, listing the upper halves. */
    method SplitDown(page: nat, from: nat, order: nat, ghost s0: Orders)
      requires layout.Valid() && lists.Valid() && lists.n == layout.pageNum && PAGE_BITS <= order <= from <= ORDER_MAX
      requires Carved(layout.Base(), s0, lists.order[..], page, from)
      modifies lists, lists.first, lists.next, lists.prev, lists.order
      ensures lists.Valid() && Carved(layout.Base(), s0, lists.order[..], page, order)
      ensures |lists.lists| == ORDER_NONE && forall j :: 0 <= j < ORDER_NONE ==>
                lists.lists[j] == if order <= j < from then [page + Span(j)] + old(lists.lists)[j]
                                  else old(lists.lists)[j]
    {
      hide Carved, PageLists.AllLinked;
      ghost var s := lists.order[..];
      var i := from;
      while i > order
        invariant order <= i <= from && lists.Valid() && lists.order[..] == s
        invariant Carved(layout.Base(), s0, s, page, i)
        invariant |lists.lists| == ORDER_NONE && forall j :: 0 <= j < ORDER_NONE ==>
                    lists.lists[j] == if i <= j < from then [page + Span(j)] + old(lists.lists)[j]
                                      else old(lists.lists)[j]
      {
        SplitStep(layout.Base(), s0, s, page, i);
        i := i - 1;
        SplitAddress(layout, page, i);
        var right := layout.PageOf(layout.AddrOf(page) + Pow2(i));
        lists.Insert(i, right);
        s := s[right := i];
      }
    }
  }

  lemma NothingAbsorbed(lists: PageLists.FreeLists, order: nat)
    requires lists.Valid()
    ensures |lists.lists| == ORDER_NONE && Absorbing(lists.lists, lists.lists, order, order)
  {
  }

  lemma FirstOfList(lists: PageLists.FreeLists, k: nat)
    requires lists.Valid() && k < ORDER_NONE && lists.first[k] != PageLists.NIL
    ensures var p := lists.first[k];
            && 0 <= p < lists.n == lists.order.Length && lists.order[..][p] == lists.order[p] == k
            && k < |lists.lists| == ORDER_NONE && lists.lists[k] != [] && lists.lists[k][0] == p
            && forall i :: 0 < i < |lists.lists[k]| ==> lists.lists[k][i] != p
  {
    assert PageLists.ListLinked(lists.first[k], lists.next[..], lists.prev[..], lists.order[..], k, lists.lists[k]);
  }

  lemma EmptyList(lists: PageLists.FreeLists, k: nat)
    requires lists.Valid() && k < ORDER_NONE && lists.first[k] == PageLists.NIL
    ensures lists.lists[k] == []
  {
    assert PageLists.ListLinked(lists.first[k], lists.next[..], lists.prev[..], lists.order[..], k, lists.lists[k]);
  }

  /** Where the lists are empty from an order on, no block has that order or a larger one. */
  lemma NothingListed(lists: PageLists.FreeLists, order: nat)
    requires lists.Valid() && forall j :: order <= j < ORDER_NONE ==> lists.lists[j] == []
    ensures forall h :: Head(lists.order[..], h) ==> lists.order[..][h] < order
  {
    forall h | Head(lists.order[..], h)
      ensures lists.order[..][h] < order
    {
      Listed(lists, h);
    }
  }

  lemma Listed(lists: PageLists.FreeLists, h: nat)
    requires lists.Valid() && Head(lists.order[..], h)
    ensures lists.order[h] < |lists.lists| == ORDER_NONE && lists.lists[lists.order[h]] != []
  {
    var k := lists.order[h];
    assert PageLists.ListLinked(lists.first[k], lists.next[..], lists.prev[..], lists.order[..], k, lists.lists[k]);
    assert lists.order[..][h] == k;
  }

  lemma SplitAddress(l: Layout, p: nat, order: nat)
    requires l.Valid() && order >= PAGE_BITS && p + Span(order) < l.pageNum
    ensures l.PageOf(l.AddrOf(p) + Pow2(order)) == p + Span(order)
  {
    BlockBytes(order);
    ConversionsInverse(l, p + Span(order), 0);
  }
}
