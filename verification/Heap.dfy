/** The general allocator on top: slabs on pages of the page allocator, and the way back by alignment. */
module Heap {
  import opened PageAllocator
  import opened PageBlocks
  import opened PageLayout
  import opened SlubPool

  /** The addresses are those of live blocks of one page: the slab pages of all caches. */
  ghost predicate Lent(l: Layout, live: Orders, pages: set<nat>) {
    forall a :: a in pages ==> Head(live, l.PageOf(a)) && live[l.PageOf(a)] == PAGE_BITS && a == l.AddrOf(l.PageOf(a))
  }

  lemma OnePage()
    ensures SizeToOrder(SLAB_SIZE) == PAGE_BITS && Span(PAGE_BITS) == 1
  {
    SizeToOrderIsLeast(SLAB_SIZE);
    PageSizeIsPower();
  }

  lemma PagesAligned(l: Layout, p: nat)
    requires l.Valid()
    ensures l.AddrOf(p) % SLAB_SIZE == 0 && l.AddrOf(p) != NULL
  {
  }

  /** From live0 to live the pages of the offer have become live blocks, and nothing else has. */
  ghost predicate OnlyOffered(l: Layout, live0: Orders, live: Orders, offer: seq<nat>) {
    && |live| == |live0|
    && (forall p :: 0 <= p < |live| ==> live[p] == if l.AddrOf(p) in offer then PAGE_BITS else live0[p])
    && (forall a :: a in offer ==> 0 <= l.PageOf(a) < |live0| && live0[l.PageOf(a)] == ORDER_NONE)
  }

  /** The pages granted so far are lent, each once, beside those taken before. */
  ghost predicate Granted(l: Layout, live0: Orders, live: Orders, taken: set<nat>, offer: seq<nat>) {
    && l.Valid() && Distinct(offer) && Lent(l, live, taken + (set p | p in offer))
    && OnlyOffered(l, live0, live, offer)
    && forall p :: p in offer ==> p !in taken
  }

  lemma GrantedMore(l: Layout, live0: Orders, live: Orders, taken: set<nat>, offer: seq<nat>, page: nat)
    requires Granted(l, live0, live, taken, offer) && 0 <= l.PageOf(page) < |live|
    requires live[l.PageOf(page)] == ORDER_NONE && page == l.AddrOf(l.PageOf(page))
    ensures Granted(l, live0, live[l.PageOf(page) := PAGE_BITS], taken, offer + [page])
  {
    var more, p, live' := offer + [page], l.PageOf(page), live[l.PageOf(page) := PAGE_BITS];
    forall q | 0 <= q < |live|
      ensures live'[q] == if l.AddrOf(q) in more then PAGE_BITS else live0[q]
    {
      assert l.AddrOf(q) == page <==> q == p;
    }
    assert forall a :: a in taken + (set p | p in offer) ==> l.PageOf(a) != l.PageOf(page);
    assert page !in offer && page !in taken by {
      assert page !in taken + (set p | p in offer);
    }
    assert forall i :: 0 <= i < |offer| ==> offer[i] in offer;
  }

  lemma GrantedIsOffered(l: Layout, live0: Orders, live: Orders, taken: set<nat>, offer: seq<nat>, pool: Pool)
    requires Granted(l, live0, live, taken, offer) && pool.chains.Keys <= taken
    ensures Offered(pool, offer)
  {
    forall i | 0 <= i < |offer|
      ensures offer[i] != NULL && offer[i] % SLAB_SIZE == 0 && offer[i] !in pool.chains
    {
      assert offer[i] in offer && offer[i] in taken + (set p | p in offer);
      PagesAligned(l, l.PageOf(offer[i]));
    }
  }

  /** No aligned run of the least order that holds the size is free. */
  ghost predicate Exhausted(l: Layout, free: Orders, size: nat)
    requires size > 0
  {
    forall p :: IsRun(l.Base(), l.pageNum, p, SizeToOrder(size)) ==> !RunCovered(free, p, SizeToOrder(size))
  }

  lemma GrantedNone(a: Allocator, taken: set<nat>)
    requires a.Valid() && Lent(a.layout, a.live, taken)
    ensures Granted(a.layout, a.live, a.live, taken, []) && |a.live| == a.layout.pageNum
  {
    assert taken + (set p | p in []) == taken;
  }

  /**
   * Ask the page allocator for up to n slab pages, stopping when it grants none. What it grants is what a cache
   * takes for granted: pages that no cache has.
   */
  method GrantPages(a: Allocator, n: nat, ghost taken: set<nat>, ghost pool: Pool) returns (offer: seq<nat>)
    requires a.Valid() && Lent(a.layout, a.live, taken) && pool.chains.Keys <= taken
    modifies a, a.lists, a.lists.first, a.lists.next, a.lists.prev, a.lists.order, a.orderAllocated
    ensures a.Valid() && |offer| <= n && Offered(pool, offer)
    ensures Lent(a.layout, a.live, taken + (set p | p in offer))
    ensures OnlyOffered(a.layout, old(a.live), a.live, offer)
    ensures forall p :: p in offer ==> p !in taken
    ensures n > 0 ==> (offer == [] <==> Exhausted(a.layout, old(a.lists.order[..]), SLAB_SIZE))
  {
    OnePage();
    GrantedNone(a, taken);
    hide Allocator.Valid, RunCovered, CoverLess, SizeToOrder;
    offer := [];
    while |offer| < n
      invariant a.Valid() && |offer| <= n && Granted(a.layout, old(a.live), a.live, taken, offer)
      invariant |a.live| == a.layout.pageNum
      invariant if offer == [] then a.lists.order[..] == old(a.lists.order[..])
                else !Exhausted(a.layout, old(a.lists.order[..]), SLAB_SIZE)
    {
      ghost var live := a.live;
      var page := a.Alloc(SLAB_SIZE);
      if page == NULL {
        break;
      }
      GrantedMore(a.layout, old(a.live), live, taken, offer, page);
      offer := offer + [page];
    }
    GrantedIsOffered(a.layout, old(a.live), a.live, taken, offer, pool);
  }

  /** An object of a slab page and a live block other than that page share no byte. */
  lemma ObjectsApartFromBlocks(l: Layout, live: Orders, page: nat, size: nat, i: nat, p: nat)
    requires l.Valid() && Blocks(l.Base(), live) && Lent(l, live, {page}) && size > 0 && i < Slots(size)
    requires Head(live, p) && p != l.PageOf(page)
    ensures var obj, block := ObjectAt(size, page, i), l.AddrOf(p);
            obj + size <= block || block + Span(live[p]) * PAGE_SIZE <= obj
  {
    OnePage();
    SlotInPage(size, i);
    AtPage(size, page, i);
    assert page in {page};
  }

  /** The test the way back makes: an object is never page-aligned, a block always is. */
  lemma RoutedByAlignment(l: Layout, page: nat, size: nat, i: nat, p: nat)
    requires l.Valid() && size > 0 && i < Slots(size) && page % SLAB_SIZE == 0
    ensures ObjectAt(size, page, i) % PAGE_SIZE != 0 && l.AddrOf(p) % PAGE_SIZE == 0
  {
    MaskFindsPage(size, page, i);
    PagesAligned(l, p);
  }
}
