/** The general allocator over whole runs: nine caches and the page allocator share one region. */
module HeapRuns {
  import opened Heap
  import opened PageAllocator
  import opened PageBlocks
  import opened PageInit
  import opened PageLayout
  import opened Powers
  import opened Slub
  import opened SlubPool

  const CACHES := 9

  /** The object size of a cache. */
  function Size(i: nat): nat {
    Pow2(MIN_ORDER + i)
  }

  /** What an address handed out stands for: a block of pages, or a slot of a page of a cache. */
  datatype Holding = Block(order: nat) | Object(cache: nat, slot: Slot)

  type Held = map<nat, Holding>

  /** The page is one of the cache that its header names. */
  predicate PageOk(pools: seq<Pool>, cacheOf: map<nat, nat>, page: nat)
    requires page in cacheOf
  {
    cacheOf[page] < |pools| && page in pools[cacheOf[page]].chains
  }

  predicate InUse(pools: seq<Pool>, cacheOf: map<nat, nat>, s: Slot) {
    && s.page in cacheOf && PageOk(pools, cacheOf, s.page)
    && s.index < Slots(Size(cacheOf[s.page])) && s.index !in pools[cacheOf[s.page]].chains[s.page]
  }

  /** What is held at an address is there: a live block no cache has, or a slot in use. */
  predicate HoldingOk(l: Layout, live: Orders, pools: seq<Pool>, cacheOf: map<nat, nat>, a: nat, h: Holding) {
    match h
    case Block(order) =>
      Head(live, l.PageOf(a)) && live[l.PageOf(a)] == order && a == l.AddrOf(l.PageOf(a)) && a !in cacheOf
    case Object(i, s) => InUse(pools, cacheOf, s) && cacheOf[s.page] == i && a == ObjectAt(Size(i), s.page, s.index)
  }

  /** The bytes that go with it. */
  function Bytes(h: Holding): nat {
    match h
    case Block(order) => if order >= PAGE_BITS then Span(order) * PAGE_SIZE else 0
    case Object(i, _) => Size(i)
  }

  /** The pools are in order, their pages are live blocks named by cacheOf, and each page has one cache. */
  ghost predicate PagesOk(l: Layout, live: Orders, pools: seq<Pool>, cacheOf: map<nat, nat>) {
    && l.Valid() && Blocks(l.Base(), live) && |live| == l.pageNum && |pools| == CACHES
    && (forall i :: 0 <= i < CACHES ==> Good(pools[i], Size(i)))
    && (forall i, page :: 0 <= i < CACHES && page in pools[i].chains ==> page in cacheOf && cacheOf[page] == i)
    && (forall page :: page in cacheOf ==> PageOk(pools, cacheOf, page))
    && Lent(l, live, cacheOf.Keys)
  }

  /** Everything held is there, and everything in use is held: nothing leaks. */
  ghost predicate HeapOk(l: Layout, live: Orders, pools: seq<Pool>, cacheOf: map<nat, nat>, held: Held) {
    && PagesOk(l, live, pools, cacheOf)
    && (forall a :: a in held ==> HoldingOk(l, live, pools, cacheOf, a, held[a]))
    && (forall p :: Head(live, p) && l.AddrOf(p) !in cacheOf ==>
          l.AddrOf(p) in held && held[l.AddrOf(p)] == Block(live[p]))
    && (forall s: Slot :: InUse(pools, cacheOf, s) ==>
          var i := cacheOf[s.page];
          var a := ObjectAt(Size(i), s.page, s.index);
          a in held && held[a] == Object(i, s))
  }

  // ---------------------------------------------------------------- what the invariant means

  lemma BlocksApart(l: Layout, live: Orders, pools: seq<Pool>, cacheOf: map<nat, nat>, a: nat, g: Holding,
                    b: nat, h: Holding)
    requires PagesOk(l, live, pools, cacheOf) && a < b && g.Block? && h.Block?
    requires HoldingOk(l, live, pools, cacheOf, a, g) && HoldingOk(l, live, pools, cacheOf, b, h)
    ensures a + Bytes(g) <= b
  {
    var p, q := l.PageOf(a), l.PageOf(b);
    assert p < q;
    assert p + Span(live[p]) <= q;
  }

  lemma InUseFacts(l: Layout, live: Orders, pools: seq<Pool>, cacheOf: map<nat, nat>, s: Slot)
    requires PagesOk(l, live, pools, cacheOf) && InUse(pools, cacheOf, s)
    ensures Size(cacheOf[s.page]) > 0 && s.page % SLAB_SIZE == 0 && s.index < Slots(Size(cacheOf[s.page]))
    ensures Lent(l, live, {s.page}) && s.page in cacheOf.Keys
  {
    assert Good(pools[cacheOf[s.page]], Size(cacheOf[s.page]));
    hide Slots;
  }

  lemma ObjectBesideBlock(l: Layout, live: Orders, pools: seq<Pool>, cacheOf: map<nat, nat>, obj: nat, h: Holding,
                          a: nat, g: Holding)
    requires PagesOk(l, live, pools, cacheOf) && h.Object? && g.Block?
    requires HoldingOk(l, live, pools, cacheOf, a, g) && HoldingOk(l, live, pools, cacheOf, obj, h)
    ensures obj + Bytes(h) <= a || a + Bytes(g) <= obj
    ensures Bytes(h) > 0 && Bytes(g) > 0
  {
    var s := h.slot;
    InUseFacts(l, live, pools, cacheOf, s);
    assert s.page in {s.page};
    hide PagesOk, Slots, Size;
    BlocksOf(l, live, pools, cacheOf);
    ObjectsApartFromBlocks(l, live, s.page, Size(cacheOf[s.page]), s.index, l.PageOf(a));
  }

  lemma BlocksOf(l: Layout, live: Orders, pools: seq<Pool>, cacheOf: map<nat, nat>)
    requires PagesOk(l, live, pools, cacheOf)
    ensures l.Valid() && Blocks(l.Base(), live)
  {
  }

  lemma ObjectsApart(l: Layout, live: Orders, pools: seq<Pool>, cacheOf: map<nat, nat>, s: Slot, r: Slot)
    requires PagesOk(l, live, pools, cacheOf) && InUse(pools, cacheOf, s) && InUse(pools, cacheOf, r) && s != r
    ensures var a := ObjectAt(Size(cacheOf[s.page]), s.page, s.index);
            var b := ObjectAt(Size(cacheOf[r.page]), r.page, r.index);
            a + Size(cacheOf[s.page]) <= b || b + Size(cacheOf[r.page]) <= a
  {
    InUseFacts(l, live, pools, cacheOf, s);
    InUseFacts(l, live, pools, cacheOf, r);
    hide PagesOk, Slots, Size;
    if s.page == r.page {
      SlotsApart(Size(cacheOf[s.page]), s.page, s.index, r.page, r.index);
    } else {
      SlotInPage(Size(cacheOf[s.page]), s.index);
      AtPage(Size(cacheOf[s.page]), s.page, s.index);
      SlotInPage(Size(cacheOf[r.page]), r.index);
      AtPage(Size(cacheOf[r.page]), r.page, r.index);
      PagesDiffer(s.page, r.page);
    }
  }

  lemma PagesDiffer(a: nat, b: nat)
    requires a % SLAB_SIZE == 0 && b % SLAB_SIZE == 0 && a != b
    ensures a + SLAB_SIZE <= b || b + SLAB_SIZE <= a
  {
  }

  /** Whatever is held at two addresses shares no byte. */
  lemma HeldApart(l: Layout, live: Orders, pools: seq<Pool>, cacheOf: map<nat, nat>, held: Held, a: nat, b: nat)
    requires HeapOk(l, live, pools, cacheOf, held) && a in held && b in held && a < b
    ensures a + Bytes(held[a]) <= b
  {
    assert HoldingOk(l, live, pools, cacheOf, a, held[a]) && HoldingOk(l, live, pools, cacheOf, b, held[b]);
    hide HeapOk, PagesOk, InUse;
    match (held[a], held[b]) {
      case (Block(_), Block(_)) => BlocksApart(l, live, pools, cacheOf, a, held[a], b, held[b]);
      case (Block(_), Object(_, _)) => ObjectBesideBlock(l, live, pools, cacheOf, b, held[b], a, held[a]);
      case (Object(_, _), Block(_)) => ObjectBesideBlock(l, live, pools, cacheOf, a, held[a], b, held[b]);
      case (Object(_, s), Object(_, r)) => ObjectsApart(l, live, pools, cacheOf, s, r);
    }
  }

  /** The test the way back makes tells the two kinds apart. */
  lemma HeldRouted(l: Layout, live: Orders, pools: seq<Pool>, cacheOf: map<nat, nat>, held: Held, a: nat)
    requires HeapOk(l, live, pools, cacheOf, held) && a in held
    ensures a % PAGE_SIZE == 0 <==> held[a].Block?
    ensures held[a].Object? ==> held[a].slot.page == a - a % SLAB_SIZE
  {
    assert HoldingOk(l, live, pools, cacheOf, a, held[a]);
    match held[a]
    case Block(_) => PagesAligned(l, l.PageOf(a));
    case Object(_, s) =>
      InUseFacts(l, live, pools, cacheOf, s);
      MaskFindsPage(Size(cacheOf[s.page]), s.page, s.index);
  }

  // ---------------------------------------------------------------- what each change of hands keeps

  /** The pages stay in order when the live blocks change elsewhere. */
  lemma PagesKept(l: Layout, live: Orders, live': Orders, pools: seq<Pool>, cacheOf: map<nat, nat>, p: nat)
    requires PagesOk(l, live, pools, cacheOf) && p < |live| && l.AddrOf(p) !in cacheOf && Blocks(l.Base(), live')
    requires |live'| == |live| && forall q :: 0 <= q < |live| && q != p ==> live'[q] == live[q]
    ensures PagesOk(l, live', pools, cacheOf)
  {
    hide Blocks, PageOk, Good, Size;
  }

  lemma PagesFacts(l: Layout, live: Orders, pools: seq<Pool>, cacheOf: map<nat, nat>)
    requires PagesOk(l, live, pools, cacheOf)
    ensures l.Valid() && |live| == l.pageNum && |pools| == CACHES
  {
  }

  lemma AddressOf(l: Layout, p: nat)
    requires l.Valid() && p < l.pageNum
    ensures l.PageOf(l.AddrOf(p)) == p
  {
    ConversionsInverse(l, p, 0);
  }

  lemma InUseUnaligned(l: Layout, live: Orders, pools: seq<Pool>, cacheOf: map<nat, nat>, s: Slot)
    requires PagesOk(l, live, pools, cacheOf) && InUse(pools, cacheOf, s)
    ensures s.page in cacheOf && ObjectAt(Size(cacheOf[s.page]), s.page, s.index) % SLAB_SIZE != 0
  {
    InUseFacts(l, live, pools, cacheOf, s);
    MaskFindsPage(Size(cacheOf[s.page]), s.page, s.index);
  }

  lemma HeldHead(l: Layout, live: Orders, pools: seq<Pool>, cacheOf: map<nat, nat>, held: Held, a: nat)
    requires HeapOk(l, live, pools, cacheOf, held) && a in held && a % SLAB_SIZE == 0
    ensures Head(live, l.PageOf(a)) && a == l.AddrOf(l.PageOf(a)) && a !in cacheOf
  {
    HeldRouted(l, live, pools, cacheOf, held, a);
    assert HoldingOk(l, live, pools, cacheOf, a, held[a]);
  }

  lemma NoBlockYet(l: Layout, live: Orders, pools: seq<Pool>, cacheOf: map<nat, nat>, held: Held, p: nat)
    requires HeapOk(l, live, pools, cacheOf, held) && p < |live| && live[p] == ORDER_NONE
    ensures l.AddrOf(p) !in held && l.AddrOf(p) !in cacheOf
  {
    var a := l.AddrOf(p);
    AddressOf(l, p);
    PagesAligned(l, p);
    if a in held {
      HeldHead(l, live, pools, cacheOf, held, a);
    }
    assert a in cacheOf ==> a in cacheOf.Keys;
  }

  lemma BlockTaken(l: Layout, live: Orders, live': Orders, pools: seq<Pool>, cacheOf: map<nat, nat>, held: Held,
                   p: nat, order: nat)
    requires HeapOk(l, live, pools, cacheOf, held) && p < |live| && live[p] == ORDER_NONE
    requires live' == live[p := order] && PAGE_BITS <= order <= ORDER_MAX && Blocks(l.Base(), live')
    ensures l.AddrOf(p) !in held && HeapOk(l, live', pools, cacheOf, held[l.AddrOf(p) := Block(order)])
  {
    hide InUse, Size, Slots, PagesOk, Blocks, ObjectAt, Layout.AddrOf, Layout.PageOf, Layout.Valid, Span;
    PagesFacts(l, live, pools, cacheOf);
    var a := l.AddrOf(p);
    NoBlockYet(l, live, pools, cacheOf, held, p);
    PagesKept(l, live, live', pools, cacheOf, p);
    AddressOf(l, p);
    PagesAligned(l, p);
    forall b | b in held
      ensures HoldingOk(l, live', pools, cacheOf, b, held[b])
    {
      assert HoldingOk(l, live, pools, cacheOf, b, held[b]);
    }
    forall s: Slot | InUse(pools, cacheOf, s)
      ensures s.page in cacheOf && ObjectAt(Size(cacheOf[s.page]), s.page, s.index) != a
    {
      InUseUnaligned(l, live, pools, cacheOf, s);
    }
  }

  lemma BlockReturned(l: Layout, live: Orders, live': Orders, pools: seq<Pool>, cacheOf: map<nat, nat>, held: Held,
                      p: nat)
    requires HeapOk(l, live, pools, cacheOf, held) && p < |live| && l.AddrOf(p) in held && held[l.AddrOf(p)].Block?
    requires live' == live[p := ORDER_NONE] && Blocks(l.Base(), live')
    ensures HeapOk(l, live', pools, cacheOf, held - {l.AddrOf(p)})
  {
    hide InUse, Size, Slots, PagesOk, Blocks, ObjectAt, Layout.AddrOf, Layout.PageOf, Layout.Valid, Span;
    PagesFacts(l, live, pools, cacheOf);
    var a := l.AddrOf(p);
    assert HoldingOk(l, live, pools, cacheOf, a, held[a]);
    PagesKept(l, live, live', pools, cacheOf, p);
    AddressOf(l, p);
    PagesAligned(l, p);
    forall q: nat | q < |live| && q != p
      ensures l.AddrOf(q) != a
    {
      AddressOf(l, q);
    }
    forall b | b in held && b != a
      ensures HoldingOk(l, live', pools, cacheOf, b, held[b])
    {
      assert HoldingOk(l, live, pools, cacheOf, b, held[b]);
    }
    forall s: Slot | InUse(pools, cacheOf, s)
      ensures s.page in cacheOf && ObjectAt(Size(cacheOf[s.page]), s.page, s.index) != a
    {
      InUseUnaligned(l, live, pools, cacheOf, s);
    }
  }

  function Owned(cacheOf: map<nat, nat>, offer: seq<nat>, i: nat): map<nat, nat> {
    map page | page in cacheOf.Keys + (set p | p in offer) :: if page in offer then i else cacheOf[page]
  }

  lemma AddedPagesOk(l: Layout, live: Orders, live': Orders, pools: seq<Pool>, cacheOf: map<nat, nat>,
                     i: nat, stocked: Pool, offer: seq<nat>)
    requires PagesOk(l, live, pools, cacheOf) && i < CACHES && Blocks(l.Base(), live')
    requires Lent(l, live', cacheOf.Keys + (set p | p in offer)) && |live'| == |live|
    requires forall p :: p in offer ==> p !in cacheOf.Keys
    requires Good(stocked, Size(i)) && stocked.chains.Keys == pools[i].chains.Keys + (set p | p in offer)
    ensures PagesOk(l, live', pools[i := stocked], Owned(cacheOf, offer, i))
  {
    hide Size, Good, Blocks, Lent, Layout.Valid;
    var pools', cacheOf' := pools[i := stocked], Owned(cacheOf, offer, i);
    assert cacheOf'.Keys == cacheOf.Keys + (set p | p in offer);
    forall page | page in cacheOf'
      ensures PageOk(pools', cacheOf', page)
    {
      assert page in cacheOf ==> PageOk(pools, cacheOf, page);
    }
  }

  /** A cache takes in new pages: what is in use stays. */
  lemma PagesAdded(l: Layout, live: Orders, live': Orders, pools: seq<Pool>, cacheOf: map<nat, nat>, held: Held,
                   i: nat, stocked: Pool, offer: seq<nat>)
    requires HeapOk(l, live, pools, cacheOf, held) && i < CACHES && Blocks(l.Base(), live')
    requires Lent(l, live', cacheOf.Keys + (set p | p in offer)) && OnlyOffered(l, live, live', offer)
    requires forall p :: p in offer ==> p !in cacheOf.Keys
    requires Good(stocked, Size(i)) && Live(stocked, Size(i)) == Live(pools[i], Size(i))
    requires stocked.chains.Keys == pools[i].chains.Keys + (set p | p in offer)
    ensures HeapOk(l, live', pools[i := stocked], Owned(cacheOf, offer, i), held)
  {
    hide InUse, PagesOk, Lent, Size, Live, Good, Slots, Blocks, ObjectAt, Layout.AddrOf, Layout.PageOf, Layout.Valid,
         Span;
    PagesFacts(l, live, pools, cacheOf);
    var pools', cacheOf' := pools[i := stocked], Owned(cacheOf, offer, i);
    AddedPagesOk(l, live, live', pools, cacheOf, i, stocked, offer);
    forall s: Slot
      ensures InUse(pools', cacheOf', s) <==> InUse(pools, cacheOf, s)
      ensures InUse(pools, cacheOf, s) ==> s.page in cacheOf && cacheOf'[s.page] == cacheOf[s.page]
    {
      SameUse(l, live, pools, cacheOf, i, stocked, offer, s);
    }
    forall a | a in held
      ensures HoldingOk(l, live', pools', cacheOf', a, held[a])
    {
      assert HoldingOk(l, live, pools, cacheOf, a, held[a]);
      if held[a].Block? {
        assert live[l.PageOf(a)] != ORDER_NONE;
      }
    }
  }

  lemma SameUse(l: Layout, live: Orders, pools: seq<Pool>, cacheOf: map<nat, nat>, i: nat, stocked: Pool,
                offer: seq<nat>, s: Slot)
    requires PagesOk(l, live, pools, cacheOf) && i < CACHES && Live(stocked, Size(i)) == Live(pools[i], Size(i))
    requires forall p :: p in offer ==> p !in cacheOf.Keys
    requires stocked.chains.Keys == pools[i].chains.Keys + (set p | p in offer)
    ensures InUse(pools[i := stocked], Owned(cacheOf, offer, i), s) <==> InUse(pools, cacheOf, s)
    ensures InUse(pools, cacheOf, s) ==> s.page in cacheOf
    ensures s.page in cacheOf ==>
              s.page in Owned(cacheOf, offer, i) && Owned(cacheOf, offer, i)[s.page] == cacheOf[s.page]
  {
    hide Size, Slots, Good, Lent, Blocks, Layout.Valid;
    assert s in Live(stocked, Size(i)) <==> s in Live(pools[i], Size(i));
  }

  /** The cache of a page is the only one with a say in what is in use there. */
  lemma UseByCache(l: Layout, live: Orders, pools: seq<Pool>, cacheOf: map<nat, nat>, i: nat, pool: Pool, s: Slot)
    requires PagesOk(l, live, pools, cacheOf) && i < CACHES && pool.chains.Keys == pools[i].chains.Keys
    ensures InUse(pools, cacheOf, s) || InUse(pools[i := pool], cacheOf, s) ==> s.page in cacheOf
    ensures s.page in cacheOf && cacheOf[s.page] == i ==>
              && (InUse(pools, cacheOf, s) <==> s in Live(pools[i], Size(i)))
              && (InUse(pools[i := pool], cacheOf, s) <==> s in Live(pool, Size(i)))
    ensures s.page in cacheOf && cacheOf[s.page] != i ==>
              (InUse(pools[i := pool], cacheOf, s) <==> InUse(pools, cacheOf, s))
    ensures s in Live(pools[i], Size(i)) || s in Live(pool, Size(i)) ==> s.page in cacheOf && cacheOf[s.page] == i
  {
    hide Size, Slots, Good, Lent, Blocks, Layout.Valid;
  }

  lemma PoolsKept(l: Layout, live: Orders, pools: seq<Pool>, cacheOf: map<nat, nat>, i: nat, pool: Pool)
    requires PagesOk(l, live, pools, cacheOf) && i < CACHES && pool.chains.Keys == pools[i].chains.Keys
    requires Good(pool, Size(i))
    ensures PagesOk(l, live, pools[i := pool], cacheOf)
  {
    hide Size, Slots, Good, Lent, Blocks, Layout.Valid;
    forall page | page in cacheOf
      ensures PageOk(pools[i := pool], cacheOf, page)
    {
      assert PageOk(pools, cacheOf, page);
    }
  }

  lemma SlotTaken(l: Layout, live: Orders, pools: seq<Pool>, cacheOf: map<nat, nat>, held: Held,
                  i: nat, pool: Pool, s: Slot)
    requires HeapOk(l, live, pools, cacheOf, held) && i < CACHES && pool.chains.Keys == pools[i].chains.Keys
    requires Good(pool, Size(i)) && s !in Live(pools[i], Size(i))
    requires Live(pool, Size(i)) == Live(pools[i], Size(i)) + iset{s}
    ensures var obj := ObjectAt(Size(i), s.page, s.index);
            obj !in held && HeapOk(l, live, pools[i := pool], cacheOf, held[obj := Object(i, s)])
  {
    hide InUse, Size, Slots, PagesOk, Blocks, ObjectAt, Live, Good, Layout.AddrOf, Layout.PageOf;
    PagesFacts(l, live, pools, cacheOf);
    var obj, pools' := ObjectAt(Size(i), s.page, s.index), pools[i := pool];
    PoolsKept(l, live, pools, cacheOf, i, pool);
    UseByCache(l, live, pools, cacheOf, i, pool, s);
    forall r: Slot
      ensures InUse(pools', cacheOf, r) <==> InUse(pools, cacheOf, r) || r == s
      ensures InUse(pools', cacheOf, r) ==> r.page in cacheOf
      ensures InUse(pools', cacheOf, r) && r != s ==> ObjectAt(Size(cacheOf[r.page]), r.page, r.index) != obj
    {
      UseByCache(l, live, pools, cacheOf, i, pool, r);
      if InUse(pools', cacheOf, r) && r != s {
        ObjectsApart(l, live, pools', cacheOf, s, r);
        InUseFacts(l, live, pools', cacheOf, r);
        InUseFacts(l, live, pools', cacheOf, s);
      }
    }
    InUseUnaligned(l, live, pools', cacheOf, s);
    forall a | a in held
      ensures a != obj && HoldingOk(l, live, pools', cacheOf, a, held[a])
    {
      assert HoldingOk(l, live, pools, cacheOf, a, held[a]);
      HeldRouted(l, live, pools, cacheOf, held, a);
    }
  }

  lemma SlotReturned(l: Layout, live: Orders, pools: seq<Pool>, cacheOf: map<nat, nat>, held: Held,
                     i: nat, pool: Pool, s: Slot)
    requires HeapOk(l, live, pools, cacheOf, held) && i < CACHES && pool.chains.Keys == pools[i].chains.Keys
    requires Good(pool, Size(i)) && s in Live(pools[i], Size(i))
    requires Live(pool, Size(i)) == Live(pools[i], Size(i)) - iset{s}
    ensures HeapOk(l, live, pools[i := pool], cacheOf, held - {ObjectAt(Size(i), s.page, s.index)})
  {
    hide InUse, Size, Slots, PagesOk, Blocks, ObjectAt, Live, Good, Layout.AddrOf, Layout.PageOf;
    PagesFacts(l, live, pools, cacheOf);
    var obj, pools' := ObjectAt(Size(i), s.page, s.index), pools[i := pool];
    PoolsKept(l, live, pools, cacheOf, i, pool);
    UseByCache(l, live, pools, cacheOf, i, pool, s);
    InUseUnaligned(l, live, pools, cacheOf, s);
    forall r: Slot
      ensures InUse(pools', cacheOf, r) <==> InUse(pools, cacheOf, r) && r != s
      ensures InUse(pools, cacheOf, r) ==> r.page in cacheOf
      ensures InUse(pools', cacheOf, r) ==> ObjectAt(Size(cacheOf[r.page]), r.page, r.index) != obj
    {
      UseByCache(l, live, pools, cacheOf, i, pool, r);
      if InUse(pools', cacheOf, r) && r != s {
        ObjectsApart(l, live, pools, cacheOf, s, r);
        InUseFacts(l, live, pools, cacheOf, r);
        InUseFacts(l, live, pools, cacheOf, s);
      }
    }
    forall a | a in held && a != obj
      ensures HoldingOk(l, live, pools', cacheOf, a, held[a])
    {
      assert HoldingOk(l, live, pools, cacheOf, a, held[a]);
    }
    forall p: nat | p < |live|
      ensures l.AddrOf(p) != obj
    {
      PagesAligned(l, p);
    }
  }

  /** A page wholly unused leaves its cache and the live blocks. */
  lemma PageReleased(l: Layout, live: Orders, live': Orders, pools: seq<Pool>, cacheOf: map<nat, nat>, held: Held,
                     i: nat, pool: Pool, page: nat)
    requires HeapOk(l, live, pools, cacheOf, held) && i < CACHES && page in pools[i].chains
    requires pool.chains.Keys == pools[i].chains.Keys - {page} && Good(pool, Size(i))
    requires Live(pool, Size(i)) == Live(pools[i], Size(i))
    requires 0 <= l.PageOf(page) < |live| && live' == live[l.PageOf(page) := ORDER_NONE] && Blocks(l.Base(), live')
    ensures HeapOk(l, live', pools[i := pool], cacheOf - {page}, held)
  {
    hide InUse, PagesOk, Size, Slots, Blocks, ObjectAt, Live, Good, Layout.AddrOf, Layout.PageOf, Layout.Valid;
    PagesFacts(l, live, pools, cacheOf);
    GoodPool(l, live, pools, cacheOf, held, i);
    PageOfPool(l, live, pools, cacheOf, held, i, page);
    var pools', cacheOf' := pools[i := pool], cacheOf - {page};
    forall r: Slot
      ensures InUse(pools', cacheOf', r) <==> InUse(pools, cacheOf, r)
      ensures InUse(pools, cacheOf, r) ==> r.page in cacheOf && r.page != page
    {
      UseWithout(l, live, pools, cacheOf, i, pool, page, r);
    }
    ReleasedPagesOk(l, live, live', pools, cacheOf, i, pool, page);
    forall q: nat | q < |live| && q != l.PageOf(page)
      ensures l.AddrOf(q) != page
    {
      AddressOf(l, q);
    }
    forall a | a in held
      ensures HoldingOk(l, live', pools', cacheOf', a, held[a])
    {
      assert HoldingOk(l, live, pools, cacheOf, a, held[a]);
    }
    assert page in cacheOf.Keys;
  }

  lemma UseWithout(l: Layout, live: Orders, pools: seq<Pool>, cacheOf: map<nat, nat>, i: nat, pool: Pool, page: nat,
                   r: Slot)
    requires PagesOk(l, live, pools, cacheOf) && i < CACHES && page in pools[i].chains
    requires pool.chains.Keys == pools[i].chains.Keys - {page} && Live(pool, Size(i)) == Live(pools[i], Size(i))
    ensures InUse(pools[i := pool], cacheOf - {page}, r) <==> InUse(pools, cacheOf, r)
    ensures InUse(pools, cacheOf, r) ==> r.page in cacheOf && r.page != page
  {
    hide Size, Slots, Good, Lent, Blocks, Layout.Valid;
    assert r in Live(pool, Size(i)) <==> r in Live(pools[i], Size(i));
  }

  lemma ReleasedPagesOk(l: Layout, live: Orders, live': Orders, pools: seq<Pool>, cacheOf: map<nat, nat>,
                        i: nat, pool: Pool, page: nat)
    requires PagesOk(l, live, pools, cacheOf) && i < CACHES && page in pools[i].chains
    requires pool.chains.Keys == pools[i].chains.Keys - {page} && Good(pool, Size(i))
    requires 0 <= l.PageOf(page) < |live| && live' == live[l.PageOf(page) := ORDER_NONE] && Blocks(l.Base(), live')
    ensures PagesOk(l, live', pools[i := pool], cacheOf - {page})
  {
    hide Size, Slots, Good, Blocks, Layout.Valid;
    var pools', cacheOf' := pools[i := pool], cacheOf - {page};
    forall a | a in cacheOf'
      ensures PageOk(pools', cacheOf', a)
    {
      assert PageOk(pools, cacheOf, a);
    }
    assert page in cacheOf.Keys;
    forall a | a in cacheOf'.Keys
      ensures Head(live', l.PageOf(a)) && live'[l.PageOf(a)] == PAGE_BITS && a == l.AddrOf(l.PageOf(a))
    {
      assert a in cacheOf.Keys;
    }
  }

  // ---------------------------------------------------------------- the calls

  /** A pool after the first test of an allocation holds its pages and the offer. */
  lemma StockedKeeps(pool: Pool, size: nat, offer: seq<nat>)
    requires Good(pool, size) && Offered(pool, offer) && |offer| <= MIN_PARTIAL && (pool.count > 0 ==> offer == [])
    ensures var stocked := Stocked(pool, size, offer);
            && Good(stocked, size) && Live(stocked, size) == Live(pool, size)
            && stocked.chains.Keys == pool.chains.Keys + (set p | p in offer)
  {
    if pool.count == 0 {
      ExpandKeeps(pool, size, offer);
      AddedHas(pool.chains, offer, Slots(size));
      assert offer[..|offer|] == offer;
    } else {
      assert (set p | p in offer) == {};
      assert pool.chains.Keys + (set p | p in offer) == pool.chains.Keys;
    }
    hide Good, Live, Slots;
  }

  lemma TakeKeepsPages(pool: Pool)
    requires MayTake(pool)
    ensures Take(pool).chains.Keys == pool.chains.Keys
  {
  }

  /** What an allocation from one cache leaves, in values. */
  lemma ObjectTaken(l: Layout, live: Orders, live': Orders, pools: seq<Pool>, cacheOf: map<nat, nat>, held: Held,
                    i: nat, offer: seq<nat>)
    requires HeapOk(l, live, pools, cacheOf, held) && i < CACHES && Blocks(l.Base(), live')
    requires Lent(l, live', cacheOf.Keys + (set p | p in offer)) && OnlyOffered(l, live, live', offer)
    requires (forall p :: p in offer ==> p !in cacheOf.Keys) && Offered(pools[i], offer) && |offer| <= MIN_PARTIAL
    requires (pools[i].count > 0 ==> offer == []) && MayAlloc(pools[i], Size(i), offer)
    requires pools[i].count > 0 ==> pools[i].list != []
    ensures var pool, g := SlubPool.Alloc(pools[i], Size(i), offer), SlubPool.Granted(pools[i], Size(i), offer);
            && (g == {} <==> pools[i].count == 0 && offer == [])
            && (g == {} ==> HeapOk(l, live', pools[i := pool], Owned(cacheOf, offer, i), held))
            && (forall s :: s in g ==>
                  var obj := ObjectAt(Size(i), s.page, s.index);
                  && obj !in held
                  && HeapOk(l, live', pools[i := pool], Owned(cacheOf, offer, i), held[obj := Object(i, s)])
                  && s.page in Owned(cacheOf, offer, i) && Owned(cacheOf, offer, i)[s.page] == i)
  {
    hide HeapOk, OnlyOffered, Lent, Blocks, Live, ObjectAt, Slots, Size;
    GoodPool(l, live, pools, cacheOf, held, i);
    hide Good, Offered;
    var stocked := Stocked(pools[i], Size(i), offer);
    StockedKeeps(pools[i], Size(i), offer);
    AllocKeeps(pools[i], Size(i), offer);
    PagesAdded(l, live, live', pools, cacheOf, held, i, stocked, offer);
    if stocked.count > 0 {
      TakeKeepsPages(stocked);
      var s := Taken(stocked);
      var pool := Take(stocked);
      var g := SlubPool.Granted(pools[i], Size(i), offer);
      assert (iset r | r in g) == iset{s};
      SlotTaken(l, live', pools[i := stocked], Owned(cacheOf, offer, i), held, i, pool, s);
      assert pools[i := stocked][i := pool] == pools[i := pool];
      PageOfPool(l, live', pools[i := stocked], Owned(cacheOf, offer, i), held, i, s.page);
    }
  }

  lemma GoodPool(l: Layout, live: Orders, pools: seq<Pool>, cacheOf: map<nat, nat>, held: Held, i: nat)
    requires HeapOk(l, live, pools, cacheOf, held) && i < CACHES
    ensures |pools| == CACHES && Good(pools[i], Size(i)) && pools[i].chains.Keys <= cacheOf.Keys
    ensures Lent(l, live, cacheOf.Keys)
  {
  }

  lemma PageOfPool(l: Layout, live: Orders, pools: seq<Pool>, cacheOf: map<nat, nat>, held: Held, i: nat, page: nat)
    requires HeapOk(l, live, pools, cacheOf, held) && i < CACHES && i < |pools| && page in pools[i].chains
    ensures page in cacheOf && cacheOf[page] == i
  {
  }

  /** What a return to one cache leaves, in values: the page goes back to the page allocator or stays. */
  lemma ObjectReturned(l: Layout, live: Orders, pools: seq<Pool>, cacheOf: map<nat, nat>, held: Held, i: nat, s: Slot)
    requires HeapOk(l, live, pools, cacheOf, held) && i < CACHES && i < |pools| && s in Live(pools[i], Size(i))
    ensures s.page in cacheOf && s.page in pools[i].chains && s.page == l.AddrOf(l.PageOf(s.page))
    ensures Head(live, l.PageOf(s.page)) && live[l.PageOf(s.page)] == PAGE_BITS
    ensures var pool, rest := SlubPool.Free(pools[i], Size(i), s), held - {ObjectAt(Size(i), s.page, s.index)};
            && (!Releases(pools[i], Size(i), s) ==> HeapOk(l, live, pools[i := pool], cacheOf, rest))
            && (Releases(pools[i], Size(i), s) ==>
                  var live' := live[l.PageOf(s.page) := ORDER_NONE];
                  Blocks(l.Base(), live') ==> HeapOk(l, live', pools[i := pool], cacheOf - {s.page}, rest))
  {
    hide HeapOk, Blocks, ObjectAt, Slots, Size, Good;
    GoodPool(l, live, pools, cacheOf, held, i);
    PageOfPool(l, live, pools, cacheOf, held, i, s.page);
    assert s.page in cacheOf.Keys;
    PutKeeps(pools[i], Size(i), s);
    FreeKeeps(pools[i], Size(i), s);
    var put, rest := Put(pools[i], s), held - {ObjectAt(Size(i), s.page, s.index)};
    assert put.chains.Keys == pools[i].chains.Keys;
    SlotReturned(l, live, pools, cacheOf, held, i, put, s);
    var live' := live[l.PageOf(s.page) := ORDER_NONE];
    if Releases(pools[i], Size(i), s) && Blocks(l.Base(), live') {
      var pool := SlubPool.Free(pools[i], Size(i), s);
      assert pools[i := put][i := pool] == pools[i := pool];
      PageReleased(l, live, live', pools[i := put], cacheOf, rest, i, pool, s.page);
    }
  }

  lemma HeldBlock(l: Layout, live: Orders, pools: seq<Pool>, cacheOf: map<nat, nat>, held: Held, a: nat)
    requires HeapOk(l, live, pools, cacheOf, held) && a in held && held[a].Block?
    ensures Head(live, l.PageOf(a)) && a == l.AddrOf(l.PageOf(a))
  {
    assert HoldingOk(l, live, pools, cacheOf, a, held[a]);
  }

  lemma HeldObject(l: Layout, live: Orders, pools: seq<Pool>, cacheOf: map<nat, nat>, held: Held, a: nat)
    requires HeapOk(l, live, pools, cacheOf, held) && a in held && held[a].Object?
    ensures var s := held[a].slot;
            && s.page == a - a % SLAB_SIZE && s.page != NULL && s.page in cacheOf && cacheOf[s.page] == held[a].cache
            && |pools| == CACHES && held[a].cache < CACHES
            && s in Live(pools[held[a].cache], Size(held[a].cache))
            && a == ObjectAt(Size(held[a].cache), s.page, s.index)
  {
    HeldRouted(l, live, pools, cacheOf, held, a);
    assert HoldingOk(l, live, pools, cacheOf, a, held[a]);
    PagesAligned(l, l.PageOf(held[a].slot.page));
    InUseFacts(l, live, pools, cacheOf, held[a].slot);
  }

  lemma HeapEmpty(l: Layout, pools: seq<Pool>)
    requires l.Valid() && |pools| == CACHES && forall i :: 0 <= i < CACHES ==> pools[i] == EMPTY
    ensures HeapOk(l, seq(l.pageNum, _ => ORDER_NONE), pools, map[], map[])
  {
    EmptyOrders(l.Base(), l.pageNum);
    forall i | 0 <= i < CACHES
      ensures Good(pools[i], Size(i))
    {
      EmptyIsGood(Size(i));
    }
  }

  lemma AllocatorFacts(a: Allocator)
    requires a.Valid()
    ensures a.layout.Valid() && Blocks(a.layout.Base(), a.live) && |a.live| == a.layout.pageNum
  {
  }

  lemma NothingOffered(l: Layout, live: Orders, taken: set<nat>, pool: Pool)
    requires Lent(l, live, taken)
    ensures Lent(l, live, taken + (set p | p in [])) && OnlyOffered(l, live, live, []) && Offered(pool, [])
  {
    assert taken + (set p | p in []) == taken;
  }

  lemma ListReady(c: Cache)
    requires c.Valid() && (c.partialNr > 0 ==> c.partial != NULL)
    ensures c.pool.count > 0 ==> c.pool.list != []
  {
    FrontIs(c.objectSize, c.Mem(), c.pool);
  }

  /** What the invariant says of all that is held. */
  lemma AllHeld(l: Layout, live: Orders, pools: seq<Pool>, cacheOf: map<nat, nat>, held: Held)
    requires HeapOk(l, live, pools, cacheOf, held)
    ensures forall a, b :: a in held && b in held && a < b ==> a + Bytes(held[a]) <= b
    ensures forall a :: a in held ==> (a % PAGE_SIZE == 0 <==> held[a].Block?)
    ensures forall p :: Head(live, p) ==> l.AddrOf(p) in held || l.AddrOf(p) in cacheOf
  {
    forall a, b | a in held && b in held && a < b
      ensures a + Bytes(held[a]) <= b
    {
      HeldApart(l, live, pools, cacheOf, held, a, b);
    }
    forall a | a in held
      ensures a % PAGE_SIZE == 0 <==> held[a].Block?
    {
      HeldRouted(l, live, pools, cacheOf, held, a);
    }
  }

  /** The caches, each with its object size and no page. */
  method MakeCaches() returns (made: seq<Cache>)
    ensures |made| == CACHES && forall i, j :: 0 <= i < j < CACHES ==> made[i] != made[j]
    ensures forall i :: 0 <= i < CACHES ==>
              fresh(made[i]) && made[i].Valid() && made[i].objectSize == Size(i) && made[i].pool == EMPTY
  {
    hide Cache.Valid;
    made := [];
    while |made| < CACHES
      invariant |made| <= CACHES && forall i, j :: 0 <= i < j < |made| ==> made[i] != made[j]
      invariant forall i :: 0 <= i < |made| ==>
                  fresh(made[i]) && made[i].Valid() && made[i].objectSize == Size(i) && made[i].pool == EMPTY
    {
      var c := new Cache(MIN_ORDER + |made|);
      made := made + [c];
    }
  }

  /** The object, and the slot it stands for. */
  method AllocSlot(c: Cache, offer: seq<nat>) returns (obj: nat, ghost s: Slot)
    requires c.Valid() && Offered(c.pool, offer) && (c.partialNr > 0 ==> c.partial != NULL)
    modifies c
    ensures c.Valid() && old(MayAlloc(c.pool, c.objectSize, offer))
    ensures c.pool == SlubPool.Alloc(old(c.pool), c.objectSize, offer)
    ensures obj == NULL <==> SlubPool.Granted(old(c.pool), c.objectSize, offer) == {}
    ensures obj != NULL ==>
              s in SlubPool.Granted(old(c.pool), c.objectSize, offer) && obj == ObjectAt(c.objectSize, s.page, s.index)
  {
    hide Cache.Valid, Offered, Size, SlubPool.Alloc, SlubPool.Granted, MayAlloc, ObjectAt;
    ghost var pool := c.pool;
    s := Slot(0, 0);
    obj := c.Alloc(offer);
    if obj != NULL {
      s :| SlubPool.Granted(pool, c.objectSize, offer) == {s} && obj == ObjectAt(c.objectSize, s.page, s.index);
    }
  }

  datatype Call = GetBytes(size: nat) | GiveBack(addr: nat)

  class GeneralHeap {
    const pages: Allocator
    const caches: seq<Cache>
    var cacheOf: map<nat, nat>   // the cache that a slab page's header names
    ghost var pools: seq<Pool>
    ghost var held: Held

    ghost predicate CachesOk()
      reads this`pools, caches
    {
      && |caches| == CACHES == |pools|
      && (forall i :: 0 <= i < CACHES ==>
            caches[i].Valid() && caches[i].objectSize == Size(i) && caches[i].pool == pools[i])
      && (forall i, j :: 0 <= i < j < CACHES ==> caches[i] != caches[j])
    }

    ghost predicate Valid()
      reads this, caches, pages, pages.lists, pages.lists.first, pages.lists.next, pages.lists.prev,
            pages.lists.order, pages.orderAllocated
    {
      CachesOk() && pages.Valid() && HeapOk(pages.layout, pages.live, pools, cacheOf, held)
    }

    /** The cache's list is not found empty under a positive counter. */
    predicate Ready(i: nat)
      reads this, caches
    {
      i < |caches| && (caches[i].partialNr > 0 ==> caches[i].partial != NULL)
    }

    /** The cache counts no page and the page allocator grants none. */
    ghost predicate NoneIn(i: nat)
      reads this, caches, pages, pages.lists, pages.lists.order
    {
      i < |caches| && caches[i].partialNr == 0 && Exhausted(pages.layout, pages.lists.order[..], SLAB_SIZE)
    }

    /** There is no way to serve the size. */
    ghost predicate NoneLeft(size: nat)
      requires size > 0
      reads this, caches, pages, pages.lists, pages.lists.order
    {
      if size < SLAB_SIZE / 2 then NoneIn(CacheOrder(size) - MIN_ORDER)
      else Exhausted(pages.layout, pages.lists.order[..], size)
    }

    /** The counter of the object's cache is not about to overflow. */
    predicate Countable(obj: nat)
      reads this, caches
    {
      var page := obj - obj % SLAB_SIZE;
      page in cacheOf && cacheOf[page] < |caches| && caches[cacheOf[page]].partialNr + 1 < SIZE_MAX
    }

    constructor (start: nat, end: nat)
      requires start <= end && end < ADDRESS_LIMIT && start % PAGE_SIZE == 0 && end % PAGE_SIZE == 0 && start > 0
      requires var l := Divide(start, end, META_BITS); EndsInReach(l.memStart, l.MemEnd())
      ensures Valid() && held == map[] && cacheOf == map[] && pages.layout == Divide(start, end, META_BITS)
      ensures forall q :: 0 <= q < pages.layout.pageNum ==> pages.FreeFrame(q)
    {
      var a := new Allocator(start, end);
      var made := MakeCaches();
      pages, caches, cacheOf := a, made, map[];
      pools, held := seq(CACHES, _ => EMPTY), map[];
      new;
      AllocatorFacts(a);
      HeapEmpty(a.layout, pools);
    }

    /** A call to one cache leaves the others alone. */
    method TakeFrom(i: nat, offer: seq<nat>) returns (obj: nat, ghost s: Slot)
      requires CachesOk() && i < CACHES && Ready(i) && Offered(pools[i], offer)
      modifies this`pools, caches[i]
      ensures CachesOk() && old(MayAlloc(pools[i], Size(i), offer))
      ensures pools == old(pools)[i := SlubPool.Alloc(old(pools)[i], Size(i), offer)]
      ensures obj == NULL <==> SlubPool.Granted(old(pools)[i], Size(i), offer) == {}
      ensures obj != NULL ==>
                s in SlubPool.Granted(old(pools)[i], Size(i), offer) && obj == ObjectAt(Size(i), s.page, s.index)
    {
      hide Cache.Valid, Offered, Size, SlubPool.Alloc, SlubPool.Granted, MayAlloc, ObjectAt;
      ghost var pool := pools[i];
      obj, s := AllocSlot(caches[i], offer);
      pools := pools[i := caches[i].pool];
    }

    /** The pages a cache gets when its counter is zero. */
    method Stock(i: nat) returns (offer: seq<nat>)
      requires Valid() && i < CACHES && Ready(i)
      modifies pages, pages.lists, pages.lists.first, pages.lists.next, pages.lists.prev,
               pages.lists.order, pages.orderAllocated
      ensures CachesOk() && pages.Valid() && Ready(i) && Blocks(pages.layout.Base(), pages.live)
      ensures Offered(pools[i], offer) && |offer| <= MIN_PARTIAL && (pools[i].count > 0 ==> offer == [])
      ensures pools[i].count > 0 ==> pools[i].list != []
      ensures OnlyOffered(pages.layout, old(pages.live), pages.live, offer)
      ensures Lent(pages.layout, pages.live, cacheOf.Keys + (set p | p in offer))
      ensures forall p :: p in offer ==> p !in cacheOf.Keys
      ensures pools[i].count == 0 && offer == [] <==> old(NoneIn(i))
    {
      hide HeapOk, CachesOk, Allocator.Valid, Cache.Valid, OnlyOffered, Blocks, Offered, Lent, Good, Exhausted;
      CacheFacts(i);
      ListReady(caches[i]);
      GoodPool(pages.layout, pages.live, pools, cacheOf, held, i);
      NothingOffered(pages.layout, pages.live, cacheOf.Keys, pools[i]);
      offer := [];
      if caches[i].partialNr == 0 {
        offer := GrantPages(pages, MIN_PARTIAL, cacheOf.Keys, pools[i]);
      }
      AllocatorFacts(pages);
    }

    /** Allocate from one cache. */
    method AllocFrom(i: nat) returns (obj: nat, ghost s: Slot)
      requires Valid() && i < CACHES && Ready(i)
      modifies this, caches[i], pages, pages.lists, pages.lists.first, pages.lists.next, pages.lists.prev,
               pages.lists.order, pages.orderAllocated
      ensures Valid()
      ensures obj == NULL <==> old(NoneIn(i))
      ensures obj == NULL ==> held == old(held)
      ensures obj != NULL ==> obj !in old(held) && held == old(held)[obj := Object(i, s)]
      ensures obj != NULL ==> s.page in cacheOf && cacheOf[s.page] == i
    {
      hide HeapOk, CachesOk, Allocator.Valid, Cache.Valid, OnlyOffered, Blocks, Offered, Lent, Size, Stocked,
           SlubPool.Alloc, SlubPool.Granted, MayAlloc, ObjectAt, Owned;
      ghost var live, before := pages.live, pools;
      var offer := Stock(i);
      obj, s := TakeFrom(i, offer);
      ObjectTaken(pages.layout, live, pages.live, before, cacheOf, held, i, offer);
      cacheOf, held := Owned(cacheOf, offer, i), if obj == NULL then held else held[obj := Object(i, s)];
    }

    /** Allocate from the cache of the size. */
    method SlubAlloc(size: nat) returns (obj: nat)
      requires Valid() && 0 < size < SLAB_SIZE / 2 && Ready(CacheOrder(size) - MIN_ORDER)
      modifies this, caches, pages, pages.lists, pages.lists.first, pages.lists.next, pages.lists.prev,
               pages.lists.order, pages.orderAllocated
      ensures Valid()
      ensures obj == NULL <==> old(NoneLeft(size))
      ensures obj == NULL ==> held == old(held)
      ensures obj != NULL ==>
                && obj !in old(held) && obj in held && held == old(held)[obj := held[obj]] && held[obj].Object?
                && size <= Bytes(held[obj])
    {
      hide HeapOk, CachesOk, Allocator.Valid, Size, Pow2, CeilLog2;
      CacheOrderFits(size);
      SizeIs(CacheOrder(size) - MIN_ORDER);
      ghost var s;
      obj, s := AllocFrom(CacheOrder(size) - MIN_ORDER);
    }

    /** The page allocator's answer, the rest left alone. */
    method TakePages(size: nat) returns (addr: nat)
      requires CachesOk() && pages.Valid() && size > 0
      modifies pages, pages.lists, pages.lists.first, pages.lists.next, pages.lists.prev,
               pages.lists.order, pages.orderAllocated
      ensures CachesOk() && pages.Valid() && Blocks(pages.layout.Base(), pages.live)
      ensures addr == NULL <==> old(Exhausted(pages.layout, pages.lists.order[..], size))
      ensures addr == NULL ==> pages.live == old(pages.live)
      ensures addr != NULL ==>
                var p, order := pages.layout.PageOf(addr), SizeToOrder(size);
                && 0 <= p < |old(pages.live)| && addr == pages.layout.AddrOf(p) && old(pages.live)[p] == ORDER_NONE
                && PAGE_BITS <= order <= ORDER_MAX && pages.live == old(pages.live)[p := order]
                && size <= Span(order) * PAGE_SIZE
    {
      hide CachesOk, Allocator.Valid, Blocks, SizeToOrder, RunCovered, CoverLess, Aligned;
      AllocatorFacts(pages);
      addr := pages.Alloc(size);
      AllocatorFacts(pages);
      SizeToOrderIsLeast(size);
      BlockBytes(SizeToOrder(size));
    }

    /** A live block goes back to the page allocator, the rest left alone. */
    method GiveBlock(addr: nat)
      requires CachesOk() && pages.Valid() && Head(pages.live, pages.layout.PageOf(addr))
      requires addr == pages.layout.AddrOf(pages.layout.PageOf(addr))
      modifies pages, pages.lists, pages.lists.first, pages.lists.next, pages.lists.prev, pages.lists.order
      ensures CachesOk() && pages.Valid() && Blocks(pages.layout.Base(), pages.live)
      ensures pages.live == old(pages.live)[pages.layout.PageOf(addr) := ORDER_NONE]
    {
      hide CachesOk, Allocator.Valid, Blocks, CoverMore;
      pages.Free(addr);
      AllocatorFacts(pages);
    }

    /** Allocate whole pages. */
    method BlockAlloc(size: nat) returns (addr: nat)
      requires Valid() && size > 0
      modifies this`held, pages, pages.lists, pages.lists.first, pages.lists.next, pages.lists.prev,
               pages.lists.order, pages.orderAllocated
      ensures Valid()
      ensures addr == NULL <==> old(Exhausted(pages.layout, pages.lists.order[..], size))
      ensures addr == NULL ==> held == old(held)
      ensures addr != NULL ==>
                && addr !in old(held) && held == old(held)[addr := Block(SizeToOrder(size))]
                && size <= Bytes(Block(SizeToOrder(size)))
    {
      hide HeapOk, CachesOk, Allocator.Valid, Blocks, SizeToOrder, Layout.Valid, Layout.PageOf, Layout.AddrOf,
           Layout.Base;
      AllocatorFacts(pages);
      ghost var live := pages.live;
      addr := TakePages(size);
      if addr != NULL {
        BlockTaken(pages.layout, live, pages.live, pools, cacheOf, held, pages.layout.PageOf(addr), SizeToOrder(size));
        held := held[addr := Block(SizeToOrder(size))];
      }
    }

    /** Allocate at least size bytes: small sizes from a cache, others in whole pages. */
    method Alloc(size: nat) returns (addr: nat)
      requires Valid() && size > 0 && (size < SLAB_SIZE / 2 ==> Ready(CacheOrder(size) - MIN_ORDER))
      modifies this, caches, pages, pages.lists, pages.lists.first, pages.lists.next, pages.lists.prev,
               pages.lists.order, pages.orderAllocated
      ensures Valid()
      ensures addr == NULL <==> old(NoneLeft(size))
      ensures addr == NULL ==> held == old(held)
      ensures addr != NULL ==>
                && addr !in old(held) && addr in held && held == old(held)[addr := held[addr]]
                && size <= Bytes(held[addr])
      ensures addr != NULL ==> (held[addr].Object? <==> size < SLAB_SIZE / 2)
    {
      hide HeapOk, CachesOk, Allocator.Valid, Bytes, CacheOrder;
      if size < SLAB_SIZE / 2 {
        addr := SlubAlloc(size);
      } else {
        addr := BlockAlloc(size);
      }
    }

    /** Give a block back to the page allocator. */
    method BlockFree(addr: nat)
      requires Valid() && addr in held && held[addr].Block?
      modifies this`held, pages, pages.lists, pages.lists.first, pages.lists.next, pages.lists.prev,
               pages.lists.order
      ensures Valid() && held == old(held) - {addr}
    {
      hide HeapOk, CachesOk, Allocator.Valid, Blocks, Layout.Valid, Layout.PageOf, Layout.AddrOf, Layout.Base, Head;
      AllocatorFacts(pages);
      HeldBlock(pages.layout, pages.live, pools, cacheOf, held, addr);
      ghost var live, p := pages.live, pages.layout.PageOf(addr);
      GiveBlock(addr);
      BlockReturned(pages.layout, live, pages.live, pools, cacheOf, held, p);
      held := held - {addr};
    }

    /** A return to one cache leaves the others alone. */
    method PutBack(i: nat, obj: nat, ghost s: Slot) returns (released: nat)
      requires CachesOk() && i < CACHES && s in Live(pools[i], Size(i)) && obj == ObjectAt(Size(i), s.page, s.index)
      requires caches[i].partialNr + 1 < SIZE_MAX
      modifies this`pools, caches[i]
      ensures CachesOk() && s.page in old(pools)[i].chains
      ensures pools == old(pools)[i := SlubPool.Free(old(pools)[i], Size(i), s)]
      ensures released == if Releases(old(pools)[i], Size(i), s) then s.page else NULL
    {
      hide Cache.Valid, Size, SlubPool.Free, Releases, Live, ObjectAt;
      var c := caches[i];
      released := c.Free(obj, s);
      pools := pools[i := c.pool];
    }

    /** Give an object back to the cache of its page; a page released goes back to the page allocator. */
    method SlubFree(addr: nat)
      requires Valid() && addr in held && held[addr].Object? && Countable(addr)
      modifies this, caches, pages, pages.lists, pages.lists.first, pages.lists.next, pages.lists.prev,
               pages.lists.order
      ensures Valid() && held == old(held) - {addr}
    {
      hide HeapOk, CachesOk, Allocator.Valid, Blocks, Layout.Valid, Layout.PageOf, Layout.AddrOf, Layout.Base, Head,
           Releases, SlubPool.Free, Size, ObjectAt, Live;
      var page := addr - addr % SLAB_SIZE;
      var i := cacheOf[page];
      ghost var s, live := held[addr].slot, pages.live;
      AllocatorFacts(pages);
      HeldObject(pages.layout, live, pools, cacheOf, held, addr);
      ObjectReturned(pages.layout, live, pools, cacheOf, held, i, s);
      var released := PutBack(i, addr, s);
      if released != NULL {
        GiveBlock(released);
        cacheOf := cacheOf - {released};
      }
      held := held - {addr};
    }

    /** Give back what was allocated: the alignment of the address says to whom. */
    method Free(addr: nat)
      requires Valid() && addr in held && (addr % PAGE_SIZE != 0 ==> Countable(addr))
      modifies this, caches, pages, pages.lists, pages.lists.first, pages.lists.next, pages.lists.prev,
               pages.lists.order
      ensures Valid() && held == old(held) - {addr}
    {
      hide HeapOk, CachesOk, Allocator.Valid, Countable;
      HeldRouted(pages.layout, pages.live, pools, cacheOf, held, addr);
      if addr % PAGE_SIZE == 0 {
        BlockFree(addr);
      } else {
        SlubFree(addr);
      }
    }

    /**
     * Serve any calls in any order, up to the first one the code is not fit for: no bytes at all, an address not
     * handed out, or a cache whose list is empty under a positive counter. Whatever is handed out at the end
     * lies apart, goes back where it came from, and accounts for every live block that no cache has.
     */
    method Run(calls: seq<Call>, before: set<nat>) returns (handed: set<nat>)
      requires Valid() && before == held.Keys
      modifies this, caches, pages, pages.lists, pages.lists.first, pages.lists.next, pages.lists.prev,
               pages.lists.order, pages.orderAllocated
      ensures Valid() && handed == held.Keys
      ensures forall a, b :: a in handed && b in handed && a < b ==>
                a + Bytes(held[a]) <= b
      ensures forall a :: a in handed ==> (a % PAGE_SIZE == 0 <==> held[a].Block?)
      ensures forall p :: Head(pages.live, p) ==> pages.layout.AddrOf(p) in handed || pages.layout.AddrOf(p) in cacheOf
    {
      hide HeapOk, CachesOk, Allocator.Valid, Countable, Ready, Bytes;
      handed := before;
      for k := 0 to |calls|
        invariant Valid() && handed == held.Keys
      {
        match calls[k] {
          case GetBytes(size) =>
            if size == 0 || (size < SLAB_SIZE / 2 && !Ready(CacheOrder(size) - MIN_ORDER)) {
              break;
            }
            var addr := Alloc(size);
            if addr != NULL {
              handed := handed + {addr};
            }
          case GiveBack(addr) =>
            if addr !in handed || (addr % PAGE_SIZE != 0 && !Countable(addr)) {
              break;
            }
            Free(addr);
            handed := handed - {addr};
        }
      }
      AllHeld(pages.layout, pages.live, pools, cacheOf, held);
    }

    lemma CacheFacts(i: nat)
      requires CachesOk() && i < CACHES
      ensures |caches| == CACHES == |pools| && caches[i].Valid() && caches[i].objectSize == Size(i)
      ensures caches[i].pool == pools[i] && caches[i].partialNr == pools[i].count
    {
    }
  }

  lemma SizeIs(i: nat)
    ensures Size(i) == Pow2(MIN_ORDER + i)
  {
  }
}
