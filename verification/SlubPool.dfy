/**
 * The slabs of one object size seen from outside: which pages they occupy, the free slots of each page in the
 * order they will be given out, the pages with a free slot in list order, and the counter kept for that list.
 */
module SlubPool {
  import opened Powers

  const MIN_ORDER := 3
  const MAX_ORDER := 11
  const MIN_PARTIAL := 2
  const SLAB_SIZE := 4096
  const HEADER_SIZE := 56
  const META_SIZE := 8
  const NULL := 0

  predicate ObjectSize(size: nat) {
    exists order :: MIN_ORDER <= order <= MAX_ORDER && size == Pow2(order)
  }

  /** The cache that serves a size: the least power of two that holds it, from 8 bytes on. */
  function CacheOrder(size: nat): nat
    requires size > 0
  {
    var order := CeilLog2(size);
    if order > MIN_ORDER then order else MIN_ORDER
  }

  /** Every size the general allocator sends here has a cache, and its objects are the smallest that fit. */
  lemma CacheOrderFits(size: nat)
    requires 0 < size < SLAB_SIZE / 2
    ensures MIN_ORDER <= CacheOrder(size) <= MAX_ORDER && size <= Pow2(CacheOrder(size))
    ensures forall order :: order >= MIN_ORDER && size <= Pow2(order) ==> CacheOrder(size) <= order
  {
    CeilLog2IsLeast(size);
    SizesArePowers();
    if CeilLog2(size) <= MIN_ORDER {
      Pow2Monotone(CeilLog2(size), MIN_ORDER);
    }
  }

  lemma SizesArePowers()
    ensures Pow2(3) == 8 && Pow2(4) == 16 && Pow2(5) == 32 && Pow2(6) == 64 && Pow2(7) == 128
    ensures Pow2(8) == 256 && Pow2(9) == 512 && Pow2(10) == 1024 && Pow2(11) == 2048
  {
    assert Pow2(4) == 16;
    assert Pow2(6) == 64;
    assert Pow2(8) == 256;
    assert Pow2(10) == 1024;
  }

  /** How many slots a page has. */
  function Slots(size: nat): nat {
    (SLAB_SIZE - HEADER_SIZE) / (size + META_SIZE)
  }

  /** Slot i of a page: the object, followed by its free-chain pointer. */
  function ObjectAt(size: nat, page: nat, i: nat): nat {
    page + HEADER_SIZE + i * (size + META_SIZE)
  }

  function MetaAt(size: nat, page: nat, i: nat): nat {
    ObjectAt(size, page, i) + size
  }

  lemma SizesAreThese(size: nat)
    requires ObjectSize(size)
    ensures size in {8, 16, 32, 64, 128, 256, 512, 1024, 2048} && Slots(size) > 0
  {
    var order :| MIN_ORDER <= order <= MAX_ORDER && size == Pow2(order);
    SizesArePowers();
  }

  lemma SlotsBefore(size: nat, i: nat, j: nat)
    requires i < j
    ensures ObjectAt(size, 0, i) + size + META_SIZE <= ObjectAt(size, 0, j)
  {
    AtLeastTimes(i + 1, j, size + META_SIZE);
    OneMoreTimes(i, size + META_SIZE);
  }

  lemma AtLeastTimes(a: nat, b: nat, m: nat)
    requires a <= b
    ensures a * m <= b * m
  {
  }

  /** The slots lie between the page header and the page end. */
  lemma SlotInPage(size: nat, i: nat)
    requires size > 0 && i < Slots(size)
    ensures HEADER_SIZE <= ObjectAt(size, 0, i) && MetaAt(size, 0, i) + META_SIZE <= SLAB_SIZE
  {
    var unit := size + META_SIZE;
    FloorTimes(SLAB_SIZE - HEADER_SIZE, unit);
    hide Slots;
    AtLeastTimes(i + 1, Slots(size), unit);
    OneMoreTimes(i, unit);
  }

  lemma FloorTimes(x: nat, d: nat)
    requires d > 0
    ensures x / d * d <= x
  {
  }

  lemma OneMoreTimes(i: nat, m: nat)
    ensures (i + 1) * m == i * m + m
  {
  }

  lemma AtPage(size: nat, page: nat, i: nat)
    ensures ObjectAt(size, page, i) == page + ObjectAt(size, 0, i) && MetaAt(size, page, i) == page + MetaAt(size, 0, i)
  {
  }

  /** Clearing the low twelve bits of an object's address gives its page; an object is never page-aligned itself. */
  lemma MaskFindsPage(size: nat, page: nat, i: nat)
    requires size > 0 && i < Slots(size) && page % SLAB_SIZE == 0
    ensures var obj := ObjectAt(size, page, i);
            obj - obj % SLAB_SIZE == page && obj % SLAB_SIZE != 0
  {
    SlotInPage(size, i);
    AtPage(size, page, i);
    hide ObjectAt, Slots;
    var offset := ObjectAt(size, 0, i);
    assert (page + offset) % SLAB_SIZE == offset;
  }

  /** Two slots share no byte, neither of their objects nor of their chain pointers, and none with a page header. */
  lemma SlotsApart(size: nat, p: nat, i: nat, q: nat, j: nat)
    requires size > 0 && i < Slots(size) && j < Slots(size) && p % SLAB_SIZE == 0 && q % SLAB_SIZE == 0
             && (p, i) != (q, j)
    ensures MetaAt(size, p, i) + META_SIZE <= ObjectAt(size, q, j)
            || MetaAt(size, q, j) + META_SIZE <= ObjectAt(size, p, i)
    ensures MetaAt(size, p, i) + META_SIZE <= q || q + HEADER_SIZE <= ObjectAt(size, p, i)
  {
    SlotInPage(size, i);
    SlotInPage(size, j);
    AtPage(size, p, i);
    AtPage(size, q, j);
    if i < j {
      SlotsBefore(size, i, j);
    } else if j < i {
      SlotsBefore(size, j, i);
    }
    PagesApart(p, q);
  }

  lemma PagesApart(p: nat, q: nat)
    requires p % SLAB_SIZE == 0 && q % SLAB_SIZE == 0
    ensures p == q || p + SLAB_SIZE <= q || q + SLAB_SIZE <= p
  {
  }

  /** An address is the chain pointer of one slot at most. */
  lemma MetaInjective(size: nat, p: nat, i: nat, q: nat, j: nat)
    requires size > 0 && i < Slots(size) && j < Slots(size) && p % SLAB_SIZE == 0 && q % SLAB_SIZE == 0
    requires MetaAt(size, p, i) == MetaAt(size, q, j)
    ensures p == q && i == j
  {
    if (p, i) != (q, j) {
      SlotsApart(size, p, i, q, j);
    }
  }

  // ---------------------------------------------------------------- requests

  datatype Pool = Pool(list: seq<nat>, chains: map<nat, seq<nat>>, count: nat)

  datatype Slot = Slot(page: nat, index: nat)

  const EMPTY := Pool([], map[], 0)

  /** All slots of a page, first to last. */
  function FreshChain(n: nat): (c: seq<nat>)
    ensures |c| == n && forall i :: 0 <= i < n ==> c[i] == i
  {
    seq(n, i => i)
  }

  /** Two new pages, or as many as the page allocator grants; the old list is overwritten. */
  function Expand(pool: Pool, size: nat, offer: seq<nat>): Pool {
    WithPages(pool, size, offer[..if |offer| < MIN_PARTIAL then |offer| else MIN_PARTIAL])
  }

  /** A list of these new pages alone, the last one first. */
  function WithPages(pool: Pool, size: nat, pages: seq<nat>): Pool {
    Pool(Reversed(pages), Added(pool.chains, pages, Slots(size)), |pages|)
  }

  function Reversed(s: seq<nat>): (r: seq<nat>) {
    if s == [] then [] else [s[|s| - 1]] + Reversed(s[..|s| - 1])
  }

  function Added(chains: map<nat, seq<nat>>, pages: seq<nat>, slots: nat): map<nat, seq<nat>> {
    if pages == [] then chains
    else Added(chains, pages[..|pages| - 1], slots)[pages[|pages| - 1] := FreshChain(slots)]
  }

  /** What the allocator demands of the list before it takes a slot. */
  predicate MayTake(pool: Pool) {
    pool.count > 0 && pool.list != [] && pool.list[0] in pool.chains && pool.chains[pool.list[0]] != []
  }

  /** Take the first free slot of the first page; a page left full leaves the list. */
  function Take(pool: Pool): Pool
    requires MayTake(pool)
  {
    var page := pool.list[0];
    var chain := pool.chains[page];
    if |chain| == 1 then Pool(pool.list[1..], pool.chains[page := []], pool.count - 1)
    else pool.(chains := pool.chains[page := chain[1..]])
  }

  function Taken(pool: Pool): Slot
    requires MayTake(pool)
  {
    Slot(pool.list[0], pool.chains[pool.list[0]][0])
  }

  /** The pool after the first test of an allocation. */
  function Stocked(pool: Pool, size: nat, offer: seq<nat>): Pool {
    if pool.count == 0 then Expand(pool, size, offer) else pool
  }

  predicate MayAlloc(pool: Pool, size: nat, offer: seq<nat>) {
    var stocked := Stocked(pool, size, offer);
    stocked.count > 0 ==> MayTake(stocked)
  }

  function Alloc(pool: Pool, size: nat, offer: seq<nat>): Pool
    requires MayAlloc(pool, size, offer)
  {
    var stocked := Stocked(pool, size, offer);
    if stocked.count == 0 then stocked else Take(stocked)
  }

  /** The slot handed out; none when the page allocator granted nothing. */
  function Granted(pool: Pool, size: nat, offer: seq<nat>): set<Slot>
    requires MayAlloc(pool, size, offer)
  {
    var stocked := Stocked(pool, size, offer);
    if stocked.count == 0 then {} else {Taken(stocked)}
  }

  /** Put a slot back at the front of its page's chain; a page that was full joins the list at the front. */
  function Put(pool: Pool, s: Slot): Pool
    requires s.page in pool.chains
  {
    var chain := pool.chains[s.page];
    var back := pool.(chains := pool.chains[s.page := [s.index] + chain]);
    if chain == [] then back.(list := [s.page] + pool.list, count := pool.count + 1) else back
  }

  /** The page is wholly free and the counter is above the minimum: it goes back to the page allocator. */
  predicate Releases(pool: Pool, size: nat, s: Slot)
    requires s.page in pool.chains
  {
    var put := Put(pool, s);
    |put.chains[s.page]| == Slots(size) && put.count > MIN_PARTIAL
  }

  /** The release takes the page off the list and leaves the counter alone. */
  function Free(pool: Pool, size: nat, s: Slot): Pool
    requires s.page in pool.chains
  {
    var put := Put(pool, s);
    if Releases(pool, size, s) then put.(list := Without(put.list, s.page), chains := put.chains - {s.page}) else put
  }

  function Without(list: seq<nat>, page: nat): (r: seq<nat>) {
    if list == [] then [] else if list[0] == page then list[1..] else [list[0]] + Without(list[1..], page)
  }

  /** Slots in use. */
  ghost function Live(pool: Pool, size: nat): iset<Slot> {
    iset s: Slot | s.page in pool.chains && s.index < Slots(size) && s.index !in pool.chains[s.page]
  }

  // ---------------------------------------------------------------- the invariant

  predicate Distinct(s: seq<nat>) {
    forall i, j :: 0 <= i < j < |s| ==> s[i] != s[j]
  }

  /** A chain visits slots of its page, each once. */
  predicate ChainOk(chain: seq<nat>, slots: nat) {
    Distinct(chain) && forall i :: 0 <= i < |chain| ==> chain[i] < slots
  }

  ghost predicate Good(pool: Pool, size: nat) {
    && size > 0 && Slots(size) > 0
    && (forall p :: p in pool.chains ==> p != NULL && p % SLAB_SIZE == 0 && ChainOk(pool.chains[p], Slots(size)))
    && Distinct(pool.list) && (forall p :: p in pool.list <==> p in pool.chains && pool.chains[p] != [])
    && pool.count >= |pool.list|
  }

  /** What the page allocator grants: pages nobody has. */
  predicate Offered(pool: Pool, offer: seq<nat>) {
    Distinct(offer) && forall i :: 0 <= i < |offer| ==>
        offer[i] != NULL && offer[i] % SLAB_SIZE == 0 && offer[i] !in pool.chains
  }

  lemma {:induction false} ReversedHas(s: seq<nat>)
    ensures |Reversed(s)| == |s| && forall x :: x in Reversed(s) <==> x in s
    ensures Distinct(s) ==> Distinct(Reversed(s))
  {
    if s == [] {
    } else {
      var rest, last := s[..|s| - 1], s[|s| - 1];
      ReversedHas(rest);
      assert s == rest + [last];
      if Distinct(s) {
        assert last !in rest;
        ConsDistinct(last, Reversed(rest));
      }
    }
  }

  lemma ConsDistinct(x: nat, s: seq<nat>)
    requires Distinct(s) && x !in s
    ensures Distinct([x] + s)
  {
    assert forall i :: 0 <= i < |s| ==> s[i] in s;
  }

  lemma {:induction false} AddedHas(chains: map<nat, seq<nat>>, pages: seq<nat>, slots: nat)
    ensures Added(chains, pages, slots).Keys == chains.Keys + (set p | p in pages)
    ensures forall p :: p in Added(chains, pages, slots) ==>
              Added(chains, pages, slots)[p] == if p in pages then FreshChain(slots) else chains[p]
  {
    if pages == [] {
    } else {
      var rest, last := pages[..|pages| - 1], pages[|pages| - 1];
      AddedHas(chains, rest, slots);
      assert pages == rest + [last];
    }
  }

  lemma FreshHasAll(n: nat)
    ensures forall i: nat :: i < n ==> i in FreshChain(n)
    ensures ChainOk(FreshChain(n), n)
  {
    forall i: nat | i < n
      ensures i in FreshChain(n)
    {
      assert FreshChain(n)[i] == i;
    }
  }

  /** An expansion finds the list empty, so it loses no page, and it takes no slot out of use. */
  lemma ExpandKeeps(pool: Pool, size: nat, offer: seq<nat>)
    requires Good(pool, size) && pool.count == 0 && Offered(pool, offer)
    ensures pool.list == []
    ensures Good(Expand(pool, size, offer), size) && |Expand(pool, size, offer).list| == Expand(pool, size, offer).count
    ensures Live(Expand(pool, size, offer), size) == Live(pool, size)
  {
    WithPagesKeeps(pool, size, offer[..if |offer| < MIN_PARTIAL then |offer| else MIN_PARTIAL]);
  }

  lemma WithPagesKeeps(pool: Pool, size: nat, used: seq<nat>)
    requires Good(pool, size) && pool.list == [] && Offered(pool, used)
    ensures Good(WithPages(pool, size, used), size) && Live(WithPages(pool, size, used), size) == Live(pool, size)
    ensures |WithPages(pool, size, used).list| == |used|
  {
    ReversedHas(used);
    AddedHas(pool.chains, used, Slots(size));
    FreshHasAll(Slots(size));
    hide Reversed, Added, Slots;
    NewPagesGood(pool, size, used, WithPages(pool, size, used).chains);
  }

  lemma NewPagesGood(pool: Pool, size: nat, used: seq<nat>, chains: map<nat, seq<nat>>)
    requires Good(pool, size) && pool.list == [] && Offered(pool, used)
    requires forall p :: p in chains <==> p in pool.chains || p in used
    requires forall p :: p in chains ==> chains[p] == if p in used then FreshChain(Slots(size)) else pool.chains[p]
    ensures forall p :: p in chains ==> p != NULL && p % SLAB_SIZE == 0 && ChainOk(chains[p], Slots(size))
    ensures forall p :: p in used <==> p in chains && chains[p] != []
    ensures Live(pool.(chains := chains), size) == Live(pool, size)
  {
    FreshHasAll(Slots(size));
    hide Slots, FreshChain;
    forall p | p in chains
      ensures p != NULL && p % SLAB_SIZE == 0 && ChainOk(chains[p], Slots(size))
      ensures p in used <==> chains[p] != []
    {
      assert p in pool.chains ==> p !in used && p !in pool.list;
    }
    forall s: Slot
      ensures s in Live(pool.(chains := chains), size) <==> s in Live(pool, size)
    {
      assert s.page in used ==> s.page !in pool.chains;
    }
  }

  /** A slot handed out was free, is in use now, and nothing else has changed hands. */
  lemma TakeKeeps(pool: Pool, size: nat)
    requires Good(pool, size) && pool.list != []
    ensures MayTake(pool) && Good(Take(pool), size)
    ensures Take(pool).count - |Take(pool).list| == pool.count - |pool.list|
    ensures Taken(pool) !in Live(pool, size) && Taken(pool).index < Slots(size)
    ensures Live(Take(pool), size) == Live(pool, size) + iset{Taken(pool)}
  {
    var page := pool.list[0];
    assert page in pool.list;
    var chain := pool.chains[page];
    assert ChainOk(chain, Slots(size));
    var pool' := Take(pool);
    TailHas(chain);
    TailHas(pool.list);
    TakenLive(pool, size);
  }

  lemma TakenLive(pool: Pool, size: nat)
    requires MayTake(pool) && ChainOk(pool.chains[pool.list[0]], Slots(size))
    ensures Live(Take(pool), size) == Live(pool, size) + iset{Taken(pool)}
  {
    var page := pool.list[0];
    TailHas(pool.chains[page]);
  }

  lemma TailHas(s: seq<nat>)
    requires Distinct(s) && s != []
    ensures Distinct(s[1..]) && forall x :: x in s[1..] <==> x in s && x != s[0]
  {
    assert s == [s[0]] + s[1..];
    forall x | x in s[1..]
      ensures x != s[0]
    {
      var i :| 0 <= i < |s[1..]| && s[1..][i] == x;
      assert s[i + 1] == x;
    }
  }

  lemma PutKeeps(pool: Pool, size: nat, s: Slot)
    requires Good(pool, size) && s in Live(pool, size)
    ensures Good(Put(pool, s), size) && s.page in Put(pool, s).list
    ensures Put(pool, s).count - |Put(pool, s).list| == pool.count - |pool.list|
    ensures Live(Put(pool, s), size) == Live(pool, size) - iset{s}
  {
    var chain := pool.chains[s.page];
    assert ChainOk(chain, Slots(size));
    assert ChainOk([s.index] + chain, Slots(size));
    assert chain == [] ==> s.page !in pool.list;
    var pool' := Put(pool, s);
    assert s.page in pool.list || pool'.list[0] == s.page;
    assert forall p :: p in pool'.list <==> p in pool.list || p == s.page;
  }

  lemma {:induction false} WithoutHas(list: seq<nat>, page: nat)
    requires Distinct(list) && page in list
    ensures |Without(list, page)| == |list| - 1 && Distinct(Without(list, page))
    ensures forall x :: x in Without(list, page) <==> x in list && x != page
  {
    TailHas(list);
    assert list == [list[0]] + list[1..];
    if list[0] != page {
      WithoutHas(list[1..], page);
      assert list[0] !in Without(list[1..], page);
      ConsDistinct(list[0], Without(list[1..], page));
    }
  }

  function Below(n: nat): (r: set<nat>)
    ensures |r| == n && forall i: nat :: i in r <==> i < n
  {
    if n == 0 then {} else Below(n - 1) + {n - 1}
  }

  function Elements(s: seq<nat>): (r: set<nat>)
    ensures forall x :: x in r <==> x in s
  {
    if s == [] then {} else assert s == [s[0]] + s[1..]; {s[0]} + Elements(s[1..])
  }

  lemma {:induction false} DistinctSize(s: seq<nat>)
    requires Distinct(s)
    ensures |Elements(s)| == |s|
  {
    if s == [] {
    } else {
      DistinctSize(s[1..]);
      assert s[0] !in s[1..];
    }
  }

  lemma {:induction false} SubsetOfSameSize(a: set<nat>, b: set<nat>)
    requires a <= b && |a| == |b|
    ensures a == b
    decreases |a|
  {
    if x :| x in a {
      SubsetOfSameSize(a - {x}, b - {x});
      assert a == (a - {x}) + {x} && b == (b - {x}) + {x};
    } else {
      assert a == {};
    }
  }

  /** A chain as long as the page has slots holds them all. */
  lemma FullChainHasAll(chain: seq<nat>, slots: nat)
    requires ChainOk(chain, slots) && |chain| == slots
    ensures forall i :: 0 <= i < slots ==> i in chain
  {
    DistinctSize(chain);
    SubsetOfSameSize(Elements(chain), Below(slots));
    forall i | 0 <= i < slots
      ensures i in chain
    {
      assert i in Below(slots);
      assert i in Elements(chain);
    }
  }

  /** A chain that holds every slot is as long as the page has slots. */
  lemma AllChainedIsFull(chain: seq<nat>, slots: nat)
    requires ChainOk(chain, slots) && forall i: nat :: i < slots ==> i in chain
    ensures |chain| == slots
  {
    DistinctSize(chain);
    assert Elements(chain) == Below(slots);
  }

  /** The slot is the last of its page in use. */
  ghost predicate LastInUse(pool: Pool, size: nat, s: Slot) {
    forall r: Slot :: r in Live(pool, size) && r.page == s.page ==> r == s
  }

  /** A page goes back exactly when its last slot in use is freed and the counter then exceeds two. */
  lemma ReleasesExactlyWhen(pool: Pool, size: nat, s: Slot)
    requires Good(pool, size) && s in Live(pool, size)
    ensures Releases(pool, size, s) <==> LastInUse(pool, size, s) && Free(pool, size, s).count > 2
    ensures Releases(pool, size, s) <==> s.page !in Free(pool, size, s).chains
    ensures forall p :: p in pool.chains && p != s.page ==>
              p in Free(pool, size, s).chains && Free(pool, size, s).chains[p] == pool.chains[p]
  {
    LastMeansFull(pool, size, s);
    hide Live, Slots, LastInUse, Good;
  }

  lemma LastMeansFull(pool: Pool, size: nat, s: Slot)
    requires Good(pool, size) && s in Live(pool, size)
    ensures LastInUse(pool, size, s) <==> |[s.index] + pool.chains[s.page]| == Slots(size)
  {
    var chain := [s.index] + pool.chains[s.page];
    assert ChainOk(pool.chains[s.page], Slots(size));
    assert ChainOk(chain, Slots(size));
    hide Slots;
    if |chain| == Slots(size) {
      FullChainHasAll(chain, Slots(size));
      forall r: Slot | r in Live(pool, size) && r.page == s.page
        ensures r == s
      {
        assert r.index in chain;
      }
    }
    if LastInUse(pool, size, s) {
      forall i: nat | i < Slots(size)
        ensures i in chain
      {
        assert Slot(s.page, i) in Live(pool, size) ==> i == s.index;
      }
      AllChainedIsFull(chain, Slots(size));
    }
  }

  /** No more slots would fit into a page. */
  lemma SlotsFillPage(size: nat)
    requires size > 0
    ensures MetaAt(size, 0, Slots(size)) + META_SIZE > SLAB_SIZE
  {
    CeilingTimes(SLAB_SIZE - HEADER_SIZE, size + META_SIZE);
  }

  lemma CeilingTimes(x: nat, d: nat)
    requires d > 0
    ensures x < x / d * d + d
  {
  }

  /**
   * Freeing takes exactly the slot out of use; a page released has no slot in use; the counter gains on the list
   * by one with each release.
   */
  lemma FreeKeeps(pool: Pool, size: nat, s: Slot)
    requires Good(pool, size) && s in Live(pool, size)
    ensures Good(Free(pool, size, s), size) && Live(Free(pool, size, s), size) == Live(pool, size) - iset{s}
    ensures Free(pool, size, s).count - |Free(pool, size, s).list|
         == pool.count - |pool.list| + (if Releases(pool, size, s) then 1 else 0)
  {
    PutKeeps(pool, size, s);
    var put := Put(pool, s);
    if Releases(pool, size, s) {
      WithoutHas(put.list, s.page);
      assert ChainOk(put.chains[s.page], Slots(size));
      FullChainHasAll(put.chains[s.page], Slots(size));
      hide Without, Put;
    }
  }

  /**
   * Last in, first out: a slot freed into the page at the head of the list, or into a full page, is the next one
   * handed out, and the pool is as before.
   */
  lemma FreedIsNextTaken(pool: Pool, size: nat, s: Slot)
    requires Good(pool, size) && s in Live(pool, size) && !Releases(pool, size, s)
    requires pool.chains[s.page] == [] || pool.list[0] == s.page
    ensures MayTake(Free(pool, size, s)) && Taken(Free(pool, size, s)) == s
    ensures Take(Free(pool, size, s)) == pool
  {
    var chain := pool.chains[s.page];
    var pool' := Free(pool, size, s);
    assert chain != [] ==> s.page in pool.list && |pool.list| > 0;
    assert pool'.chains[s.page][1..] == chain;
    assert pool'.chains[s.page := chain] == pool.chains;
    assert chain == [] ==> pool'.list[1..] == pool.list;
  }

  /** Freeing what was just taken restores the pool, unless the page goes back to the page allocator. */
  lemma TakenCanBePutBack(pool: Pool, size: nat)
    requires Good(pool, size) && pool.list != []
    ensures MayTake(pool) && Taken(pool).page in Take(pool).chains
    ensures !Releases(Take(pool), size, Taken(pool)) ==> Free(Take(pool), size, Taken(pool)) == pool
  {
    TakeKeeps(pool, size);
    var page := pool.list[0];
    var chain := pool.chains[page];
    assert chain == [chain[0]] + chain[1..];
    assert pool.list == [page] + pool.list[1..];
    assert pool.chains[page := chain] == pool.chains;
  }

  // ---------------------------------------------------------------- runs

  datatype Request = AllocRequest(offer: seq<nat>) | FreeRequest(s: Slot)

  /**
   * The caller frees only what is in use, the page allocator grants only what nobody has, and the list is not
   * found empty under a positive counter.
   */
  ghost predicate Possible(pool: Pool, size: nat, r: Request) {
    match r
    case AllocRequest(offer) => Offered(pool, offer) && (pool.count > 0 ==> pool.list != [])
    case FreeRequest(s) => s in Live(pool, size)
  }

  lemma PossibleMeansMay(pool: Pool, size: nat, offer: seq<nat>)
    requires Good(pool, size) && Possible(pool, size, AllocRequest(offer))
    ensures MayAlloc(pool, size, offer)
  {
    if pool.count == 0 {
      ExpandKeeps(pool, size, offer);
      if Expand(pool, size, offer).count > 0 {
        TakeKeeps(Expand(pool, size, offer), size);
      }
    } else {
      TakeKeeps(pool, size);
    }
  }

  ghost function Serve(pool: Pool, size: nat, r: Request): Pool
    requires Good(pool, size) && Possible(pool, size, r)
  {
    match r
    case AllocRequest(offer) => PossibleMeansMay(pool, size, offer); Alloc(pool, size, offer)
    case FreeRequest(s) => Free(pool, size, s)
  }

  /** What the callers hold after a request, when they held `held` before. */
  ghost function HeldAfter(pool: Pool, size: nat, r: Request, held: iset<Slot>): iset<Slot>
    requires Good(pool, size) && Possible(pool, size, r)
  {
    match r
    case AllocRequest(offer) =>
      PossibleMeansMay(pool, size, offer);
      held + (iset s | s in Granted(pool, size, offer))
    case FreeRequest(s) => held - iset{s}
  }

  lemma AllocKeeps(pool: Pool, size: nat, offer: seq<nat>)
    requires Good(pool, size) && Possible(pool, size, AllocRequest(offer))
    ensures MayAlloc(pool, size, offer) && Good(Alloc(pool, size, offer), size)
    ensures Live(Alloc(pool, size, offer), size) == Live(pool, size) + (iset s | s in Granted(pool, size, offer))
    ensures forall s :: s in Granted(pool, size, offer) ==> s !in Live(pool, size)
    ensures Alloc(pool, size, offer).count - |Alloc(pool, size, offer).list| == pool.count - |pool.list|
    ensures Granted(pool, size, offer) == {} <==> pool.count == 0 && offer == []
  {
    PossibleMeansMay(pool, size, offer);
    if pool.count == 0 {
      ExpandKeeps(pool, size, offer);
    }
    var stocked := Stocked(pool, size, offer);
    hide Live;
    if stocked.count > 0 {
      TakeKeeps(stocked, size);
    }
  }

  ghost predicate CanServe(pool: Pool, size: nat, rs: seq<Request>)
    requires Good(pool, size)
    decreases |rs|
  {
    rs != [] ==>
      && Possible(pool, size, rs[0])
      && (ServeKeeps(pool, size, rs[0]); CanServe(Serve(pool, size, rs[0]), size, rs[1..]))
  }

  lemma ServeKeeps(pool: Pool, size: nat, r: Request)
    requires Good(pool, size) && Possible(pool, size, r)
    ensures Good(Serve(pool, size, r), size)
    ensures Live(Serve(pool, size, r), size) == HeldAfter(pool, size, r, Live(pool, size))
    ensures Serve(pool, size, r).count - |Serve(pool, size, r).list|
         == pool.count - |pool.list| + (if r.FreeRequest? && Releases(pool, size, r.s) then 1 else 0)
  {
    match r
    case AllocRequest(offer) => AllocKeeps(pool, size, offer);
    case FreeRequest(s) => FreeKeeps(pool, size, s);
  }

  ghost function ServeAll(pool: Pool, size: nat, rs: seq<Request>): Pool
    requires Good(pool, size) && CanServe(pool, size, rs)
    decreases |rs|
  {
    if rs == [] then pool else ServeKeeps(pool, size, rs[0]); ServeAll(Serve(pool, size, rs[0]), size, rs[1..])
  }

  /** The slots the callers hold after a run: those granted and not freed since. */
  ghost function Outstanding(pool: Pool, size: nat, rs: seq<Request>, held: iset<Slot>): iset<Slot>
    requires Good(pool, size) && CanServe(pool, size, rs)
    decreases |rs|
  {
    if rs == [] then held
    else
      ServeKeeps(pool, size, rs[0]);
      Outstanding(Serve(pool, size, rs[0]), size, rs[1..], HeldAfter(pool, size, rs[0], held))
  }

  ghost function ReleaseCount(pool: Pool, size: nat, rs: seq<Request>): nat
    requires Good(pool, size) && CanServe(pool, size, rs)
    decreases |rs|
  {
    if rs == [] then 0
    else
      ServeKeeps(pool, size, rs[0]);
      (if rs[0].FreeRequest? && Releases(pool, size, rs[0].s) then 1 else 0)
        + ReleaseCount(Serve(pool, size, rs[0]), size, rs[1..])
  }

  /**
   * Over any run the chains are the exact complement of what the callers hold, and the counter exceeds the list by
   * the number of releases.
   */
  lemma {:induction false} RunBalance(pool: Pool, size: nat, rs: seq<Request>)
    requires Good(pool, size) && CanServe(pool, size, rs)
    ensures Good(ServeAll(pool, size, rs), size)
    ensures Live(ServeAll(pool, size, rs), size) == Outstanding(pool, size, rs, Live(pool, size))
    ensures ServeAll(pool, size, rs).count - |ServeAll(pool, size, rs).list|
         == pool.count - |pool.list| + ReleaseCount(pool, size, rs)
    decreases |rs|
  {
    if rs == [] {
    } else {
      ServeKeeps(pool, size, rs[0]);
      RunBalance(Serve(pool, size, rs[0]), size, rs[1..]);
    }
  }

  lemma EmptyIsGood(size: nat)
    requires ObjectSize(size)
    ensures Good(EMPTY, size) && Live(EMPTY, size) == iset{}
  {
    SizesAreThese(size);
  }

  /**
   * From an empty cache: the counter is the list length plus the releases so far, so an expansion always finds an
   * empty list.
   */
  lemma CounterIsListPlusReleases(size: nat, rs: seq<Request>)
    requires Good(EMPTY, size) && CanServe(EMPTY, size, rs)
    ensures var pool := ServeAll(EMPTY, size, rs);
            && pool.count == |pool.list| + ReleaseCount(EMPTY, size, rs)
            && (pool.count == 0 ==> pool.list == [])
  {
    RunBalance(EMPTY, size, rs);
  }

  /**
   * An allocation finds a page, or may ask for new ones, exactly when the list is not empty or no page was ever
   * released.
   */
  lemma AllocationFindsPageExactlyWhen(size: nat, rs: seq<Request>, offer: seq<nat>)
    requires Good(EMPTY, size) && CanServe(EMPTY, size, rs) && Offered(ServeAll(EMPTY, size, rs), offer)
    ensures var pool := ServeAll(EMPTY, size, rs);
            && (Possible(pool, size, AllocRequest(offer)) <==> pool.list != [] || ReleaseCount(EMPTY, size, rs) == 0)
            && (ReleaseCount(EMPTY, size, rs) > 0 ==> pool.count > 0)
  {
    RunBalance(EMPTY, size, rs);
  }

  // ---------------------------------------------------------------- an empty list under a positive counter

  /** Pages with one slot each: the given list and its pages free, the others full. */
  function OneSlotPool(list: seq<nat>, pages: set<nat>, count: nat): Pool {
    Pool(list, map p | p in pages :: if p in list then [0] else [], count)
  }

  lemma OneSlot()
    ensures ObjectSize(2048) && Slots(2048) == 1 && FreshChain(1) == [0]
  {
    SizesArePowers();
  }

  lemma OneSlotGood(list: seq<nat>, pages: set<nat>, count: nat)
    requires Pages(pages, list) && count >= |list|
    ensures Good(OneSlotPool(list, pages, count), 2048)
  {
    OneSlot();
  }

  predicate Pages(pages: set<nat>, list: seq<nat>) {
    && (forall p :: p in pages ==> p != NULL && p % SLAB_SIZE == 0)
    && Distinct(list) && forall p :: p in list ==> p in pages
  }

  lemma TakeOne(list: seq<nat>, pages: set<nat>, count: nat)
    requires Pages(pages, list) && list != [] && count >= |list|
    ensures MayTake(OneSlotPool(list, pages, count))
    ensures Take(OneSlotPool(list, pages, count)) == OneSlotPool(list[1..], pages, count - 1)
  {
    TailHas(list);
    var pool, pool' := OneSlotPool(list, pages, count), OneSlotPool(list[1..], pages, count - 1);
    assert list[0] in list;
    assert pool.chains[list[0]] == [0];
    assert pool.chains[list[0] := []] == pool'.chains;
  }

  lemma OneSlotTake(list: seq<nat>, pages: set<nat>, count: nat)
    requires Pages(pages, list) && list != [] && count >= |list|
    ensures Good(OneSlotPool(list, pages, count), 2048)
            && Possible(OneSlotPool(list, pages, count), 2048, AllocRequest([]))
    ensures Serve(OneSlotPool(list, pages, count), 2048, AllocRequest([])) == OneSlotPool(list[1..], pages, count - 1)
  {
    OneSlotGood(list, pages, count);
    TakeOne(list, pages, count);
    hide Take, Live, Good, Pages;
    PossibleMeansMay(OneSlotPool(list, pages, count), 2048, []);
  }

  lemma ReversedTwo(a: nat, b: nat)
    ensures Reversed([a, b]) == [b, a]
  {
    var s := [a, b];
    assert s[..1] == [a] && s[..1][..0] == [];
    assert Reversed(s[..1]) == [a];
    assert Reversed(s) == [s[1]] + Reversed(s[..1]);
  }

  lemma ExpandTwo(pages: set<nat>, a: nat, b: nat)
    requires Pages(pages, []) && Pages({a, b}, [b, a]) && a !in pages && b !in pages
    ensures Expand(OneSlotPool([], pages, 0), 2048, [a, b]) == OneSlotPool([b, a], pages + {a, b}, 2)
  {
    OneSlot();
    var pool, pool' := OneSlotPool([], pages, 0), OneSlotPool([b, a], pages + {a, b}, 2);
    ReversedTwo(a, b);
    assert [a, b][..2] == [a, b];
    hide Reversed;
    AddedHas(pool.chains, [a, b], 1);
    hide Added, Slots, FreshChain;
    assert Added(pool.chains, [a, b], 1) == pool'.chains;
  }

  lemma OneSlotExpand(pages: set<nat>, a: nat, b: nat)
    requires Pages(pages, []) && Pages({a, b}, [b, a]) && a !in pages && b !in pages
    ensures Good(OneSlotPool([], pages, 0), 2048) && Possible(OneSlotPool([], pages, 0), 2048, AllocRequest([a, b]))
    ensures Serve(OneSlotPool([], pages, 0), 2048, AllocRequest([a, b])) == OneSlotPool([a], pages + {a, b}, 1)
  {
    OneSlotGood([], pages, 0);
    ExpandTwo(pages, a, b);
    TakeOne([b, a], pages + {a, b}, 2);
    assert [b, a][1..] == [a];
    assert Distinct([a, b]) by {
      assert [b, a][0] != [b, a][1];
    }
    assert a in {a, b} && b in {a, b};
    hide Take, Expand, Live, Good, Pages, Distinct;
    PossibleMeansMay(OneSlotPool([], pages, 0), 2048, [a, b]);
  }

  lemma FreeOne(list: seq<nat>, pages: set<nat>, count: nat, page: nat)
    requires Pages(pages, list) && page in pages && page !in list
    ensures var pool, s := OneSlotPool(list, pages, count), Slot(page, 0);
            && (Releases(pool, 2048, s) <==> count >= MIN_PARTIAL)
            && Free(pool, 2048, s)
               == if count < MIN_PARTIAL then OneSlotPool([page] + list, pages, count + 1)
                 else OneSlotPool(list, pages - {page}, count + 1)
  {
    OneSlot();
    hide Slots, Distinct;
    var pool, s := OneSlotPool(list, pages, count), Slot(page, 0);
    assert ([page] + list)[1..] == list;
    assert pool.chains[page] == [] && [0] + pool.chains[page] == [0];
    assert Put(pool, s).list == [page] + list && Put(pool, s).count == count + 1;
    assert Put(pool, s).chains == pool.chains[page := [0]];
    assert Put(pool, s).chains == OneSlotPool([page] + list, pages, count + 1).chains;
    assert Put(pool, s).chains - {page} == OneSlotPool(list, pages - {page}, count + 1).chains;
  }

  lemma OneSlotFree(list: seq<nat>, pages: set<nat>, count: nat, page: nat)
    requires Pages(pages, list) && count >= |list| && page in pages && page !in list
    ensures Good(OneSlotPool(list, pages, count), 2048)
    ensures Possible(OneSlotPool(list, pages, count), 2048, FreeRequest(Slot(page, 0)))
    ensures Serve(OneSlotPool(list, pages, count), 2048, FreeRequest(Slot(page, 0)))
         == if count < MIN_PARTIAL then OneSlotPool([page] + list, pages, count + 1)
           else OneSlotPool(list, pages - {page}, count + 1)
  {
    OneSlotGood(list, pages, count);
    OneSlot();
    FreeOne(list, pages, count, page);
    hide Free, Good, Slots;
  }

  /** Some run leads to an empty list with the counter at one. */
  ghost predicate RunsDry(pool: Pool) {
    && Good(pool, 2048)
    && exists rs ::
         CanServe(pool, 2048, rs) && ServeAll(pool, 2048, rs).list == [] && ServeAll(pool, 2048, rs).count == 1
  }

  lemma RunsDryBefore(pool: Pool, r: Request)
    requires Good(pool, 2048) && Possible(pool, 2048, r) && RunsDry(Serve(pool, 2048, r))
    ensures RunsDry(pool)
  {
    var rest :| CanServe(Serve(pool, 2048, r), 2048, rest) && ServeAll(Serve(pool, 2048, r), 2048, rest).list == []
                && ServeAll(Serve(pool, 2048, r), 2048, rest).count == 1;
    assert ([r] + rest)[0] == r && ([r] + rest)[1..] == rest;
    assert CanServe(pool, 2048, [r] + rest);
  }

  lemma DryAtOnce(pages: set<nat>)
    requires Pages(pages, [])
    ensures RunsDry(OneSlotPool([], pages, 1))
  {
    OneSlotGood([], pages, 1);
    assert CanServe(OneSlotPool([], pages, 1), 2048, []);
  }

  /**
   * Three objects taken, two of them given back, two taken: no page is left on the list, the counter is one, and
   * the next allocation has no page to look at.
   */
  lemma ListRunsDry()
    ensures RunsDry(EMPTY)
  {
    var a, b, c, d := 4096, 8192, 12288, 16384;
    var two, four, three := {a, b}, {a, b, c, d}, {b, c, d};
    var take := AllocRequest([]);
    DryPages();
    assert [a][1..] == [] && [b, c][1..] == [c] && [c][1..] == [] && [b] + [c] == [b, c];
    assert EMPTY == OneSlotPool([], {}, 0);
    hide OneSlotPool, Serve, Possible, Good, Pages, RunsDry;
    DryAtOnce(three);
    OneSlotTake([c], three, 2);
    RunsDryBefore(OneSlotPool([c], three, 2), take);
    OneSlotTake([b, c], three, 3);
    RunsDryBefore(OneSlotPool([b, c], three, 3), take);
    OneSlotFree([b, c], four, 2, a);
    RunsDryBefore(OneSlotPool([b, c], four, 2), FreeRequest(Slot(a, 0)));
    OneSlotFree([c], four, 1, b);
    RunsDryBefore(OneSlotPool([c], four, 1), FreeRequest(Slot(b, 0)));
    OneSlotExpand(two, c, d);
    RunsDryBefore(OneSlotPool([], two, 0), AllocRequest([c, d]));
    OneSlotTake([a], two, 1);
    RunsDryBefore(OneSlotPool([a], two, 1), take);
    OneSlotExpand({}, a, b);
    RunsDryBefore(EMPTY, AllocRequest([a, b]));
  }

  lemma DryPages()
    ensures Pages({}, []) && Pages({4096, 8192}, [8192, 4096]) && Pages({4096, 8192}, [4096]) && Pages({4096, 8192}, [])
    ensures Pages({12288, 16384}, [16384, 12288])
    ensures {4096, 8192} + {12288, 16384} == {4096, 8192, 12288, 16384}
    ensures {4096, 8192, 12288, 16384} - {4096} == {8192, 12288, 16384} && {} + {4096, 8192} == {4096, 8192}
    ensures Pages({4096, 8192, 12288, 16384}, [12288]) && Pages({4096, 8192, 12288, 16384}, [8192, 12288])
    ensures Pages({8192, 12288, 16384}, [8192, 12288]) && Pages({8192, 12288, 16384}, [12288])
            && Pages({8192, 12288, 16384}, [])
  {
  }
}
