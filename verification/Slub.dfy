/** The slab allocator for one object size, as it updates page headers, chain pointers and the partial list in place. */
module Slub {
  import opened Powers
  import opened SlubPool

  const SIZE_MAX := 0xFFFF_FFFF_FFFF_FFFF

  /** The header at the start of a slab page; addresses are numbers, NULL among them. */
  datatype Header = Header(cur: nat, total: nat, zone: nat, freeItem: nat, prev: nat, next: nat)

  datatype Memory = Memory(headers: map<nat, Header>, freeNext: map<nat, nat>, partial: nat)

  /** The address of link j of a chain, or of its end. */
  function Link(size: nat, page: nat, chain: seq<nat>, j: nat): nat {
    if j < |chain| then MetaAt(size, page, chain[j]) else NULL
  }

  /** Following the pointers from first visits the slots of the chain in order and ends. */
  ghost predicate Chained(size: nat, page: nat, chain: seq<nat>, first: nat, freeNext: map<nat, nat>) {
    && first == Link(size, page, chain, 0)
    && forall j :: 0 <= j < |chain| ==>
         && MetaAt(size, page, chain[j]) in freeNext
         && freeNext[MetaAt(size, page, chain[j])] == Link(size, page, chain, j + 1)
  }

  ghost predicate PageOk(size: nat, page: nat, chain: seq<nat>, h: Header, freeNext: map<nat, nat>) {
    && h.cur == |chain| && h.total == Slots(size) && h.zone == HEADER_SIZE
    && Chained(size, page, chain, h.freeItem, freeNext)
  }

  function At(list: seq<nat>, k: int): nat {
    if 0 <= k < |list| then list[k] else NULL
  }

  /** The page headers chain the list in both directions. */
  ghost predicate Linked(list: seq<nat>, headers: map<nat, Header>, partial: nat) {
    && partial == At(list, 0)
    && forall k :: 0 <= k < |list| ==>
         list[k] in headers && headers[list[k]].next == At(list, k + 1) && headers[list[k]].prev == At(list, k - 1)
  }

  /** The memory stores the pool. */
  ghost predicate Stores(size: nat, mem: Memory, pool: Pool) {
    && Good(pool, size)
    && mem.headers.Keys == pool.chains.Keys
    && (forall p :: p in mem.headers ==> PageOk(size, p, pool.chains[p], mem.headers[p], mem.freeNext))
    && Linked(pool.list, mem.headers, mem.partial)
  }

  /** The memory after the front page's first slot is unlinked. */
  function TakeMemory(mem: Memory): Memory
    requires mem.partial in mem.headers && mem.headers[mem.partial].cur > 0
    requires mem.headers[mem.partial].freeItem in mem.freeNext
  {
    var page, h := mem.partial, mem.headers[mem.partial];
    var after := mem.freeNext[h.freeItem];
    var h1 := h.(cur := h.cur - 1, freeItem := after);
    if after == NULL then Memory(PopHeaders(mem.headers, page, h1), mem.freeNext, h.next)
    else Memory(mem.headers[page := h1], mem.freeNext[h.freeItem := NULL], page)
  }

  lemma ChainedFrame(size: nat, page: nat, chain: seq<nat>, first: nat, freeNext: map<nat, nat>, p: nat, i: nat, v: nat)
    requires size > 0 && i < Slots(size) && p % SLAB_SIZE == 0 && page % SLAB_SIZE == 0 && ChainOk(chain, Slots(size))
    requires Chained(size, page, chain, first, freeNext) && (page == p ==> i !in chain)
    ensures Chained(size, page, chain, first, freeNext[MetaAt(size, p, i) := v])
  {
    forall j | 0 <= j < |chain|
      ensures MetaAt(size, page, chain[j]) != MetaAt(size, p, i)
    {
      if MetaAt(size, page, chain[j]) == MetaAt(size, p, i) {
        MetaInjective(size, page, chain[j], p, i);
      }
    }
    hide MetaAt;
  }

  lemma ChainedTail(size: nat, page: nat, chain: seq<nat>, first: nat, freeNext: map<nat, nat>)
    requires Chained(size, page, chain, first, freeNext) && chain != []
    ensures first in freeNext && Chained(size, page, chain[1..], freeNext[first], freeNext)
  {
    hide MetaAt;
    assert MetaAt(size, page, chain[0]) == first;
    forall j | 0 <= j < |chain[1..]|
      ensures Link(size, page, chain[1..], j + 1) == Link(size, page, chain, j + 2)
      ensures chain[1..][j] == chain[j + 1]
    {
    }
  }

  lemma ChainedCons(size: nat, page: nat, chain: seq<nat>, first: nat, freeNext: map<nat, nat>, i: nat)
    requires size > 0 && i < Slots(size) && page % SLAB_SIZE == 0 && ChainOk(chain, Slots(size)) && i !in chain
    requires Chained(size, page, chain, first, freeNext)
    ensures Chained(size, page, [i] + chain, MetaAt(size, page, i), freeNext[MetaAt(size, page, i) := first])
  {
    ChainedFrame(size, page, chain, first, freeNext, page, i, first);
    hide MetaAt;
    var chain', freeNext' := [i] + chain, freeNext[MetaAt(size, page, i) := first];
    forall j | 0 <= j < |chain'|
      ensures MetaAt(size, page, chain'[j]) in freeNext'
              && freeNext'[MetaAt(size, page, chain'[j])] == Link(size, page, chain', j + 1)
    {
      if j > 0 {
        assert chain'[j] == chain[j - 1];
        assert Link(size, page, chain', j + 1) == Link(size, page, chain, j);
      }
    }
  }

  /** A chain pointer never is the null address. */
  lemma MetaNotNull(size: nat, page: nat, i: nat)
    ensures MetaAt(size, page, i) != NULL
  {
    NonNegative(i, size + META_SIZE);
  }

  /** What the pointers say about the front page. */
  lemma FrontPage(size: nat, mem: Memory, pool: Pool)
    requires Stores(size, mem, pool) && pool.list != []
    ensures mem.partial == pool.list[0] && mem.partial in mem.headers && MayTake(pool)
    ensures var h, chain := mem.headers[mem.partial], pool.chains[mem.partial];
            && h.cur == |chain| && h.total == Slots(size) && h.cur <= h.total && h.freeItem in mem.freeNext
            && h.freeItem == MetaAt(size, mem.partial, chain[0])
            && (mem.freeNext[h.freeItem] == NULL <==> |chain| == 1)
            && h.next == At(pool.list, 1) && (h.next != NULL ==> h.next in mem.headers)
  {
    var page := pool.list[0];
    assert page in pool.list;
    var chain := pool.chains[page];
    assert PageOk(size, page, chain, mem.headers[page], mem.freeNext);
    FullChainBound(chain, Slots(size));
    hide MetaAt;
    assert MetaAt(size, page, chain[0]) in mem.freeNext;
    if |chain| > 1 {
      MetaNotNull(size, page, chain[1]);
    }
    assert |pool.list| > 1 ==> pool.list[1] in pool.list;
  }

  /** A chain has no more links than the page has slots. */
  lemma FullChainBound(chain: seq<nat>, slots: nat)
    requires ChainOk(chain, slots)
    ensures |chain| <= slots
  {
    DistinctSize(chain);
    assert Elements(chain) <= Below(slots);
    SubsetSize(Elements(chain), Below(slots));
  }

  lemma {:induction false} SubsetSize(a: set<nat>, b: set<nat>)
    requires a <= b
    ensures |a| <= |b|
    decreases a
  {
    if x :| x in a {
      SubsetSize(a - {x}, b - {x});
    }
  }

  /** Taking a slot: the pointers follow the pool. */
  lemma TakeStores(size: nat, mem: Memory, pool: Pool)
    requires Stores(size, mem, pool) && pool.list != []
    ensures MayTake(pool) && mem.partial in mem.headers && mem.headers[mem.partial].cur > 0
    ensures mem.headers[mem.partial].freeItem in mem.freeNext
    ensures Stores(size, TakeMemory(mem), Take(pool))
  {
    FrontPage(size, mem, pool);
    TakeKeeps(pool, size);
    TakeLinked(size, mem, pool);
    var mem', pool' := TakeMemory(mem), Take(pool);
    forall p | p in mem'.headers
      ensures PageOk(size, p, pool'.chains[p], mem'.headers[p], mem'.freeNext)
    {
      TakePageOk(size, mem, pool, p);
    }
  }

  lemma TakeLinked(size: nat, mem: Memory, pool: Pool)
    requires Stores(size, mem, pool) && pool.list != []
    requires MayTake(pool) && mem.partial in mem.headers && mem.headers[mem.partial].cur > 0
    requires mem.headers[mem.partial].freeItem in mem.freeNext
    ensures Linked(Take(pool).list, TakeMemory(mem).headers, TakeMemory(mem).partial)
  {
    FrontPage(size, mem, pool);
    ListDistinct(size, mem, pool);
    hide Good, MetaAt, PageOk, Slots, Linked;
    assert Linked(pool.list, mem.headers, mem.partial);
    var page, h := mem.partial, mem.headers[mem.partial];
    var h1 := h.(cur := h.cur - 1, freeItem := mem.freeNext[h.freeItem]);
    if h1.freeItem == NULL {
      PopLinked(pool.list, mem.headers, page, h1);
    } else {
      RelabelLinked(pool.list, mem.headers, page, page, h1);
    }
  }

  /** Taking the first page off the list. */
  lemma PopLinked(list: seq<nat>, headers: map<nat, Header>, partial: nat, h: Header)
    requires Linked(list, headers, partial) && Proper(list) && list != []
    requires partial in headers && h.next == headers[partial].next
    ensures Linked(list[1..], PopHeaders(headers, partial, h), h.next)
  {
    var list', headers' := list[1..], PopHeaders(headers, partial, h);
    assert h.next == At(list', 0) by {
      LinksAround(list, headers, partial, 0);
    }
    forall k | 0 <= k < |list'|
      ensures list'[k] in headers' && headers'[list'[k]].next == At(list', k + 1)
              && headers'[list'[k]].prev == At(list', k - 1)
    {
      PopPlace(list, headers, partial, h, k + 1);
    }
  }

  function PopHeaders(headers: map<nat, Header>, page: nat, h: Header): map<nat, Header> {
    var headers1 := headers[page := h];
    var headers2 := if h.next != NULL && h.next in headers1
                    then headers1[h.next := headers1[h.next].(prev := NULL)] else headers1;
    assert page in headers2;
    headers2[page := headers2[page].(next := NULL, prev := NULL)]
  }

  lemma PopPlace(list: seq<nat>, headers: map<nat, Header>, partial: nat, h: Header, i: nat)
    requires Linked(list, headers, partial) && Proper(list) && 0 < i < |list|
    requires partial in headers && h.next == headers[partial].next
    ensures var headers' := PopHeaders(headers, partial, h);
            && list[i] in headers' && headers'[list[i]].next == At(list, i + 1)
            && headers'[list[i]].prev == (if i == 1 then NULL else At(list, i - 1))
  {
    LinksAround(list, headers, partial, 0);
    LinksAround(list, headers, partial, i);
    assert list[0] != list[i];
    assert h.next == list[1] && (i > 1 ==> list[1] != list[i]);
    hide Linked, Proper;
  }

  lemma ListDistinct(size: nat, mem: Memory, pool: Pool)
    requires Stores(size, mem, pool)
    ensures Distinct(pool.list) && forall k :: 0 <= k < |pool.list| ==>
              pool.list[k] != NULL && pool.list[k] in pool.chains
  {
    forall k | 0 <= k < |pool.list|
      ensures pool.list[k] != NULL && pool.list[k] in pool.chains
    {
      assert pool.list[k] in pool.list;
    }
  }

  lemma TakePageOk(size: nat, mem: Memory, pool: Pool, p: nat)
    requires Stores(size, mem, pool) && pool.list != [] && p in mem.headers
    requires MayTake(pool) && mem.partial in mem.headers && mem.headers[mem.partial].cur > 0
    requires mem.headers[mem.partial].freeItem in mem.freeNext
    ensures p in Take(pool).chains && p in TakeMemory(mem).headers
    ensures PageOk(size, p, Take(pool).chains[p], TakeMemory(mem).headers[p], TakeMemory(mem).freeNext)
  {
    FrontPage(size, mem, pool);
    var page := mem.partial;
    var chain, h := pool.chains[page], mem.headers[page];
    assert PageOk(size, p, pool.chains[p], mem.headers[p], mem.freeNext);
    assert ChainOk(pool.chains[p], Slots(size)) && ChainOk(chain, Slots(size));
    TailHas(chain);
    if p == page {
      ChainedTail(size, page, chain, h.freeItem, mem.freeNext);
      if |chain| > 1 {
        ChainedFrame(size, page, chain[1..], mem.freeNext[h.freeItem], mem.freeNext, page, chain[0], NULL);
      }
    } else if |chain| > 1 {
      ChainedFrame(size, p, pool.chains[p], mem.headers[p].freeItem, mem.freeNext, page, chain[0], NULL);
    }
  }

  // ---------------------------------------------------------------- list surgery

  /** The page at the front of the partial list. */
  function PushHeaders(headers: map<nat, Header>, partial: nat, page: nat, h: Header): map<nat, Header> {
    var pushed := headers[page := h.(next := partial, prev := NULL)];
    if partial != NULL && partial in pushed then pushed[partial := pushed[partial].(prev := page)] else pushed
  }

  /** No null page on the list, and no page twice. */
  predicate Proper(list: seq<nat>) {
    Distinct(list) && forall k :: 0 <= k < |list| ==> list[k] != NULL
  }

  lemma PushLinked(list: seq<nat>, headers: map<nat, Header>, partial: nat, page: nat, h: Header)
    requires Linked(list, headers, partial) && Proper(list) && page !in list && page != NULL
    ensures Linked([page] + list, PushHeaders(headers, partial, page, h), page)
    ensures PushHeaders(headers, partial, page, h).Keys == headers.Keys + {page}
  {
    var list', headers' := [page] + list, PushHeaders(headers, partial, page, h);
    forall k | 0 <= k < |list'|
      ensures list'[k] in headers' && headers'[list'[k]].next == At(list', k + 1)
              && headers'[list'[k]].prev == At(list', k - 1)
    {
      if k > 0 {
        assert list'[k] == list[k - 1] && At(list', k + 1) == At(list, k);
        assert k > 1 ==> At(list', k - 1) == At(list, k - 2) && list[k - 1] != list[0];
      }
    }
  }

  /** A page taken out of the partial list from wherever it is. */
  function UnlinkMemory(mem: Memory, page: nat): Memory
    requires page in mem.headers
  {
    var h := mem.headers[page];
    var headers1 := if h.next in mem.headers
                    then mem.headers[h.next := mem.headers[h.next].(prev := h.prev)] else mem.headers;
    if h.prev in headers1 then
      Memory(headers1[h.prev := headers1[h.prev].(next := h.next)] - {page}, mem.freeNext, mem.partial)
    else
      Memory(headers1 - {page}, mem.freeNext, h.next)
  }

  lemma {:induction false} WithoutAt(list: seq<nat>, k: nat)
    requires Distinct(list) && k < |list|
    ensures Without(list, list[k]) == list[..k] + list[k + 1..]
  {
    if k == 0 {
      assert list[..0] + list[1..] == list[1..];
    } else {
      var tail := list[1..];
      assert list[0] != list[k] && tail[k - 1] == list[k];
      TailHas(list);
      WithoutAt(tail, k - 1);
      hide Distinct;
      assert [list[0]] + tail[..k - 1] == list[..k] && tail[k..] == list[k + 1..];
      Regrouped([list[0]], tail[..k - 1], tail[k..]);
    }
  }

  lemma Regrouped(a: seq<nat>, b: seq<nat>, c: seq<nat>)
    ensures a + (b + c) == (a + b) + c
  {
  }

  /** The neighbours of place k. */
  lemma LinksAround(list: seq<nat>, headers: map<nat, Header>, partial: nat, k: nat)
    requires Linked(list, headers, partial) && Proper(list) && k < |list|
    ensures list[k] in headers && headers[list[k]].next == At(list, k + 1) && headers[list[k]].prev == At(list, k - 1)
    ensures At(list, k + 1) != list[k] && At(list, k - 1) != list[k]
            && (At(list, k + 1) == At(list, k - 1) ==> |list| == 1)
  {
  }

  lemma UnlinkLinked(list: seq<nat>, mem: Memory, k: nat)
    requires Linked(list, mem.headers, mem.partial) && Proper(list) && k < |list| && NULL !in mem.headers
    ensures list[k] in mem.headers
    ensures Linked(list[..k] + list[k + 1..], UnlinkMemory(mem, list[k]).headers, UnlinkMemory(mem, list[k]).partial)
    ensures UnlinkMemory(mem, list[k]).headers.Keys == mem.headers.Keys - {list[k]}
  {
    UnlinkEnds(list, mem, k);
    var list', mem' := list[..k] + list[k + 1..], UnlinkMemory(mem, list[k]);
    forall i | 0 <= i < |list| && i != k
      ensures list[i] in mem'.headers
      ensures mem'.headers[list[i]].next == (if i + 1 == k then At(list, k + 1) else At(list, i + 1))
      ensures mem'.headers[list[i]].prev == (if i == k + 1 then At(list, k - 1) else At(list, i - 1))
    {
      UnlinkPlace(list, mem, k, i);
    }
    hide UnlinkMemory, Proper, At;
    forall j | 0 <= j < |list'|
      ensures list'[j] in mem'.headers && mem'.headers[list'[j]].next == At(list', j + 1)
              && mem'.headers[list'[j]].prev == At(list', j - 1)
    {
      PlacesWithout(list, k, j);
    }
  }

  /** Places in the shortened list. */
  lemma PlacesWithout(list: seq<nat>, k: nat, j: nat)
    requires k < |list| && j < |list| - 1
    ensures var list', i := list[..k] + list[k + 1..], if j < k then j else j + 1;
            && list'[j] == list[i]
            && At(list', j + 1) == (if i + 1 == k then At(list, k + 1) else At(list, i + 1))
            && At(list', j - 1) == (if i == k + 1 then At(list, k - 1) else At(list, i - 1))
  {
  }

  lemma UnlinkEnds(list: seq<nat>, mem: Memory, k: nat)
    requires Linked(list, mem.headers, mem.partial) && Proper(list) && k < |list| && NULL !in mem.headers
    ensures list[k] in mem.headers && UnlinkMemory(mem, list[k]).partial == At(list[..k] + list[k + 1..], 0)
    ensures UnlinkMemory(mem, list[k]).headers.Keys == mem.headers.Keys - {list[k]}
  {
    LinksAround(list, mem.headers, mem.partial, k);
    if k > 0 {
      LinksAround(list, mem.headers, mem.partial, k - 1);
    }
    hide Linked, Proper;
  }

  /** Only the links of a header matter to the list. */
  lemma RelabelLinked(list: seq<nat>, headers: map<nat, Header>, partial: nat, page: nat, h: Header)
    requires Linked(list, headers, partial) && page in headers && h.next == headers[page].next
             && h.prev == headers[page].prev
    ensures Linked(list, headers[page := h], partial)
  {
  }

  /** What unlinking does to the header of another page. */
  lemma UnlinkEntry(mem: Memory, page: nat, x: nat)
    requires page in mem.headers && x in mem.headers && x != page
    requires var h := mem.headers[page]; h.next != page && h.prev != page && (h.next == x ==> h.prev != x)
    ensures var h, headers := mem.headers[page], UnlinkMemory(mem, page).headers;
            && x in headers
            && headers[x].next == (if x == h.prev then h.next else mem.headers[x].next)
            && headers[x].prev == (if x == h.next then h.prev else mem.headers[x].prev)
  {
  }

  lemma UnlinkPlace(list: seq<nat>, mem: Memory, k: nat, i: nat)
    requires Linked(list, mem.headers, mem.partial) && Proper(list) && k < |list| && NULL !in mem.headers
    requires i < |list| && i != k
    ensures list[k] in mem.headers
    ensures var headers := UnlinkMemory(mem, list[k]).headers;
            && list[i] in headers
            && headers[list[i]].next == (if i + 1 == k then At(list, k + 1) else At(list, i + 1))
            && headers[list[i]].prev == (if i == k + 1 then At(list, k - 1) else At(list, i - 1))
  {
    hide UnlinkMemory, Linked, Proper, At;
    LinksAround(list, mem.headers, mem.partial, k);
    LinksAround(list, mem.headers, mem.partial, i);
    Neighbours(list, k, i);
    UnlinkEntry(mem, list[k], list[i]);
  }

  lemma Neighbours(list: seq<nat>, k: nat, i: nat)
    requires Proper(list) && k < |list| && i < |list| && i != k
    ensures list[i] != list[k]
    ensures At(list, k + 1) == list[i] <==> i == k + 1
    ensures At(list, k - 1) == list[i] <==> i == k - 1
  {
  }

  // ---------------------------------------------------------------- giving back

  /** The memory after a slot is put back at the front of its page's chain. */
  function PutMemory(mem: Memory, page: nat, meta: nat): Memory
    requires page in mem.headers
  {
    var h := mem.headers[page];
    var full := h.freeItem == NULL;
    var headers1 := if full then PushHeaders(mem.headers, mem.partial, page, h) else mem.headers;
    assert page in headers1;
    Memory(headers1[page := headers1[page].(freeItem := meta, cur := h.cur + 1)], mem.freeNext[meta := h.freeItem],
           if full then page else mem.partial)
  }

  /** What a page's header says of a page with a slot in use. */
  lemma PageOfLive(size: nat, mem: Memory, pool: Pool, s: Slot)
    requires Stores(size, mem, pool) && s in Live(pool, size)
    ensures s.page in mem.headers && s.page != NULL && s.page % SLAB_SIZE == 0 && s.index < Slots(size)
    ensures var h, chain := mem.headers[s.page], pool.chains[s.page];
            && (h.freeItem == NULL <==> chain == []) && h.cur == |chain| && h.cur < h.total == Slots(size)
            && (chain == [] <==> s.page !in pool.list)
  {
    hide MetaAt, Linked;
    var chain := pool.chains[s.page];
    assert PageOk(size, s.page, chain, mem.headers[s.page], mem.freeNext);
    if chain != [] {
      MetaNotNull(size, s.page, chain[0]);
    }
    assert ChainOk([s.index] + chain, Slots(size));
    FullChainBound([s.index] + chain, Slots(size));
  }

  lemma PutStores(size: nat, mem: Memory, pool: Pool, s: Slot)
    requires Stores(size, mem, pool) && s in Live(pool, size)
    ensures s.page in mem.headers && Stores(size, PutMemory(mem, s.page, MetaAt(size, s.page, s.index)), Put(pool, s))
  {
    PutKeeps(pool, size, s);
    ListDistinct(size, mem, pool);
    var meta := MetaAt(size, s.page, s.index);
    forall p | p in mem.headers
      ensures p in PutMemory(mem, s.page, meta).headers && p in Put(pool, s).chains
      ensures PageOk(size, p, Put(pool, s).chains[p], PutMemory(mem, s.page, meta).headers[p],
                     PutMemory(mem, s.page, meta).freeNext)
    {
      PutPageOk(size, mem, pool, s, p);
    }
    PutLinked(size, mem, pool, s);
    hide PutMemory, Good, Linked, PageOk, MetaAt, Live, Put;
    assert Put(pool, s).chains.Keys == pool.chains.Keys by {
      PutSamePages(pool, s);
    }
  }

  lemma PutSamePages(pool: Pool, s: Slot)
    requires s.page in pool.chains
    ensures Put(pool, s).chains.Keys == pool.chains.Keys
  {
  }

  lemma PutLinked(size: nat, mem: Memory, pool: Pool, s: Slot)
    requires Stores(size, mem, pool) && s in Live(pool, size) && s.page in mem.headers && Proper(pool.list)
    ensures var mem' := PutMemory(mem, s.page, MetaAt(size, s.page, s.index));
            && mem'.headers.Keys == mem.headers.Keys
            && Linked(Put(pool, s).list, mem'.headers, mem'.partial)
  {
    PageOfLive(size, mem, pool, s);
    hide MetaAt, Good, PageOk, Live, Proper, Slots;
    var h := mem.headers[s.page];
    var headers1 := if h.freeItem == NULL then PushHeaders(mem.headers, mem.partial, s.page, h) else mem.headers;
    if h.freeItem == NULL {
      PushLinked(pool.list, mem.headers, mem.partial, s.page, h);
    }
    hide PushHeaders;
    var partial := if h.freeItem == NULL then s.page else mem.partial;
    RelabelLinked(Put(pool, s).list, headers1, partial, s.page,
                  headers1[s.page].(freeItem := MetaAt(size, s.page, s.index), cur := h.cur + 1));
    hide Linked;
  }

  lemma PutPageOk(size: nat, mem: Memory, pool: Pool, s: Slot, p: nat)
    requires Stores(size, mem, pool) && s in Live(pool, size) && s.page in mem.headers && p in mem.headers
    ensures var mem' := PutMemory(mem, s.page, MetaAt(size, s.page, s.index));
            p in mem'.headers && p in Put(pool, s).chains
              && PageOk(size, p, Put(pool, s).chains[p], mem'.headers[p], mem'.freeNext)
  {
    hide MetaAt, Slots, Chained, Linked;
    var h := mem.headers[s.page];
    assert PageOk(size, p, pool.chains[p], mem.headers[p], mem.freeNext);
    assert ChainOk(pool.chains[p], Slots(size));
    if p == s.page {
      ChainedCons(size, p, pool.chains[p], h.freeItem, mem.freeNext, s.index);
    } else {
      ChainedFrame(size, p, pool.chains[p], mem.headers[p].freeItem, mem.freeNext, s.page, s.index, h.freeItem);
    }
  }

  /** Releasing a wholly free page. */
  lemma ReleaseStores(size: nat, mem: Memory, pool: Pool, page: nat)
    requires Stores(size, mem, pool) && page in pool.list
    requires Good(pool.(list := Without(pool.list, page), chains := pool.chains - {page}), size)
    ensures page in mem.headers
    ensures Stores(size, UnlinkMemory(mem, page),
                   pool.(list := Without(pool.list, page), chains := pool.chains - {page}))
  {
    var k :| 0 <= k < |pool.list| && pool.list[k] == page;
    ListDistinct(size, mem, pool);
    WithoutAt(pool.list, k);
    assert NULL !in mem.headers;
    UnlinkLinked(pool.list, mem, k);
    var mem' := UnlinkMemory(mem, page);
    forall p | p in mem'.headers
      ensures PageOk(size, p, pool.chains[p], mem'.headers[p], mem'.freeNext)
    {
      UnlinkPageOk(size, mem, page, p, pool.chains[p]);
    }
    hide Linked, PageOk, UnlinkMemory, Without, Good;
  }

  lemma UnlinkPageOk(size: nat, mem: Memory, page: nat, p: nat, chain: seq<nat>)
    requires page in mem.headers && p in UnlinkMemory(mem, page).headers && p in mem.headers
    requires PageOk(size, p, chain, mem.headers[p], mem.freeNext)
    ensures PageOk(size, p, chain, UnlinkMemory(mem, page).headers[p], UnlinkMemory(mem, page).freeNext)
  {
    hide Chained;
  }

  // ---------------------------------------------------------------- new pages

  /** All slots of a new page are chained in address order and nothing outside the page is touched. */
  ghost predicate PageBuilt(size: nat, page: nat, before: map<nat, nat>, after: map<nat, nat>) {
    && Chained(size, page, FreshChain(Slots(size)), MetaAt(size, page, 0), after)
    && forall a :: a in before && !(page <= a < page + SLAB_SIZE) ==> a in after && after[a] == before[a]
  }

  function NewHeader(size: nat, page: nat, h: Header): Header {
    h.(zone := HEADER_SIZE, total := Slots(size), cur := Slots(size), freeItem := MetaAt(size, page, 0))
  }

  /** The memory with one more page, its chain built. */
  function AddMemory(size: nat, mem: Memory, page: nat, h: Header, freeNext: map<nat, nat>): Memory
  {
    var headers := PushHeaders(mem.headers, mem.partial, page, h);
    assert page in headers;
    Memory(headers[page := NewHeader(size, page, headers[page])], freeNext, page)
  }

  lemma AddStores(size: nat, mem: Memory, pool: Pool, page: nat, h: Header, freeNext: map<nat, nat>)
    requires Stores(size, mem, pool) && page !in pool.chains && page != NULL && page % SLAB_SIZE == 0
    requires PageBuilt(size, page, mem.freeNext, freeNext)
    requires Good(Pool([page] + pool.list, pool.chains[page := FreshChain(Slots(size))], pool.count + 1), size)
    ensures Stores(size, AddMemory(size, mem, page, h, freeNext),
                   Pool([page] + pool.list, pool.chains[page := FreshChain(Slots(size))], pool.count + 1))
  {
    ListDistinct(size, mem, pool);
    assert page !in pool.list;
    AddLinked(size, mem, pool.list, page, h, freeNext);
    var mem' := AddMemory(size, mem, page, h, freeNext);
    forall p | p in mem.headers
      ensures PageOk(size, p, pool.chains[p], mem'.headers[p], mem'.freeNext)
    {
      assert PageOk(size, p, pool.chains[p], mem.headers[p], mem.freeNext);
      ChainedElsewhere(size, p, pool.chains[p], mem.headers[p].freeItem, page, mem.freeNext, freeNext);
      AddPageOk(size, mem, page, h, freeNext, p, pool.chains[p]);
    }
    assert PageOk(size, page, FreshChain(Slots(size)), mem'.headers[page], freeNext);
    hide Good, PageOk, AddMemory, Linked, PageBuilt, Slots;
  }

  lemma AddLinked(size: nat, mem: Memory, list: seq<nat>, page: nat, h: Header, freeNext: map<nat, nat>)
    requires Linked(list, mem.headers, mem.partial) && Proper(list) && page !in list && page != NULL
    ensures var mem' := AddMemory(size, mem, page, h, freeNext);
            && mem'.headers.Keys == mem.headers.Keys + {page} && mem'.partial == page && mem'.freeNext == freeNext
            && Linked([page] + list, mem'.headers, page)
            && exists prev, next :: mem'.headers[page] == NewHeader(size, page, h).(prev := prev, next := next)
  {
    PushLinked(list, mem.headers, mem.partial, page, h);
    var headers := PushHeaders(mem.headers, mem.partial, page, h);
    RelabelLinked([page] + list, headers, page, page, NewHeader(size, page, headers[page]));
    hide Linked;
    assert NewHeader(size, page, headers[page])
           == NewHeader(size, page, h).(prev := headers[page].prev, next := headers[page].next);
  }

  lemma AddPageOk(size: nat, mem: Memory, page: nat, h: Header, freeNext: map<nat, nat>, p: nat, chain: seq<nat>)
    requires p in mem.headers && p != page && PageOk(size, p, chain, mem.headers[p], freeNext)
    ensures p in AddMemory(size, mem, page, h, freeNext).headers
    ensures PageOk(size, p, chain, AddMemory(size, mem, page, h, freeNext).headers[p], freeNext)
  {
    hide Chained;
  }

  lemma ChainedElsewhere(size: nat, p: nat, chain: seq<nat>, first: nat, page: nat, before: map<nat, nat>,
                         after: map<nat, nat>)
    requires size > 0 && p != page && p % SLAB_SIZE == 0 && page % SLAB_SIZE == 0 && ChainOk(chain, Slots(size))
    requires Chained(size, p, chain, first, before) && PageBuilt(size, page, before, after)
    ensures Chained(size, p, chain, first, after)
  {
    PagesApart(p, page);
    forall j | 0 <= j < |chain|
      ensures !(page <= MetaAt(size, p, chain[j]) < page + SLAB_SIZE)
    {
      SlotInPage(size, chain[j]);
      AtPage(size, p, chain[j]);
    }
    hide MetaAt;
  }

  class Cache {
    const objectSize: nat
    var headers: map<nat, Header>
    var freeNext: map<nat, nat>
    var partial: nat
    var partialNr: nat
    ghost var pool: Pool

    ghost function Mem(): Memory
      reads this
    {
      Memory(headers, freeNext, partial)
    }

    ghost predicate Valid()
      reads this
    {
      ObjectSize(objectSize) && Stores(objectSize, Mem(), pool) && partialNr == pool.count
    }

    constructor (order: nat)
      requires MIN_ORDER <= order <= MAX_ORDER
      ensures Valid() && pool == EMPTY && objectSize == Pow2(order)
    {
      objectSize := Pow2(order);
      headers, freeNext, partial, partialNr, pool := map[], map[], NULL, 0, EMPTY;
      new;
      EmptyIsGood(objectSize);
    }

    /** Lay out a new page and chain all its slots. */
    method PageInit(page: nat)
      requires page in headers && ObjectSize(objectSize)
      modifies this`headers, this`freeNext
      ensures headers == old(headers)[page := NewHeader(objectSize, page, old(headers[page]))]
      ensures PageBuilt(objectSize, page, old(freeNext), freeNext)
    {
      SlotsPositive(objectSize);
      HeaderIs(objectSize, page, headers[page]);
      hide Slots, MetaAt, ObjectAt, ObjectSize, PageBuilt, NewHeader;
      var total, zone := Slots(objectSize), page + HEADER_SIZE;
      headers := headers[page :=
                     headers[page].(zone := HEADER_SIZE, total := total, cur := total, freeItem := zone + objectSize)];
      ChainSlots(page, zone, total);
    }

    /** The loop that chains the slots from the first to the last. */
    method ChainSlots(page: nat, zone: nat, total: nat)
      requires objectSize > 0 && zone == page + HEADER_SIZE && 0 < total == Slots(objectSize)
      modifies this`freeNext
      ensures PageBuilt(objectSize, page, old(freeNext), freeNext)
    {
      FirstSlot(objectSize, page);
      NothingBuilt(objectSize, page, freeNext);
      hide Slots, MetaAt, ObjectAt, SlotOffset, Building, PageBuilt, Link, FreshChain;
      var unit := objectSize + META_SIZE;
      var offset, i := 0, 1;
      while i <= total
        invariant 1 <= i <= total + 1 && offset == SlotOffset(unit, i - 1)
        invariant Building(objectSize, page, i - 1, old(freeNext), freeNext)
      {
        var item := zone + offset + objectSize;
        InitStep(objectSize, page, i, offset, old(freeNext), freeNext);
        if i < total {
          var next := zone + (offset + unit) + objectSize;
          freeNext := freeNext[item := next];
        } else {
          freeNext := freeNext[item := NULL];
        }
        offset, i := offset + unit, i + 1;
      }
      AllBuilt(objectSize, page, old(freeNext), freeNext);
    }

    /** Ask the page allocator for new pages; offer holds what it would grant, in turn. */
    method Expand(offer: seq<nat>)
      requires Valid() && partialNr == 0 && Offered(pool, offer)
      modifies this
      ensures Valid() && pool == SlubPool.Expand(old(pool), objectSize, offer)
      ensures partialNr == if |offer| < 2 then |offer| else 2
      ensures headers.Keys == old(headers).Keys + (set i: nat | i < partialNr :: offer[i])
    {
      StoresGood(objectSize, Mem(), pool);
      ExpandedPages(pool, objectSize, offer);
      hide Stores, ObjectSize, FreshChain, Slots, PageBuilt, At, MetaAt, ObjectAt;
      ghost var before := pool;
      ExpandKeeps(before, objectSize, offer);
      NoPagesYet(before, objectSize, offer);
      assert forall k :: 0 <= k < |offer| ==> offer[k] != NULL;
      FrontIs(objectSize, Mem(), pool);
      hide Good, Offered;
      partial, partialNr := NULL, 0;
      var i := 0;
      hide WithPages;
      while i < MIN_PARTIAL
        invariant 0 <= i <= MIN_PARTIAL && i <= |offer|
        invariant Valid() && pool == WithPages(before, objectSize, offer[..i])
      {
        var page := if i < |offer| then offer[i] else NULL;
        if page != NULL {
          AddedPage(before, objectSize, offer, i);
          AddPage(page);
        } else {
          break;
        }
        i := i + 1;
      }
      StoresGood(objectSize, Mem(), pool);
    }

    /** Put a new page with all its slots free at the front of the partial list. */
    method AddPage(page: nat)
      requires Valid() && page !in pool.chains && page != NULL && page % SLAB_SIZE == 0
      requires Good(Pool([page] + pool.list, pool.chains[page := FreshChain(Slots(objectSize))], pool.count + 1),
                    objectSize)
      modifies this
      ensures Valid()
      ensures pool == old(Pool([page] + pool.list, pool.chains[page := FreshChain(Slots(objectSize))], pool.count + 1))
    {
      hide Stores, ObjectSize, FreshChain, Slots, PageBuilt, Good, MetaAt, ObjectAt;
      ghost var mem := Mem();
      FrontIs(objectSize, mem, pool);
      partialNr := partialNr + 1;
      var next := partial;
      headers := headers[page := Header(0, 0, 0, NULL, NULL, next)];
      partial := page;
      if next != NULL {
        headers := headers[next := headers[next].(prev := page)];
      }
      PageInit(page);
      AddStores(objectSize, mem, pool, page, Header(0, 0, 0, NULL, NULL, NULL), freeNext);
      pool := Pool([page] + pool.list, pool.chains[page := FreshChain(Slots(objectSize))], pool.count + 1);
    }

    /**
     * A free object, or NULL when the page allocator grants nothing: the front page's first free one, or the first
     * one of the last page granted, of two at most.
     */
    method Alloc(offer: seq<nat>) returns (obj: nat)
      requires Valid() && Offered(pool, offer) && (partialNr > 0 ==> partial != NULL)
      modifies this
      ensures Valid() && MayAlloc(old(pool), objectSize, offer) && pool == SlubPool.Alloc(old(pool), objectSize, offer)
      ensures obj == NULL <==> Granted(old(pool), objectSize, offer) == {}
      ensures obj != NULL ==>
                exists s :: Granted(old(pool), objectSize, offer) == {s} && obj == ObjectAt(objectSize, s.page, s.index)
      ensures old(partialNr) == 0 && offer == [] ==> obj == NULL
      ensures old(partialNr) == 0 && offer != [] ==>
                obj == ObjectAt(objectSize, offer[if |offer| < 2 then |offer| - 1 else 1], 0)
      ensures old(partialNr) > 0 ==>
                old(partial) in old(headers) && obj + objectSize == old(headers)[old(partial)].freeItem && obj != NULL
    {
      hide Stores, ObjectSize, Offered, Slots, Granted, ObjectAt, MetaAt, Good, SlubPool.Expand;
      StoresGood(objectSize, Mem(), pool);
      FrontIs(objectSize, Mem(), pool);
      MayAllocHere(pool, objectSize, offer);
      ExpandedFront(pool, objectSize, offer);
      if partialNr == 0 {
        Expand(offer);
      }
      if partialNr == 0 {
        return NULL;
      }
      GrantedIs(old(pool), objectSize, offer);
      obj := TakeFront();
    }

    /** Unlink the first free slot of the front page; a page left without leaves the partial list. */
    method TakeFront() returns (obj: nat)
      requires Valid() && pool.list != []
      modifies this
      ensures Valid() && MayTake(old(pool)) && pool == Take(old(pool)) && obj != NULL
      ensures obj == ObjectAt(objectSize, Taken(old(pool)).page, Taken(old(pool)).index)
      ensures old(partial) in old(headers) && obj + objectSize == old(headers)[old(partial)].freeItem
      ensures obj + objectSize in old(freeNext)
      ensures old(partial) in headers && headers[old(partial)].freeItem == old(freeNext)[obj + objectSize]
      ensures partial == if old(freeNext)[obj + objectSize] == NULL then old(headers)[old(partial)].next
                         else old(partial)
    {
      hide Stores, ObjectSize, Slots, ObjectAt, MetaAt, Good, At, Link;
      ghost var mem, stocked := Mem(), pool;
      FrontPage(objectSize, mem, pool);
      TakeStores(objectSize, mem, pool);
      FrontApart(objectSize, mem, pool);
      var page, h := partial, headers[partial];
      var item := h.freeItem;
      var rest := freeNext[item];
      headers := headers[page := h.(cur := h.cur - 1, freeItem := rest)];
      assert headers[page].cur <= headers[page].total;
      if rest == NULL {
        partial := h.next;
        if partial != NULL {
          headers := headers[partial := headers[partial].(prev := NULL)];
        }
        partialNr := partialNr - 1;
        headers := headers[page := headers[page].(next := NULL, prev := NULL)];
      } else {
        freeNext := freeNext[item := NULL];
      }
      pool := Take(pool);
      assert Mem() == TakeMemory(mem);
      hide TakeMemory;
      ObjectNotNull(objectSize, page, Taken(stocked).index);
      return item - objectSize;
    }

    /** Give an object in use back; the result is the page handed to the page allocator, or NULL. */
    method Free(obj: nat, ghost s: Slot) returns (released: nat)
      requires Valid() && s in Live(pool, objectSize) && obj == ObjectAt(objectSize, s.page, s.index)
      requires partialNr + 1 < SIZE_MAX
      modifies this
      ensures Valid() && s.page in old(pool.chains) && pool == SlubPool.Free(old(pool), objectSize, s)
      ensures released == if Releases(old(pool), objectSize, s) then s.page else NULL
      ensures released == s.page <==> LastInUse(old(pool), objectSize, s) && partialNr > 2
      ensures released != s.page ==> released == NULL
      ensures released == s.page <==> s.page !in headers
      ensures released == NULL ==>
                && headers[s.page].freeItem == obj + objectSize && obj + objectSize in freeNext
                && s.page in old(headers) && freeNext[obj + objectSize] == old(headers)[s.page].freeItem
                && partial == if old(headers)[s.page].freeItem == NULL then s.page else old(partial)
    {
      hide LastInUse, Releases, ObjectSize, Slots, ObjectAt, MetaAt, Stores, Good, Live;
      ghost var before := pool;
      var page := obj - obj % SLAB_SIZE;
      FreeFacts(objectSize, Mem(), pool, s, obj);
      ReleaseFacts(objectSize, Mem(), pool, s);
      LinkBack(obj, page, s);
      released := NULL;
      if (headers[page].cur == headers[page].total && partialNr > MIN_PARTIAL) || partialNr == SIZE_MAX {
        ReleasePage(page);
        released := page;
      }
      StoresGood(objectSize, Mem(), pool);
    }

    /** Link the object's slot in at the front of its page's chain, and a page that was full into the partial list. */
    method LinkBack(obj: nat, page: nat, ghost s: Slot)
      requires Valid() && s in Live(pool, objectSize) && obj == ObjectAt(objectSize, s.page, s.index)
      requires page == s.page
      modifies this
      ensures Valid() && s.page in old(pool.chains) && pool == Put(old(pool), s) && page in pool.list
      ensures page in headers && page in old(headers)
      ensures headers[page].cur == old(headers[page]).cur + 1 <= headers[page].total == old(headers[page]).total
      ensures headers[page].freeItem == obj + objectSize && obj + objectSize in freeNext
      ensures freeNext[obj + objectSize] == old(headers[page]).freeItem
      ensures partial == if old(headers[page]).freeItem == NULL then page else old(partial)
    {
      hide ObjectSize, Slots, ObjectAt, MetaAt, Stores, Good, Live;
      ghost var mem := Mem();
      FreeFacts(objectSize, mem, pool, s, obj);
      FrontIs(objectSize, mem, pool);
      if headers[page].freeItem == NULL {
        PushPartial(page);
      }
      hide PushHeaders;
      var meta, h := obj + objectSize, headers[page];
      freeNext := freeNext[meta := h.freeItem];
      headers := headers[page := h.(freeItem := meta, cur := h.cur + 1)];
      pool := Put(pool, s);
      assert Mem() == PutMemory(mem, page, meta);
      assert headers[page].cur <= headers[page].total;
    }

    /** Put a page at the front of the partial list. */
    method PushPartial(page: nat)
      requires page in headers && partial != page && (partial != NULL ==> partial in headers)
      modifies this`headers, this`partial, this`partialNr
      ensures headers == PushHeaders(old(headers), old(partial), page, old(headers[page]))
      ensures headers[page] == old(headers[page]).(next := old(partial), prev := NULL)
      ensures partial == page && partialNr == old(partialNr) + 1
    {
      headers := headers[page := headers[page].(next := partial)];
      partial := page;
      partialNr := partialNr + 1;
      var next := headers[page].next;
      if next != NULL {
        headers := headers[next := headers[next].(prev := page)];
      }
      headers := headers[page := headers[page].(prev := NULL)];
    }

    /** Take a page off the partial list and hand it to the page allocator. */
    method ReleasePage(page: nat)
      requires Valid() && page in pool.list
      requires Good(pool.(list := Without(pool.list, page), chains := pool.chains - {page}), objectSize)
      modifies this`headers, this`partial, this`pool
      ensures Valid() && pool == old(pool.(list := Without(pool.list, page), chains := pool.chains - {page}))
    {
      ghost var mem := Mem();
      ListedLinks(objectSize, mem, pool, page);
      ReleaseStores(objectSize, mem, pool, page);
      hide Stores, Good, ObjectSize;
      var h := headers[page];
      if h.next != NULL {
        headers := headers[h.next := headers[h.next].(prev := h.prev)];
      }
      if h.prev != NULL {
        headers := headers[h.prev := headers[h.prev].(next := h.next)];
      } else {
        partial := h.next;
      }
      headers := headers - {page};
      pool := pool.(list := Without(pool.list, page), chains := pool.chains - {page});
      assert Mem() == UnlinkMemory(mem, page);
    }
  }

  /** The release test on the page's counters. */
  lemma ReleaseFacts(size: nat, mem: Memory, pool: Pool, s: Slot)
    requires Stores(size, mem, pool) && s in Live(pool, size)
    ensures s.page in mem.headers && s.page in pool.chains && s.page != NULL
    ensures Releases(pool, size, s) <==>
              mem.headers[s.page].cur + 1 == mem.headers[s.page].total && Put(pool, s).count > MIN_PARTIAL
    ensures Releases(pool, size, s) <==> LastInUse(pool, size, s) && SlubPool.Free(pool, size, s).count > 2
    ensures Releases(pool, size, s) <==> s.page !in SlubPool.Free(pool, size, s).chains
  {
    assert PageOk(size, s.page, pool.chains[s.page], mem.headers[s.page], mem.freeNext);
    ReleasesExactlyWhen(pool, size, s);
    hide Stores, Good, Live, LastInUse, Slots;
  }

  /** What freeing relies on. */
  lemma FreeFacts(size: nat, mem: Memory, pool: Pool, s: Slot, obj: nat)
    requires Stores(size, mem, pool) && s in Live(pool, size) && obj == ObjectAt(size, s.page, s.index)
    ensures obj - obj % SLAB_SIZE == s.page && obj + size == MetaAt(size, s.page, s.index)
    ensures s.page in mem.headers && s.page in pool.chains
    ensures var h, chain := mem.headers[s.page], pool.chains[s.page];
            (h.freeItem == NULL <==> chain == []) && h.cur == |chain| && h.cur < h.total == Slots(size)
    ensures s.page !in pool.list <==> pool.chains[s.page] == []
    ensures pool.chains[s.page] == [] ==> mem.partial != s.page
    ensures Stores(size, PutMemory(mem, s.page, MetaAt(size, s.page, s.index)), Put(pool, s))
            && s.page in Put(pool, s).list
    ensures Good(Free(pool, size, s), size)
  {
    LiveInPage(size, s, obj);
    PageOfLive(size, mem, pool, s);
    PutStores(size, mem, pool, s);
    PutKeeps(pool, size, s);
    FreeKeeps(pool, size, s);
  }

  /** Finding the page of an object in use, and its chain pointer. */
  lemma LiveInPage(size: nat, s: Slot, obj: nat)
    requires size > 0 && s.index < Slots(size) && s.page % SLAB_SIZE == 0 && obj == ObjectAt(size, s.page, s.index)
    ensures obj - obj % SLAB_SIZE == s.page && obj + size == MetaAt(size, s.page, s.index)
  {
    MaskFindsPage(size, s.page, s.index);
  }

  /** The first n slots of the page are chained. */
  ghost predicate Building(size: nat, page: nat, n: nat, before: map<nat, nat>, after: map<nat, nat>) {
    && (forall j :: 0 <= j < n ==>
          MetaAt(size, page, j) in after
            && after[MetaAt(size, page, j)] == Link(size, page, FreshChain(Slots(size)), j + 1))
    && (forall a :: a in before && !(page <= a < page + SLAB_SIZE) ==> a in after && after[a] == before[a])
  }

  lemma SlotsPositive(size: nat)
    requires ObjectSize(size)
    ensures size > 0 && Slots(size) > 0
  {
    SizesAreThese(size);
  }

  lemma HeaderIs(size: nat, page: nat, h: Header)
    ensures NewHeader(size, page, h)
         == h.(zone := HEADER_SIZE, total := Slots(size), cur := Slots(size), freeItem := page + HEADER_SIZE + size)
  {
    FirstSlot(size, page);
  }

  lemma NothingBuilt(size: nat, page: nat, freeNext: map<nat, nat>)
    ensures Building(size, page, 0, freeNext, freeNext)
  {
  }

  lemma BuildStep(size: nat, page: nat, i: nat, before: map<nat, nat>, after: map<nat, nat>)
    requires size > 0 && 1 <= i <= Slots(size) && Building(size, page, i - 1, before, after)
    ensures var next := if i < Slots(size) then MetaAt(size, page, i) else NULL;
            Building(size, page, i, before, after[MetaAt(size, page, i - 1) := next])
  {
    ChainLinkDistinct(size, page, i - 1);
    hide MetaAt, Slots;
  }

  /** One round of the loop that chains the slots. */
  lemma InitStep(size: nat, page: nat, i: nat, offset: nat, before: map<nat, nat>, after: map<nat, nat>)
    requires size > 0 && 1 <= i <= Slots(size) && Building(size, page, i - 1, before, after)
    requires offset == SlotOffset(size + META_SIZE, i - 1)
    ensures offset + (size + META_SIZE) == SlotOffset(size + META_SIZE, i)
    ensures var item := page + HEADER_SIZE + offset + size;
            var next := page + HEADER_SIZE + (offset + (size + META_SIZE)) + size;
            Building(size, page, i, before, after[item := if i < Slots(size) then next else NULL])
  {
    StepSlot(size, page, i, offset);
    hide MetaAt, SlotOffset, Slots, Building;
    BuildStep(size, page, i, before, after);
  }

  lemma AllBuilt(size: nat, page: nat, before: map<nat, nat>, after: map<nat, nat>)
    requires Slots(size) > 0 && Building(size, page, Slots(size), before, after)
    ensures PageBuilt(size, page, before, after)
  {
    hide MetaAt, Slots;
  }

  lemma StepSlot(size: nat, page: nat, i: nat, offset: nat)
    requires i >= 1 && offset == SlotOffset(size + META_SIZE, i - 1)
    ensures MetaAt(size, page, i - 1) == page + HEADER_SIZE + offset + size
    ensures MetaAt(size, page, i) == page + HEADER_SIZE + (offset + (size + META_SIZE)) + size
    ensures offset + (size + META_SIZE) == SlotOffset(size + META_SIZE, i)
  {
    assert (i - 1) * (size + META_SIZE) + (size + META_SIZE) == i * (size + META_SIZE);
  }

  /** Where slot i starts, counted from the first slot. */
  function SlotOffset(unit: nat, i: nat): nat {
    i * unit
  }

  lemma FirstSlot(size: nat, page: nat)
    ensures SlotOffset(size + META_SIZE, 0) == 0
    ensures MetaAt(size, page, 0) == page + HEADER_SIZE + size
  {
  }

  /** The slot lies in its page and is none of the slots before it. */
  lemma ChainLinkDistinct(size: nat, page: nat, i: nat)
    requires size > 0 && i < Slots(size)
    ensures page <= MetaAt(size, page, i) < page + SLAB_SIZE
    ensures forall j :: 0 <= j < i ==> MetaAt(size, page, j) != MetaAt(size, page, i)
  {
    SlotInPage(size, i);
    AtPage(size, page, i);
    forall j | 0 <= j < i
      ensures MetaAt(size, page, j) != MetaAt(size, page, i)
    {
      SlotsBefore(size, j, i);
      AtPage(size, page, j);
    }
  }

  /** One more page at the front. */
  lemma AddedPage(pool: Pool, size: nat, offer: seq<nat>, i: nat)
    requires Good(pool, size) && pool.list == [] && Offered(pool, offer) && i < |offer|
    ensures var here, more := WithPages(pool, size, offer[..i]), WithPages(pool, size, offer[..i + 1]);
            && more == Pool([offer[i]] + here.list, here.chains[offer[i] := FreshChain(Slots(size))], here.count + 1)
            && Good(more, size) && offer[i] !in here.chains && offer[i] != NULL && offer[i] % SLAB_SIZE == 0
  {
    assert offer[..i + 1][..i] == offer[..i];
    WithPagesKeeps(pool, size, offer[..i + 1]);
    AddedHas(pool.chains, offer[..i], Slots(size));
    hide Added, Reversed, Good, Slots;
  }

  /** The second page on the list is not the first. */
  lemma FrontApart(size: nat, mem: Memory, pool: Pool)
    requires Stores(size, mem, pool) && pool.list != []
    ensures mem.partial in mem.headers && mem.headers[mem.partial].next != mem.partial && NULL !in mem.headers
  {
    FrontPage(size, mem, pool);
    ListDistinct(size, mem, pool);
  }

  lemma StoresGood(size: nat, mem: Memory, pool: Pool)
    requires Stores(size, mem, pool)
    ensures Good(pool, size) && mem.headers.Keys == pool.chains.Keys
  {
  }

  /** The head pointer is null exactly when the list is empty. */
  lemma FrontIs(size: nat, mem: Memory, pool: Pool)
    requires Stores(size, mem, pool)
    ensures mem.partial == At(pool.list, 0) && (mem.partial == NULL <==> pool.list == [])
    ensures mem.partial != NULL ==> mem.partial in mem.headers
    ensures mem.headers.Keys == pool.chains.Keys
  {
    ListDistinct(size, mem, pool);
  }

  lemma ListedLinks(size: nat, mem: Memory, pool: Pool, page: nat)
    requires Stores(size, mem, pool) && page in pool.list
    ensures page in mem.headers && NULL !in mem.headers
    ensures mem.headers[page].next != NULL ==> mem.headers[page].next in mem.headers
    ensures mem.headers[page].prev != NULL ==> mem.headers[page].prev in mem.headers
  {
    var k :| 0 <= k < |pool.list| && pool.list[k] == page;
    ListDistinct(size, mem, pool);
    LinksAround(pool.list, mem.headers, mem.partial, k);
  }

  lemma NoPagesYet(pool: Pool, size: nat, offer: seq<nat>)
    requires Good(pool, size) && pool.count == 0
    ensures WithPages(pool, size, offer[..0]) == pool
  {
  }

  lemma MayAllocHere(pool: Pool, size: nat, offer: seq<nat>)
    requires Good(pool, size) && Offered(pool, offer) && (pool.count > 0 ==> pool.list != [])
    ensures MayAlloc(pool, size, offer)
    ensures Stocked(pool, size, offer).count > 0 ==> Stocked(pool, size, offer).list != []
    ensures Stocked(pool, size, offer).count == 0 ==> Granted(pool, size, offer) == {}
  {
    PossibleMeansMay(pool, size, offer);
  }

  lemma ExpandedPages(pool: Pool, size: nat, offer: seq<nat>)
    ensures var n := if |offer| < 2 then |offer| else 2;
            && SlubPool.Expand(pool, size, offer).count == n
            && SlubPool.Expand(pool, size, offer).chains.Keys
               == pool.chains.Keys + (set i: nat | i < n :: offer[i])
  {
    var n := if |offer| < 2 then |offer| else 2;
    AddedHas(pool.chains, offer[..n], Slots(size));
    hide Added;
    assert (set p | p in offer[..n]) == (set i: nat | i < n :: offer[i]);
  }

  /** The front of a list just expanded: the first slot of the last page. */
  lemma ExpandedFront(pool: Pool, size: nat, offer: seq<nat>)
    requires Good(pool, size) && Offered(pool, offer)
    ensures pool.count == 0 && offer == [] ==> Stocked(pool, size, offer).count == 0
    ensures pool.count == 0 && offer != [] ==>
              && Stocked(pool, size, offer).count > 0 && MayTake(Stocked(pool, size, offer))
              && Taken(Stocked(pool, size, offer)) == Slot(offer[if |offer| < 2 then |offer| - 1 else 1], 0)
  {
    if pool.count == 0 && offer != [] {
      var used := offer[..if |offer| < 2 then |offer| else 2];
      AddedHas(pool.chains, used, Slots(size));
      assert used[|used| - 1] in used;
      hide Added;
    }
  }

  lemma GrantedIs(pool: Pool, size: nat, offer: seq<nat>)
    requires MayAlloc(pool, size, offer) && Stocked(pool, size, offer).count > 0
    ensures Granted(pool, size, offer) == {Taken(Stocked(pool, size, offer))}
  {
  }

  lemma ObjectNotNull(size: nat, page: nat, i: nat)
    ensures ObjectAt(size, page, i) != NULL && MetaAt(size, page, i) == ObjectAt(size, page, i) + size
  {
    NonNegative(i, size + META_SIZE);
  }
}
