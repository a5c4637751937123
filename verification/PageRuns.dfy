/** Whole runs of the page allocator. */
module PageRuns {
  import opened PageBlocks
  import opened PageLayout
  import opened PageAllocator

  /** The block at p, free or live, holds frame q. */
  predicate InSomeBlock(free: Orders, live: Orders, p: int, q: int) {
    InBlock(free, p, q) || InBlock(live, p, q)
  }

  /** Free and live blocks tile the region: every frame lies in exactly one block, of exactly one kind. */
  lemma FramesLieInOneBlock(base: nat, free: Orders, live: Orders, q: int)
    requires Blocks(base, free) && Partition(base, free, live) && 0 <= q < |free|
    ensures exists p :: InSomeBlock(free, live, p, q) && forall r :: InSomeBlock(free, live, r, q) ==> r == p
    ensures !(Covered(free, q) && Covered(live, q))
  {
    if Covered(free, q) {
      var p :| InBlock(free, p, q);
      assert InSomeBlock(free, live, p, q);
      OneBlockOfAKind(base, free, p, q);
    } else {
      var p :| InBlock(live, p, q);
      assert InSomeBlock(free, live, p, q);
      OneBlockOfAKind(base, live, p, q);
    }
  }

  lemma OneBlockOfAKind(base: nat, s: Orders, p: int, q: int)
    requires Blocks(base, s) && InBlock(s, p, q)
    ensures forall r :: InBlock(s, r, q) ==> r == p
  {
    forall r | InBlock(s, r, q)
      ensures r == p
    {
      assert Head(s, r) && Head(s, p);
    }
  }

  /** A request a client makes: so many bytes, or the return of the i-th block it holds. */
  datatype Request = Get(size: nat) | Put(i: nat)

  /** The addresses a client holds are the live blocks, each once. */
  ghost predicate Holds(l: Layout, live: Orders, held: seq<nat>) {
    && (forall i :: 0 <= i < |held| ==> Head(live, l.PageOf(held[i])) && held[i] == l.AddrOf(l.PageOf(held[i])))
    && (forall i, j :: 0 <= i < j < |held| ==> held[i] != held[j])
    && (forall p :: Head(live, p) ==> l.AddrOf(p) in held)
  }

  lemma HoldsMore(l: Layout, live: Orders, held: seq<nat>, addr: nat, order: nat)
    requires Holds(l, live, held) && |live| == l.pageNum
    requires var p := l.PageOf(addr);
             IsRun(l.Base(), l.pageNum, p, order) && addr == l.AddrOf(p) && live[p] == ORDER_NONE
    ensures Holds(l, live[l.PageOf(addr) := order], held + [addr])
  {
    var held', live' := held + [addr], live[l.PageOf(addr) := order];
    assert addr !in held;
    forall p | Head(live', p)
      ensures l.AddrOf(p) in held'
    {
      assert p != l.PageOf(addr) ==> Head(live, p);
    }
  }

  lemma HoldsFewer(l: Layout, live: Orders, held: seq<nat>, i: nat)
    requires Holds(l, live, held) && |live| == l.pageNum && i < |held|
    ensures Holds(l, live[l.PageOf(held[i]) := ORDER_NONE], held[..i] + held[i + 1..])
  {
    var addr := held[i];
    var held', live' := held[..i] + held[i + 1..], live[l.PageOf(addr) := ORDER_NONE];
    forall j | 0 <= j < |held'|
      ensures Head(live', l.PageOf(held'[j])) && held'[j] == l.AddrOf(l.PageOf(held'[j]))
    {
      assert held'[j] == held[if j < i then j else j + 1];
    }
    forall p | Head(live', p)
      ensures l.AddrOf(p) in held'
    {
      var j :| 0 <= j < |held| && held[j] == l.AddrOf(p);
      ConversionsInverse(l, p, 0);
      assert held'[if j < i then j else j - 1] == held[j];
    }
  }

  /** Whatever a client gets and puts back, in whatever order, once it holds nothing
      the free lists describe the same blocks as before it started. */
  method RunAndReturnAll(a: Allocator, requests: seq<Request>)
    requires a.Valid() && a.live == seq(a.layout.pageNum, _ => ORDER_NONE)
    modifies a, a.lists, a.lists.first, a.lists.next, a.lists.prev, a.lists.order, a.orderAllocated
    ensures a.Valid() && a.pageAllocated == 0
    ensures a.lists.order[..] == old(a.lists.order[..])
  {
    hide Canonical, Partition, PageLists.AllLinked, CoverLess, CoverMore, Holds;
    ghost var s0 := a.lists.order[..];
    var held: seq<nat> := [];
    HoldsNothing(a.layout, a.live);
    for k := 0 to |requests|
      invariant a.Valid() && Holds(a.layout, a.live, held) && |a.live| == a.layout.pageNum
    {
      match requests[k]
      case Get(size) =>
        if size > 0 {
          ghost var live := a.live;
          var addr := a.Alloc(size);
          if addr != 0 {
            HoldsMore(a.layout, live, held, addr, SizeToOrder(size));
            held := held + [addr];
          }
        }
      case Put(i) =>
        if i < |held| {
          HeldIsLive(a.layout, a.live, held, i);
          HoldsFewer(a.layout, a.live, held, i);
          a.Free(held[i]);
          held := held[..i] + held[i + 1..];
        }
    }
    while held != []
      invariant a.Valid() && Holds(a.layout, a.live, held) && |a.live| == a.layout.pageNum
      decreases |held|
    {
      HeldIsLive(a.layout, a.live, held, 0);
      HoldsFewer(a.layout, a.live, held, 0);
      a.Free(held[0]);
      assert held[..0] + held[0 + 1..] == held[1..];
      held := held[1..];
    }
    EverythingReturned(a.layout, s0, a.lists.order[..], a.live);
  }

  lemma HoldsNothing(l: Layout, live: Orders)
    requires live == seq(l.pageNum, _ => ORDER_NONE)
    ensures Holds(l, live, [])
  {
  }

  lemma HeldIsLive(l: Layout, live: Orders, held: seq<nat>, i: nat)
    requires Holds(l, live, held) && i < |held|
    ensures Head(live, l.PageOf(held[i])) && held[i] == l.AddrOf(l.PageOf(held[i]))
  {
  }

  lemma EverythingReturned(l: Layout, s: Orders, t: Orders, live: Orders)
    requires Canonical(l.Base(), s) && Canonical(l.Base(), t) && |s| == |t| == |live|
    requires Partition(l.Base(), s, seq(|s|, _ => ORDER_NONE)) && Partition(l.Base(), t, live)
    requires Holds(l, live, [])
    ensures s == t && TotalPages(live) == 0
  {
    var none: Orders := seq(|s|, _ => ORDER_NONE);
    EmptyOrders(l.Base(), |s|);
    forall p | 0 <= p < |live|
      ensures live[p] == ORDER_NONE
    {
      assert !Head(live, p);
    }
    assert live == none;
    forall q
      ensures Covered(s, q) <==> Covered(t, q)
    {
      if q < 0 || q >= |s| {
        OutsideNotCovered(l.Base(), s, q);
        OutsideNotCovered(l.Base(), t, q);
      }
    }
    CoverDeterminesBlocks(l.Base(), s, t);
  }

  lemma OutsideNotCovered(base: nat, s: Orders, q: int)
    requires Blocks(base, s) && !(0 <= q < |s|)
    ensures !Covered(s, q)
  {
    forall p
      ensures !InBlock(s, p, q)
    {
      assert 0 <= p < |s| ==> s[p] == ORDER_NONE || IsRun(base, |s|, p, s[p]);
    }
  }
}
