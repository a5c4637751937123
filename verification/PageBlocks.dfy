/** The buddy system's blocks as values: which page frames head a block of which order.
    A frame's entry is the order of the block it heads, or ORDER_NONE. */
module PageBlocks {
  import opened Powers

  const PAGE_BITS := 12
  const ORDER_MAX := 64
  const ORDER_NONE := 65

  type Orders = seq<nat>

  /** The number of page frames in a block of the given order. */
  function Span(order: nat): (r: nat)
    requires order >= PAGE_BITS
    ensures r >= 1
  {
    Pow2(order - PAGE_BITS)
  }

  lemma SpanNext(order: nat)
    requires order >= PAGE_BITS
    ensures Span(order + 1) == 2 * Span(order)
  {
    assert order + 1 - PAGE_BITS == (order - PAGE_BITS) + 1;
  }

  predicate Head(s: Orders, p: int) {
    0 <= p < |s| && PAGE_BITS <= s[p] <= ORDER_MAX
  }

  predicate InBlock(s: Orders, p: int, q: int) {
    Head(s, p) && p <= q < p + Span(s[p])
  }

  ghost predicate Covered(s: Orders, q: int) {
    exists p :: InBlock(s, p, q)
  }

  /** The run of frames p .. p + Span(order) lies in the region, aligned to its own size;
      base is the frame number of the region's first frame. */
  predicate IsRun(base: nat, n: nat, p: int, order: nat) {
    PAGE_BITS <= order <= ORDER_MAX && 0 <= p && p + Span(order) <= n && Aligned(base + p, order - PAGE_BITS)
  }

  /** Every block is an aligned run of the region and blocks do not overlap. */
  ghost predicate Blocks(base: nat, s: Orders) {
    && (forall p :: 0 <= p < |s| ==> s[p] == ORDER_NONE || IsRun(base, |s|, p, s[p]))
    && (forall p, q :: Head(s, p) && Head(s, q) && p < q ==> p + Span(s[p]) <= q)
  }

  /** Two heads are buddies when together they make an aligned block of the next order. */
  predicate Buddies(base: nat, s: Orders, p: int, q: int) {
    && Head(s, p) && Head(s, q)
    && s[p] == s[q] && q == p + Span(s[p])
    && Aligned(base + p, s[p] + 1 - PAGE_BITS)
  }

  /** No two buddies are both present. */
  ghost predicate Coalesced(base: nat, s: Orders) {
    forall p, q :: !Buddies(base, s, p, q)
  }

  ghost predicate Canonical(base: nat, s: Orders) {
    Blocks(base, s) && Coalesced(base, s)
  }

  /** Every frame of the run is covered. */
  ghost predicate RunCovered(s: Orders, p: int, order: nat)
    requires order >= PAGE_BITS
  {
    forall q :: p <= q < p + Span(order) ==> Covered(s, q)
  }

  /** No frame of the run is covered. */
  ghost predicate RunClear(s: Orders, p: int, order: nat)
    requires order >= PAGE_BITS
  {
    forall q :: p <= q < p + Span(order) ==> !Covered(s, q)
  }

  lemma HeadCoversItsRun(s: Orders, p: int)
    requires Head(s, p)
    ensures RunCovered(s, p, s[p])
  {
    forall q | p <= q < p + Span(s[p])
      ensures Covered(s, q)
    {
      assert InBlock(s, p, q);
    }
  }

  /** Aligned runs are nested or disjoint. */
  lemma RunsNest(base: nat, n: nat, p: int, j: nat, q: int, k: nat)
    requires IsRun(base, n, p, j) && IsRun(base, n, q, k) && j <= k
    requires p < q + Span(k) && q < p + Span(j)
    ensures q <= p && p + Span(j) <= q + Span(k)
  {
    var a := j - PAGE_BITS;
    AlignedSmaller(base + q, a, k - PAGE_BITS);
    Pow2Aligned(k - PAGE_BITS, a);
    AlignedSum(base + q, Span(k), a);
    AlignedApart(base + p, base + q + Span(k), a);
    if p < q {
      AlignedApart(base + p, base + q, a);
    }
  }

  /** The two halves of a run are runs of the order below, and buddies. */
  lemma Halves(base: nat, n: nat, p: int, order: nat)
    requires IsRun(base, n, p, order) && order > PAGE_BITS
    ensures Span(order) == 2 * Span(order - 1)
    ensures IsRun(base, n, p, order - 1) && IsRun(base, n, p + Span(order - 1), order - 1)
    ensures !Aligned(base + (p + Span(order - 1)), order - PAGE_BITS)
  {
    AlignedSmaller(base + p, order - 1 - PAGE_BITS, order - PAGE_BITS);
    AlignedNext(base + p, order - 1 - PAGE_BITS);
    assert base + p + Span(order - 1) == base + (p + Span(order - 1));
  }

  /** Coalescing makes free runs indivisible: an aligned run of covered frames lies inside one block. */
  lemma {:induction false} CoveredRunInOneBlock(base: nat, s: Orders, p: int, order: nat) returns (h: nat)
    requires Canonical(base, s) && IsRun(base, |s|, p, order) && RunCovered(s, p, order)
    ensures Head(s, h) && s[h] >= order && h <= p && p + Span(order) <= h + Span(s[h])
    decreases order
  {
    if order == PAGE_BITS {
      assert Covered(s, p);
      h :| InBlock(s, h, p);
    } else {
      Halves(base, |s|, p, order);
      var r := p + Span(order - 1);
      h := CoveredRunInOneBlock(base, s, p, order - 1);
      var h' := CoveredRunInOneBlock(base, s, r, order - 1);
      if s[h] >= order {
        RunsNest(base, |s|, p, order, h, s[h]);
      } else if s[h'] >= order {
        RunsNest(base, |s|, p, order, h', s[h']);
        h := h';
      } else {
        assert h == p && h' == r;
        assert Buddies(base, s, p, r);
        assert false;
      }
    }
  }

  /** A block of a canonical arrangement is maximal: no aligned run above it is covered. */
  lemma BlocksAreMaximal(base: nat, s: Orders, h: int, p: int, order: nat)
    requires Canonical(base, s) && Head(s, h) && IsRun(base, |s|, p, order)
    requires order > s[h] && p <= h && h + Span(s[h]) <= p + Span(order)
    ensures !RunCovered(s, p, order)
  {
    Pow2Monotone(s[h] - PAGE_BITS, order - PAGE_BITS);
    if RunCovered(s, p, order) {
      var b := CoveredRunInOneBlock(base, s, p, order);
      assert false;
    }
  }

  /** The blocks are exactly the maximal aligned runs of covered frames. */
  lemma BlocksAreExactlyTheMaximalRuns(base: nat, s: Orders, p: int, order: nat)
    requires Canonical(base, s)
    ensures (Head(s, p) && s[p] == order) <==>
            && IsRun(base, |s|, p, order) && RunCovered(s, p, order)
            && forall q, k :: k > order && IsRun(base, |s|, q, k) && q <= p && p + Span(order) <= q + Span(k)
                              ==> !RunCovered(s, q, k)
  {
    if Head(s, p) && s[p] == order {
      HeadCoversItsRun(s, p);
      forall q, k | k > order && IsRun(base, |s|, q, k) && q <= p && p + Span(order) <= q + Span(k)
        ensures !RunCovered(s, q, k)
      {
        BlocksAreMaximal(base, s, p, q, k);
      }
    }
    if && IsRun(base, |s|, p, order) && RunCovered(s, p, order)
       && forall q, k :: k > order && IsRun(base, |s|, q, k) && q <= p && p + Span(order) <= q + Span(k)
                         ==> !RunCovered(s, q, k)
    {
      var h := CoveredRunInOneBlock(base, s, p, order);
      HeadCoversItsRun(s, h);
      assert s[h] == order;
    }
  }

  /** History independence: the covered frames determine the blocks. */
  lemma CoverDeterminesBlocks(base: nat, s: Orders, t: Orders)
    requires Canonical(base, s) && Canonical(base, t) && |s| == |t|
    requires forall q :: Covered(s, q) <==> Covered(t, q)
    ensures s == t
  {
    forall p | 0 <= p < |s|
      ensures s[p] == t[p]
    {
      if Head(s, p) {
        SameHead(base, s, t, p);
      }
      if Head(t, p) {
        SameHead(base, t, s, p);
      }
    }
  }

  lemma SameHead(base: nat, s: Orders, t: Orders, p: int)
    requires Canonical(base, s) && Canonical(base, t) && |s| == |t|
    requires forall q :: Covered(s, q) <==> Covered(t, q)
    requires Head(s, p)
    ensures s[p] == t[p]
  {
    HeadCoversItsRun(s, p);
    var h := CoveredRunInOneBlock(base, t, p, s[p]);
    HeadCoversItsRun(t, h);
    var h' := CoveredRunInOneBlock(base, s, h, t[h]);
    assert InBlock(s, h', p) && InBlock(s, p, p);
    assert h' == p;
    SpanInjective(s[p], t[h]);
  }

  lemma SpanInjective(j: nat, k: nat)
    requires PAGE_BITS <= j && PAGE_BITS <= k && Span(j) == Span(k)
    ensures j == k
  {
    if j < k {
      Pow2Monotone(j - PAGE_BITS, k - PAGE_BITS);
    } else if k < j {
      Pow2Monotone(k - PAGE_BITS, j - PAGE_BITS);
    }
  }

  /** Taking one block away uncovers exactly its frames and keeps the arrangement canonical. */
  lemma RemoveBlock(base: nat, s: Orders, p: int)
    requires Blocks(base, s) && Head(s, p)
    ensures var t := s[p := ORDER_NONE];
            && Blocks(base, t)
            && (Coalesced(base, s) ==> Coalesced(base, t))
            && RunClear(t, p, s[p])
            && forall q :: Covered(t, q) <==> Covered(s, q) && !(p <= q < p + Span(s[p]))
  {
    var t := s[p := ORDER_NONE];
    forall q
      ensures Covered(t, q) <==> Covered(s, q) && !(p <= q < p + Span(s[p]))
    {
      RemoveCover(base, s, p, q);
    }
    RemoveKeepsBlocks(base, s, p);
    if Coalesced(base, s) {
      RemoveKeepsCoalesced(base, s, p);
    }
  }

  lemma RemoveKeepsBlocks(base: nat, s: Orders, p: int)
    requires Blocks(base, s) && Head(s, p)
    ensures Blocks(base, s[p := ORDER_NONE])
  {
    var t := s[p := ORDER_NONE];
    forall a, b | Head(t, a) && Head(t, b) && a < b
      ensures a + Span(t[a]) <= b
    {
      assert Head(s, a) && Head(s, b);
    }
  }

  lemma RemoveKeepsCoalesced(base: nat, s: Orders, p: int)
    requires Coalesced(base, s) && Head(s, p)
    ensures Coalesced(base, s[p := ORDER_NONE])
  {
    var t := s[p := ORDER_NONE];
    forall a, b | Buddies(base, t, a, b)
      ensures false
    {
      assert Buddies(base, s, a, b);
    }
  }

  lemma RemoveCover(base: nat, s: Orders, p: int, q: int)
    requires Blocks(base, s) && Head(s, p)
    ensures Covered(s[p := ORDER_NONE], q) <==> Covered(s, q) && !(p <= q < p + Span(s[p]))
  {
    var t := s[p := ORDER_NONE];
    if Covered(t, q) {
      var h :| InBlock(t, h, q);
      assert InBlock(s, h, q);
    }
    if Covered(s, q) && !(p <= q < p + Span(s[p])) {
      var h :| InBlock(s, h, q);
      assert InBlock(t, h, q);
    }
  }

  /** Putting a block on clear frames covers exactly its frames. */
  lemma InsertBlock(base: nat, s: Orders, p: int, order: nat)
    requires Blocks(base, s) && IsRun(base, |s|, p, order) && RunClear(s, p, order)
    ensures var t := s[p := order];
            && s[p] == ORDER_NONE
            && Blocks(base, t)
            && forall q :: Covered(t, q) <==> Covered(s, q) || p <= q < p + Span(order)
  {
    var t := s[p := order];
    ClearIsApart(s, p, order);
    forall a, b | Head(t, a) && Head(t, b) && a < b
      ensures a + Span(t[a]) <= b
    {
      assert (a == p || Head(s, a)) && (b == p || Head(s, b));
    }
    forall q
      ensures Covered(t, q) <==> Covered(s, q) || p <= q < p + Span(order)
    {
      InsertCover(s, p, order, q);
    }
  }

  lemma ClearIsApart(s: Orders, p: int, order: nat)
    requires 0 <= p < |s| && PAGE_BITS <= order && RunClear(s, p, order)
    ensures !Head(s, p)
    ensures forall h :: Head(s, h) ==> h + Span(s[h]) <= p || p + Span(order) <= h
  {
    forall h | Head(s, h)
      ensures h + Span(s[h]) <= p || p + Span(order) <= h
      ensures h != p
    {
      HeadCoversItsRun(s, h);
      var q := if h < p then p else h;
      assert Covered(s, q) ==> !(p <= q < p + Span(order));
    }
  }

  lemma InsertCover(s: Orders, p: int, order: nat, q: int)
    requires 0 <= p < |s| && s[p] == ORDER_NONE && PAGE_BITS <= order <= ORDER_MAX
    ensures Covered(s[p := order], q) <==> Covered(s, q) || p <= q < p + Span(order)
  {
    var t := s[p := order];
    if Covered(t, q) {
      var h :| InBlock(t, h, q);
      assert h == p || InBlock(s, h, q);
    }
    if Covered(s, q) {
      var h :| InBlock(s, h, q);
      assert InBlock(t, h, q);
    }
    if p <= q < p + Span(order) {
      assert InBlock(t, p, q);
    }
  }

  /** The new block does not break coalescing when its buddy does not head a block of the same order. */
  lemma InsertCoalesced(base: nat, s: Orders, p: int, order: nat)
    requires Blocks(base, s) && Coalesced(base, s) && IsRun(base, |s|, p, order) && RunClear(s, p, order)
    requires Aligned(base + p, order + 1 - PAGE_BITS) ==>
               !(Head(s, p + Span(order)) && s[p + Span(order)] == order)
    requires !Aligned(base + p, order + 1 - PAGE_BITS) ==>
               !(Head(s, p - Span(order)) && s[p - Span(order)] == order)
    ensures Coalesced(base, s[p := order])
  {
    hide Aligned;
    var t, below := s[p := order], p - Span(order);
    if Head(s, below) && s[below] == order {
      AlignedNext(base + below, order - PAGE_BITS);
      assert base + below + Span(order) == base + p;
    }
    forall a, b
      ensures !Buddies(base, t, a, b)
    {
      assert a != p && b != p ==> !Buddies(base, s, a, b);
    }
  }

  /** The total number of frames in the blocks. */
  function Weight(order: nat): nat {
    if PAGE_BITS <= order <= ORDER_MAX then Span(order) else 0
  }

  function TotalPages(s: Orders): nat {
    if s == [] then 0 else Weight(s[0]) + TotalPages(s[1..])
  }

  lemma {:induction false} TotalPagesUpdate(s: Orders, p: nat, order: nat)
    requires p < |s|
    ensures TotalPages(s[p := order]) == TotalPages(s) - Weight(s[p]) + Weight(order)
  {
    if p == 0 {
      assert s[0 := order][1..] == s[1..];
    } else {
      assert s[p := order][1..] == s[1..][p - 1 := order];
      TotalPagesUpdate(s[1..], p - 1, order);
    }
  }
}
