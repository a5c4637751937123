/** Which addresses a removal clears, read off the tables it starts from. */
module Sweeps {
  import opened PageTable
  import opened Rounds

  /**
   * A removal of the addresses up to some end clears them from `from` on,
   * but for the two stretches gap .. resume and gap2 .. resume2.
   */
  datatype Sweep = Sweep(from: nat, gap: nat, resume: nat, gap2: nat, resume2: nat)

  function Straight(va: nat): Sweep {
    Sweep(va, 0, 0, 0, 0)
  }

  predicate Clears(s: Sweep, end: nat, x: nat) {
    s.from <= x < end && !(s.gap <= x < s.resume) && !(s.gap2 <= x < s.resume2)
  }

  /** From m0 to m the addresses up to end that the sweep clears are unmapped, and nothing else changes. */
  ghost predicate Swept(m0: Memory, m: Memory, root: nat, s: Sweep, end: nat) {
    forall x: nat :: x < SPACE ==> SweptAt(m0, m, root, s, end, x)
  }

  ghost predicate SweptAt(m0: Memory, m: Memory, root: nat, s: Sweep, end: nat, x: nat) {
    Resolve(m, root, x) == if Clears(s, end, x) then Nothing else Resolve(m0, root, x)
  }

  /** The superpage test of remove, which asks as that of create does, and of an entry that is not a table. */
  predicate Grabs(va: nat, size: nat, reach: nat, e: Entry)
    requires reach > 0
  {
    va >= reach && size >= reach && !e.IsTable()
  }

  /** The test takes the whole block of va, although va does not start it. */
  predicate Astray(va: nat, size: nat, reach: nat, e: Entry)
    requires reach > 0
  {
    Grabs(va, size, reach, e) && va % reach != 0
  }

  datatype Met = NoTable | Table(at: nat, left: nat)

  /** The first table met when the entries before it are passed a whole block's worth at a time. */
  function FirstTable(m: Memory, t: nat, cur: nat, left: nat, reach: nat): (met: Met)
    requires reach > 0
    ensures met.Table? ==> cur <= met.at && met.at + met.left == cur + left
    decreases left
  {
    if Get(m, t, Index(cur, reach)).IsTable() then Table(cur, left)
    else if left >= reach then FirstTable(m, t, cur + reach, left - reach, reach)
    else NoTable
  }

  /**
   * The sweep of a range through a second-level table. Astray it starts with the block of va, stays off the
   * boundaries until it meets a table, and leaves the head of that table's block.
   */
  function MiddleSweep(m: Memory, t: nat, va: nat, size: nat): Sweep {
    if !Astray(va, size, MEGA, Get(m, t, I2(va))) then Straight(va)
    else match FirstTable(m, t, va, size, MEGA)
         case NoTable => Straight(BlockStart(va, MEGA))
         case Table(at, _) => Sweep(BlockStart(va, MEGA), BlockStart(at, MEGA), at, 0, 0)
  }

  /** The sweep of a range through the whole tree, the same at the first level with a second-level sweep below. */
  function SweepOf(m: Memory, root: nat, va: nat, size: nat): Sweep
    requires size > 0
  {
    var e := Get(m, root, I1(va));
    if e.IsTable() then MiddleSweep(m, e.ppn, va, Chunk(va, size, GIGA))
    else if !Astray(va, size, GIGA, e) then Straight(va)
    else match FirstTable(m, root, va, size, GIGA)
         case NoTable => Straight(BlockStart(va, GIGA))
         case Table(at, left) =>
           var below := MiddleSweep(m, Get(m, root, I1(at)).ppn, at, Chunk(at, left, GIGA));
           Sweep(BlockStart(va, GIGA), BlockStart(at, GIGA), below.from, below.gap, below.resume)
  }

  /** An address before va that the sweep clears, or one of the range that it leaves. */
  predicate Strays(s: Sweep, va: nat, x: nat) {
    s.from <= x < va || s.gap <= x < s.resume || s.gap2 <= x < s.resume2
  }

  /** Nothing is mapped where the sweep of the range goes wrong. */
  ghost predicate RemovesExactly(m: Memory, root: nat, va: nat, size: nat)
    requires size > 0
  {
    forall x: nat :: x < SPACE && Strays(SweepOf(m, root, va, size), va, x) ==> Translate(m, root, x) == Unmapped
  }

  // ---------------------------------------------------------------- sweeps

  lemma NothingIsUnmapped(m: Memory, root: nat, x: nat)
    ensures Translate(m, root, x) == Unmapped <==> Resolve(m, root, x) == Nothing
  {
  }

  lemma StraightSweep(m0: Memory, m: Memory, root: nat, va: nat, end: nat)
    ensures Swept(m0, m, root, Straight(va), end) <==> Maps(m0, m, root, va, end, Away)
  {
    forall x: nat | x < SPACE
      ensures SweptAt(m0, m, root, Straight(va), end, x) <==> MapsAt(m0, m, root, va, end, Away, x)
    {
      NothingIsUnmapped(m, root, x);
      hide Resolve, Translate;
    }
  }

  /** One sweep after another. */
  lemma SweptJoin(m0: Memory, m1: Memory, m2: Memory, root: nat, s: Sweep, edge: nat, next: Sweep, end: nat)
    requires Swept(m0, m1, root, s, edge) && Swept(m1, m2, root, next, end)
    requires forall x: nat :: Clears(s, end, x) <==> Clears(s, edge, x) || Clears(next, end, x)
    ensures Swept(m0, m2, root, s, end)
  {
    forall x: nat | x < SPACE
      ensures SweptAt(m0, m2, root, s, end, x)
    {
      assert SweptAt(m0, m1, root, s, edge, x) && SweptAt(m1, m2, root, next, end, x);
    }
  }

  /** The second sweep has come only so far. */
  lemma SweptUpTo(m0: Memory, m1: Memory, m2: Memory, root: nat, s: Sweep, edge: nat, next: Sweep, end: nat, hi: nat)
    requires Swept(m0, m1, root, s, edge) && Swept(m1, m2, root, next, hi) && hi <= end && (edge <= hi || m1 == m0)
    requires forall x: nat :: Clears(s, end, x) <==> Clears(s, edge, x) || Clears(next, end, x)
    ensures Swept(m0, m2, root, s, hi)
  {
    forall x: nat | x < SPACE
      ensures SweptAt(m0, m2, root, s, hi, x)
    {
      assert SweptAt(m0, m1, root, s, edge, x) && SweptAt(m1, m2, root, next, hi, x);
      assert Clears(s, end, x) <==> Clears(s, edge, x) || Clears(next, end, x);
      hide Resolve;
    }
  }

  lemma SweptNone(m: Memory, root: nat, s: Sweep, hi: nat)
    requires hi <= s.from
    ensures Swept(m, m, root, s, hi)
  {
    hide Resolve;
  }

  /** The sweep has not come past the block at hand. */
  lemma EdgeBehind(m0: Memory, m: Memory, root: nat, s: Sweep, reach: nat, t: nat, va: nat, size: nat,
                   cur: nat, left: nat, id: nat, off: bool, edge: nat)
    requires Clearing(m0, m, root, s, reach, t, va, size, cur, left, id, off, edge) && (left > 0 || off)
    ensures Swept(m0, m, root, s, edge) && (edge <= BlockStart(cur, reach) || m == m0)
  {
    hide Swept, FirstTable;
  }

  lemma SweptNothing(m: Memory, root: nat, s: Sweep)
    ensures Swept(m, m, root, s, s.from)
  {
  }

  /** Where the stretches that go wrong lie. */
  ghost predicate Orderly(s: Sweep, va: nat, end: nat) {
    && s.from <= va
    && (s.gap < s.resume ==> va <= s.gap && s.resume <= end)
    && (s.gap2 < s.resume2 ==> va <= s.gap2 && s.resume2 <= end)
  }

  /** A sweep is exactly the removal of the range when nothing is mapped where it goes wrong. */
  lemma SweptExactly(m0: Memory, m: Memory, root: nat, s: Sweep, va: nat, end: nat)
    requires Swept(m0, m, root, s, end) && Orderly(s, va, end) && va <= end <= SPACE
    ensures Maps(m0, m, root, va, end, Away) <==>
            forall x: nat :: x < SPACE && Strays(s, va, x) ==> Translate(m0, root, x) == Unmapped
  {
    forall x: nat | x < SPACE
      ensures MapsAt(m0, m, root, va, end, Away, x) <==> (Strays(s, va, x) ==> Translate(m0, root, x) == Unmapped)
    {
      assert SweptAt(m0, m, root, s, end, x);
      NothingIsUnmapped(m, root, x);
      NothingIsUnmapped(m0, root, x);
      hide Resolve, Translate;
    }
  }

  lemma {:induction false} FirstTableOffset(m: Memory, t: nat, cur: nat, left: nat, reach: nat)
    requires Reach(reach)
    ensures var met := FirstTable(m, t, cur, left, reach);
            met.Table? ==> met.at % reach == cur % reach && (met.at == cur || cur + reach <= met.at)
    decreases left
  {
    if Get(m, t, Index(cur, reach)).IsTable() || left < reach {
    } else {
      OneOn(cur, reach);
      FirstTableOffset(m, t, cur + reach, left - reach, reach);
    }
  }


  /** The first table of a sweep off the boundaries: it is one, and the entries so many whole blocks before are not. */
  lemma {:induction false} FirstTableIsFirst(m: Memory, t: nat, cur: nat, left: nat, reach: nat)
    requires Reach(reach)
    ensures var met := FirstTable(m, t, cur, left, reach);
            && (met.Table? ==> Get(m, t, Index(met.at, reach)).IsTable())
            && forall x: nat :: cur <= x <= cur + left && x % reach == cur % reach && (met.Table? ==> x < met.at) ==>
                 !Get(m, t, Index(x, reach)).IsTable()
    decreases left
  {
    hide Get, Index;
    if Get(m, t, Index(cur, reach)).IsTable() {
    } else {
      if left >= reach {
        OneOn(cur, reach);
        FirstTableIsFirst(m, t, cur + reach, left - reach, reach);
      }
      forall x: nat | cur < x < cur + reach
        ensures x % reach != cur % reach
      {
        NotAligned(cur, x, reach);
      }
    }
  }

  lemma NotAligned(cur: nat, x: nat, reach: nat)
    requires Reach(reach) && cur < x < cur + reach
    ensures x % reach != cur % reach
  {
  }

  /** The second-level sweep goes wrong in the range, and below it in the block of its start. */
  lemma MiddleOrderly(m: Memory, t: nat, va: nat, size: nat)
    ensures var s := MiddleSweep(m, t, va, size);
            && Orderly(s, va, va + size) && BlockStart(va, GIGA) <= s.from && s.gap2 == s.resume2
            && (s.gap < s.resume ==> va < s.gap) && (va % GIGA == 0 ==> s == Straight(va))
  {
    MegaInGiga(va);
    FirstTableOffset(m, t, va, size, MEGA);
    hide FirstTable;
    if Astray(va, size, MEGA, Get(m, t, I2(va))) && FirstTable(m, t, va, size, MEGA).Table? {
      FirstTableAhead(m, t, va, size, MEGA);
    }
  }

  /** Once astray, the first table lies a block further on. */
  lemma FirstTableAhead(m: Memory, t: nat, va: nat, size: nat, reach: nat)
    requires Reach(reach) && Astray(va, size, reach, Get(m, t, Index(va, reach)))
    ensures var met := FirstTable(m, t, va, size, reach);
            met.Table? ==> va < BlockStart(met.at, reach) && met.at <= va + size && met.at % reach == va % reach
  {
    FirstTableOffset(m, t, va, size, reach);
    FirstTableOffset(m, t, va + reach, size - reach, reach);
  }

  lemma SweepOrderly(m: Memory, root: nat, va: nat, size: nat)
    requires size > 0
    ensures Orderly(SweepOf(m, root, va, size), va, va + size)
  {
    var e := Get(m, root, I1(va));
    MiddleOrderly(m, e.ppn, va, Chunk(va, size, GIGA));
    ChunkAtMost(va, size, GIGA);
    if !e.IsTable() && Astray(va, size, GIGA, e) {
      FirstTableAhead(m, root, va, size, GIGA);
      var met := FirstTable(m, root, va, size, GIGA);
      if met.Table? {
        MiddleOrderly(m, Get(m, root, I1(met.at)).ppn, met.at, Chunk(met.at, met.left, GIGA));
        ChunkAtMost(met.at, met.left, GIGA);
        hide MiddleSweep;
      }
    }
    hide Chunk, FirstTable;
  }

  // ---------------------------------------------------------------- rounds of a removal

  /** Whatever the removal does to an address, it takes its mapping away or leaves it. */
  ghost predicate OnlyClears(m0: Memory, m: Memory, root: nat) {
    forall x: nat :: x < SPACE ==> Resolve(m, root, x) == Nothing || Resolve(m, root, x) == Resolve(m0, root, x)
  }

  lemma SweptOnlyClears(m0: Memory, m: Memory, root: nat, s: Sweep, end: nat)
    requires Swept(m0, m, root, s, end)
    ensures OnlyClears(m0, m, root)
  {
    forall x: nat | x < SPACE
      ensures Resolve(m, root, x) == Nothing || Resolve(m, root, x) == Resolve(m0, root, x)
    {
      assert SweptAt(m0, m, root, s, end, x);
    }
  }

  lemma OnlyClearsOn(m0: Memory, m1: Memory, m2: Memory, root: nat)
    requires OnlyClears(m0, m1, root) && OnlyClears(m1, m2, root)
    ensures OnlyClears(m0, m2, root)
  {
    hide Resolve;
  }

  /** No entry from the id-th of table t on was written, and none of another table. */
  ghost predicate OnlyBefore(m0: Memory, m: Memory, t: nat, id: nat) {
    forall u: nat, j: nat :: u != t || j >= id ==> Get(m, u, j) == Get(m0, u, j)
  }

  ghost predicate OnlyAt(m0: Memory, m: Memory, t: nat, id: nat) {
    forall u: nat, j: nat :: u != t || j != id ==> Get(m, u, j) == Get(m0, u, j)
  }

  lemma OnlyAtNone(m: Memory, t: nat, id: nat)
    ensures OnlyAt(m, m, t, id)
  {
  }

  /** The stretches the sweep leaves lie before cur. */
  predicate PastGaps(s: Sweep, cur: nat) {
    (s.gap < s.resume ==> s.resume <= cur) && (s.gap2 < s.resume2 ==> s.resume2 <= cur)
  }

  lemma ClearsOn(s: Sweep, cur: nat, hi: nat)
    requires s.from <= cur <= hi && PastGaps(s, cur)
    ensures forall x: nat :: Clears(s, hi, x) <==> Clears(s, cur, x) || Clears(Straight(cur), hi, x)
  {
  }

  lemma ClearsBefore(s: Sweep, edge: nat, hi: nat)
    requires s.from <= edge <= hi && (s.gap < s.resume ==> hi <= s.gap) && (s.gap2 < s.resume2 ==> hi <= s.gap2)
    ensures forall x: nat :: Clears(s, hi, x) <==> Clears(s, edge, x) || Clears(Straight(edge), hi, x)
  {
  }

  lemma ClearsAfterGap(s: Sweep, cur: nat, hi: nat)
    requires s.from <= s.gap <= s.resume == cur <= hi && s.gap2 == s.resume2
    ensures forall x: nat :: Clears(s, hi, x) <==> Clears(s, s.gap, x) || Clears(Straight(cur), hi, x)
  {
  }

  /**
   * The loop of remove over the entries of table t, of the given reach: the sweep is done up to the edge.
   * Off the boundaries no table has been met yet, and the edge is the start of the block of cur.
   */
  ghost predicate Clearing(m0: Memory, m: Memory, root: nat, s: Sweep, reach: nat, t: nat, va: nat, size: nat,
                           cur: nat, left: nat, id: nat, off: bool, edge: nat) {
    && Round(va, size, reach, cur, left, id, off) && Swept(m0, m, root, s, edge) && s.from <= edge
    && (off ==> size == 0 || Astray(va, size, reach, Get(m0, t, Index(va, reach))))
    && (cur == va && Astray(va, size, reach, Get(m0, t, Index(va, reach))) ==> off)
    && (cur > va && Astray(va, size, reach, Get(m0, t, Index(va, reach))) ==> va + reach <= cur)
    && (cur == va && (left > 0 || off) ==> m == m0)
    && (if off && size > 0 then
          && edge == BlockStart(cur, reach) && OnlyBefore(m0, m, t, id)
          && FirstTable(m0, t, va, size, reach) == FirstTable(m0, t, cur, left, reach)
        else
          (edge == cur && PastGaps(s, cur)) || (cur == va && (left > 0 || off) && edge == s.from))
  }

  lemma ClearingBegins(m: Memory, root: nat, s: Sweep, reach: nat, t: nat, va: nat, size: nat, off: bool)
    requires reach > 0 && Round(va, size, reach, va, size, Index(va, reach), off)
    requires off <==> Astray(va, size, reach, Get(m, t, Index(va, reach))) || (size == 0 && va % reach != 0)
    requires off && size > 0 ==> s.from == BlockStart(va, reach)
    requires size == 0 ==> s == Straight(va)
    ensures Clearing(m, m, root, s, reach, t, va, size, va, size, Index(va, reach), off, s.from)
  {
    SweptNothing(m, root, s);
    hide Round, Swept, Index, FirstTable, Get;
  }

  /** What one round may rely on. */
  lemma ClearingHere(m0: Memory, m: Memory, root: nat, s: Sweep, reach: nat, t: nat, va: nat, size: nat,
                     cur: nat, left: nat, id: nat, off: bool, edge: nat)
    requires Clearing(m0, m, root, s, reach, t, va, size, cur, left, id, off, edge)
    requires id <= Index(va + size - 1, reach)
    ensures va <= cur && cur + left == va + size && (left > 0 || off)
    ensures id == Index(cur, reach) && cur / reach / ENTRIES == va / reach / ENTRIES
    ensures Within(cur, Chunk(cur, left, reach), reach) && Chunk(cur, left, reach) <= left
    ensures cur % reach == 0 && left >= reach ==> Chunk(cur, left, reach) == reach
    ensures !off && Grabs(cur, left, reach, Get(m, t, id)) ==> cur % reach == 0
    ensures off ==> Get(m, t, id) == Get(m0, t, id)
    ensures off && left > 0 ==> size > 0
  {
    RoundGuard(va, size, reach, cur, left, id, off);
    RoundWithin(va, size, reach, cur, left, id, off);
    hide Chunk, Index, Within, Get, FirstTable, Swept;
  }

  /** One round on: what it swept joins what was swept before. */
  lemma ClearingOn(m0: Memory, m1: Memory, m2: Memory, root: nat, s: Sweep, reach: nat, t: nat, va: nat, size: nat,
                   cur: nat, left: nat, id: nat, off: bool, edge: nat, e: Entry, next: Sweep, part: nat, hi: nat)
    requires Clearing(m0, m1, root, s, reach, t, va, size, cur, left, id, off, edge) && (left > 0 || off)
    requires e == Get(m1, t, id) && id == Index(cur, reach)
    requires part == (if Grabs(cur, left, reach, e) then reach else Chunk(cur, left, reach))
    requires Swept(m1, m2, root, next, hi)
    requires forall x: nat :: Clears(s, hi, x) <==> Clears(s, edge, x) || Clears(next, hi, x)
    requires off && Grabs(cur, left, reach, e) ==> OnlyAt(m1, m2, t, id) && hi == BlockStart(cur, reach) + reach
    requires (off && Grabs(cur, left, reach, e)) || (hi == cur + part && PastGaps(s, hi))
    requires s.from <= hi
    ensures part <= left
    ensures Clearing(m0, m2, root, s, reach, t, va, size, cur + part, left - part, id + 1,
                     off && Grabs(cur, left, reach, e), hi)
  {
    RoundWithin(va, size, reach, cur, left, id, off);
    SweptJoin(m0, m1, m2, root, s, edge, next, hi);
    hide Swept, Within, Chunk, Index, Clears;
    if off && Grabs(cur, left, reach, e) {
      ClearingOff(m0, m1, m2, root, s, reach, t, va, size, cur, left, id, edge, hi);
    } else {
      RoundNext(va, size, reach, cur, left, id, off);
    }
  }

  lemma ClearingOff(m0: Memory, m1: Memory, m2: Memory, root: nat, s: Sweep, reach: nat, t: nat, va: nat, size: nat,
                    cur: nat, left: nat, id: nat, edge: nat, hi: nat)
    requires Clearing(m0, m1, root, s, reach, t, va, size, cur, left, id, true, edge) && id == Index(cur, reach)
    requires Grabs(cur, left, reach, Get(m1, t, id))
    requires Swept(m0, m2, root, s, hi) && s.from <= hi
    requires OnlyAt(m1, m2, t, id) && hi == BlockStart(cur, reach) + reach
    ensures Clearing(m0, m2, root, s, reach, t, va, size, cur + reach, left - reach, id + 1, true, hi)
  {
    RoundOff(va, size, reach, cur, left, id);
    OneOn(cur, reach);
    hide Swept, Index, Round;
  }

  lemma ClearingEnds(m0: Memory, m: Memory, root: nat, s: Sweep, reach: nat, t: nat, va: nat, size: nat,
                     cur: nat, left: nat, id: nat, off: bool, edge: nat)
    requires Clearing(m0, m, root, s, reach, t, va, size, cur, left, id, off, edge)
    requires id > Index(va + size - 1, reach) && (size > 0 || s == Straight(va))
    ensures Swept(m0, m, root, s, va + size)
  {
    RoundGuard(va, size, reach, cur, left, id, off);
    hide Swept, Index;
  }
}
