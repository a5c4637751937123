/** How the loop over the entries of one table advances through a range of addresses. */
module Rounds {
  import opened PageTable
  import Powers

  predicate Reach(reach: nat) {
    reach == PAGE || reach == MEGA || reach == GIGA
  }

  /** The index of an address in a table whose entries reach that far. */
  function Index(va: nat, reach: nat): nat
    requires reach > 0
  {
    va / reach % ENTRIES
  }

  /** The first address of the block of the given reach that holds va. */
  function BlockStart(va: nat, reach: nat): (r: nat)
    requires reach > 0
    ensures r <= va
  {
    va - va % reach
  }

  /** The last address of that block: va with its low bits set. */
  function BlockEnd(va: nat, reach: nat): nat
    requires reach > 0
  {
    BlockStart(va, reach) + reach - 1
  }

  /** How many of size bytes from va lie in the block that holds va. */
  function Chunk(va: nat, size: nat, reach: nat): nat
    requires reach > 0 && va + size > 0
  {
    if Index(va, reach) == Index(va + size - 1, reach) then size else BlockEnd(va, reach) - va + 1
  }

  /** How many blocks of the given reach hold the size bytes from va. */
  function Blocks(va: nat, size: nat, reach: nat): int
    requires reach > 0 && va + size > 0
  {
    (va + size - 1) / reach - va / reach + 1
  }

  /** A stretch of whole pages in the block of its first address. */
  predicate Within(va: nat, size: nat, reach: nat)
    requires reach > 0
  {
    && va % PAGE == 0 && size % PAGE == 0 && va < SPACE && 0 < va + size <= SPACE
    && (va + size - 1) / reach == va / reach
  }

  /**
   * The round before which cur is the next address, left the bytes left and id the next entry of the table.
   * Off a block boundary in the middle of the range a round may be due although no bytes are left.
   */
  predicate Round(va: nat, size: nat, reach: nat, cur: nat, left: nat, id: nat, off: bool) {
    && Reach(reach) && va % PAGE == 0 && size % PAGE == 0 && cur % PAGE == 0 && left % PAGE == 0
    && va <= cur && cur + left == va + size && 0 < va + size <= SPACE
    && va / reach / ENTRIES == (va + size - 1) / reach / ENTRIES
    && (off ==> cur % reach != 0 && (cur == va || va + reach <= cur))
    && (off || cur == va || cur % reach == 0 || left == 0)
    && id + va / reach == Index(va, reach) + (if left == 0 && !off then (va + size - 1) / reach + 1 else cur / reach)
  }

  // ---------------------------------------------------------------- quotients

  lemma QuotientMonotone(x: nat, y: nat, reach: nat)
    requires Reach(reach) && x <= y
    ensures x / reach <= y / reach
  {
  }

  lemma ToBlockEnd(va: nat, reach: nat)
    requires Reach(reach)
    ensures 0 < reach - va % reach <= reach
    ensures (va + (reach - va % reach)) % reach == 0 && (va + (reach - va % reach)) / reach == va / reach + 1
    ensures (va + (reach - va % reach) - 1) / reach == va / reach
  {
    var q, r := va / reach, va % reach;
    Powers.Distribute(reach, q, 1);
    Powers.DivisionUnique(va + (reach - r), reach, q + 1, 0);
    Powers.DivisionUnique(va + (reach - r) - 1, reach, q, reach - 1);
  }

  lemma OffsetOnPage(va: nat, reach: nat)
    requires Reach(reach) && va % PAGE == 0
    ensures (reach - va % reach) % PAGE == 0
  {
  }

  /** Addresses up to the end of a block share its quotient, those beyond do not. */
  lemma SameQuotient(va: nat, x: nat, reach: nat)
    requires Reach(reach) && va <= x
    ensures x / reach == va / reach <==> x < va + (reach - va % reach)
  {
    ToBlockEnd(va, reach);
    if x < va + (reach - va % reach) {
      QuotientMonotone(va, x, reach);
      QuotientMonotone(x, va + (reach - va % reach) - 1, reach);
    } else {
      QuotientMonotone(va + (reach - va % reach), x, reach);
    }
  }

  /** The addresses of a block are those with its quotient. */
  lemma InBlock(va: nat, x: nat, reach: nat)
    requires Reach(reach)
    ensures x / reach == va / reach <==> BlockStart(va, reach) <= x < BlockStart(va, reach) + reach
    ensures BlockStart(va, reach) % reach == 0
  {
    StartOfBlock(va, reach);
    if x >= BlockStart(va, reach) {
      SameQuotient(BlockStart(va, reach), x, reach);
    } else {
      BelowBlock(va, x, reach);
    }
  }

  lemma StartOfBlock(va: nat, reach: nat)
    requires Reach(reach)
    ensures BlockStart(va, reach) % reach == 0 && BlockStart(va, reach) / reach == va / reach
  {
    Powers.DivisionUnique(va - va % reach, reach, va / reach, 0);
  }

  lemma BelowBlock(va: nat, x: nat, reach: nat)
    requires Reach(reach) && x < BlockStart(va, reach)
    ensures x / reach < va / reach
  {
    var b := BlockStart(va, reach);
    StartOfBlock(va, reach);
    QuotientMonotone(x, b - 1, reach);
    LastBefore(b, reach);
  }

  /** The address before a block boundary lies in the block before. */
  lemma LastBefore(b: nat, reach: nat)
    requires Reach(reach) && b > 0 && b % reach == 0
    ensures (b - 1) / reach == b / reach - 1
  {
    Powers.Distribute(reach, b / reach, -1);
    Powers.DivisionUnique(b - 1, reach, b / reach - 1, reach - 1);
  }

  /** The block of an address below a later block lies below that too. */
  lemma BlockBehind(va: nat, cur: nat, x: nat, reach: nat)
    requires Reach(reach) && va < BlockStart(cur, reach) && x / reach == va / reach
    ensures x < BlockStart(cur, reach)
  {
    var b := BlockStart(cur, reach);
    StartOfBlock(cur, reach);
    QuotientMonotone(va, b - 1, reach);
    LastBefore(b, reach);
    if x >= b {
      QuotientMonotone(b, x, reach);
      assert false;
    }
  }

  /** An address off a boundary shares its block with the address before it. */
  lemma OffBoundary(x: nat, reach: nat)
    requires Reach(reach) && x % reach != 0
    ensures x > 0 && (x - 1) / reach == x / reach
  {
    Powers.DivisionUnique(x - 1, reach, x / reach, x % reach - 1);
  }

  lemma OneOn(x: nat, reach: nat)
    requires Reach(reach)
    ensures (x + reach) / reach == x / reach + 1 && (x + reach) % reach == x % reach
  {
    Powers.Distribute(reach, x / reach, 1);
    Powers.DivisionUnique(x + reach, reach, x / reach + 1, x % reach);
  }

  lemma Between(a: nat, b: nat, c: nat)
    requires a <= b <= c && a / ENTRIES == c / ENTRIES
    ensures b / ENTRIES == a / ENTRIES && b % ENTRIES + a == a % ENTRIES + b && c % ENTRIES + a == a % ENTRIES + c
  {
  }

  lemma PageSum(cur: nat, left: nat, c: nat)
    requires cur % PAGE == 0 && left % PAGE == 0 && c % PAGE == 0 && c <= left
    ensures (cur + c) % PAGE == 0 && (left - c) % PAGE == 0
  {
  }

  lemma ReachOnPage(reach: nat)
    requires Reach(reach)
    ensures reach % PAGE == 0
  {
  }

  // ---------------------------------------------------------------- rounds

  lemma RoundStart(va: nat, size: nat, reach: nat, off: bool)
    requires Reach(reach) && va % PAGE == 0 && size % PAGE == 0 && 0 < va + size <= SPACE
    requires va / reach / ENTRIES == (va + size - 1) / reach / ENTRIES
    requires (size == 0 && va % reach != 0 ==> off) && (off ==> va % reach != 0)
    ensures Round(va, size, reach, va, size, Index(va, reach), off)
  {
    if size == 0 && !off {
      LastBefore(va, reach);
    }
  }

  /** The quotient of the current address lies between those of the first and the last. */
  lemma RoundQuotients(va: nat, size: nat, reach: nat, cur: nat, left: nat, id: nat, off: bool)
    requires Round(va, size, reach, cur, left, id, off) && (left > 0 || off)
    ensures va / reach <= cur / reach <= (va + size - 1) / reach
  {
    QuotientMonotone(va, cur, reach);
    if left > 0 {
      QuotientMonotone(cur, va + size - 1, reach);
    } else {
      OffBoundary(cur, reach);
    }
  }

  /** The loop test on entries is a test on the bytes left, and the entry is that of the current address. */
  lemma RoundGuard(va: nat, size: nat, reach: nat, cur: nat, left: nat, id: nat, off: bool)
    requires Round(va, size, reach, cur, left, id, off)
    ensures id <= Index(va + size - 1, reach) <==> left > 0 || off
    ensures left > 0 || off ==> id == Index(cur, reach) && id < ENTRIES && cur / reach / ENTRIES == va / reach / ENTRIES
  {
    var q, last := va / reach, (va + size - 1) / reach;
    if size == 0 {
      if va % reach == 0 {
        LastBefore(va, reach);
        Between(last, q, q);
      } else {
        OffBoundary(va, reach);
      }
    } else {
      QuotientMonotone(va, va + size - 1, reach);
      Between(q, last, last);
    }
    if left > 0 || off {
      RoundQuotients(va, size, reach, cur, left, id, off);
      Between(q, cur / reach, last);
    }
  }

  /** The part of the bytes left that lies in the block of the current address. */
  lemma RoundChunk(va: nat, size: nat, reach: nat, cur: nat, left: nat, id: nat, off: bool)
    requires Round(va, size, reach, cur, left, id, off) && (left > 0 || off)
    ensures var c := Chunk(cur, left, reach);
            && c <= left && c % PAGE == 0 && (left > 0 ==> 0 < c && (cur + c - 1) / reach == cur / reach)
            && (c < left ==> (cur + c) % reach == 0 && (cur + c) / reach == cur / reach + 1)
            && (c == left ==> cur / reach == (va + size - 1) / reach)
            && (cur % reach == 0 && left >= reach ==> c == reach)
  {
    RoundQuotients(va, size, reach, cur, left, id, off);
    Between(va / reach, cur / reach, (va + size - 1) / reach);
    if left > 0 {
      ChunkFits(cur, left, reach);
    }
  }

  lemma ChunkAtMost(va: nat, size: nat, reach: nat)
    requires Reach(reach) && va + size > 0 && (size == 0 ==> va % reach != 0)
    ensures Chunk(va, size, reach) <= size
  {
    if size == 0 {
      OffBoundary(va, reach);
    } else {
      SameQuotient(va, va + size - 1, reach);
    }
  }

  lemma RoundWithin(va: nat, size: nat, reach: nat, cur: nat, left: nat, id: nat, off: bool)
    requires Round(va, size, reach, cur, left, id, off) && (left > 0 || off)
    ensures Within(cur, Chunk(cur, left, reach), reach) && Chunk(cur, left, reach) <= left
    ensures cur % reach == 0 && left >= reach ==> Chunk(cur, left, reach) == reach
  {
    RoundChunk(va, size, reach, cur, left, id, off);
    if off {
      OffBoundary(cur, reach);
      SpaceOnBoundary(reach);
    }
    hide Chunk;
  }

  lemma SpaceOnBoundary(reach: nat)
    requires Reach(reach)
    ensures SPACE % reach == 0
  {
  }

  lemma WithinBlock(va: nat, size: nat, reach: nat)
    requires Reach(reach) && Within(va, size, reach)
    ensures va < SPACE && va < BlockStart(va, reach) + reach && va + size <= BlockStart(va, reach) + reach
  {
    InBlock(va, va + size - 1, reach);
  }

  lemma MegaInGiga(va: nat)
    ensures BlockStart(va, GIGA) <= BlockStart(va, MEGA) && (va % GIGA == 0 ==> va % MEGA == 0)
  {
  }

  lemma MegaBoundaries(a: nat, b: nat)
    requires a % MEGA == 0 && b % GIGA == 0 && a < b
    ensures a + MEGA <= b
  {
  }

  /** A 2 MiB block lies in one 1 GiB block. */
  lemma MegaWithinGiga(va: nat, x: nat)
    requires x / GIGA == va / GIGA
    ensures BlockStart(x, MEGA) + MEGA <= BlockStart(va, GIGA) + GIGA && BlockStart(va, GIGA) <= BlockStart(va, MEGA)
  {
    hide BlockStart;
    MegaInGiga(va);
    InBlock(va, x, GIGA);
    StartOfBlock(va, GIGA);
    StartOfBlock(x, MEGA);
    MegaBoundaries(BlockStart(x, MEGA), BlockStart(va, GIGA) + GIGA);
  }

  /** How many blocks an index counts off. */
  lemma BlocksByIndex(va: nat, size: nat, reach: nat)
    requires Reach(reach) && va + size > 0 && va / reach / ENTRIES == (va + size - 1) / reach / ENTRIES
    ensures Index(va + size - 1, reach) + 1 - Index(va, reach) == Blocks(va, size, reach) >= 0
  {
    var q, last := va / reach, (va + size - 1) / reach;
    if size == 0 {
      if va % reach == 0 {
        LastBefore(va, reach);
        Between(last, q, q);
      } else {
        OffBoundary(va, reach);
      }
    } else {
      QuotientMonotone(va, va + size - 1, reach);
      Between(q, last, last);
    }
  }

  /** How many 2 MiB blocks hold the addresses from va to before cur. */
  function Begun(va: nat, cur: nat): int {
    if cur <= va then 0 else Blocks(va, cur - va, MEGA)
  }

  lemma BegunMore(va: nat, a: nat, b: nat, end: nat)
    requires va <= a <= b <= end && va < b
    ensures 0 <= Begun(va, a) <= Begun(va, b) <= Blocks(va, end - va, MEGA)
  {
    QuotientMonotone(b - 1, end - 1, MEGA);
    QuotientMonotone(va, b - 1, MEGA);
    if a > va {
      QuotientMonotone(va, a - 1, MEGA);
      QuotientMonotone(a - 1, b - 1, MEGA);
    }
  }

  /** Chunk by chunk no 2 MiB block is counted twice. */
  lemma BegunOn(va: nat, size: nat, cur: nat, left: nat, id: nat, off: bool)
    requires Round(va, size, GIGA, cur, left, id, off) && (left > 0 || off) && size > 0
    ensures var c := Chunk(cur, left, GIGA);
            && c <= left && (if off then 0 else Begun(va, cur)) + Blocks(cur, c, MEGA) <= Begun(va, cur + c)
            && 0 <= Begun(va, cur) && Begun(va, cur + c) <= Blocks(va, size, MEGA)
  {
    var c := Chunk(cur, left, GIGA);
    RoundChunk(va, size, GIGA, cur, left, id, off);
    QuotientMonotone(va, cur, MEGA);
    QuotientMonotone(cur + c - 1, va + size - 1, MEGA);
    if cur > va {
      QuotientMonotone(va, cur - 1, MEGA);
      if !off {
        MegaInGiga(cur);
        LastBefore(cur, MEGA);
      }
    }
    hide Chunk, Round;
  }

  /** The rounds still due write from here on, and once none is due all have written below it. */
  function Edge(va: nat, size: nat, reach: nat, cur: nat, left: nat, off: bool): nat
    requires reach > 0 && va + size > 0
  {
    if left > 0 || off then BlockStart(cur, reach) else BlockStart(va + size - 1, reach) + reach
  }

  /** The next round works in the next block. */
  lemma EdgeNext(va: nat, size: nat, reach: nat, cur: nat, left: nat, id: nat, off: bool, part: nat, off': bool)
    requires Round(va, size, reach, cur, left, id, off) && (left > 0 || off) && part <= left
    requires (part == Chunk(cur, left, reach) && !off') || (off && off' && part == reach)
    ensures Edge(va, size, reach, cur + part, left - part, off') == BlockStart(cur, reach) + reach
  {
    RoundChunk(va, size, reach, cur, left, id, off);
    StartOfBlock(cur, reach);
    OneOn(cur, reach);
    OneOn(BlockStart(cur, reach), reach);
    if off' {
    } else if part < left {
      SameStart(cur + part, BlockStart(cur, reach) + reach, reach);
    } else {
      StartOfBlock(va + size - 1, reach);
      SameStart(BlockStart(va + size - 1, reach), BlockStart(cur, reach), reach);
    }
    hide Chunk;
  }

  /** Boundaries with the same quotient are the same. */
  lemma SameStart(a: nat, b: nat, reach: nat)
    requires Reach(reach) && a % reach == 0 && b % reach == 0
    ensures a / reach == b / reach ==> a == b
  {
  }

  /** Past the first address a round works in blocks beyond it. */
  lemma RoundBeyond(va: nat, size: nat, reach: nat, cur: nat, left: nat, id: nat, off: bool)
    requires Round(va, size, reach, cur, left, id, off) && (left > 0 || off)
    ensures BlockStart(va, reach) <= BlockStart(cur, reach)
    ensures cur > va ==> va < BlockStart(cur, reach)
  {
    if cur > va && !off {
      assert BlockStart(cur, reach) == cur;
    }
  }

  lemma ChunkFits(va: nat, size: nat, reach: nat)
    requires Reach(reach) && size > 0 && va % PAGE == 0 && size % PAGE == 0
    requires Index(va, reach) == Index(va + size - 1, reach) <==> va / reach == (va + size - 1) / reach
    ensures var c := Chunk(va, size, reach);
            && 0 < c <= size && c % PAGE == 0 && (va + c - 1) / reach == va / reach
            && (c < size ==> (va + c) % reach == 0 && (va + c) / reach == va / reach + 1)
            && (c == size ==> va / reach == (va + size - 1) / reach)
            && (va % reach == 0 && size >= reach ==> c == reach)
  {
    ToBlockEnd(va, reach);
    OffsetOnPage(va, reach);
    var last := va + size - 1;
    QuotientMonotone(va, last, reach);
    if va / reach < last / reach {
      SameQuotient(va, last, reach);
    } else if va % reach == 0 && size >= reach {
      SameQuotient(va, va + reach - 1, reach);
      SameQuotient(va, last, reach);
    }
    hide Reach, Index;
  }

  /** A round that handles its block's part ends at a boundary, or with the range. */
  lemma RoundNext(va: nat, size: nat, reach: nat, cur: nat, left: nat, id: nat, off: bool)
    requires Round(va, size, reach, cur, left, id, off) && (left > 0 || off)
    ensures Chunk(cur, left, reach) <= left
    ensures Round(va, size, reach, cur + Chunk(cur, left, reach), left - Chunk(cur, left, reach), id + 1, false)
  {
    RoundChunk(va, size, reach, cur, left, id, off);
    hide Chunk, Index;
    PageSum(cur, left, Chunk(cur, left, reach));
  }

  /** A round that takes a whole block's worth off a boundary stays off it. */
  lemma RoundOff(va: nat, size: nat, reach: nat, cur: nat, left: nat, id: nat)
    requires Round(va, size, reach, cur, left, id, true) && left >= reach
    ensures Round(va, size, reach, cur + reach, left - reach, id + 1, true)
  {
    OneOn(cur, reach);
    ReachOnPage(reach);
    PageSum(cur, left, reach);
    hide Index;
  }
}
