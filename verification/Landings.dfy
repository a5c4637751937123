/** Where create sends each address, on the ranges its superpage tests handle and on those they misfire on. */
module Landings {
  import opened PageTable
  import opened Rounds
  import Powers

  /** The superpage test of create. It asks whether va is beyond the first block, not whether va starts one. */
  predicate Takes(va: nat, pa: nat, size: nat, reach: nat)
    requires reach > 0
  {
    va >= reach && size >= reach && pa % reach == 0
  }

  /** The test takes a block that does not start at va. */
  predicate Misfires(va: nat, pa: nat, size: nat, reach: nat)
    requires reach > 0
  {
    Takes(va, pa, size, reach) && va % reach != 0
  }

  /** An address keeps what it resolves to, or goes to a physical one. */
  datatype Landing = Stays | At(pa: nat)

  /** A range sent to its target, address by address. */
  function Line(va: nat, pa: nat, size: nat, x: nat): Landing {
    if va <= x < va + size then At(pa + (x - va)) else Stays
  }

  /** As many bytes as whole blocks hold. */
  function Whole(size: nat, reach: nat): (r: nat)
    requires reach > 0
    ensures r <= size
  {
    size - size % reach
  }

  /**
   * A range inside one 1 GiB block. Where the test misfires whole blocks go to the target from the start of va's
   * block on; the rest of the range goes where it should, and what lies between is left.
   */
  function MiddleLanding(va: nat, pa: nat, size: nat, x: nat): Landing {
    var start, whole := BlockStart(va, MEGA), Whole(size, MEGA);
    if !Misfires(va, pa, size, MEGA) then Line(va, pa, size, x)
    else if start <= x < start + whole then At(pa + (x - start))
    else Line(va + whole, pa + whole, size - whole, x)
  }

  /** A range of which the part in the first 1 GiB block goes through a second-level table. */
  function ChunkLanding(va: nat, pa: nat, size: nat, x: nat): Landing
    requires va + size > 0
  {
    var c := Chunk(va, size, GIGA);
    if va + c <= x then Line(va, pa, size, x) else MiddleLanding(va, pa, c, x)
  }

  /** Any range: the same one level up, with the rest of it through tables. */
  function LandingOf(va: nat, pa: nat, size: nat, x: nat): Landing
    requires va + size > 0
  {
    var start, whole := BlockStart(va, GIGA), Whole(size, GIGA);
    if !Misfires(va, pa, size, GIGA) then ChunkLanding(va, pa, size, x)
    else if start <= x < start + whole then At(pa + (x - start))
    else ChunkLanding(va + whole, pa + whole, size - whole, x)
  }

  /** From m0 to m the address lands there. */
  ghost predicate LandsAt(m0: Memory, m: Memory, root: nat, prot: nat, to: Landing, x: nat) {
    match to
    case Stays => Resolve(m, root, x) == Resolve(m0, root, x)
    case At(pa) => Translate(m, root, x) == Mapped(pa, prot)
  }

  /** The addresses below the edge have landed, those from it on are as before. */
  ghost predicate MiddleLanded(m0: Memory, m: Memory, root: nat, va: nat, pa: nat, size: nat, prot: nat, edge: nat) {
    forall x: nat :: x < SPACE ==> MiddleLandedAt(m0, m, root, va, pa, size, prot, edge, x)
  }

  ghost predicate MiddleLandedAt(m0: Memory, m: Memory, root: nat, va: nat, pa: nat, size: nat, prot: nat, edge: nat,
                                 x: nat) {
    LandsAt(m0, m, root, prot, if x < edge then MiddleLanding(va, pa, size, x) else Stays, x)
  }

  ghost predicate Landed(m0: Memory, m: Memory, root: nat, va: nat, pa: nat, size: nat, prot: nat, edge: nat)
    requires va + size > 0
  {
    forall x: nat :: x < SPACE ==> LandedAt(m0, m, root, va, pa, size, prot, edge, x)
  }

  ghost predicate LandedAt(m0: Memory, m: Memory, root: nat, va: nat, pa: nat, size: nat, prot: nat, edge: nat, x: nat)
    requires va + size > 0
  {
    LandsAt(m0, m, root, prot, if x < edge then LandingOf(va, pa, size, x) else Stays, x)
  }

  // ---------------------------------------------------------------- round by round

  /** Off the boundaries the rounds take whole blocks of the range; past them the whole blocks are done. */
  predicate OnCourse(va: nat, pa: nat, size: nat, reach: nat, cur: nat, left: nat, off: bool)
    requires reach > 0
  {
    Misfires(va, pa, size, reach) ==>
      if off then left % reach == size % reach else cur >= va + Whole(size, reach)
  }

  /** A round of create over the entries of one table: where it stands, and how it came there. */
  predicate Due(va: nat, pa: nat, size: nat, reach: nat, cur: nat, p: nat, left: nat, id: nat, off: bool) {
    && Round(va, size, reach, cur, left, id, off) && (left > 0 || off) && p == pa + (cur - va)
    && (off ==> Misfires(va, pa, size, reach) || size == 0) && (cur == va && Misfires(va, pa, size, reach) ==> off)
    && OnCourse(va, pa, size, reach, cur, left, off)
  }

  lemma SameRemainder(a: nat, b: nat, reach: nat)
    requires Reach(reach) && a <= b && a % reach == b % reach
    ensures (b - a) % reach == 0 && (b - b % reach) - (a - a % reach) == b - a
    ensures a < reach ==> a == b % reach
    ensures a >= reach ==> a - reach >= 0 && (a - reach) % reach == b % reach && a - a % reach >= reach
  {
    Powers.DivisionUnique(b - a, reach, b / reach - a / reach, 0) by {
      Powers.Distribute(reach, a / reach, b / reach - a / reach);
    }
    if a >= reach {
      OneOn(a - reach, reach);
    }
  }

  /** Off the boundaries a round is so many whole blocks on from the first. */
  lemma OffHere(va: nat, pa: nat, size: nat, reach: nat, cur: nat, p: nat, left: nat, id: nat)
    requires Due(va, pa, size, reach, cur, p, left, id, true) && size > 0
    ensures p % reach == 0 && BlockStart(cur, reach) - BlockStart(va, reach) == cur - va
    ensures left >= reach ==> cur - va + reach <= Whole(size, reach) && Takes(cur, p, left, reach)
    ensures left < reach ==> cur - va == Whole(size, reach)
  {
    SameRemainder(left, size, reach);
    Powers.Distribute(reach, va / reach, (cur - va) / reach);
    Powers.DivisionUnique(cur, reach, va / reach + (cur - va) / reach, va % reach);
    Powers.Distribute(reach, pa / reach, (cur - va) / reach);
    Powers.DivisionUnique(p, reach, pa / reach + (cur - va) / reach, 0);
  }

  /** On a boundary past the first round the test does not take a block after a misfire. */
  lemma OnHere(va: nat, pa: nat, size: nat, reach: nat, cur: nat, p: nat, left: nat, id: nat)
    requires Due(va, pa, size, reach, cur, p, left, id, false)
    ensures cur > va ==> cur % reach == 0 && cur == BlockStart(cur, reach)
    ensures Misfires(va, pa, size, reach) ==> !Takes(cur, p, left, reach) && cur > va
    ensures Misfires(va, pa, size, reach) ==> cur >= va + Whole(size, reach)
    ensures Takes(cur, p, left, reach) ==> cur % reach == 0
  {
    if pa % reach == 0 && cur % reach == 0 && p % reach == 0 {
      AlignedBack(va, pa, cur, reach);
    }
  }

  lemma AlignedBack(va: nat, pa: nat, cur: nat, reach: nat)
    requires Reach(reach) && va <= cur && pa % reach == 0 && cur % reach == 0 && (pa + (cur - va)) % reach == 0
    ensures va % reach == 0
  {
    var p := pa + (cur - va);
    Powers.Distribute(reach, p / reach, -(pa / reach));
    Powers.Distribute(reach, cur / reach, -(p / reach - pa / reach));
    Powers.DivisionUnique(va, reach, cur / reach - (p / reach - pa / reach), 0);
  }

  lemma DueNext(va: nat, pa: nat, size: nat, reach: nat, cur: nat, p: nat, left: nat, id: nat, off: bool)
    requires Due(va, pa, size, reach, cur, p, left, id, off)
    ensures var part := if Takes(cur, p, left, reach) then reach else Chunk(cur, left, reach);
            part <= left && OnCourse(va, pa, size, reach, cur + part, left - part, off && Takes(cur, p, left, reach))
  {
    RoundWithin(va, size, reach, cur, left, id, off);
    if off && size > 0 {
      OffHere(va, pa, size, reach, cur, p, left, id);
      SameRemainder(left, size, reach);
    } else if !off {
      OnHere(va, pa, size, reach, cur, p, left, id);
    }
    hide Chunk, Within;
  }

  /** A round that takes a whole block sends it where the range lands. */
  lemma TakenLands(va: nat, pa: nat, size: nat, cur: nat, p: nat, left: nat, id: nat, off: bool, x: nat)
    requires Due(va, pa, size, MEGA, cur, p, left, id, off) && Takes(cur, p, left, MEGA) && x / MEGA == cur / MEGA
    ensures MiddleLanding(va, pa, size, x) == At(p + (x - BlockStart(cur, MEGA)))
  {
    InBlock(cur, x, MEGA);
    if off {
      OffHere(va, pa, size, MEGA, cur, p, left, id);
    } else {
      OnHere(va, pa, size, MEGA, cur, p, left, id);
    }
  }

  /** Another one sends the part of the range in its block where that lands. */
  lemma PartLands(va: nat, pa: nat, size: nat, cur: nat, p: nat, left: nat, id: nat, off: bool, x: nat)
    requires Due(va, pa, size, MEGA, cur, p, left, id, off) && !Takes(cur, p, left, MEGA) && x / MEGA == cur / MEGA
    ensures MiddleLanding(va, pa, size, x) == Line(cur, p, Chunk(cur, left, MEGA), x)
  {
    InBlock(cur, x, MEGA);
    PartOfBlock(va, size, MEGA, cur, left, id, off, x);
    if off && size > 0 {
      OffHere(va, pa, size, MEGA, cur, p, left, id);
    } else if !off {
      OnHere(va, pa, size, MEGA, cur, p, left, id);
    }
    hide Chunk, Round;
  }

  /** The part of the bytes left that lies in the block at hand. */
  lemma PartOfBlock(va: nat, size: nat, reach: nat, cur: nat, left: nat, id: nat, off: bool, x: nat)
    requires Round(va, size, reach, cur, left, id, off) && (left > 0 || off) && x / reach == cur / reach
    ensures cur <= x < cur + Chunk(cur, left, reach) <==> cur <= x < cur + left
    ensures Chunk(cur, left, reach) <= left
  {
    RoundChunk(va, size, reach, cur, left, id, off);
    var c := Chunk(cur, left, reach);
    InBlock(cur, x, reach);
    StartOfBlock(cur, reach);
    OneOn(BlockStart(cur, reach), reach);
    if c < left {
      SameStart(cur + c, BlockStart(cur, reach) + reach, reach);
    }
    hide Chunk;
  }

  // ---------------------------------------------------------------- inside one 1 GiB block

  lemma NothingLanded(m: Memory, root: nat, va: nat, pa: nat, size: nat, prot: nat)
    ensures MiddleLanded(m, m, root, va, pa, size, prot, BlockStart(va, MEGA))
  {
    forall x: nat | x < SPACE
      ensures MiddleLandedAt(m, m, root, va, pa, size, prot, BlockStart(va, MEGA), x)
    {
      hide Resolve;
    }
  }

  /** What a round did to its block is what the range asks for there, and it did nothing elsewhere. */
  ghost predicate RoundLands(m1: Memory, m2: Memory, root: nat, va: nat, pa: nat, size: nat, prot: nat, cur: nat) {
    forall x: nat :: x < SPACE ==> RoundLandsAt(m1, m2, root, va, pa, size, prot, cur, x)
  }

  ghost predicate RoundLandsAt(m1: Memory, m2: Memory, root: nat, va: nat, pa: nat, size: nat, prot: nat, cur: nat,
                               x: nat) {
    var start := BlockStart(cur, MEGA);
    LandsAt(m1, m2, root, prot, if start <= x < start + MEGA then MiddleLanding(va, pa, size, x) else Stays, x)
  }

  lemma MiddleLandedOn(m0: Memory, m1: Memory, m2: Memory, root: nat, va: nat, pa: nat, size: nat, prot: nat, cur: nat)
    requires MiddleLanded(m0, m1, root, va, pa, size, prot, BlockStart(cur, MEGA))
    requires RoundLands(m1, m2, root, va, pa, size, prot, cur)
    ensures MiddleLanded(m0, m2, root, va, pa, size, prot, BlockStart(cur, MEGA) + MEGA)
  {
    hide MiddleLanding, Resolve, Translate, BlockStart;
    var edge := BlockStart(cur, MEGA) + MEGA;
    forall x: nat | x < SPACE
      ensures MiddleLandedAt(m0, m2, root, va, pa, size, prot, edge, x)
    {
      InBlock(cur, x, MEGA);
      assert MiddleLandedAt(m0, m1, root, va, pa, size, prot, BlockStart(cur, MEGA), x);
      assert RoundLandsAt(m1, m2, root, va, pa, size, prot, cur, x);
      SameResolution(m1, m2, root, x);
    }
  }

  lemma SameResolution(m1: Memory, m2: Memory, root: nat, x: nat)
    ensures Resolve(m1, root, x) == Resolve(m2, root, x) ==> Translate(m1, root, x) == Translate(m2, root, x)
  {
  }

  /** A superpage written for the whole block. */
  lemma TakenRoundLands(m1: Memory, m2: Memory, root: nat, va: nat, pa: nat, size: nat, prot: nat,
                        cur: nat, p: nat, left: nat, id: nat, off: bool)
    requires Due(va, pa, size, MEGA, cur, p, left, id, off) && Takes(cur, p, left, MEGA)
    requires forall x: nat :: x < SPACE && x / MEGA == cur / MEGA ==>
               Translate(m2, root, x) == Mapped(p + (x - BlockStart(cur, MEGA)), prot)
    requires forall x: nat :: x < SPACE && x / MEGA != cur / MEGA ==> Resolve(m2, root, x) == Resolve(m1, root, x)
    ensures RoundLands(m1, m2, root, va, pa, size, prot, cur)
  {
    hide MiddleLanding, Resolve, Translate, BlockStart, Due, Takes;
    forall x: nat | x < SPACE
      ensures RoundLandsAt(m1, m2, root, va, pa, size, prot, cur, x)
    {
      InBlock(cur, x, MEGA);
      if x / MEGA == cur / MEGA {
        TakenLands(va, pa, size, cur, p, left, id, off, x);
      }
    }
  }

  /** A part of the block mapped through a table. */
  lemma PartRoundLands(m1: Memory, m2: Memory, root: nat, va: nat, pa: nat, size: nat, prot: nat,
                       cur: nat, p: nat, left: nat, id: nat, off: bool)
    requires Due(va, pa, size, MEGA, cur, p, left, id, off) && !Takes(cur, p, left, MEGA)
    requires Maps(m1, m2, root, cur, cur + Chunk(cur, left, MEGA), To(p, prot))
    ensures RoundLands(m1, m2, root, va, pa, size, prot, cur)
  {
    RoundWithin(va, size, MEGA, cur, left, id, off);
    WithinBlock(cur, Chunk(cur, left, MEGA), MEGA);
    var end := cur + Chunk(cur, left, MEGA);
    hide MiddleLanding, Resolve, Translate, BlockStart, Due, Takes, Chunk;
    forall x: nat | x < SPACE
      ensures RoundLandsAt(m1, m2, root, va, pa, size, prot, cur, x)
    {
      InBlock(cur, x, MEGA);
      assert MapsAt(m1, m2, root, cur, end, To(p, prot), x);
      if x / MEGA == cur / MEGA {
        PartLands(va, pa, size, cur, p, left, id, off, x);
      }
    }
  }

  /** Nothing lands at or beyond the end. */
  lemma NoneBeyond(va: nat, pa: nat, size: nat, x: nat)
    requires x >= va + size
    ensures MiddleLanding(va, pa, size, x) == Stays
  {
  }

  lemma MiddleAllLanded(m0: Memory, m: Memory, root: nat, va: nat, pa: nat, size: nat, prot: nat, edge: nat)
    requires MiddleLanded(m0, m, root, va, pa, size, prot, edge) && va + size <= edge
    ensures MiddleLanded(m0, m, root, va, pa, size, prot, SPACE)
  {
    hide MiddleLanding, Resolve, Translate;
    forall x: nat | x < SPACE
      ensures MiddleLandedAt(m0, m, root, va, pa, size, prot, SPACE, x)
    {
      assert MiddleLandedAt(m0, m, root, va, pa, size, prot, edge, x);
      if x >= edge {
        NoneBeyond(va, pa, size, x);
      }
    }
  }

  /** Where nothing changed in between. */
  lemma MiddleStillLanded(m0: Memory, m1: Memory, m2: Memory, root: nat, va: nat, pa: nat, size: nat, prot: nat,
                          edge: nat, at: nat, target: Target)
    requires MiddleLanded(m0, m1, root, va, pa, size, prot, edge) && Maps(m1, m2, root, at, at, target)
    ensures MiddleLanded(m0, m2, root, va, pa, size, prot, edge)
  {
    hide MiddleLanding, Resolve, Translate;
    forall x: nat | x < SPACE
      ensures MiddleLandedAt(m0, m2, root, va, pa, size, prot, edge, x)
    {
      assert MiddleLandedAt(m0, m1, root, va, pa, size, prot, edge, x) && MapsAt(m1, m2, root, at, at, target, x);
      SameResolution(m1, m2, root, x);
    }
  }

  // ---------------------------------------------------------------- the whole range

  /** A round on a boundary past the first works beyond the chunk of the first. */
  lemma ChunkBefore(va: nat, size: nat, cur: nat, left: nat)
    requires cur % GIGA == 0 && va < cur && cur + left == va + size <= SPACE && left > 0
    ensures va + Chunk(va, size, GIGA) <= cur
  {
    LastBefore(cur, GIGA);
    QuotientMonotone(va, cur - 1, GIGA);
    QuotientMonotone(cur, va + size - 1, GIGA);
    SameQuotient(va, cur, GIGA);
    IndexIsQuotient(va);
    IndexIsQuotient(va + size - 1);
    hide Index;
  }

  lemma IndexIsQuotient(x: nat)
    requires x < SPACE
    ensures Index(x, GIGA) == x / GIGA
  {
  }

  /** From a boundary the first chunk goes straight too. */
  lemma ChunkIsLine(va: nat, pa: nat, size: nat, x: nat)
    requires va % GIGA == 0 && size > 0
    ensures ChunkLanding(va, pa, size, x) == Line(va, pa, size, x)
  {
    ChunkAtMost(va, size, GIGA);
    MegaInGiga(va);
    hide Chunk;
  }

  lemma DueFacts(va: nat, pa: nat, size: nat, reach: nat, cur: nat, p: nat, left: nat, id: nat, off: bool)
    requires Due(va, pa, size, reach, cur, p, left, id, off)
    ensures p == pa + (cur - va) && va <= cur && cur + left == va + size <= SPACE && (left > 0 || off)
    ensures size > 0 ==> (cur == va ==> (off <==> Misfires(va, pa, size, reach)))
    ensures size > 0 && off ==> Misfires(va, pa, size, reach)
  {
  }

  /** A first-level round that takes a whole block sends it where the range lands. */
  lemma TopTakenLands(va: nat, pa: nat, size: nat, cur: nat, p: nat, left: nat, id: nat, off: bool, x: nat)
    requires Due(va, pa, size, GIGA, cur, p, left, id, off) && size > 0
    requires Takes(cur, p, left, GIGA) && x / GIGA == cur / GIGA
    ensures LandingOf(va, pa, size, x) == At(p + (x - BlockStart(cur, GIGA)))
  {
    hide Due, ChunkLanding, Misfires;
    DueFacts(va, pa, size, GIGA, cur, p, left, id, off);
    InBlock(cur, x, GIGA);
    if off {
      OffHere(va, pa, size, GIGA, cur, p, left, id);
    } else {
      OnHere(va, pa, size, GIGA, cur, p, left, id);
      if cur == va {
        ChunkIsLine(va, pa, size, x);
      } else {
        ChunkBefore(va, size, cur, left);
        ChunkBeyond(va, pa, size, x);
      }
    }
  }

  lemma ChunkBeyond(va: nat, pa: nat, size: nat, x: nat)
    requires va + size > 0 && va + Chunk(va, size, GIGA) <= x
    ensures ChunkLanding(va, pa, size, x) == Line(va, pa, size, x)
  {
  }

  /** The chunk at hand lands as the range through its table would. */
  lemma ChunkHere(va: nat, size: nat, cur: nat, p: nat, left: nat, id: nat, off: bool, x: nat)
    requires Round(va, size, GIGA, cur, left, id, off) && (left > 0 || off) && x / GIGA == cur / GIGA && cur + left > 0
    ensures ChunkLanding(cur, p, left, x) == MiddleLanding(cur, p, Chunk(cur, left, GIGA), x)
  {
    PartOfBlock(va, size, GIGA, cur, left, id, off, x);
    hide Chunk, MiddleLanding;
    if cur + Chunk(cur, left, GIGA) <= x {
      NoneBeyond(cur, p, Chunk(cur, left, GIGA), x);
    }
  }

  lemma AlignedMiddle(va: nat, pa: nat, size: nat, x: nat)
    requires va % GIGA == 0
    ensures MiddleLanding(va, pa, size, x) == Line(va, pa, size, x)
  {
    MegaInGiga(va);
  }

  /** A later chunk, on a boundary, is part of the line from before. */
  lemma LaterChunk(from: nat, to: nat, va: nat, size: nat, cur: nat, p: nat, left: nat, id: nat, x: nat)
    requires Round(va, size, GIGA, cur, left, id, false) && left > 0 && x / GIGA == cur / GIGA && cur % GIGA == 0
    requires va <= from <= cur && p == to + (cur - from)
    ensures ChunkLanding(from, to, cur + left - from, x) == MiddleLanding(cur, p, Chunk(cur, left, GIGA), x)
  {
    if from == cur {
      ChunkHere(va, size, cur, p, left, id, false, x);
    } else {
      PartOfBlock(va, size, GIGA, cur, left, id, false, x);
      ChunkBefore(from, cur + left - from, cur, left);
      InBlock(cur, x, GIGA);
      ChunkBeyond(from, to, cur + left - from, x);
      AlignedMiddle(cur, p, Chunk(cur, left, GIGA), x);
    }
    hide Chunk, MiddleLanding, ChunkLanding;
  }

  /** A round that goes through a table sends the part of the range in its block where that lands. */
  lemma TopPartLands(va: nat, pa: nat, size: nat, cur: nat, p: nat, left: nat, id: nat, off: bool, x: nat)
    requires Due(va, pa, size, GIGA, cur, p, left, id, off) && size > 0
    requires !Takes(cur, p, left, GIGA) && x / GIGA == cur / GIGA
    ensures LandingOf(va, pa, size, x) == MiddleLanding(cur, p, Chunk(cur, left, GIGA), x)
  {
    hide Due, ChunkLanding, MiddleLanding, Misfires, Takes, Round, Chunk, BlockStart, Whole;
    DueRound(va, pa, size, GIGA, cur, p, left, id, off);
    DueFacts(va, pa, size, GIGA, cur, p, left, id, off);
    InBlock(cur, x, GIGA);
    if off {
      OffHere(va, pa, size, GIGA, cur, p, left, id);
      ChunkHere(va, size, cur, p, left, id, off, x);
    } else {
      OnHere(va, pa, size, GIGA, cur, p, left, id);
      if Misfires(va, pa, size, GIGA) {
        var whole := Whole(size, GIGA);
        LaterChunk(va + whole, pa + whole, va, size, cur, p, left, id, x);
      } else if cur > va {
        LaterChunk(va, pa, va, size, cur, p, left, id, x);
      } else {
        ChunkHere(va, size, cur, p, left, id, off, x);
      }
    }
  }

  lemma DueRound(va: nat, pa: nat, size: nat, reach: nat, cur: nat, p: nat, left: nat, id: nat, off: bool)
    requires Due(va, pa, size, reach, cur, p, left, id, off)
    ensures Round(va, size, reach, cur, left, id, off)
  {
  }

  /** A round landed the addresses of its block below the edge, and did nothing elsewhere. */
  ghost predicate TopRoundLands(m1: Memory, m2: Memory, root: nat, va: nat, pa: nat, size: nat, prot: nat, cur: nat,
                                edge: nat)
    requires va + size > 0
  {
    forall x: nat :: x < SPACE ==> TopRoundLandsAt(m1, m2, root, va, pa, size, prot, cur, edge, x)
  }

  ghost predicate TopRoundLandsAt(m1: Memory, m2: Memory, root: nat, va: nat, pa: nat, size: nat, prot: nat, cur: nat,
                                  edge: nat, x: nat)
    requires va + size > 0
  {
    LandsAt(m1, m2, root, prot, if BlockStart(cur, GIGA) <= x < edge then LandingOf(va, pa, size, x) else Stays, x)
  }

  lemma LandedNothing(m: Memory, root: nat, va: nat, pa: nat, size: nat, prot: nat)
    requires va + size > 0
    ensures Landed(m, m, root, va, pa, size, prot, BlockStart(va, GIGA))
  {
    forall x: nat | x < SPACE
      ensures LandedAt(m, m, root, va, pa, size, prot, BlockStart(va, GIGA), x)
    {
      if x < BlockStart(va, GIGA) {
        NoneBefore(va, pa, size, x);
      }
      hide Resolve, LandingOf;
    }
  }

  lemma NoneBefore(va: nat, pa: nat, size: nat, x: nat)
    requires va + size > 0 && x < BlockStart(va, GIGA)
    ensures LandingOf(va, pa, size, x) == Stays
  {
    MegaInGiga(va);
    var whole := Whole(size, GIGA);
    if Misfires(va, pa, size, GIGA) {
      BlockStartOn(va, whole);
    }
    hide Chunk;
  }

  /** Whole blocks on, the block starts as much further on. */
  lemma BlockStartOn(va: nat, whole: nat)
    ensures BlockStart(va, MEGA) <= BlockStart(va + whole, MEGA)
  {
  }

  lemma NoneAfter(va: nat, pa: nat, size: nat, x: nat)
    requires size > 0 && x >= va + size
    ensures LandingOf(va, pa, size, x) == Stays
  {
    ChunkAtMost(va, size, GIGA);
    hide Chunk;
    if Misfires(va, pa, size, GIGA) {
      WholeKeepsOffset(va, size, GIGA);
      ChunkAtMost(va + Whole(size, GIGA), size - Whole(size, GIGA), GIGA);
    }
  }

  lemma WholeKeepsOffset(va: nat, size: nat, reach: nat)
    requires Reach(reach)
    ensures (va + Whole(size, reach)) % reach == va % reach
  {
    Powers.Distribute(reach, va / reach, size / reach);
    Powers.DivisionUnique(va + Whole(size, reach), reach, va / reach + size / reach, va % reach);
  }

  lemma LandedOn(m0: Memory, m1: Memory, m2: Memory, root: nat, va: nat, pa: nat, size: nat, prot: nat, cur: nat,
                 edge: nat)
    requires va + size > 0 && Landed(m0, m1, root, va, pa, size, prot, BlockStart(cur, GIGA))
    requires TopRoundLands(m1, m2, root, va, pa, size, prot, cur, edge) && BlockStart(cur, GIGA) <= edge
    ensures Landed(m0, m2, root, va, pa, size, prot, edge)
  {
    hide LandingOf, Resolve, Translate, BlockStart;
    forall x: nat | x < SPACE
      ensures LandedAt(m0, m2, root, va, pa, size, prot, edge, x)
    {
      assert LandedAt(m0, m1, root, va, pa, size, prot, BlockStart(cur, GIGA), x);
      assert TopRoundLandsAt(m1, m2, root, va, pa, size, prot, cur, edge, x);
      SameResolution(m1, m2, root, x);
    }
  }

  lemma AllLanded(m0: Memory, m: Memory, root: nat, va: nat, pa: nat, size: nat, prot: nat, edge: nat)
    requires size > 0 && Landed(m0, m, root, va, pa, size, prot, edge) && va + size <= edge
    ensures Landed(m0, m, root, va, pa, size, prot, SPACE)
  {
    hide LandingOf, Resolve, Translate;
    forall x: nat | x < SPACE
      ensures LandedAt(m0, m, root, va, pa, size, prot, SPACE, x)
    {
      assert LandedAt(m0, m, root, va, pa, size, prot, edge, x);
      if x >= edge {
        NoneAfter(va, pa, size, x);
      }
    }
  }

  lemma TopTakenRoundLands(m1: Memory, m2: Memory, root: nat, va: nat, pa: nat, size: nat, prot: nat,
                           cur: nat, p: nat, left: nat, id: nat, off: bool)
    requires Due(va, pa, size, GIGA, cur, p, left, id, off) && Takes(cur, p, left, GIGA) && size > 0
    requires forall x: nat :: x < SPACE && x / GIGA == cur / GIGA ==>
               Translate(m2, root, x) == Mapped(p + (x - BlockStart(cur, GIGA)), prot)
    requires forall x: nat :: x < SPACE && x / GIGA != cur / GIGA ==> Resolve(m2, root, x) == Resolve(m1, root, x)
    ensures TopRoundLands(m1, m2, root, va, pa, size, prot, cur, BlockStart(cur, GIGA) + GIGA)
  {
    hide LandingOf, Resolve, Translate, BlockStart, Due, Takes;
    var edge := BlockStart(cur, GIGA) + GIGA;
    forall x: nat | x < SPACE
      ensures TopRoundLandsAt(m1, m2, root, va, pa, size, prot, cur, edge, x)
    {
      InBlock(cur, x, GIGA);
      if x / GIGA == cur / GIGA {
        TopTakenLands(va, pa, size, cur, p, left, id, off, x);
      }
    }
  }

  lemma TopPartRoundLands(m1: Memory, m2: Memory, root: nat, va: nat, pa: nat, size: nat, prot: nat,
                          cur: nat, p: nat, left: nat, id: nat, off: bool, e: nat, edge: nat)
    requires Due(va, pa, size, GIGA, cur, p, left, id, off) && !Takes(cur, p, left, GIGA) && size > 0
    requires cur + left > 0 && MiddleLanded(m1, m2, root, cur, p, Chunk(cur, left, GIGA), prot, e)
    requires (edge == e <= BlockStart(cur, GIGA) + GIGA) || (e == SPACE && edge == BlockStart(cur, GIGA) + GIGA)
    ensures TopRoundLands(m1, m2, root, va, pa, size, prot, cur, edge)
  {
    DueRound(va, pa, size, GIGA, cur, p, left, id, off);
    RoundWithin(va, size, GIGA, cur, left, id, off);
    WithinBlock(cur, Chunk(cur, left, GIGA), GIGA);
    hide LandingOf, MiddleLanding, Resolve, Translate, BlockStart, Due, Takes, Chunk, Round;
    forall x: nat | x < SPACE
      ensures TopRoundLandsAt(m1, m2, root, va, pa, size, prot, cur, edge, x)
    {
      InBlock(cur, x, GIGA);
      assert MiddleLandedAt(m1, m2, root, cur, p, Chunk(cur, left, GIGA), prot, e, x);
      if x / GIGA == cur / GIGA {
        TopPartLands(va, pa, size, cur, p, left, id, off, x);
      } else if x < cur {
        NoneBeforeChunk(cur, p, Chunk(cur, left, GIGA), x);
      } else {
        NoneBeyond(cur, p, Chunk(cur, left, GIGA), x);
      }
    }
  }

  lemma NoneBeforeChunk(va: nat, pa: nat, size: nat, x: nat)
    requires x < BlockStart(va, GIGA)
    ensures MiddleLanding(va, pa, size, x) == Stays
  {
    MegaInGiga(va);
  }

  /** Where nothing had changed before. */
  lemma MiddleLandedAfter(m0: Memory, m1: Memory, m2: Memory, root: nat, va: nat, pa: nat, size: nat, prot: nat,
                          edge: nat, at: nat, target: Target)
    requires Maps(m0, m1, root, at, at, target) && MiddleLanded(m1, m2, root, va, pa, size, prot, edge)
    ensures MiddleLanded(m0, m2, root, va, pa, size, prot, edge)
  {
    hide MiddleLanding, Resolve, Translate;
    forall x: nat | x < SPACE
      ensures MiddleLandedAt(m0, m2, root, va, pa, size, prot, edge, x)
    {
      assert MapsAt(m0, m1, root, at, at, target, x) && MiddleLandedAt(m1, m2, root, va, pa, size, prot, edge, x);
    }
  }
}
