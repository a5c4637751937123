/** Creating and removing mappings, table by table. */
module Mmu {
  import opened Landings
  import opened PageTable
  import opened Rounds
  import opened Sweeps

  const LOW_HALF := 0x40_0000_0000   // the canonical low half of the address space

  datatype Err = Ok | NoMem | Perm

  /** The reach of the superpage that create writes for the wrong addresses first, 0 when it does not. */
  function Wrong(va: nat, pa: nat, size: nat): (reach: nat)
    requires va + size > 0
  {
    if Misfires(va, pa, size, GIGA) then GIGA
    else if Misfires(va, pa, Chunk(va, size, GIGA), MEGA) then MEGA
    else 0
  }

  /** A range of whole pages of the low half. */
  predicate PageRange(va: nat, size: nat) {
    va % PAGE == 0 && size % PAGE == 0 && size > 0 && va + size <= LOW_HALF
  }

  /** The most tables a range can need: one for each of its 1 GiB blocks and one for each of its 2 MiB blocks. */
  function Tables(va: nat, size: nat): int
    requires size > 0
  {
    Blocks(va, size, GIGA) + Blocks(va, size, MEGA)
  }

  /** What every caller of create passes. */
  predicate Asked(va: nat, pa: nat, size: nat, prot: nat) {
    PageRange(va, size) && pa % PAGE == 0 && LeafProt(prot)
  }

  /** A range create handles as intended. */
  predicate CanMap(va: nat, pa: nat, size: nat, prot: nat) {
    Asked(va, pa, size, prot) && Wrong(va, pa, size) == 0
  }

  // ---------------------------------------------------------------- frames

  /** Every address outside lo .. hi resolves as before. */
  ghost predicate Keeps(m0: Memory, m: Memory, root: nat, lo: nat, hi: nat) {
    forall x: nat :: x < SPACE && !(lo <= x < hi) ==> Resolve(m, root, x) == Resolve(m0, root, x)
  }

  lemma MapsKeeps(m0: Memory, m: Memory, root: nat, from: nat, to: nat, target: Target, lo: nat, hi: nat)
    requires Maps(m0, m, root, from, to, target) && lo <= from && to <= hi
    ensures Keeps(m0, m, root, lo, hi)
  {
    forall x: nat | x < SPACE && !(lo <= x < hi)
      ensures Resolve(m, root, x) == Resolve(m0, root, x)
    {
      assert MapsAt(m0, m, root, from, to, target, x);
    }
  }

  lemma KeepsOn(m0: Memory, m1: Memory, m2: Memory, root: nat, lo: nat, mid: nat, mid': nat, hi: nat)
    requires Keeps(m0, m1, root, lo, mid) && Keeps(m1, m2, root, mid', hi) && lo <= mid' && mid <= hi
    ensures Keeps(m0, m2, root, lo, hi)
  {
    hide Resolve;
  }

  /** The whole block of va, from before va on, resolves to one superpage for pa. */
  ghost predicate Misplaced(m: Memory, root: nat, va: nat, pa: nat, prot: nat, reach: nat) {
    reach > 0 && forall x: nat :: x < SPACE && x / reach == va / reach ==>
                   Resolve(m, root, x) == LeafOf(Entry(pa / PAGE, prot), reach)
  }

  /** Writes to later blocks leave it so. */
  lemma StaysMisplaced(m: Memory, m': Memory, root: nat, va: nat, pa: nat, prot: nat, wrong: nat, cur: nat, reach: nat,
                       hi: nat)
    requires Reach(reach) && Reach(wrong) && wrong != PAGE && wrong <= reach && va < BlockStart(cur, reach)
    requires Misplaced(m, root, va, pa, prot, wrong) && Keeps(m, m', root, BlockStart(cur, reach), hi)
    ensures Misplaced(m', root, va, pa, prot, wrong)
  {
    forall x: nat | x < SPACE && x / wrong == va / wrong
      ensures Resolve(m', root, x) == LeafOf(Entry(pa / PAGE, prot), wrong)
    {
      MegaGroups(x);
      MegaGroups(va);
      BlockBehind(va, cur, x, reach);
    }
  }

  /** Only table t was written. */
  ghost predicate Elsewhere(m0: Memory, m: Memory, t: nat) {
    m.Keys == m0.Keys && forall u :: u in m && u != t ==> m[u] == m0[u]
  }

  /** A superpage leaf serves x. */
  predicate Blocked(m: Memory, root: nat, x: nat) {
    Resolve(m, root, x).Leaf? && Resolve(m, root, x).reach > PAGE
  }

  lemma SamePath(m: Memory, root: nat, va: nat, x: nat, t2: nat, t: nat)
    requires va < SPACE && x < SPACE && va / MEGA == x / MEGA
    ensures Bottoming(m, root, va, t2, t) == Bottoming(m, root, x, t2, t)
  {
    SameIndices(va, x);
  }

  lemma SameMiddle(m: Memory, root: nat, va: nat, x: nat, t: nat)
    requires va < SPACE && x < SPACE && va / GIGA == x / GIGA
    ensures Middling(m, root, va, t) == Middling(m, root, x, t)
  {
    SameIndices(va, x);
  }

  lemma PutKeepsPath(m: Memory, root: nat, va: nat, t2: nat, t: nat, i: nat, e: Entry)
    requires Bottoming(m, root, va, t2, t) && t != root && t != t2 && t in m && i < |m[t]|
    ensures Bottoming(Put(m, t, i, e), root, va, t2, t)
  {
  }

  lemma SameRootEntries(m: Memory, m': Memory, root: nat, va: nat, t: nat)
    requires Middling(m, root, va, t) && root in m && root in m' && m'[root] == m[root]
    ensures Middling(m', root, va, t)
  {
  }

  lemma SameGiga(m: Memory, root: nat, va: nat, x: nat, t: nat)
    requires va < SPACE && x < SPACE && va / MEGA / ENTRIES == x / MEGA / ENTRIES && Middling(m, root, va, t)
    ensures Middling(m, root, x, t)
  {
    MegaGroups(va);
    MegaGroups(x);
    SameMiddle(m, root, va, x, t);
  }

  lemma MegaGroups(x: nat)
    ensures x / PAGE / ENTRIES == x / MEGA && x / MEGA / ENTRIES == x / GIGA && (x < SPACE ==> x / GIGA / ENTRIES == 0)
  {
  }

  /** The rounds over a table at one level, for a stretch in the block of one entry of the level above. */
  lemma RoundsBegin(va: nat, size: nat, reach: nat, off: bool)
    requires (reach == PAGE && Within(va, size, MEGA)) || (reach == MEGA && Within(va, size, GIGA))
    requires (size == 0 && va % reach != 0 ==> off) && (off ==> va % reach != 0)
    ensures Round(va, size, reach, va, size, Index(va, reach), off)
  {
    MegaGroups(va);
    MegaGroups(va + size - 1);
    RoundStart(va, size, reach, off);
  }

  lemma TopRoundsBegin(va: nat, size: nat, off: bool)
    requires va % PAGE == 0 && size % PAGE == 0 && 0 < size && va + size <= SPACE && (off ==> va % GIGA != 0)
    ensures Round(va, size, GIGA, va, size, Index(va, GIGA), off)
  {
    MegaGroups(va);
    MegaGroups(va + size - 1);
    RoundStart(va, size, GIGA, off);
  }

  // ---------------------------------------------------------------- third level

  /** The loop over third-level entries: the pages before cur have their target. */
  ghost predicate Filling(m0: Memory, m: Memory, root: nat, role: map<nat, Role>, va: nat, size: nat, target: Target,
                          t2: nat, t: nat, cur: nat, left: nat, id: nat) {
    && Round(va, size, PAGE, cur, left, id, false) && Fits(target, PAGE) && Within(va, size, MEGA)
    && Shaped(m, root, role) && Bottoming(m, root, va, t2, t)
    && Maps(m0, m, root, va, cur, target)
    && Elsewhere(m0, m, t) && t in m && t != root && t != t2
  }

  lemma FillBegins(m: Memory, root: nat, role: map<nat, Role>, va: nat, size: nat, target: Target, t2: nat, t: nat)
    requires Shaped(m, root, role) && Bottoming(m, root, va, t2, t) && Fits(target, PAGE) && Within(va, size, MEGA)
    ensures Filling(m, m, root, role, va, size, target, t2, t, va, size, I3(va))
  {
    PathRoles(m, root, role, va);
    MapsNothing(m, root, va, target);
    RoundsBegin(va, size, PAGE, false);
  }

  lemma FillStep(m0: Memory, m: Memory, root: nat, role: map<nat, Role>, va: nat, size: nat, target: Target,
                 t2: nat, t: nat, cur: nat, left: nat, id: nat, e: Entry)
    requires Filling(m0, m, root, role, va, size, target, t2, t, cur, left, id) && id <= I3(va + size - 1)
    requires cur >= va ==> e == EntryFor(Shift(target, cur - va))
    ensures t in m && id < |m[t]| && PAGE <= left
    ensures Filling(m0, Put(m, t, id, e), root, role, va, size, target, t2, t, cur + PAGE, left - PAGE, id + 1)
  {
    hide Shaped, Maps, Bottoming, Chunk;
    RoundGuard(va, size, PAGE, cur, left, id, false);
    RoundChunk(va, size, PAGE, cur, left, id, false);
    RoundNext(va, size, PAGE, cur, left, id, false);
    MegaGroups(va);
    MegaGroups(cur);
    SamePath(m, root, va, cur, t2, t);
    StepBottom(m, root, role, cur, t2, t, Shift(target, cur - va));
    MapsCompose(m0, m, Put(m, t, id, e), root, va, cur, cur + PAGE, target);
    PutKeepsPath(m, root, va, t2, t, id, e);
  }

  lemma FillEnds(m0: Memory, m: Memory, root: nat, role: map<nat, Role>, va: nat, size: nat, target: Target,
                 t2: nat, t: nat, cur: nat, left: nat, id: nat)
    requires Filling(m0, m, root, role, va, size, target, t2, t, cur, left, id) && id > I3(va + size - 1)
    ensures Shaped(m, root, role) && Maps(m0, m, root, va, va + size, target) && Elsewhere(m0, m, t)
    ensures t in m && t != root && t != t2
  {
    RoundGuard(va, size, PAGE, cur, left, id, false);
  }

  // ---------------------------------------------------------------- creating: one round

  lemma BlockOnPage(x: nat, reach: nat)
    requires Reach(reach) && x % reach == 0
    ensures x % PAGE == 0
  {
    if reach == MEGA {
      assert x == x / MEGA * 512 * PAGE;
    } else if reach == GIGA {
      assert x == x / GIGA * 512 * 512 * PAGE;
    }
  }

  lemma SuperEntry(pa: nat, prot: nat, reach: nat)
    requires Reach(reach) && pa % reach == 0 && LeafProt(prot)
    ensures var e := Entry(pa / PAGE, prot);
            e.ppn * PAGE % reach == 0 && e.prot < 1024 && !e.IsTable() && e.IsLeaf() && !e.IsNull()
    ensures Fits(To(pa, prot), reach) && EntryFor(To(pa, prot)) == Entry(pa / PAGE, prot)
  {
    BlockOnPage(pa, reach);
  }

  /** One entry written for a whole block: the addresses from the start of the block resolve to it. */
  lemma SuperMiddle(m: Memory, root: nat, role: map<nat, Role>, va: nat, t: nat, pa: nat, prot: nat)
    requires Shaped(m, root, role) && Middling(m, root, va, t) && MEGA <= va < SPACE && pa % MEGA == 0 && LeafProt(prot)
    ensures t in m && I2(va) < |m[t]| && t != root
    ensures var m' := Put(m, t, I2(va), Entry(pa / PAGE, prot));
            && Shaped(m', root, role) && root in m && root in m' && m'[root] == m[root]
            && Misplaced(m', root, va, pa, prot, MEGA)
            && Keeps(m, m', root, BlockStart(va, MEGA), BlockStart(va, MEGA) + MEGA)
            && (va % MEGA == 0 ==> Maps(m, m', root, va, va + MEGA, To(pa, prot)))
  {
    var e := Entry(pa / PAGE, prot);
    SuperEntry(pa, prot, MEGA);
    PathRoles(m, root, role, va);
    WriteKeepsShape(m, root, role, t, I2(va), e);
    if va % MEGA == 0 {
      StepMiddle(m, root, role, va, t, To(pa, prot));
    }
    forall x: nat | x < SPACE && x / MEGA == va / MEGA
      ensures Resolve(Put(m, t, I2(va), e), root, x) == LeafOf(e, MEGA)
    {
      WriteMiddle(m, root, role, va, t, e, x);
    }
    forall x: nat | x < SPACE && !(BlockStart(va, MEGA) <= x < BlockStart(va, MEGA) + MEGA)
      ensures Resolve(Put(m, t, I2(va), e), root, x) == Resolve(m, root, x)
    {
      WriteMiddle(m, root, role, va, t, e, x);
      InBlock(va, x, MEGA);
    }
    hide Resolve, Maps, Shaped;
  }

  lemma SuperTop(m: Memory, root: nat, role: map<nat, Role>, va: nat, pa: nat, prot: nat)
    requires Shaped(m, root, role) && GIGA <= va < SPACE && pa % GIGA == 0 && LeafProt(prot)
    ensures root in m && I1(va) < |m[root]|
    ensures var m' := Put(m, root, I1(va), Entry(pa / PAGE, prot));
            && Shaped(m', root, role)
            && Misplaced(m', root, va, pa, prot, GIGA)
            && Keeps(m, m', root, BlockStart(va, GIGA), BlockStart(va, GIGA) + GIGA)
            && (va % GIGA == 0 ==> Maps(m, m', root, va, va + GIGA, To(pa, prot)))
  {
    var e := Entry(pa / PAGE, prot);
    SuperEntry(pa, prot, GIGA);
    WriteKeepsShape(m, root, role, root, I1(va), e);
    if va % GIGA == 0 {
      StepTop(m, root, role, va, To(pa, prot));
    }
    forall x: nat | x < SPACE && x / GIGA == va / GIGA
      ensures Resolve(Put(m, root, I1(va), e), root, x) == LeafOf(e, GIGA)
    {
      WriteTop(m, root, role, va, e, x);
    }
    forall x: nat | x < SPACE && !(BlockStart(va, GIGA) <= x < BlockStart(va, GIGA) + GIGA)
      ensures Resolve(Put(m, root, I1(va), e), root, x) == Resolve(m, root, x)
    {
      WriteTop(m, root, role, va, e, x);
      InBlock(va, x, GIGA);
    }
    hide Resolve, Maps, Shaped;
  }

  /** How the superpage test and the boundaries go together from round to round. */
  lemma CreateRound(va: nat, pa: nat, size: nat, reach: nat, cur: nat, p: nat, left: nat, id: nat, off: bool)
    requires Round(va, size, reach, cur, left, id, off) && (left > 0 || off) && p == pa + (cur - va)
    requires off ==> Misfires(va, pa, size, reach) || size == 0
    requires cur == va && Misfires(va, pa, size, reach) ==> off
    ensures Misfires(cur, p, left, reach) ==> Misfires(va, pa, size, reach)
    ensures Within(cur, Chunk(cur, left, reach), reach)
    ensures var part := if Takes(cur, p, left, reach) then reach else Chunk(cur, left, reach);
            part <= left && Round(va, size, reach, cur + part, left - part, id + 1, off && Takes(cur, p, left, reach))
  {
    RoundWithin(va, size, reach, cur, left, id, off);
    if off && Takes(cur, p, left, reach) {
      RoundOff(va, size, reach, cur, left, id);
    } else {
      RoundNext(va, size, reach, cur, left, id, off);
    }
    hide Chunk, Within, Index;
  }

  // ---------------------------------------------------------------- creating: all rounds

  /** How far create has come: the addresses before cur have their target, or the entry of va is the wrong one. */
  ghost predicate Made(m0: Memory, m: Memory, root: nat, va: nat, pa: nat, prot: nat, cur: nat, wrong: nat) {
    if wrong == 0 then Maps(m0, m, root, va, cur, To(pa, prot))
    else cur > va ==> Misplaced(m, root, va, pa, prot, wrong)
  }

  /** The loop of create over the entries of one table, of the given reach. */
  ghost predicate Making(m0: Memory, m: Memory, root: nat, reach: nat, va: nat, pa: nat, size: nat, prot: nat,
                         cur: nat, p: nat, left: nat, id: nat, off: bool, wrong: nat) {
    && Round(va, size, reach, cur, left, id, off) && p == pa + (cur - va) && va < SPACE && reach >= MEGA
    && pa % PAGE == 0
    && (off ==> Misfires(va, pa, size, reach) || size == 0)
    && (cur == va && Misfires(va, pa, size, reach) ==> off)
    && (wrong == 0 || wrong == MEGA || (wrong == GIGA && reach == GIGA))
    && Keeps(m0, m, root, BlockStart(va, reach), Edge(va, size, reach, cur, left, off))
    && Made(m0, m, root, va, pa, prot, cur, wrong)
  }

  lemma MakingBegins(m: Memory, root: nat, reach: nat, va: nat, pa: nat, size: nat, prot: nat, off: bool, wrong: nat)
    requires reach > 0 && Round(va, size, reach, va, size, Index(va, reach), off) && va < SPACE && pa % PAGE == 0
    requires off <==> Misfires(va, pa, size, reach) || (size == 0 && va % reach != 0)
    requires reach >= MEGA && (wrong == 0 || wrong == MEGA || (wrong == GIGA && reach == GIGA))
    ensures Making(m, m, root, reach, va, pa, size, prot, va, pa, size, Index(va, reach), off, wrong)
  {
    MapsNothing(m, root, va, To(pa, prot));
    hide Round, Maps, Index;
  }

  lemma MiddleBegins(m: Memory, root: nat, va: nat, pa: nat, size: nat, prot: nat, off: bool, wrong: nat)
    requires Within(va, size, GIGA) && pa % PAGE == 0
    requires off <==> Misfires(va, pa, size, MEGA) || (size == 0 && va % MEGA != 0)
    requires wrong == 0 || wrong == MEGA
    ensures Making(m, m, root, MEGA, va, pa, size, prot, va, pa, size, I2(va), off, wrong) && va + size > 0
    ensures Misfires(va, pa, size, MEGA) ==> size > 0
  {
    RoundsBegin(va, size, MEGA, off);
    MakingBegins(m, root, MEGA, va, pa, size, prot, off, wrong);
    hide Making, Round;
  }

  lemma AskedFor(va: nat, pa: nat, size: nat, prot: nat)
    requires Asked(va, pa, size, prot)
    ensures va + size <= SPACE && LeafProt(prot) && size > 0
  {
  }

  lemma TopBegins(m: Memory, root: nat, va: nat, pa: nat, size: nat, prot: nat, off: bool, wrong: nat)
    requires Asked(va, pa, size, prot) && size > 0 && (off <==> Misfires(va, pa, size, GIGA))
    requires wrong == Wrong(va, pa, size)
    ensures Making(m, m, root, GIGA, va, pa, size, prot, va, pa, size, I1(va), off, wrong)
    ensures Misfires(va, pa, size, GIGA) ==> Wrong(va, pa, size) != 0
  {
    TopRoundsBegin(va, size, off);
    MakingBegins(m, root, GIGA, va, pa, size, prot, off, wrong);
    hide Making, Round;
  }

  /** From the second round on the tests misfire only when the first one did at this level. */
  lemma WrongOn(va: nat, pa: nat, size: nat, cur: nat, p: nat, left: nat)
    requires size > 0 && left > 0
    requires Wrong(va, pa, size) == 0
    requires Misfires(cur, p, left, GIGA) ==> Misfires(va, pa, size, GIGA)
    requires (cur == va && p == pa && left == size) || cur % GIGA == 0
    ensures Wrong(cur, p, left) == 0
  {
    NoneBelow(cur);
    hide Misfires, Chunk;
  }

  /** What one round may rely on. */
  lemma MakingHere(m0: Memory, m: Memory, root: nat, reach: nat, va: nat, pa: nat, size: nat, prot: nat,
                   cur: nat, p: nat, left: nat, id: nat, off: bool, wrong: nat)
    requires Making(m0, m, root, reach, va, pa, size, prot, cur, p, left, id, off, wrong)
    requires id <= Index(va + size - 1, reach)
    ensures va <= cur && cur + left == va + size && p == pa + (cur - va) && p % PAGE == 0 && (left > 0 || off)
    ensures id == Index(cur, reach) && cur / reach / ENTRIES == va / reach / ENTRIES
            && (left == 0 ==> Misfires(va, pa, size, reach) || size == 0)
    ensures Within(cur, Chunk(cur, left, reach), reach) && Chunk(cur, left, reach) <= left
    ensures cur % reach == 0 && left >= reach ==> Chunk(cur, left, reach) == reach
    ensures Misfires(cur, p, left, reach) ==> Misfires(va, pa, size, reach)
    ensures off ==> Misfires(va, pa, size, reach) || size == 0
    ensures cur > va && left > 0 && !off ==> cur % reach == 0
    ensures cur == va ==> p == pa && left == size
    ensures Keeps(m0, m, root, BlockStart(va, reach), BlockStart(cur, reach))
  {
    RoundGuard(va, size, reach, cur, left, id, off);
    RoundWithin(va, size, reach, cur, left, id, off);
    OnPage(pa, cur, va);
    hide Chunk, Index, Within;
  }

  /** A block met once the writes reached another one was there before. */
  lemma StillBlocked(m0: Memory, m: Memory, root: nat, lo: nat, hi: nat, x: nat)
    requires Keeps(m0, m, root, lo, hi) && hi <= x < SPACE
    ensures Blocked(m, root, x) ==> Blocked(m0, root, x)
  {
    hide Resolve;
  }

  lemma MegaEnds(va: nat, x: nat)
    requires va / MEGA / ENTRIES == x / MEGA / ENTRIES
    ensures BlockStart(x, MEGA) + MEGA <= BlockStart(va, GIGA) + GIGA
  {
    MegaGroups(va);
    MegaGroups(x);
    MegaWithinGiga(va, x);
  }

  /** The entries a stretch of a 1 GiB block has are as many as its 2 MiB blocks. */
  lemma MiddleBlocks(va: nat, size: nat)
    requires Within(va, size, GIGA)
    ensures va + size > 0 && I2(va + size - 1) + 1 - I2(va) == Blocks(va, size, MEGA) >= 0
    ensures BlockStart(va + size - 1, MEGA) + MEGA <= BlockStart(va, GIGA) + GIGA
  {
    MegaGroups(va);
    MegaGroups(va + size - 1);
    BlocksByIndex(va, size, MEGA);
    MegaWithinGiga(va, va + size - 1);
    hide BlockStart;
  }

  lemma TopBlocks(va: nat, size: nat)
    requires size > 0 && va + size <= SPACE
    ensures I1(va + size - 1) + 1 - I1(va) == Blocks(va, size, GIGA) >= 0
    ensures Begun(va, va) == 0 <= Blocks(va, size, MEGA)
  {
    QuotientMonotone(va, va + size - 1, MEGA);
    MegaGroups(va);
    MegaGroups(va + size - 1);
    BlocksByIndex(va, size, GIGA);
  }

  lemma EdgeHere(va: nat, size: nat, reach: nat, cur: nat, left: nat, off: bool)
    requires reach > 0 && va + size > 0 && (left > 0 || off)
    ensures Edge(va, size, reach, cur, left, off) == BlockStart(cur, reach)
  {
  }

  /** Off the misfires a superpage is the whole chunk. */
  lemma WholeChunk(va: nat, pa: nat, size: nat, reach: nat, cur: nat, p: nat, left: nat, id: nat, off: bool)
    requires Round(va, size, reach, cur, left, id, off) && (left > 0 || off) && p == pa + (cur - va)
    requires cur == va && Misfires(va, pa, size, reach) ==> off
    ensures !off && Takes(cur, p, left, reach) ==> Chunk(cur, left, reach) == reach
  {
    RoundWithin(va, size, reach, cur, left, id, off);
    hide Chunk, Within, Index;
  }

  lemma MadeOn(m0: Memory, m1: Memory, m2: Memory, root: nat, va: nat, pa: nat, prot: nat,
               cur: nat, got: nat, wrong: nat, reach: nat, ok: bool)
    requires Made(m0, m1, root, va, pa, prot, cur, wrong) && va <= cur && Reach(reach) && reach >= MEGA
    requires wrong == 0 || wrong == MEGA || (wrong == GIGA && reach == GIGA)
    requires Keeps(m1, m2, root, BlockStart(cur, reach), BlockStart(cur, reach) + reach)
    requires cur > va ==> va < BlockStart(cur, reach)
    requires wrong == 0 ==> Maps(m1, m2, root, cur, cur + got, To(pa + (cur - va), prot))
    requires ok && wrong != 0 && cur == va ==> Misplaced(m2, root, va, pa, prot, wrong)
    ensures ok ==> Made(m0, m2, root, va, pa, prot, cur + got, wrong)
    ensures wrong == 0 ==> Maps(m0, m2, root, va, cur + got, To(pa, prot))
    ensures ok && wrong != 0 ==> Misplaced(m2, root, va, pa, prot, wrong)
  {
    hide Resolve, Maps, Misplaced, Keeps, BlockStart;
    if wrong == 0 {
      MapsCompose(m0, m1, m2, root, va, cur, cur + got, To(pa, prot));
    } else if cur > va {
      StaysMisplaced(m1, m2, root, va, pa, prot, wrong, cur, reach, BlockStart(cur, reach) + reach);
    }
  }

  /** One round on: got bytes more have their target, or the entry of va is the wrong one still. */
  lemma MakingOn(m0: Memory, m1: Memory, m2: Memory, root: nat, reach: nat, va: nat, pa: nat, size: nat, prot: nat,
                 cur: nat, p: nat, left: nat, id: nat, off: bool, wrong: nat, got: nat, ok: bool)
    requires Making(m0, m1, root, reach, va, pa, size, prot, cur, p, left, id, off, wrong) && (left > 0 || off)
    requires Keeps(m1, m2, root, BlockStart(cur, reach), BlockStart(cur, reach) + reach) && va <= cur
    requires wrong == 0 ==> Maps(m1, m2, root, cur, cur + got, To(p, prot))
    requires ok && wrong != 0 && cur == va ==> Misplaced(m2, root, va, pa, prot, wrong)
    ensures Keeps(m0, m2, root, BlockStart(va, reach), BlockStart(cur, reach) + reach)
    ensures wrong == 0 ==> Maps(m0, m2, root, va, cur + got, To(pa, prot))
    ensures ok && wrong != 0 ==> Misplaced(m2, root, va, pa, prot, wrong)
    ensures ok && got == (if Takes(cur, p, left, reach) then reach else Chunk(cur, left, reach)) ==>
              && got <= left
              && Making(m0, m2, root, reach, va, pa, size, prot, cur + got, p + got, left - got, id + 1,
                        off && Takes(cur, p, left, reach), wrong)
  {
    hide Resolve, Maps, Chunk, Misplaced, Made, Keeps, BlockStart, Index, Edge;
    RoundBeyond(va, size, reach, cur, left, id, off);
    CreateRound(va, pa, size, reach, cur, p, left, id, off);
    EdgeHere(va, size, reach, cur, left, off);
    KeepsOn(m0, m1, m2, root, BlockStart(va, reach), BlockStart(cur, reach), BlockStart(cur, reach),
            BlockStart(cur, reach) + reach);
    if ok && got == (if Takes(cur, p, left, reach) then reach else Chunk(cur, left, reach)) {
      WholeChunk(va, pa, size, reach, cur, p, left, id, off);
      EdgeNext(va, size, reach, cur, left, id, off, got, off && Takes(cur, p, left, reach));
    }
    MadeOn(m0, m1, m2, root, va, pa, prot, cur, got, wrong, reach, ok);
  }

  /** The blocks a round adds to the count. */
  lemma MakingCounts(m0: Memory, m: Memory, root: nat, va: nat, pa: nat, size: nat, prot: nat,
                     cur: nat, p: nat, left: nat, id: nat, off: bool, wrong: nat)
    requires Making(m0, m, root, GIGA, va, pa, size, prot, cur, p, left, id, off, wrong) && size > 0
    requires id <= I1(va + size - 1)
    ensures cur + left > 0 && Begun(va, cur) >= 0
    ensures var c := Chunk(cur, left, GIGA);
            && (if off then 0 else Begun(va, cur)) + Blocks(cur, c, MEGA) <= Begun(va, cur + c)
            && Begun(va, cur + c) <= Blocks(va, size, MEGA)
    ensures Takes(cur, p, left, GIGA) ==> Begun(va, cur) <= Begun(va, cur + GIGA) <= Blocks(va, size, MEGA)
  {
    RoundGuard(va, size, GIGA, cur, left, id, off);
    BegunOn(va, size, cur, left, id, off);
    if Takes(cur, p, left, GIGA) {
      BegunMore(va, cur, cur + GIGA, va + size);
    }
    hide Chunk, Blocks, Begun;
  }

  lemma MakingEnds(m0: Memory, m: Memory, root: nat, reach: nat, va: nat, pa: nat, size: nat, prot: nat,
                   cur: nat, p: nat, left: nat, id: nat, off: bool, wrong: nat)
    requires Making(m0, m, root, reach, va, pa, size, prot, cur, p, left, id, off, wrong)
    requires id > Index(va + size - 1, reach)
    ensures cur == va + size && left == 0
    ensures wrong == 0 ==> Maps(m0, m, root, va, va + size, To(pa, prot))
    ensures wrong != 0 && size > 0 ==> Misplaced(m, root, va, pa, prot, wrong)
    ensures Keeps(m0, m, root, BlockStart(va, reach), BlockStart(va + size - 1, reach) + reach)
  {
    RoundGuard(va, size, reach, cur, left, id, off);
  }

  /** Where the first round over second-level entries works. */
  lemma MiddleLandsFirst(m: Memory, root: nat, va: nat, pa: nat, size: nat, prot: nat, off: bool)
    requires va + size > 0 && (off <==> Misfires(va, pa, size, MEGA) || (size == 0 && va % MEGA != 0))
    ensures MiddleLanded(m, m, root, va, pa, size, prot, Edge(va, size, MEGA, va, size, off))
    ensures OnCourse(va, pa, size, MEGA, va, size, off)
  {
    hide MiddleLanded;
    NothingLanded(m, root, va, pa, size, prot);
  }

  lemma MiddleLandsLast(m0: Memory, m: Memory, root: nat, va: nat, pa: nat, size: nat, prot: nat,
                        cur: nat, p: nat, left: nat, id: nat, off: bool, wrong: nat)
    requires Making(m0, m, root, MEGA, va, pa, size, prot, cur, p, left, id, off, wrong) && id > I2(va + size - 1)
    requires MiddleLanded(m0, m, root, va, pa, size, prot, Edge(va, size, MEGA, cur, left, off))
    requires Within(va, size, GIGA)
    ensures MiddleLanded(m0, m, root, va, pa, size, prot, SPACE)
    ensures BlockStart(va + size, MEGA) <= BlockStart(va, GIGA) + GIGA
  {
    RoundGuard(va, size, MEGA, cur, left, id, off);
    StartOfBlock(va + size - 1, MEGA);
    InBlock(va + size - 1, va + size - 1, MEGA);
    WithinBlock(va, size, GIGA);
    hide MiddleLanded, Keeps, Made;
    MiddleAllLanded(m0, m, root, va, pa, size, prot, BlockStart(va + size - 1, MEGA) + MEGA);
  }

  /** A round over second-level entries takes the landing one block further. */
  lemma EntryLands(m0: Memory, m1: Memory, m2: Memory, root: nat, va: nat, pa: nat, size: nat, prot: nat,
                   cur: nat, p: nat, left: nat, id: nat, off: bool, wrong: nat, ok: bool, part: nat)
    requires Making(m0, m1, root, MEGA, va, pa, size, prot, cur, p, left, id, off, wrong) && (left > 0 || off)
    requires OnCourse(va, pa, size, MEGA, cur, left, off) && LeafProt(prot)
    requires MiddleLanded(m0, m1, root, va, pa, size, prot, Edge(va, size, MEGA, cur, left, off))
    requires part == if !ok then 0 else if Takes(cur, p, left, MEGA) then MEGA else Chunk(cur, left, MEGA)
    requires Keeps(m1, m2, root, BlockStart(cur, MEGA), BlockStart(cur, MEGA) + MEGA)
    requires Takes(cur, p, left, MEGA) ==> ok && Misplaced(m2, root, cur, p, prot, MEGA)
    requires !Takes(cur, p, left, MEGA) ==> Maps(m1, m2, root, cur, cur + part, To(p, prot))
    ensures !ok ==> MiddleLanded(m0, m2, root, va, pa, size, prot, BlockStart(cur, MEGA))
    ensures ok ==> part <= left
    ensures ok ==> var off' := off && Takes(cur, p, left, MEGA);
                   && OnCourse(va, pa, size, MEGA, cur + part, left - part, off')
                   && MiddleLanded(m0, m2, root, va, pa, size, prot,
                                   Edge(va, size, MEGA, cur + part, left - part, off'))
  {
    hide MiddleLanded, Maps, Misplaced, Keeps, RoundLands, LeafProt, Resolve, Chunk, BlockStart, Made;
    EdgeHere(va, size, MEGA, cur, left, off);
    DueNext(va, pa, size, MEGA, cur, p, left, id, off);
    if !ok {
      MiddleStillLanded(m0, m1, m2, root, va, pa, size, prot, BlockStart(cur, MEGA), cur, To(p, prot));
    } else {
      WholeChunk(va, pa, size, MEGA, cur, p, left, id, off);
      EdgeNext(va, size, MEGA, cur, left, id, off, part, off && Takes(cur, p, left, MEGA));
      if Takes(cur, p, left, MEGA) {
        SuperLands(m1, m2, root, cur, p, prot, MEGA);
        TakenRoundLands(m1, m2, root, va, pa, size, prot, cur, p, left, id, off);
      } else {
        PartRoundLands(m1, m2, root, va, pa, size, prot, cur, p, left, id, off);
      }
      MiddleLandedOn(m0, m1, m2, root, va, pa, size, prot, cur);
    }
  }

  lemma TopLandsFirst(m: Memory, root: nat, va: nat, pa: nat, size: nat, prot: nat, off: bool)
    requires size > 0 && (off <==> Misfires(va, pa, size, GIGA))
    ensures Landed(m, m, root, va, pa, size, prot, Edge(va, size, GIGA, va, size, off))
    ensures OnCourse(va, pa, size, GIGA, va, size, off)
  {
    hide Landed;
    LandedNothing(m, root, va, pa, size, prot);
  }

  /** A round over first-level entries takes the landing on, on failure as far as its block has been done. */
  lemma BlockLands(m0: Memory, m1: Memory, m2: Memory, root: nat, va: nat, pa: nat, size: nat, prot: nat,
                   cur: nat, p: nat, left: nat, id: nat, off: bool, wrong: nat, err: Err, part: nat, done: nat)
    requires Making(m0, m1, root, GIGA, va, pa, size, prot, cur, p, left, id, off, wrong) && (left > 0 || off)
    requires OnCourse(va, pa, size, GIGA, cur, left, off) && LeafProt(prot) && size > 0 && cur + left > 0
    requires Landed(m0, m1, root, va, pa, size, prot, Edge(va, size, GIGA, cur, left, off))
    requires part == if Takes(cur, p, left, GIGA) then GIGA else Chunk(cur, left, GIGA)
    requires Keeps(m1, m2, root, BlockStart(cur, GIGA), BlockStart(cur, GIGA) + GIGA)
    requires if Takes(cur, p, left, GIGA) then err == Ok && Misplaced(m2, root, cur, p, prot, GIGA)
             else
               && MiddleLanded(m1, m2, root, cur, p, Chunk(cur, left, GIGA), prot,
                               if err == Ok then SPACE else BlockStart(cur + done, MEGA))
               && BlockStart(cur + done, MEGA) <= BlockStart(cur, GIGA) + GIGA
    ensures err != Ok ==> Landed(m0, m2, root, va, pa, size, prot, BlockStart(cur + done, MEGA))
    ensures part <= left
    ensures err == Ok ==> var off' := off && Takes(cur, p, left, GIGA);
                          && OnCourse(va, pa, size, GIGA, cur + part, left - part, off')
                          && Landed(m0, m2, root, va, pa, size, prot,
                                    Edge(va, size, GIGA, cur + part, left - part, off'))
  {
    hide MiddleLanded, Landed, Misplaced, Keeps, TopRoundLands, LeafProt, Resolve, Chunk, BlockStart, Made;
    EdgeHere(va, size, GIGA, cur, left, off);
    DueNext(va, pa, size, GIGA, cur, p, left, id, off);
    WholeChunk(va, pa, size, GIGA, cur, p, left, id, off);
    EdgeNext(va, size, GIGA, cur, left, id, off, part, off && Takes(cur, p, left, GIGA));
    ghost var edge := if err == Ok then BlockStart(cur, GIGA) + GIGA else BlockStart(cur + done, MEGA);
    StartsOn(cur, done);
    if Takes(cur, p, left, GIGA) {
      SuperLands(m1, m2, root, cur, p, prot, GIGA);
      TopTakenRoundLands(m1, m2, root, va, pa, size, prot, cur, p, left, id, off);
    } else {
      TopPartRoundLands(m1, m2, root, va, pa, size, prot, cur, p, left, id, off,
                        if err == Ok then SPACE else BlockStart(cur + done, MEGA), edge);
    }
    LandedOn(m0, m1, m2, root, va, pa, size, prot, cur, edge);
  }

  lemma StartsOn(cur: nat, done: nat)
    ensures BlockStart(cur, GIGA) <= BlockStart(cur + done, MEGA)
  {
  }

  lemma TopLandsLast(m0: Memory, m: Memory, root: nat, va: nat, pa: nat, size: nat, prot: nat,
                     cur: nat, p: nat, left: nat, id: nat, off: bool, wrong: nat)
    requires Making(m0, m, root, GIGA, va, pa, size, prot, cur, p, left, id, off, wrong) && id > I1(va + size - 1)
    requires size > 0 && Landed(m0, m, root, va, pa, size, prot, Edge(va, size, GIGA, cur, left, off))
    ensures Landed(m0, m, root, va, pa, size, prot, SPACE)
  {
    RoundGuard(va, size, GIGA, cur, left, id, off);
    InBlock(va + size - 1, va + size - 1, GIGA);
    hide Landed, Keeps, Made;
    AllLanded(m0, m, root, va, pa, size, prot, BlockStart(va + size - 1, GIGA) + GIGA);
  }

  /** What a superpage for a block does to each address. */
  lemma SuperLands(m1: Memory, m2: Memory, root: nat, cur: nat, p: nat, prot: nat, reach: nat)
    requires Reach(reach) && p % reach == 0 && LeafProt(prot) && Misplaced(m2, root, cur, p, prot, reach)
    requires Keeps(m1, m2, root, BlockStart(cur, reach), BlockStart(cur, reach) + reach)
    ensures forall x: nat :: x < SPACE && x / reach == cur / reach ==>
              Translate(m2, root, x) == Mapped(p + (x - BlockStart(cur, reach)), prot)
    ensures forall x: nat :: x < SPACE && x / reach != cur / reach ==> Resolve(m2, root, x) == Resolve(m1, root, x)
  {
    SuperEntry(p, prot, reach);
    hide Resolve;
    forall x: nat | x < SPACE
      ensures x / reach == cur / reach ==> Translate(m2, root, x) == Mapped(p + (x - BlockStart(cur, reach)), prot)
      ensures x / reach != cur / reach ==> Resolve(m2, root, x) == Resolve(m1, root, x)
    {
      InBlock(cur, x, reach);
      if x / reach == cur / reach {
        SameBlockStart(cur, x, reach);
      }
    }
  }

  lemma SameBlockStart(a: nat, b: nat, reach: nat)
    requires Reach(reach) && a / reach == b / reach
    ensures BlockStart(a, reach) == BlockStart(b, reach)
  {
    StartOfBlock(a, reach);
    StartOfBlock(b, reach);
    SameStart(BlockStart(a, reach), BlockStart(b, reach), reach);
  }

  lemma OnPage(pa: nat, cur: nat, va: nat)
    requires pa % PAGE == 0 && cur % PAGE == 0 && va % PAGE == 0
    ensures (pa + (cur - va)) % PAGE == 0
  {
  }

  /** On a 1 GiB boundary the second-level test finds block boundaries only. */
  lemma NoneBelow(cur: nat)
    ensures cur % GIGA == 0 ==> forall p, l :: !Misfires(cur, p, l, MEGA)
  {
  }

  /** Either the range has its target, or its first address does not. */
  lemma CreatedExactly(m0: Memory, m: Memory, root: nat, va: nat, pa: nat, size: nat, prot: nat)
    requires Asked(va, pa, size, prot)
    requires var reach := Wrong(va, pa, size);
             if reach == 0 then Maps(m0, m, root, va, va + size, To(pa, prot))
             else Misplaced(m, root, va, pa, prot, reach)
    ensures Maps(m0, m, root, va, va + size, To(pa, prot)) <==> CanMap(va, pa, size, prot)
    ensures !CanMap(va, pa, size, prot) ==>
              var reach := Wrong(va, pa, size);
              && va % reach != 0
              && forall x: nat :: x < SPACE && x / reach == va / reach ==>
                   Translate(m, root, x) == Mapped(pa + x % reach, prot)
  {
    var reach := Wrong(va, pa, size);
    if reach != 0 {
      WrongReach(va, pa, size);
      SuperEntry(pa, prot, reach);
      forall x: nat | x < SPACE && x / reach == va / reach
        ensures Translate(m, root, x) == Mapped(pa + x % reach, prot)
      {
      }
      assert !MapsAt(m0, m, root, va, va + size, To(pa, prot), va);
    }
    hide Wrong, Resolve;
  }

  lemma WrongReach(va: nat, pa: nat, size: nat)
    requires size > 0
    ensures var reach := Wrong(va, pa, size); reach != 0 ==> Reach(reach) && pa % reach == 0 && va % reach != 0
  {
    hide Chunk;
  }

  /** What a round over first-level entries may rely on. */
  lemma BlockHere(cur: nat, p: nat, left: nat, prot: nat)
    requires cur + left > 0
    ensures Misfires(cur, p, left, GIGA) ==> Wrong(cur, p, left) == GIGA && cur % GIGA != 0
    ensures !Misfires(cur, p, left, GIGA) && Takes(cur, p, left, GIGA) ==> Wrong(cur, p, left) == 0 && cur % GIGA == 0
    ensures !Takes(cur, p, left, GIGA) ==>
              Wrong(cur, p, left) == if Misfires(cur, p, Chunk(cur, left, GIGA), MEGA) then MEGA else 0
  {
    NoneBelow(cur);
    hide Chunk;
  }

  lemma KeepsWider(m0: Memory, m: Memory, root: nat, lo: nat, hi: nat, lower: nat, higher: nat)
    requires Keeps(m0, m, root, lo, hi) && lower <= lo && hi <= higher
    ensures Keeps(m0, m, root, lower, higher)
  {
    hide Resolve;
  }

  // ---------------------------------------------------------------- removing: one round

  /** A null entry written at the second level clears one 2 MiB block. */
  lemma NullMiddle(m: Memory, root: nat, role: map<nat, Role>, va: nat, t: nat)
    requires Shaped(m, root, role) && Middling(m, root, va, t) && va < SPACE
    ensures t in m && I2(va) < |m[t]| && t != root
    ensures var m' := Put(m, t, I2(va), NULL_ENTRY);
            && Shaped(m', root, role) && root in m && root in m' && m'[root] == m[root]
            && Swept(m, m', root, Straight(BlockStart(va, MEGA)), BlockStart(va, MEGA) + MEGA)
            && OnlyAt(m, m', t, I2(va))
  {
    var b := BlockStart(va, MEGA);
    StartOfBlock(va, MEGA);
    SameIndices(b, va);
    PathRoles(m, root, role, va);
    StepMiddle(m, root, role, b, t, Away);
    StraightSweep(m, Put(m, t, I2(va), NULL_ENTRY), root, b, b + MEGA);
    hide Resolve, Maps, Swept;
  }

  lemma NullTop(m: Memory, root: nat, role: map<nat, Role>, va: nat)
    requires Shaped(m, root, role) && va < SPACE
    ensures root in m && I1(va) < |m[root]|
    ensures var m' := Put(m, root, I1(va), NULL_ENTRY);
            && Shaped(m', root, role)
            && Swept(m, m', root, Straight(BlockStart(va, GIGA)), BlockStart(va, GIGA) + GIGA)
            && OnlyAt(m, m', root, I1(va))
  {
    var b := BlockStart(va, GIGA);
    StartOfBlock(va, GIGA);
    SameIndices(b, va);
    StepTop(m, root, role, b, Away);
    StraightSweep(m, Put(m, root, I1(va), NULL_ENTRY), root, b, b + GIGA);
    hide Resolve, Maps, Swept;
  }

  /** A stretch of a block whose addresses all resolve to nothing is swept as it stands. */
  lemma NothingThere(m: Memory, root: nat, va: nat, part: nat, reach: nat, lo: nat)
    requires Reach(reach) && Within(va, part, reach) && (lo == va || lo == BlockStart(va, reach))
    requires forall x: nat :: x < SPACE && x / reach == va / reach ==> Resolve(m, root, x) == Nothing
    ensures Swept(m, m, root, Straight(lo), va + part)
  {
    var end := va + part;
    InBlock(va, end - 1, reach);
    forall x: nat | x < SPACE
      ensures SweptAt(m, m, root, Straight(lo), end, x)
    {
      InBlock(va, x, reach);
      hide Resolve, Reach, Within;
    }
    hide Resolve, Swept;
  }

  lemma SkipMiddle(m: Memory, root: nat, va: nat, t: nat, part: nat, lo: nat)
    requires Middling(m, root, va, t) && Get(m, t, I2(va)).IsNull()
    requires Within(va, part, MEGA) && (lo == va || lo == BlockStart(va, MEGA))
    ensures Swept(m, m, root, Straight(lo), va + part)
  {
    forall x: nat | x < SPACE && x / MEGA == va / MEGA
      ensures Resolve(m, root, x) == Nothing
    {
      SameIndices(x, va);
    }
    NothingThere(m, root, va, part, MEGA, lo);
  }

  lemma SkipTop(m: Memory, root: nat, va: nat, part: nat, lo: nat)
    requires Get(m, root, I1(va)).IsNull()
    requires Within(va, part, GIGA) && (lo == va || lo == BlockStart(va, GIGA))
    ensures Swept(m, m, root, Straight(lo), va + part)
  {
    forall x: nat | x < SPACE && x / GIGA == va / GIGA
      ensures Resolve(m, root, x) == Nothing
    {
      SameIndices(x, va);
    }
    NothingThere(m, root, va, part, GIGA, lo);
  }

  // ---------------------------------------------------------------- removing: all rounds

  /** What one round over the entries of a table sweeps when it does not go through a table below. */
  function RoundSweep(cur: nat, reach: nat, astray: bool): Sweep
    requires reach > 0
  {
    Straight(if astray then BlockStart(cur, reach) else cur)
  }

  /** Where it ends. */
  function RoundEnd(cur: nat, left: nat, reach: nat, astray: bool, e: Entry): nat
    requires reach > 0 && cur + left > 0
  {
    if !Grabs(cur, left, reach, e) then cur + Chunk(cur, left, reach)
    else (if astray then BlockStart(cur, reach) else cur) + reach
  }

  /** A round over second-level entries takes the sweep of its table further. */
  lemma MiddleRound(m0: Memory, m: Memory, root: nat, t: nat, va: nat, size: nat,
                    cur: nat, left: nat, id: nat, off: bool, edge: nat, s: Sweep, next: Sweep, hi: nat)
    requires Clearing(m0, m, root, s, MEGA, t, va, size, cur, left, id, off, edge) && s == MiddleSweep(m0, t, va, size)
    requires (left > 0 || off) && id == I2(cur) && cur + left > 0
    requires var e := Get(m, t, id);
             var astray := off && size > 0 && !e.IsTable();
             next == RoundSweep(cur, MEGA, astray) && hi == RoundEnd(cur, left, MEGA, astray, e)
    ensures forall x: nat :: Clears(s, hi, x) <==> Clears(s, edge, x) || Clears(next, hi, x)
    ensures var e := Get(m, t, id);
            && s.from <= hi && (Grabs(cur, left, MEGA, e) && off ==> hi == BlockStart(cur, MEGA) + MEGA)
            && (!(off && Grabs(cur, left, MEGA, e)) ==>
                  && PastGaps(s, hi)
                  && hi == cur + (if Grabs(cur, left, MEGA, e) then MEGA else Chunk(cur, left, MEGA)))
  {
    RoundBeyond(va, size, MEGA, cur, left, id, off);
    var e := Get(m, t, id);
    if off && size > 0 {
      FirstTableOffset(m0, t, cur, left, MEGA);
      assert e == Get(m0, t, Index(cur, MEGA));
      hide Round, Swept, Get, Index, I2;
      if e.IsTable() {
        ClearsAfterGap(s, cur, cur + Chunk(cur, left, MEGA));
      } else if Grabs(cur, left, MEGA, e) {
        FirstTableOffset(m0, t, cur + MEGA, left - MEGA, MEGA);
        ClearsBefore(s, edge, edge + MEGA);
      } else {
        ClearsBefore(s, edge, cur + Chunk(cur, left, MEGA));
      }
    } else {
      assert edge == cur && PastGaps(s, cur);
      hide Round, Swept, Get, Index, I2;
      ClearsOn(s, cur, RoundEnd(cur, left, MEGA, false, e));
    }
  }

  /** Where the loop over second-level entries starts. */
  lemma MiddleSweepBegins(m: Memory, root: nat, t: nat, va: nat, size: nat)
    requires Within(va, size, GIGA)
    ensures var off := Astray(va, size, MEGA, Get(m, t, I2(va))) || (size == 0 && va % MEGA != 0);
            var s := MiddleSweep(m, t, va, size);
            Clearing(m, m, root, s, MEGA, t, va, size, va, size, I2(va), off, s.from)
    ensures size > 0 || MiddleSweep(m, t, va, size) == Straight(va)
    ensures va + size > 0
  {
    var off := Astray(va, size, MEGA, Get(m, t, I2(va))) || (size == 0 && va % MEGA != 0);
    RoundsBegin(va, size, MEGA, off);
    ClearingBegins(m, root, MiddleSweep(m, t, va, size), MEGA, t, va, size, off);
    hide Clearing, Round, Within, Get;
  }

  /** What a round over second-level entries may rely on. */
  lemma MiddleHere(m0: Memory, m: Memory, root: nat, t: nat, va: nat, size: nat,
                   cur: nat, left: nat, id: nat, off: bool, edge: nat)
    requires Clearing(m0, m, root, MiddleSweep(m0, t, va, size), MEGA, t, va, size, cur, left, id, off, edge)
    requires id <= I2(va + size - 1) && Middling(m, root, va, t) && Within(va, size, GIGA)
    ensures va <= cur && cur + left == va + size && (left > 0 || off) && id == I2(cur) && cur + left > 0
    ensures Middling(m, root, cur, t) && Within(cur, Chunk(cur, left, MEGA), MEGA)
    ensures var e := Get(m, t, id);
            Grabs(cur, left, MEGA, e) ==> (off && size > 0) || BlockStart(cur, MEGA) == cur
    ensures off && size > 0 ==> Astray(va, size, MEGA, Get(m0, t, I2(va)))
    ensures off && size > 0 && cur == va ==> Astray(cur, left, MEGA, Get(m, t, id))
    ensures off && cur > va ==> va + MEGA <= cur
    ensures !Astray(va, size, MEGA, Get(m0, t, I2(va))) && left > 0 ==> !off && (cur == va || cur % MEGA == 0)
    ensures !Astray(va, size, MEGA, Get(m0, t, I2(va))) && size > 0 ==> edge == cur
  {
    ClearingHere(m0, m, root, MiddleSweep(m0, t, va, size), MEGA, t, va, size, cur, left, id, off, edge);
    SameGiga(m, root, va, cur, t);
    hide Within, Middling, Chunk, Get, Swept, FirstTable, Index, I2;
  }

  lemma MiddleDone(m0: Memory, m: Memory, root: nat, t: nat, va: nat, size: nat)
    requires Swept(m0, m, root, MiddleSweep(m0, t, va, size), va + size)
    ensures OnlyClears(m0, m, root)
    ensures !Astray(va, size, MEGA, Get(m0, t, I2(va))) ==> Maps(m0, m, root, va, va + size, Away)
  {
    SweptOnlyClears(m0, m, root, MiddleSweep(m0, t, va, size), va + size);
    StraightSweep(m0, m, root, va, va + size);
    hide Swept, Maps, OnlyClears, Get, I2;
  }

  /** The loop over second-level entries stops at a superpage it may not clear. */
  lemma MiddleStops(m0: Memory, m: Memory, root: nat, t: nat, va: nat, size: nat,
                    cur: nat, left: nat, id: nat, off: bool, edge: nat, lo: nat, hi: nat)
    requires Clearing(m0, m, root, MiddleSweep(m0, t, va, size), MEGA, t, va, size, cur, left, id, off, edge)
    requires id <= I2(va + size - 1) && Middling(m, root, va, t) && Within(va, size, GIGA)
    requires !Grabs(cur, left, MEGA, Get(m, t, id)) && !Get(m, t, id).IsTable()
    requires Resolve(m, root, cur).Leaf? && Resolve(m, root, cur).reach == MEGA
    ensures OnlyClears(m0, m, root)
    ensures !Astray(va, size, MEGA, Get(m0, t, I2(va))) && size > 0 ==>
              && cur < va + size && Maps(m0, m, root, va, cur, Away)
              && !(CutFrom(va, size, lo, hi, MEGA) && AllInside(m0, root, lo, hi))
    ensures Astray(va, size, MEGA, Get(m0, t, I2(va))) ==> va + MEGA <= cur
  {
    MiddleHere(m0, m, root, t, va, size, cur, left, id, off, edge);
    SweptOnlyClears(m0, m, root, MiddleSweep(m0, t, va, size), edge);
    if !Astray(va, size, MEGA, Get(m0, t, I2(va))) && size > 0 {
      StraightSweep(m0, m, root, va, cur);
      hide Get, Resolve, Swept, Maps, AllInside, Round, Within, Chunk, I2;
      if CutFrom(va, size, lo, hi, MEGA) {
        BlockedMega(m0, m, root, lo, va, size, cur, left, hi);
      }
    }
    hide Get, Resolve, Swept, Maps, AllInside, Round, Within, Chunk, I2;
  }

  /** The sweep up to the block where the loop stops. */
  lemma MiddleSweptUpTo(m0: Memory, m: Memory, root: nat, t: nat, va: nat, size: nat,
                        cur: nat, left: nat, id: nat, off: bool, edge: nat, s: Sweep, next: Sweep, end: nat,
                        astray: bool, e: Entry)
    requires Clearing(m0, m, root, s, MEGA, t, va, size, cur, left, id, off, edge) && (left > 0 || off)
    requires cur + left > 0 && !Grabs(cur, left, MEGA, e)
    requires next == RoundSweep(cur, MEGA, astray) && end == RoundEnd(cur, left, MEGA, astray, e)
    requires forall x: nat :: Clears(s, end, x) <==> Clears(s, edge, x) || Clears(next, end, x)
    ensures Swept(m0, m, root, s, BlockStart(cur, MEGA))
  {
    hide Clearing, Swept, Clears;
    EdgeBehind(m0, m, root, s, MEGA, t, va, size, cur, left, id, off, edge);
    SweptNone(m, root, next, BlockStart(cur, MEGA));
    SweptUpTo(m0, m, m, root, s, edge, next, end, BlockStart(cur, MEGA));
  }

  lemma TopSweptUpTo(m0: Memory, m1: Memory, m2: Memory, root: nat, va: nat, size: nat,
                     cur: nat, left: nat, id: nat, off: bool, edge: nat, s: Sweep, next: Sweep, end: nat, hi: nat)
    requires Clearing(m0, m1, root, s, GIGA, root, va, size, cur, left, id, off, edge) && (left > 0 || off)
    requires Swept(m1, m2, root, next, hi) && BlockStart(cur, GIGA) <= hi <= end
    requires forall x: nat :: Clears(s, end, x) <==> Clears(s, edge, x) || Clears(next, end, x)
    ensures Swept(m0, m2, root, s, hi)
  {
    hide Clearing, Swept, Clears;
    EdgeBehind(m0, m1, root, s, GIGA, root, va, size, cur, left, id, off, edge);
    SweptUpTo(m0, m1, m2, root, s, edge, next, end, hi);
  }

  /** A removal that goes straight through the range. */
  predicate CanRemove(m: Memory, root: nat, va: nat, size: nat) {
    && PageRange(va, size)
    && var e := Get(m, root, I1(va));
       && !Astray(va, size, GIGA, e)
       && (e.IsTable() ==> !Astray(va, Chunk(va, size, GIGA), MEGA, Get(m, e.ppn, I2(va))))
  }

  // ---------------------------------------------------------------- when removal cannot fail

  /** Every leaf that serves the stretch lies inside it. */
  ghost predicate AllInside(m: Memory, root: nat, lo: nat, hi: nat) {
    forall x: nat :: lo <= x < hi && x < SPACE ==> LeafInside(Resolve(m, root, x), x, lo, hi)
  }

  /** A superpage inside the stretch, met at a block boundary or at the start, starts there and ends in time. */
  lemma WholeLeaf(m0: Memory, m: Memory, root: nat, lo: nat, va: nat, cur: nat, end: nat, hi: nat, reach: nat)
    requires Maps(m0, m, root, va, cur, Away) && (reach == MEGA || reach == GIGA)
    requires Resolve(m, root, cur).Leaf? && Resolve(m, root, cur).reach == reach
    requires lo <= va <= cur < end <= hi && hi <= SPACE
    requires (cur == lo || cur % reach == 0) && (end == hi || end % reach == 0)
    ensures AllInside(m0, root, lo, hi) ==> cur % reach == 0 && cur >= reach && cur + reach <= end
  {
    if AllInside(m0, root, lo, hi) {
      assert MapsAt(m0, m, root, va, cur, Away, cur);
      assert LeafInside(Resolve(m0, root, cur), cur, lo, hi);
    }
  }

  lemma InsideKept(m0: Memory, m: Memory, root: nat, va: nat, cur: nat, hi: nat)
    requires AllInside(m0, root, va, hi) && Maps(m0, m, root, va, cur, Away) && va <= cur <= hi
    ensures AllInside(m, root, va, hi)
  {
    forall x: nat | va <= x < hi && x < SPACE
      ensures LeafInside(Resolve(m, root, x), x, va, hi)
    {
      assert MapsAt(m0, m, root, va, cur, Away, x);
    }
  }

  /** The stretch va .. va + size is all of lo .. hi, or is cut off at block boundaries. */
  predicate CutFrom(va: nat, size: nat, lo: nat, hi: nat, reach: nat)
    requires reach > 0
  {
    && lo <= va && va + size <= hi <= SPACE
    && (va == lo || va % reach == 0) && (va + size == hi || (va + size) % reach == 0)
  }

  lemma BlockedMega(m0: Memory, m: Memory, root: nat, lo: nat, va: nat, size: nat, cur: nat, left: nat, hi: nat)
    requires Maps(m0, m, root, va, cur, Away) && CutFrom(va, size, lo, hi, MEGA)
    requires Resolve(m, root, cur).Leaf? && Resolve(m, root, cur).reach == MEGA
    requires va <= cur && cur + left == va + size && left > 0 && (cur == va || cur % MEGA == 0)
    ensures AllInside(m0, root, lo, hi) ==> cur >= MEGA && left >= MEGA
  {
    WholeLeaf(m0, m, root, lo, va, cur, va + size, hi, MEGA);
  }

  // ---------------------------------------------------------------- removing at the first level

  /** What one round over first-level entries sweeps. */
  function TopRoundSweep(m: Memory, root: nat, cur: nat, left: nat, astray: bool): Sweep
    requires cur + left > 0
  {
    var e := Get(m, root, I1(cur));
    if e.IsTable() then MiddleSweep(m, e.ppn, cur, Chunk(cur, left, GIGA)) else RoundSweep(cur, GIGA, astray)
  }

  /** A second-level sweep reads its own table only. */
  lemma {:induction false} SameFirstTable(m: Memory, m': Memory, t: nat, cur: nat, left: nat, reach: nat)
    requires reach > 0 && forall j: nat :: Get(m', t, j) == Get(m, t, j)
    ensures FirstTable(m', t, cur, left, reach) == FirstTable(m, t, cur, left, reach)
    decreases left
  {
    if Get(m, t, Index(cur, reach)).IsTable() || left < reach {
    } else {
      SameFirstTable(m, m', t, cur + reach, left - reach, reach);
    }
  }

  lemma SameMiddleSweep(m: Memory, m': Memory, t: nat, va: nat, size: nat)
    requires forall j: nat :: Get(m', t, j) == Get(m, t, j)
    ensures MiddleSweep(m', t, va, size) == MiddleSweep(m, t, va, size)
  {
    SameFirstTable(m, m', t, va, size, MEGA);
    hide FirstTable, Get;
  }

  /** What the first-level sweep leaves lies in the block of the first table met. */
  lemma TopGaps(m: Memory, root: nat, va: nat, size: nat)
    requires size > 0 && Astray(va, size, GIGA, Get(m, root, I1(va)))
    ensures var s, met := SweepOf(m, root, va, size), FirstTable(m, root, va, size, GIGA);
            && s.from == BlockStart(va, GIGA)
            && (met.NoTable? ==> s == Straight(s.from))
            && (met.Table? ==> s.gap == BlockStart(met.at, GIGA) && (s.gap2 < s.resume2 ==> s.gap < s.gap2))
  {
    var met := FirstTable(m, root, va, size, GIGA);
    if met.Table? {
      MiddleOrderly(m, Get(m, root, I1(met.at)).ppn, met.at, Chunk(met.at, met.left, GIGA));
    }
    hide Get, Chunk, FirstTable, MiddleSweep;
  }

  /** The first table met off the boundaries: the sweep goes on below it. */
  lemma TopRoundTable(m0: Memory, m: Memory, root: nat, va: nat, size: nat, cur: nat, left: nat,
                      edge: nat, s: Sweep, next: Sweep)
    requires size > 0 && Astray(va, size, GIGA, Get(m0, root, I1(va))) && s == SweepOf(m0, root, va, size)
    requires FirstTable(m0, root, va, size, GIGA) == FirstTable(m0, root, cur, left, GIGA) && cur + left > 0
    requires var e := Get(m0, root, I1(cur));
             e.IsTable() && e == Get(m, root, I1(cur)) && forall j: nat :: Get(m, e.ppn, j) == Get(m0, e.ppn, j)
    requires next == TopRoundSweep(m, root, cur, left, false) && edge == BlockStart(cur, GIGA) && s.from <= edge
    ensures var hi := cur + Chunk(cur, left, GIGA);
            PastGaps(s, hi) && forall x: nat :: Clears(s, hi, x) <==> Clears(s, edge, x) || Clears(next, hi, x)
  {
    var t := Get(m0, root, I1(cur)).ppn;
    SameMiddleSweep(m0, m, t, cur, Chunk(cur, left, GIGA));
    MiddleOrderly(m0, t, cur, Chunk(cur, left, GIGA));
    assert FirstTable(m0, root, cur, left, GIGA) == Table(cur, left);
    hide Get, Chunk, FirstTable, MiddleSweep;
  }

  /** A round on a boundary, or at the start. */
  lemma TopRoundStraight(m0: Memory, m: Memory, root: nat, va: nat, size: nat, cur: nat, left: nat, id: nat,
                         edge: nat, s: Sweep, next: Sweep)
    requires size > 0 && Clearing(m0, m, root, s, GIGA, root, va, size, cur, left, id, false, edge)
    requires s == SweepOf(m0, root, va, size) && left > 0 && cur + left > 0
    requires next == TopRoundSweep(m, root, cur, left, false)
    ensures var hi := RoundEnd(cur, left, GIGA, false, Get(m, root, I1(cur)));
            && PastGaps(s, hi) && s.from <= hi
            && forall x: nat :: Clears(s, hi, x) <==> Clears(s, edge, x) || Clears(next, hi, x)
  {
    var t, c := Get(m, root, I1(cur)).ppn, Chunk(cur, left, GIGA);
    var hi := RoundEnd(cur, left, GIGA, false, Get(m, root, I1(cur)));
    MiddleOrderly(m, t, cur, c);
    hide Swept, FirstTable, MiddleSweep, Chunk, Get;
    if cur > va {
      ClearsOn(s, cur, hi);
    }
  }

  /** A round over first-level entries takes the sweep of the range further. */
  lemma TopRound(m0: Memory, m: Memory, root: nat, role: map<nat, Role>, va: nat, size: nat,
                 cur: nat, left: nat, id: nat, off: bool, edge: nat, s: Sweep, next: Sweep, hi: nat)
    requires size > 0 && Clearing(m0, m, root, s, GIGA, root, va, size, cur, left, id, off, edge)
    requires s == SweepOf(m0, root, va, size) && Shaped(m, root, role)
    requires (left > 0 || off) && id == I1(cur) && cur + left > 0
    requires var e := Get(m, root, id);
             var astray := off && !e.IsTable();
             next == TopRoundSweep(m, root, cur, left, astray) && hi == RoundEnd(cur, left, GIGA, astray, e)
    ensures forall x: nat :: Clears(s, hi, x) <==> Clears(s, edge, x) || Clears(next, hi, x)
    ensures var e := Get(m, root, id);
            && s.from <= hi && (Grabs(cur, left, GIGA, e) && off ==> hi == BlockStart(cur, GIGA) + GIGA)
            && (!(off && Grabs(cur, left, GIGA, e)) ==>
                  && PastGaps(s, hi)
                  && hi == cur + (if Grabs(cur, left, GIGA, e) then GIGA else Chunk(cur, left, GIGA)))
  {
    RoundBeyond(va, size, GIGA, cur, left, id, off);
    var e := Get(m, root, id);
    if off {
      FirstTableOffset(m0, root, cur, left, GIGA);
      assert e == Get(m0, root, Index(cur, GIGA));
      if e.IsTable() {
        PathRoles(m, root, role, cur);
        TopRoundTable(m0, m, root, va, size, cur, left, edge, s, next);
      } else if Grabs(cur, left, GIGA, e) {
        FirstTableOffset(m0, root, cur + GIGA, left - GIGA, GIGA);
        TopGaps(m0, root, va, size);
        ClearsBefore(s, edge, edge + GIGA);
      } else {
        ClearsBefore(s, edge, cur + Chunk(cur, left, GIGA));
      }
    } else {
      TopRoundStraight(m0, m, root, va, size, cur, left, id, edge, s, next);
    }
  }

  lemma MegaAligned(x: nat)
    ensures x % GIGA == 0 ==> x % MEGA == 0
  {
  }

  lemma CutChunk(va: nat, size: nat, cur: nat, left: nat, c: nat)
    requires va <= cur && cur + left == va + size && va + size <= SPACE && c <= left
    requires (cur == va || cur % GIGA == 0) && (c < left ==> (cur + c) % GIGA == 0)
    ensures CutFrom(cur, c, va, va + size, MEGA)
  {
    MegaAligned(cur);
    MegaAligned(cur + c);
  }

  lemma BlockedAtTop(m0: Memory, m: Memory, root: nat, va: nat, cur: nat, end: nat)
    requires va <= cur < end <= SPACE && (cur == va || cur % GIGA == 0)
    requires Maps(m0, m, root, va, cur, Away)
    ensures AllInside(m0, root, va, end) && Resolve(m, root, cur).Leaf? && Resolve(m, root, cur).reach == GIGA ==>
              cur >= GIGA && cur + GIGA <= end
  {
    if Resolve(m, root, cur).Leaf? && Resolve(m, root, cur).reach == GIGA {
      WholeLeaf(m0, m, root, va, va, cur, end, end, GIGA);
    }
  }

  lemma TopSweepBegins(m: Memory, root: nat, va: nat, size: nat)
    requires PageRange(va, size)
    ensures size > 0 && va + size <= SPACE
    ensures var off := Astray(va, size, GIGA, Get(m, root, I1(va)));
            var s := SweepOf(m, root, va, size);
            Clearing(m, m, root, s, GIGA, root, va, size, va, size, I1(va), off, s.from)
  {
    var off := Astray(va, size, GIGA, Get(m, root, I1(va)));
    TopRoundsBegin(va, size, off);
    if off {
      TopGaps(m, root, va, size);
    }
    ClearingBegins(m, root, SweepOf(m, root, va, size), GIGA, root, va, size, off);
    hide Clearing, Round, Get, SweepOf;
  }

  /** What a round over first-level entries may rely on. */
  lemma EndOf(cur: nat, left: nat, astray: bool, e: Entry)
    requires cur + left > 0 && !Grabs(cur, left, GIGA, e)
    ensures RoundEnd(cur, left, GIGA, astray, e) == cur + Chunk(cur, left, GIGA)
  {
    hide Chunk;
  }

  lemma TopHere(m0: Memory, m: Memory, root: nat, s: Sweep, va: nat, size: nat,
                cur: nat, left: nat, id: nat, off: bool, edge: nat)
    requires size > 0 && Clearing(m0, m, root, s, GIGA, root, va, size, cur, left, id, off, edge)
    requires id <= I1(va + size - 1)
    ensures va <= cur && cur + left == va + size && (left > 0 || off) && id == I1(cur) && cur + left > 0
    ensures Within(cur, Chunk(cur, left, GIGA), GIGA) && Chunk(cur, left, GIGA) <= left
    ensures Grabs(cur, left, GIGA, Get(m, root, id)) ==> off || BlockStart(cur, GIGA) == cur
  {
    ClearingHere(m0, m, root, s, GIGA, root, va, size, cur, left, id, off, edge);
    hide Within, Chunk, Get, Swept, FirstTable, Index;
  }

  /** How a round over first-level entries stops, from m0 to m. */
  ghost predicate Stopped(m0: Memory, m: Memory, root: nat, cur: nat, part: nat, done: nat, lo: nat, hi: nat) {
    var e := Get(m0, root, I1(cur));
    if !e.IsTable() then
      m == m0 && done == 0 && Resolve(m, root, cur).Leaf? && Resolve(m, root, cur).reach == GIGA
    else if Astray(cur, part, MEGA, Get(m0, e.ppn, I2(cur))) then
      done >= MEGA
    else part > 0 ==>
      && done < part && Maps(m0, m, root, cur, cur + done, Away)
      && !(CutFrom(cur, part, lo, hi, MEGA) && AllInside(m0, root, lo, hi))
  }

  lemma TopDone(m0: Memory, m: Memory, root: nat, va: nat, size: nat)
    requires PageRange(va, size) && Swept(m0, m, root, SweepOf(m0, root, va, size), va + size)
    ensures OnlyClears(m0, m, root)
    ensures Maps(m0, m, root, va, va + size, Away) <==> RemovesExactly(m0, root, va, size)
    ensures CanRemove(m0, root, va, size) ==> Maps(m0, m, root, va, va + size, Away)
  {
    var s := SweepOf(m0, root, va, size);
    SweptOnlyClears(m0, m, root, s, va + size);
    SweepOrderly(m0, root, va, size);
    SweptExactly(m0, m, root, s, va, va + size);
    if CanRemove(m0, root, va, size) {
      StraightWhenSteady(m0, root, va, size);
    }
    hide Swept, Maps, OnlyClears, Get, SweepOf, Translate;
  }

  lemma StraightWhenSteady(m: Memory, root: nat, va: nat, size: nat)
    requires CanRemove(m, root, va, size)
    ensures SweepOf(m, root, va, size) == Straight(va) && RemovesExactly(m, root, va, size)
  {
    hide Get, Chunk, FirstTable, Translate;
  }

  /** Past the first chunk a whole chunk lies behind. */
  lemma ChunkBehind(va: nat, size: nat, cur: nat)
    requires size > 0 && Within(va, Chunk(va, size, GIGA), GIGA) && va < cur && cur % GIGA == 0
    ensures va + Chunk(va, size, GIGA) <= cur
  {
    var c := Chunk(va, size, GIGA);
    InBlock(va, va + c - 1, GIGA);
    InBlock(va, cur, GIGA);
    hide Chunk;
  }

  /** The loop over first-level entries stops: what is done, and that a superpage reaches outside the range. */
  lemma TopStops(m0: Memory, m1: Memory, m2: Memory, root: nat, va: nat, size: nat,
                 cur: nat, left: nat, id: nat, off: bool, edge: nat, done: nat)
    requires PageRange(va, size) && Clearing(m0, m1, root, SweepOf(m0, root, va, size), GIGA, root, va, size,
                                             cur, left, id, off, edge)
    requires id <= I1(va + size - 1) && cur + left > 0 && done <= Chunk(cur, left, GIGA)
    requires !Grabs(cur, left, GIGA, Get(m1, root, id))
    requires Stopped(m1, m2, root, cur, Chunk(cur, left, GIGA), done, va, va + size)
    ensures CanRemove(m0, root, va, size) ==>
              && va <= cur && cur + done < va + size && Maps(m0, m2, root, va, cur + done, Away)
              && !AllInside(m0, root, va, va + size)
    ensures !CanRemove(m0, root, va, size) ==> va + MEGA <= cur + done
    ensures Astray(va, size, GIGA, Get(m0, root, I1(va))) ==> va + GIGA <= cur + done
  {
    var s := SweepOf(m0, root, va, size);
    TopHere(m0, m1, root, s, va, size, cur, left, id, off, edge);
    if CanRemove(m0, root, va, size) {
      TopStopsSteady(m0, m1, m2, root, va, size, cur, left, id, off, edge, done);
    } else {
      TopStopsAstray(m0, m1, m2, root, va, size, cur, left, id, off, edge, done);
    }
    hide CanRemove, Clearing, Stopped, Maps, AllInside, SweepOf, Chunk, Get, PageRange;
  }

  lemma TopStopsAstray(m0: Memory, m1: Memory, m2: Memory, root: nat, va: nat, size: nat,
                       cur: nat, left: nat, id: nat, off: bool, edge: nat, done: nat)
    requires PageRange(va, size) && !CanRemove(m0, root, va, size)
    requires Clearing(m0, m1, root, SweepOf(m0, root, va, size), GIGA, root, va, size, cur, left, id, off, edge)
    requires id == I1(cur) && (left > 0 || off) && va <= cur && cur + left == va + size
    requires !Grabs(cur, left, GIGA, Get(m1, root, id))
    requires Stopped(m1, m2, root, cur, Chunk(cur, left, GIGA), done, va, va + size)
    ensures va + MEGA <= cur + done
    ensures Astray(va, size, GIGA, Get(m0, root, I1(va))) ==> va + GIGA <= cur + done
  {
    var e := Get(m0, root, I1(va));
    if !Astray(va, size, GIGA, e) && cur > va {
      TopRoundsBegin(va, size, false);
      RoundWithin(va, size, GIGA, va, size, I1(va), false);
      ChunkBehind(va, size, cur);
    }
    hide Resolve, Swept, SweepOf, Maps, AllInside, Within, FirstTable;
  }

  lemma TopStopsSteady(m0: Memory, m1: Memory, m2: Memory, root: nat, va: nat, size: nat,
                       cur: nat, left: nat, id: nat, off: bool, edge: nat, done: nat)
    requires CanRemove(m0, root, va, size)
    requires Clearing(m0, m1, root, SweepOf(m0, root, va, size), GIGA, root, va, size, cur, left, id, off, edge)
    requires id == I1(cur) && (left > 0 || off) && va <= cur && cur + left == va + size
    requires Within(cur, Chunk(cur, left, GIGA), GIGA) && Chunk(cur, left, GIGA) <= left
    requires !Grabs(cur, left, GIGA, Get(m1, root, id))
    requires Stopped(m1, m2, root, cur, Chunk(cur, left, GIGA), done, va, va + size)
    ensures cur + done < va + size && Maps(m0, m2, root, va, cur + done, Away)
    ensures !AllInside(m0, root, va, va + size)
  {
    hide Resolve, Swept, SweepOf, Maps, AllInside, Within, FirstTable, Get, Chunk, Clearing, CanRemove;
    SteadyHere(m0, m1, root, va, size, cur, left, id, off, edge);
    BelowInside(m0, m1, root, va, size, cur, left);
    BlockedAtTop(m0, m1, root, va, cur, va + size);
    SteadyBelow(m0, m1, root, va, size, cur, left);
    var e := Get(m1, root, id);
    if e.IsTable() {
      MapsCompose(m0, m1, m2, root, va, cur, cur + done, Away);
    }
  }

  lemma SteadyHere(m0: Memory, m1: Memory, root: nat, va: nat, size: nat,
                   cur: nat, left: nat, id: nat, off: bool, edge: nat)
    requires CanRemove(m0, root, va, size)
    requires Clearing(m0, m1, root, SweepOf(m0, root, va, size), GIGA, root, va, size, cur, left, id, off, edge)
    requires left > 0 || off
    ensures left > 0 && (cur == va || cur % GIGA == 0) && (cur == va ==> m1 == m0 && left == size)
    ensures Chunk(cur, left, GIGA) > 0
    ensures va + size <= SPACE && Maps(m0, m1, root, va, cur, Away)
  {
    StraightWhenSteady(m0, root, va, size);
    StraightSweep(m0, m1, root, va, cur);
    RoundChunk(va, size, GIGA, cur, left, id, off);
    hide Resolve, Swept, SweepOf, Maps, FirstTable, Get, Chunk;
  }

  /** No round of a steady removal goes astray below. */
  lemma SteadyBelow(m0: Memory, m1: Memory, root: nat, va: nat, size: nat, cur: nat, left: nat)
    requires CanRemove(m0, root, va, size) && cur + left > 0 && left > 0
    requires cur == va || cur % GIGA == 0
    requires cur == va ==> m1 == m0 && left == size
    ensures var e := Get(m1, root, I1(cur));
            e.IsTable() ==> !Astray(cur, Chunk(cur, left, GIGA), MEGA, Get(m1, e.ppn, I2(cur)))
  {
    MegaAligned(cur);
    hide Chunk, Get;
  }

  lemma TopKept(m0: Memory, m1: Memory, m2: Memory, root: nat, s: Sweep, va: nat, size: nat,
                cur: nat, left: nat, id: nat, off: bool, edge: nat)
    requires size > 0 && Clearing(m0, m1, root, s, GIGA, root, va, size, cur, left, id, off, edge)
    requires OnlyClears(m1, m2, root)
    ensures OnlyClears(m0, m2, root)
  {
    SweptOnlyClears(m0, m1, root, s, edge);
    OnlyClearsOn(m0, m1, m2, root);
  }

  /** When the leaves of the range lie inside it, so they do for the part below one first-level entry. */
  lemma BelowInside(m0: Memory, m1: Memory, root: nat, va: nat, size: nat, cur: nat, left: nat)
    requires va <= cur && left > 0 && cur + left == va + size && va + size <= SPACE && (cur == va || cur % GIGA == 0)
    requires Maps(m0, m1, root, va, cur, Away) && Within(cur, Chunk(cur, left, GIGA), GIGA)
    requires Chunk(cur, left, GIGA) <= left
    ensures CutFrom(cur, Chunk(cur, left, GIGA), va, va + size, MEGA)
    ensures AllInside(m0, root, va, va + size) ==> AllInside(m1, root, va, va + size)
  {
    if AllInside(m0, root, va, va + size) {
      InsideKept(m0, m1, root, va, cur, va + size);
    }
    ChunkEnds(cur, left);
    CutChunk(va, size, cur, left, Chunk(cur, left, GIGA));
    hide AllInside, Maps, Chunk;
  }

  lemma ChunkEnds(cur: nat, left: nat)
    requires left > 0 && Within(cur, Chunk(cur, left, GIGA), GIGA) && Chunk(cur, left, GIGA) <= left
    ensures Chunk(cur, left, GIGA) < left ==> (cur + Chunk(cur, left, GIGA)) % GIGA == 0
  {
    ToBlockEnd(cur, GIGA);
  }

  class Vtable {
    const root: nat
    var mem: Memory
    var pool: seq<nat>   // the frames the page allocator will hand out
    ghost var role: map<nat, Role>

    ghost predicate Valid()
      reads this
    {
      && Shaped(mem, root, role)
      && (forall i :: 0 <= i < |pool| ==> pool[i] > 0 && pool[i] !in mem)
      && (forall i, j :: 0 <= i < j < |pool| ==> pool[i] != pool[j])
    }

    /** An empty address space in the given first-level table. */
    constructor (top: nat, frames: seq<nat>)
      requires top > 0 && (forall i :: 0 <= i < |frames| ==> frames[i] > 0 && frames[i] != top)
      requires forall i, j :: 0 <= i < j < |frames| ==> frames[i] != frames[j]
      ensures Valid() && root == top && pool == frames
      ensures forall x: nat :: Translate(mem, root, x) == Unmapped
    {
      root := top;
      mem := map[top := EmptyTable()];
      pool := frames;
      role := map[top := Top];
    }

    /** A fresh frame for a table, or 0. */
    method AllocTable() returns (t: nat)
      requires Valid()
      modifies this`pool
      ensures old(pool) == [] ==> t == 0 && pool == []
      ensures old(pool) != [] ==> t == old(pool)[0] && pool == old(pool)[1..]
    {
      if pool == [] {
        t := 0;
      } else {
        t := pool[0];
        pool := pool[1..];
      }
    }

    lemma ShapeHere(cur: nat, part: nat, reach: nat)
      requires Valid() && reach > 0 && Within(cur, part, reach)
      ensures Shaped(mem, root, role) && cur < SPACE
    {
    }

    /** Write an entry that fits. */
    method Write(t: nat, id: nat, e: Entry)
      requires Valid() && t in mem && id < |mem[t]| && Shaped(Put(mem, t, id, e), root, role)
      modifies this`mem
      ensures Valid() && t in old(mem) && id < |old(mem)[t]| && mem == Put(old(mem), t, id, e)
    {
      hide Shaped;
      mem := Put(mem, t, id, e);
    }

    /** Fill third-level entries for a range inside one 2 MiB block. */
    method CreateBottom(t: nat, va: nat, pa: nat, size: nat, prot: nat, ghost t2: nat)
      requires Valid() && Bottoming(mem, root, va, t2, t)
      requires Within(va, size, MEGA) && pa % PAGE == 0 && LeafProt(prot)
      modifies this`mem
      ensures Valid() && Shaped(mem, root, role) && Maps(old(mem), mem, root, va, va + size, To(pa, prot))
      ensures Elsewhere(old(mem), mem, t) && t in mem && t != root && t != t2
    {
      var id, idEnd := I3(va), I3(va + size - 1);
      var ppn: nat := pa / PAGE;
      ghost var cur: nat, left: nat := va, size;
      FillBegins(mem, root, role, va, size, To(pa, prot), t2, t);
      hide Filling, Shaped, Maps, Bottoming;
      while id <= idEnd
        invariant Filling(old(mem), mem, root, role, va, size, To(pa, prot), t2, t, cur, left, id)
        invariant cur >= va && ppn * PAGE == pa + (cur - va)
        decreases left
      {
        FillStep(old(mem), mem, root, role, va, size, To(pa, prot), t2, t, cur, left, id, Entry(ppn, prot));
        mem := Put(mem, t, id, Entry(ppn, prot));
        id, ppn := id + 1, ppn + 1;
        cur, left := cur + PAGE, left - PAGE;
      }
      FillEnds(old(mem), mem, root, role, va, size, To(pa, prot), t2, t, cur, left, id);
    }

    /** Make sure the second-level entry of cur points to a table. */
    method NeedBottom(t: nat, id: nat, ghost cur: nat, ghost target: Target) returns (err: Err)
      requires Valid() && Middling(mem, root, cur, t) && id == I2(cur)
      modifies this
      ensures Valid() && root in mem && root in old(mem) && mem[root] == old(mem)[root]
              && Maps(old(mem), mem, root, cur, cur, target)
      ensures err == Ok ==> Bottoming(mem, root, cur, t, Get(mem, t, id).ppn)
      ensures |pool| + 1 >= |old(pool)|
      ensures err == NoMem ==> pool == [] && old(pool) == []
      ensures err == Perm ==> mem == old(mem) && Blocked(mem, root, cur)
    {
      PathRoles(mem, root, role, cur);
      MapsNothing(mem, root, cur, target);
      if !Get(mem, t, id).IsTable() {
        if Get(mem, t, id).IsNull() {
          var l3 := AllocTable();
          if l3 == 0 {
            return NoMem;
          }
          StepHangBottom(mem, root, role, cur, t, l3, cur, target);
          mem := Put(mem[l3 := EmptyTable()], t, id, Entry(l3, TABLE_PROT));
          role := role[l3 := Bottom(I1(cur), I2(cur))];
        } else {
          return Perm;
        }
      }
      return Ok;
    }

    /** Map what lies in the 2 MiB block of cur page by page. */
    method MapByPages(t: nat, id: nat, cur: nat, p: nat, part: nat, prot: nat) returns (err: Err)
      requires Valid() && Middling(mem, root, cur, t) && id == I2(cur)
      requires Within(cur, part, MEGA) && p % PAGE == 0 && LeafProt(prot)
      modifies this
      ensures Valid() && root in mem && root in old(mem) && mem[root] == old(mem)[root]
      ensures Maps(old(mem), mem, root, cur, if err == Ok then cur + part else cur, To(p, prot))
      ensures |pool| + 1 >= |old(pool)|
      ensures err == NoMem ==> pool == [] && old(pool) == []
      ensures err == Perm ==> mem == old(mem) && Blocked(mem, root, cur)
    {
      err := NeedBottom(t, id, cur, To(p, prot));
      if err == Ok {
        ghost var m := mem;
        hide Valid, Maps, Bottoming, Middling, Shaped;
        CreateBottom(Get(mem, t, id).ppn, cur, p, part, prot, t);
        MapsCompose(old(mem), m, mem, root, cur, cur, cur + part, To(p, prot));
      }
    }

    /** Write a superpage for the 2 MiB block of cur. */
    method WriteMega(t: nat, id: nat, ghost cur: nat, p: nat, prot: nat)
      requires Valid() && Middling(mem, root, cur, t) && id == I2(cur)
      requires MEGA <= cur < SPACE && p % MEGA == 0 && LeafProt(prot)
      modifies this`mem
      ensures Valid() && root in mem && root in old(mem) && mem[root] == old(mem)[root]
      ensures Misplaced(mem, root, cur, p, prot, MEGA)
      ensures Keeps(old(mem), mem, root, BlockStart(cur, MEGA), BlockStart(cur, MEGA) + MEGA)
      ensures cur % MEGA == 0 ==> Maps(old(mem), mem, root, cur, cur + MEGA, To(p, prot))
    {
      assert Shaped(mem, root, role);
      hide Valid, Resolve, Maps, Shaped, Middling, Put, Misplaced, Keeps, BlockStart, LeafProt;
      SuperMiddle(mem, root, role, cur, t, p, prot);
      Write(t, id, Entry(p / PAGE, prot));
    }

    /** One round over the second-level entries: a superpage, or third-level entries below. */
    method MapEntry(t: nat, id: nat, cur: nat, p: nat, left: nat, prot: nat) returns (err: Err, part: nat)
      requires Valid() && Middling(mem, root, cur, t) && id == I2(cur) && cur + left > 0
      requires Within(cur, Chunk(cur, left, MEGA), MEGA) && p % PAGE == 0 && LeafProt(prot)
      requires cur % MEGA == 0 && left >= MEGA ==> Chunk(cur, left, MEGA) == MEGA
      modifies this
      ensures Valid() && root in mem && root in old(mem) && mem[root] == old(mem)[root]
              && Keeps(old(mem), mem, root, BlockStart(cur, MEGA), BlockStart(cur, MEGA) + MEGA)
      ensures |pool| + 1 >= |old(pool)|
      ensures err == NoMem ==> pool == [] && old(pool) == []
      ensures err == Perm ==> Blocked(mem, root, cur) && Blocked(old(mem), root, cur)
      ensures Takes(cur, p, left, MEGA) ==> err == Ok
      ensures part == if err != Ok then 0 else if Takes(cur, p, left, MEGA) then MEGA else Chunk(cur, left, MEGA)
      ensures !Misfires(cur, p, left, MEGA) ==> Maps(old(mem), mem, root, cur, cur + part, To(p, prot))
      ensures Misfires(cur, p, left, MEGA) ==> Misplaced(mem, root, cur, p, prot, MEGA)
      ensures if Takes(cur, p, left, MEGA) then Misplaced(mem, root, cur, p, prot, MEGA)
              else Maps(old(mem), mem, root, cur, cur + part, To(p, prot))
    {
      hide Valid, Resolve, Maps, Middling, Misplaced, Chunk, Keeps, BlockStart, LeafProt, Blocked, Within, I2;
      if cur >= MEGA && left >= MEGA && p % MEGA == 0 {
        WithinBlock(cur, Chunk(cur, left, MEGA), MEGA);
        WriteMega(t, id, cur, p, prot);
        return Ok, MEGA;
      }
      part := Chunk(cur, left, MEGA);
      WithinBlock(cur, part, MEGA);
      err := MapByPages(t, id, cur, p, part, prot);
      part := if err == Ok then part else 0;
      MapsKeeps(old(mem), mem, root, cur, cur + part, To(p, prot), BlockStart(cur, MEGA), BlockStart(cur, MEGA) + MEGA);
    }

    /**
     * Map a range inside one 1 GiB block; done bytes of it are mapped on return. Where the superpage test
     * misfires the entry of va becomes a superpage for the whole block, and stays so on every way out.
     */
    method CreateMiddle(t: nat, va: nat, pa: nat, size: nat, prot: nat) returns (err: Err, ghost done: nat)
      requires Valid() && Middling(mem, root, va, t) && Within(va, size, GIGA) && pa % PAGE == 0 && LeafProt(prot)
      modifies this
      ensures Valid() && done <= size && Keeps(old(mem), mem, root, BlockStart(va, MEGA), BlockStart(va, GIGA) + GIGA)
      ensures err == Ok ==> done == size
      ensures err != Ok && size > 0 && !Misfires(va, pa, size, MEGA) ==> done < size
      ensures |pool| + Blocks(va, size, MEGA) >= |old(pool)|
      ensures err == NoMem ==> pool == [] && |old(pool)| < Blocks(va, size, MEGA)
      ensures err == Perm ==> va + done < SPACE && Blocked(mem, root, va + done) && Blocked(old(mem), root, va + done)
      ensures !Misfires(va, pa, size, MEGA) ==> Maps(old(mem), mem, root, va, va + done, To(pa, prot))
      ensures Misfires(va, pa, size, MEGA) ==> Misplaced(mem, root, va, pa, prot, MEGA)
      ensures MiddleLanded(old(mem), mem, root, va, pa, size, prot,
                           if err == Ok then SPACE else BlockStart(va + done, MEGA))
      ensures BlockStart(va + done, MEGA) <= BlockStart(va, GIGA) + GIGA
    {
      hide Valid, Maps, Made, Making, Round, Chunk, Middling, Blocked, Resolve, Keeps, Misplaced, Takes, Misfires;
      hide BlockStart, Blocks, LeafProt, MiddleLanded, RoundLands, OnCourse, Due, Edge;
      var id, idEnd := I2(va), I2(va + size - 1);
      var cur: nat, p: nat, left: nat := va, pa, size;
      ghost var wrong := if Misfires(va, pa, size, MEGA) then MEGA else 0;
      ghost var off := wrong != 0 || (size == 0 && va % MEGA != 0);
      MiddleBlocks(va, size);
      MiddleBegins(mem, root, va, pa, size, prot, off, wrong);
      MiddleLandsFirst(mem, root, va, pa, size, prot, off);
      while id <= idEnd
        invariant Valid() && Middling(mem, root, va, t)
        invariant OnCourse(va, pa, size, MEGA, cur, left, off)
        invariant MiddleLanded(old(mem), mem, root, va, pa, size, prot, Edge(va, size, MEGA, cur, left, off))
        invariant Making(old(mem), mem, root, MEGA, va, pa, size, prot, cur, p, left, id, off, wrong)
        invariant id <= idEnd + 1 && |pool| + (id - I2(va)) >= |old(pool)|
      {
        MakingHere(old(mem), mem, root, MEGA, va, pa, size, prot, cur, p, left, id, off, wrong);
        SameGiga(mem, root, va, cur, t);
        ghost var m := mem;
        var part;
        err, part := MapEntry(t, id, cur, p, left, prot);
        SameRootEntries(m, mem, root, va, t);
        EntryLands(old(mem), m, mem, root, va, pa, size, prot, cur, p, left, id, off, wrong, err == Ok, part);
        MakingOn(old(mem), m, mem, root, MEGA, va, pa, size, prot, cur, p, left, id, off, wrong, part, true);
        if err != Ok {
          MegaEnds(va, cur);
          KeepsWider(old(mem), mem, root, BlockStart(va, MEGA), BlockStart(cur, MEGA) + MEGA,
                     BlockStart(va, MEGA), BlockStart(va, GIGA) + GIGA);
          StillBlocked(old(mem), m, root, BlockStart(va, MEGA), BlockStart(cur, MEGA), cur);
          assert va + (cur - va) == cur;
          return err, cur - va;
        }
        off := off && Takes(cur, p, left, MEGA);
        cur, p, left := cur + part, p + part, left - part;
        id := id + 1;
      }
      MakingEnds(old(mem), mem, root, MEGA, va, pa, size, prot, cur, p, left, id, off, wrong);
      KeepsWider(old(mem), mem, root, BlockStart(va, MEGA), BlockStart(va + size - 1, MEGA) + MEGA,
                 BlockStart(va, MEGA), BlockStart(va, GIGA) + GIGA);
      MiddleLandsLast(old(mem), mem, root, va, pa, size, prot, cur, p, left, id, off, wrong);
      return Ok, size;
    }

    /** Make sure the first-level entry of cur points to a table. */
    method NeedMiddle(id: nat, ghost cur: nat, ghost target: Target) returns (err: Err)
      requires Valid() && id == I1(cur)
      modifies this
      ensures Valid() && Maps(old(mem), mem, root, cur, cur, target)
      ensures err == Ok ==> Middling(mem, root, cur, Get(mem, root, id).ppn)
      ensures |pool| + 1 >= |old(pool)|
      ensures err == NoMem ==> pool == [] && old(pool) == []
      ensures err == Perm ==> mem == old(mem) && Blocked(mem, root, cur)
    {
      MapsNothing(mem, root, cur, target);
      if !Get(mem, root, id).IsTable() {
        if Get(mem, root, id).IsNull() {
          var l2 := AllocTable();
          if l2 == 0 {
            return NoMem;
          }
          StepHangMiddle(mem, root, role, cur, l2, cur, target);
          mem := Put(mem[l2 := EmptyTable()], root, id, Entry(l2, TABLE_PROT));
          role := role[l2 := Middle(I1(cur))];
        } else {
          return Perm;
        }
      }
      return Ok;
    }

    /** Map what lies in the 1 GiB block of cur through its second-level table. */
    method MapByBlocks(id: nat, cur: nat, p: nat, part: nat, prot: nat) returns (err: Err, ghost done: nat)
      requires Valid() && id == I1(cur)
      requires Within(cur, part, GIGA) && p % PAGE == 0 && LeafProt(prot)
      modifies this
      ensures Valid() && done <= part && Keeps(old(mem), mem, root, BlockStart(cur, MEGA), BlockStart(cur, GIGA) + GIGA)
      ensures err == Ok ==> done == part
      ensures err != Ok && part > 0 && !Misfires(cur, p, part, MEGA) ==> done < part
      ensures |pool| + 1 + Blocks(cur, part, MEGA) >= |old(pool)|
      ensures err == NoMem ==> pool == [] && |old(pool)| < 1 + Blocks(cur, part, MEGA)
      ensures err == Perm ==>
                cur + done < SPACE && Blocked(mem, root, cur + done) && Blocked(old(mem), root, cur + done)
      ensures !Misfires(cur, p, part, MEGA) ==> Maps(old(mem), mem, root, cur, cur + done, To(p, prot))
      ensures err == Ok && Misfires(cur, p, part, MEGA) ==>
                Misplaced(mem, root, cur, p, prot, MEGA)
      ensures MiddleLanded(old(mem), mem, root, cur, p, part, prot,
                           if err == Ok then SPACE else BlockStart(cur + done, MEGA))
      ensures BlockStart(cur + done, MEGA) <= BlockStart(cur, GIGA) + GIGA
    {
      hide Valid, Maps, Middling, Misfires, Takes, Resolve, Keeps, Blocked, Within, BlockStart, Misplaced, MiddleLanded;
      done := 0;
      NothingLanded(mem, root, cur, p, part, prot);
      MiddleBlocks(cur, part);
      WithinBlock(cur, part, GIGA);
      ghost var lo, hi := BlockStart(cur, MEGA), BlockStart(cur, GIGA) + GIGA;
      err := NeedMiddle(id, cur, To(p, prot));
      ghost var m := mem;
      MiddleStillLanded(old(mem), old(mem), m, root, cur, p, part, prot, lo, cur, To(p, prot));
      MapsKeeps(old(mem), m, root, cur, cur, To(p, prot), lo, hi);
      if err == Ok {
        err, done := CreateMiddle(Get(mem, root, id).ppn, cur, p, part, prot);
        MiddleLandedAfter(old(mem), m, mem, root, cur, p, part, prot,
                          if err == Ok then SPACE else BlockStart(cur + done, MEGA), cur, To(p, prot));
        KeepsOn(old(mem), m, mem, root, lo, hi, lo, hi);
        MapsKeeps(old(mem), m, root, cur, cur, To(p, prot), cur, cur);
        if err == Perm {
          StillBlocked(old(mem), m, root, cur, cur, cur + done);
        }
        if !Misfires(cur, p, part, MEGA) {
          MapsCompose(old(mem), m, mem, root, cur, cur, cur + done, To(p, prot));
        }
      }
    }

    /** One round over the first-level entries: a superpage, or the second-level table below. */
    method MapBlock(id: nat, cur: nat, p: nat, left: nat, prot: nat) returns (err: Err, part: nat, ghost done: nat)
      requires Valid() && id == I1(cur) && cur + left > 0
      requires Within(cur, Chunk(cur, left, GIGA), GIGA) && Chunk(cur, left, GIGA) <= left
      requires p % PAGE == 0 && LeafProt(prot)
      requires cur % GIGA == 0 && left >= GIGA ==> Chunk(cur, left, GIGA) == GIGA
      modifies this
      ensures Valid() && Keeps(old(mem), mem, root, BlockStart(cur, GIGA), BlockStart(cur, GIGA) + GIGA) && done <= left
      ensures part == if Takes(cur, p, left, GIGA) then GIGA else Chunk(cur, left, GIGA)
      ensures err == Ok ==> done == part
      ensures err != Ok && left > 0 && Wrong(cur, p, left) == 0 ==> done < left
      ensures |pool| + (if Takes(cur, p, left, GIGA) then 0 else 1 + Blocks(cur, Chunk(cur, left, GIGA), MEGA))
              >= |old(pool)|
      ensures err == NoMem ==> pool == [] && |old(pool)| < 1 + Blocks(cur, Chunk(cur, left, GIGA), MEGA)
      ensures err == Perm ==>
                cur + done < SPACE && Blocked(mem, root, cur + done) && Blocked(old(mem), root, cur + done)
      ensures Wrong(cur, p, left) == 0 ==> Maps(old(mem), mem, root, cur, cur + done, To(p, prot))
      ensures err == Ok && Wrong(cur, p, left) != 0 ==>
                Misplaced(mem, root, cur, p, prot, Wrong(cur, p, left))
      ensures if Takes(cur, p, left, GIGA) then err == Ok && Misplaced(mem, root, cur, p, prot, GIGA)
              else
                && MiddleLanded(old(mem), mem, root, cur, p, Chunk(cur, left, GIGA), prot,
                                if err == Ok then SPACE else BlockStart(cur + done, MEGA))
                && BlockStart(cur + done, MEGA) <= BlockStart(cur, GIGA) + GIGA
    {
      BlockHere(cur, p, left, prot);
      MegaInGiga(cur);
      hide Valid, Maps, Resolve, Keeps, Blocked, Within, BlockStart, Misplaced, Chunk, Wrong, Misfires, MiddleLanded;
      if cur >= GIGA && left >= GIGA && p % GIGA == 0 {
        SuperTop(mem, root, role, cur, p, prot);
        Write(root, id, Entry(p / PAGE, prot));
        return Ok, GIGA, GIGA;
      }
      part := Chunk(cur, left, GIGA);
      err, done := MapByBlocks(id, cur, p, part, prot);
      KeepsWider(old(mem), mem, root, BlockStart(cur, MEGA), BlockStart(cur, GIGA) + GIGA,
                 BlockStart(cur, GIGA), BlockStart(cur, GIGA) + GIGA);
    }

    /**
     * Map size bytes from va to pa; done bytes of the range are mapped on return, all of them on success.
     * Success is the flat update exactly on the ranges whose superpage tests do not misfire: on any other
     * range the entry of va is a superpage for its whole block.
     */
    method CreateMapping(va: nat, pa: nat, size: nat, prot: nat) returns (err: Err, ghost done: nat)
      requires Valid() && Asked(va, pa, size, prot)
      modifies this
      ensures Valid() && done <= size
      ensures |pool| + Tables(va, size) >= |old(pool)|
      ensures err == NoMem ==> pool == [] && |old(pool)| < Tables(va, size)
      ensures err == Perm ==>
                va + done < SPACE && Blocked(mem, root, va + done) && Blocked(old(mem), root, va + done)
      ensures CanMap(va, pa, size, prot) ==>
                Maps(old(mem), mem, root, va, va + done, To(pa, prot)) && (err == Ok <==> done == size)
      ensures err == Ok && !CanMap(va, pa, size, prot) ==>
                var reach := Wrong(va, pa, size);
                && va % reach != 0
                && forall x: nat :: x < SPACE && x / reach == va / reach ==>
                     Translate(mem, root, x) == Mapped(pa + x % reach, prot)
      ensures err == Ok ==>
                (Maps(old(mem), mem, root, va, va + size, To(pa, prot)) <==> CanMap(va, pa, size, prot))
      ensures Landed(old(mem), mem, root, va, pa, size, prot, if err == Ok then SPACE else BlockStart(va + done, MEGA))
    {
      hide Valid, Maps, Made, Making, Round, Chunk, Blocked, Resolve, Keeps, Misplaced, Takes, Misfires, Landed;
      hide MiddleLanded, OnCourse, Edge;
      hide BlockStart, Within, Wrong, Asked, LeafProt, Translate, Shaped, Blocks, Begun;
      AskedFor(va, pa, size, prot);
      ghost var wrong, off := Wrong(va, pa, size), Misfires(va, pa, size, GIGA);
      TopBegins(mem, root, va, pa, size, prot, off, wrong);
      TopLandsFirst(mem, root, va, pa, size, prot, off);
      TopBlocks(va, size);
      var id, idEnd := I1(va), I1(va + size - 1);
      var cur: nat, p: nat, left: nat := va, pa, size;
      while id <= idEnd
        invariant Valid() && Making(old(mem), mem, root, GIGA, va, pa, size, prot, cur, p, left, id, off, wrong)
        invariant id <= idEnd + 1 && |pool| + (if off then 0 else id - I1(va) + Begun(va, cur)) >= |old(pool)|
        invariant id - I1(va) + Begun(va, cur) <= Tables(va, size)
        invariant OnCourse(va, pa, size, GIGA, cur, left, off)
        invariant Landed(old(mem), mem, root, va, pa, size, prot, Edge(va, size, GIGA, cur, left, off))
      {
        MakingCounts(old(mem), mem, root, va, pa, size, prot, cur, p, left, id, off, wrong);
        MakingHere(old(mem), mem, root, GIGA, va, pa, size, prot, cur, p, left, id, off, wrong);
        if wrong == 0 {
          WrongOn(va, pa, size, cur, p, left);
        }
        ghost var m := mem;
        var part;
        err, part, done := MapBlock(id, cur, p, left, prot);
        BlockLands(old(mem), m, mem, root, va, pa, size, prot, cur, p, left, id, off, wrong, err, part, done);
        MakingOn(old(mem), m, mem, root, GIGA, va, pa, size, prot, cur, p, left, id, off, wrong, done, err == Ok);
        if err != Ok {
          if err == Perm {
            StillBlocked(old(mem), m, root, BlockStart(va, GIGA), BlockStart(cur, GIGA), cur + done);
          }
          assert va + (cur - va + done) == cur + done;
          return err, cur - va + done;
        }
        off := off && Takes(cur, p, left, GIGA);
        cur, p, left := cur + part, p + part, left - part;
        id := id + 1;
      }
      MakingEnds(old(mem), mem, root, GIGA, va, pa, size, prot, cur, p, left, id, off, wrong);
      CreatedExactly(old(mem), mem, root, va, pa, size, prot);
      TopLandsLast(old(mem), mem, root, va, pa, size, prot, cur, p, left, id, off, wrong);
      return Ok, size;
    }

    /** Clear third-level entries for a range inside one 2 MiB block. */
    method RemoveBottom(t: nat, va: nat, size: nat, ghost t2: nat)
      requires Valid() && Bottoming(mem, root, va, t2, t) && Within(va, size, MEGA)
      modifies this`mem
      ensures Valid() && Shaped(mem, root, role) && Maps(old(mem), mem, root, va, va + size, Away)
      ensures Elsewhere(old(mem), mem, t) && t in mem && t != root && t != t2
    {
      var id, idEnd := I3(va), I3(va + size - 1);
      ghost var cur: nat, left: nat := va, size;
      FillBegins(mem, root, role, va, size, Away, t2, t);
      hide Filling, Shaped, Maps, Bottoming;
      while id <= idEnd
        invariant Filling(old(mem), mem, root, role, va, size, Away, t2, t, cur, left, id)
        decreases left
      {
        FillStep(old(mem), mem, root, role, va, size, Away, t2, t, cur, left, id, NULL_ENTRY);
        mem := Put(mem, t, id, NULL_ENTRY);
        id := id + 1;
        cur, left := cur + PAGE, left - PAGE;
      }
      FillEnds(old(mem), mem, root, role, va, size, Away, t2, t, cur, left, id);
    }

    /** Clear what lies in the 2 MiB block of cur, when that is not done in one entry. */
    method ClearByPages(t: nat, id: nat, cur: nat, part: nat) returns (err: Err)
      requires Valid() && Middling(mem, root, cur, t) && id == I2(cur) && Within(cur, part, MEGA)
      modifies this`mem
      ensures Valid() && root in mem && root in old(mem) && mem[root] == old(mem)[root]
      ensures !Get(old(mem), t, id).IsTable() ==> mem == old(mem)
      ensures err == Ok ==> Swept(old(mem), mem, root, Straight(cur), cur + part)
      ensures err == Ok && !Get(old(mem), t, id).IsTable() ==>
                Swept(old(mem), mem, root, Straight(BlockStart(cur, MEGA)), cur + part)
      ensures err != Ok ==> err == Perm && mem == old(mem) && Blocked(mem, root, cur)
      ensures err != Ok ==> !Get(mem, t, id).IsTable() && Resolve(mem, root, cur).reach == MEGA
    {
      if !Get(mem, t, id).IsTable() {
        if Get(mem, t, id).IsNull() {
          SkipMiddle(mem, root, cur, t, part, cur);
          SkipMiddle(mem, root, cur, t, part, BlockStart(cur, MEGA));
          return Ok;
        } else {
          return Perm;
        }
      }
      assert Bottoming(mem, root, cur, t, Get(mem, t, id).ppn);
      hide Resolve, Maps, Swept, Bottoming, Within;
      RemoveBottom(Get(mem, t, id).ppn, cur, part, t);
      StraightSweep(old(mem), mem, root, cur, cur + part);
      return Ok;
    }

    /** One round over the second-level entries: a null entry, or null third-level entries below. */
    method ClearEntry(t: nat, id: nat, cur: nat, left: nat, ghost astray: bool) returns (err: Err, part: nat)
      requires Valid() && Middling(mem, root, cur, t) && id == I2(cur) && cur + left > 0
      requires Within(cur, Chunk(cur, left, MEGA), MEGA)
      requires var e := Get(mem, t, id);
               (astray ==> !e.IsTable()) && (Grabs(cur, left, MEGA, e) ==> astray || BlockStart(cur, MEGA) == cur)
      modifies this`mem
      ensures Valid() && root in mem && root in old(mem) && mem[root] == old(mem)[root]
      ensures var e := Get(old(mem), t, id);
              && part == (if Grabs(cur, left, MEGA, e) then MEGA else Chunk(cur, left, MEGA))
              && (Grabs(cur, left, MEGA, e) ==> err == Ok)
              && (!e.IsTable() ==> OnlyAt(old(mem), mem, t, id))
      ensures err == Ok ==> Swept(old(mem), mem, root, RoundSweep(cur, MEGA, astray),
                                  RoundEnd(cur, left, MEGA, astray, Get(old(mem), t, id)))
      ensures err != Ok ==> err == Perm && mem == old(mem) && Blocked(mem, root, cur)
      ensures err != Ok ==> !Get(mem, t, id).IsTable() && Resolve(mem, root, cur).reach == MEGA
    {
      hide Resolve, Swept, Middling, Put, Within, Get, Valid, Shaped, Chunk, Blocked, BlockStart, OnlyAt;
      ShapeHere(cur, Chunk(cur, left, MEGA), MEGA);
      if cur >= MEGA && left >= MEGA && !Get(mem, t, id).IsTable() {
        NullMiddle(mem, root, role, cur, t);
        Write(t, id, NULL_ENTRY);
        return Ok, MEGA;
      }
      part := Chunk(cur, left, MEGA);
      OnlyAtNone(mem, t, id);
      err := ClearByPages(t, id, cur, part);
    }

    /**
     * Unmap a range inside one 1 GiB block. On success the sweep of the range is done; a start that is not
     * astray leaves done bytes of it unmapped on any way out.
     */
    method RemoveMiddle(t: nat, va: nat, size: nat, ghost lo: nat, ghost hi: nat) returns (err: Err, ghost done: nat)
      requires Valid() && Middling(mem, root, va, t) && Within(va, size, GIGA)
      modifies this`mem
      ensures Valid() && done <= size && OnlyClears(old(mem), mem, root)
      ensures err == Ok ==> done == size && Swept(old(mem), mem, root, MiddleSweep(old(mem), t, va, size), va + size)
      ensures err != Ok ==> err == Perm && Blocked(mem, root, va + done)
      ensures !Astray(va, size, MEGA, Get(old(mem), t, I2(va))) && size > 0 ==>
                && (err != Ok ==> done < size)
                && Maps(old(mem), mem, root, va, va + done, Away)
                && (CutFrom(va, size, lo, hi, MEGA) && AllInside(old(mem), root, lo, hi) ==> err == Ok)
      ensures Astray(va, size, MEGA, Get(old(mem), t, I2(va))) && err != Ok ==> done >= MEGA
      ensures err != Ok ==>
                && Resolve(mem, root, va + done).reach == MEGA
                && Swept(old(mem), mem, root, MiddleSweep(old(mem), t, va, size), BlockStart(va + done, MEGA))
    {
      hide Valid, Middling, Clearing, Swept, Round, Within, Chunk, Get, Resolve, OnlyClears, OnlyAt, Maps, AllInside;
      hide CutFrom, Shaped, BlockStart, RoundEnd, RoundSweep, PastGaps, MiddleSweep, Astray;
      ghost var s := MiddleSweep(mem, t, va, size);
      ghost var off := Astray(va, size, MEGA, Get(mem, t, I2(va))) || (size == 0 && va % MEGA != 0);
      ghost var edge := s.from;
      MiddleSweepBegins(mem, root, t, va, size);
      var id, idEnd := I2(va), I2(va + size - 1);
      var cur: nat, left: nat := va, size;
      while id <= idEnd
        invariant Valid() && Middling(mem, root, va, t)
        invariant Clearing(old(mem), mem, root, s, MEGA, t, va, size, cur, left, id, off, edge)
      {
        MiddleHere(old(mem), mem, root, t, va, size, cur, left, id, off, edge);
        ghost var m, e := mem, Get(mem, t, id);
        ghost var astray := off && size > 0 && !e.IsTable();
        ghost var next, end := RoundSweep(cur, MEGA, astray), RoundEnd(cur, left, MEGA, astray, e);
        MiddleRound(old(mem), mem, root, t, va, size, cur, left, id, off, edge, s, next, end);
        var part;
        err, part := ClearEntry(t, id, cur, left, astray);
        if err != Ok {
          MiddleStops(old(mem), mem, root, t, va, size, cur, left, id, off, edge, lo, hi);
          MiddleSweptUpTo(old(mem), mem, root, t, va, size, cur, left, id, off, edge, s, next, end, astray, e);
          assert va + (cur - va) == cur;
          return err, cur - va;
        }
        SameRootEntries(m, mem, root, va, t);
        ClearingOn(old(mem), m, mem, root, s, MEGA, t, va, size, cur, left, id, off, edge, e, next, part, end);
        off, edge := off && Grabs(cur, left, MEGA, e), end;
        cur, left := cur + part, left - part;
        id := id + 1;
      }
      ClearingEnds(old(mem), mem, root, s, MEGA, t, va, size, cur, left, id, off, edge);
      MiddleDone(old(mem), mem, root, t, va, size);
      return Ok, size;
    }

    /** Clear what lies in the 1 GiB block of cur, when that is not done in one entry. */
    method ClearByBlocks(id: nat, cur: nat, part: nat, ghost lo: nat, ghost hi: nat) returns (err: Err, ghost done: nat)
      requires Valid() && id == I1(cur) && Within(cur, part, GIGA)
      modifies this`mem
      ensures Valid() && done <= part && OnlyClears(old(mem), mem, root)
      ensures err == Ok ==> done == part
      ensures err != Ok ==> err == Perm && Blocked(mem, root, cur + done)
      ensures var e := Get(old(mem), root, id);
              if e.IsTable() then
                && (err == Ok ==> Swept(old(mem), mem, root, MiddleSweep(old(mem), e.ppn, cur, part), cur + part))
                && (if Astray(cur, part, MEGA, Get(old(mem), e.ppn, I2(cur))) then err != Ok ==> done >= MEGA
                    else part > 0 ==>
                      && (err != Ok ==> done < part)
                      && Maps(old(mem), mem, root, cur, cur + done, Away)
                      && (CutFrom(cur, part, lo, hi, MEGA) && AllInside(old(mem), root, lo, hi) ==> err == Ok))
              else
                && mem == old(mem)
                && (err == Ok ==> && Swept(mem, mem, root, Straight(cur), cur + part)
                                  && Swept(mem, mem, root, Straight(BlockStart(cur, GIGA)), cur + part))
                && (err != Ok ==> done == 0 && Resolve(mem, root, cur).Leaf? && Resolve(mem, root, cur).reach == GIGA)
      ensures var e := Get(old(mem), root, id);
              err != Ok && e.IsTable() ==>
                && Resolve(mem, root, cur + done).reach == MEGA
                && Swept(old(mem), mem, root, MiddleSweep(old(mem), e.ppn, cur, part), BlockStart(cur + done, MEGA))
    {
      if !Get(mem, root, id).IsTable() {
        SweptOnlyClears(mem, mem, root, Straight(cur), cur);
        if Get(mem, root, id).IsNull() {
          SkipTop(mem, root, cur, part, cur);
          SkipTop(mem, root, cur, part, BlockStart(cur, GIGA));
          return Ok, part;
        } else {
          return Perm, 0;
        }
      }
      err, done := RemoveMiddle(Get(mem, root, id).ppn, cur, part, lo, hi);
    }

    /** One round over the first-level entries: a null entry, or the second-level table below. */
    method ClearBlock(id: nat, cur: nat, left: nat, ghost astray: bool, ghost lo: nat, ghost hi: nat)
      returns (err: Err, part: nat, ghost done: nat)
      requires Valid() && id == I1(cur) && cur + left > 0
      requires Within(cur, Chunk(cur, left, GIGA), GIGA)
      requires var e := Get(mem, root, id);
               (astray ==> !e.IsTable()) && (Grabs(cur, left, GIGA, e) ==> astray || BlockStart(cur, GIGA) == cur)
      modifies this`mem
      ensures Valid() && OnlyClears(old(mem), mem, root)
      ensures var e := Get(old(mem), root, id);
              && part == (if Grabs(cur, left, GIGA, e) then GIGA else Chunk(cur, left, GIGA))
              && (Grabs(cur, left, GIGA, e) ==> err == Ok)
              && (!e.IsTable() ==> OnlyAt(old(mem), mem, root, id))
      ensures err == Ok ==> Swept(old(mem), mem, root, TopRoundSweep(old(mem), root, cur, left, astray),
                                  RoundEnd(cur, left, GIGA, astray, Get(old(mem), root, id)))
      ensures err != Ok ==> && err == Perm && Blocked(mem, root, cur + done) && done <= part
                            && Stopped(old(mem), mem, root, cur, part, done, lo, hi)
      ensures err != Ok ==> Resolve(mem, root, cur + done).Leaf?
      ensures err != Ok ==> var r := Resolve(mem, root, cur + done).reach;
                            && r >= MEGA && BlockStart(cur, GIGA) <= BlockStart(cur + done, r)
                            && Swept(old(mem), mem, root, TopRoundSweep(old(mem), root, cur, left, astray),
                                     BlockStart(cur + done, r))
    {
      hide Resolve, Swept, Put, Within, Get, Valid, Shaped, Chunk, Blocked, BlockStart, OnlyAt, MiddleSweep, Maps;
      hide OnlyClears, AllInside, CutFrom, Astray;
      ShapeHere(cur, Chunk(cur, left, GIGA), GIGA);
      if cur >= GIGA && left >= GIGA && !Get(mem, root, id).IsTable() {
        NullTop(mem, root, role, cur);
        Write(root, id, NULL_ENTRY);
        SweptOnlyClears(old(mem), mem, root, Straight(BlockStart(cur, GIGA)), BlockStart(cur, GIGA) + GIGA);
        return Ok, GIGA, GIGA;
      }
      part := Chunk(cur, left, GIGA);
      OnlyAtNone(mem, root, id);
      err, done := ClearByBlocks(id, cur, part, lo, hi);
      StartsOn(cur, done);
      SweptNone(mem, root, Straight(cur), BlockStart(cur, GIGA));
      SweptNone(mem, root, Straight(BlockStart(cur, GIGA)), BlockStart(cur, GIGA));
    }

    /**
     * Unmap size bytes from va. On success the sweep read off the tables is done, which is the removal of the
     * range exactly when nothing is mapped where the sweep goes wrong; no removal gives an address another mapping.
     */
    method RemoveMapping(va: nat, size: nat) returns (err: Err, ghost done: nat)
      requires Valid() && PageRange(va, size)
      modifies this`mem
      ensures Valid() && done <= size && OnlyClears(old(mem), mem, root)
      ensures err == Ok ==> done == size && Swept(old(mem), mem, root, SweepOf(old(mem), root, va, size), va + size)
      ensures err == Ok ==>
                (Maps(old(mem), mem, root, va, va + size, Away) <==> RemovesExactly(old(mem), root, va, size))
      ensures err != Ok ==> err == Perm && Blocked(mem, root, va + done)
      ensures CanRemove(old(mem), root, va, size) ==>
                && Maps(old(mem), mem, root, va, va + done, Away) && (err == Ok <==> done == size)
                && (AllInside(old(mem), root, va, va + size) ==> err == Ok)
      ensures err != Ok && !CanRemove(old(mem), root, va, size) ==> done >= MEGA
      ensures err != Ok && Astray(va, size, GIGA, Get(old(mem), root, I1(va))) ==> done >= GIGA
      ensures err != Ok ==> var r := Resolve(mem, root, va + done).reach;
                            r > 0 && Swept(old(mem), mem, root, SweepOf(old(mem), root, va, size),
                                           BlockStart(va + done, r))
    {
      hide Valid, Clearing, Swept, Round, Within, Chunk, Get, Resolve, OnlyClears, OnlyAt, Maps, AllInside, Blocked;
      hide CutFrom, Shaped, BlockStart, RoundEnd, TopRoundSweep, PastGaps, SweepOf, Astray, CanRemove, RemovesExactly;
      hide PageRange, Stopped;
      TopSweepBegins(mem, root, va, size);
      ghost var s := SweepOf(mem, root, va, size);
      ghost var off, edge := Astray(va, size, GIGA, Get(mem, root, I1(va))), s.from;
      var id, idEnd := I1(va), I1(va + size - 1);
      var cur: nat, left: nat := va, size;
      while id <= idEnd
        invariant Valid() && Clearing(old(mem), mem, root, s, GIGA, root, va, size, cur, left, id, off, edge)
      {
        TopHere(old(mem), mem, root, s, va, size, cur, left, id, off, edge);
        ghost var m, e := mem, Get(mem, root, id);
        ghost var astray := off && !e.IsTable();
        ghost var next, end := TopRoundSweep(mem, root, cur, left, astray), RoundEnd(cur, left, GIGA, astray, e);
        ShapeHere(cur, Chunk(cur, left, GIGA), GIGA);
        TopRound(old(mem), mem, root, role, va, size, cur, left, id, off, edge, s, next, end);
        var part;
        err, part, done := ClearBlock(id, cur, left, astray, va, va + size);
        if err != Ok {
          TopStops(old(mem), m, mem, root, va, size, cur, left, id, off, edge, done);
          TopKept(old(mem), m, mem, root, s, va, size, cur, left, id, off, edge);
          EndOf(cur, left, astray, e);
          TopSweptUpTo(old(mem), m, mem, root, va, size, cur, left, id, off, edge, s, next, end,
                       BlockStart(cur + done, Resolve(mem, root, cur + done).reach));
          assert va + (cur - va + done) == cur + done;
          return err, cur - va + done;
        }
        ClearingOn(old(mem), m, mem, root, s, GIGA, root, va, size, cur, left, id, off, edge, e, next, part, end);
        off, edge := off && Grabs(cur, left, GIGA, e), end;
        cur, left := cur + part, left - part;
        id := id + 1;
      }
      ClearingEnds(old(mem), mem, root, s, GIGA, root, va, size, cur, left, id, off, edge);
      TopDone(old(mem), mem, root, va, size);
      return Ok, size;
    }
  }
}
