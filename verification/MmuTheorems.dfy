/** What the page-table operations mean for translation. */
module MmuTheorems {
  import opened Landings
  import opened PageTable
  import opened Powers
  import opened Rounds
  import opened Sweeps
  import opened Mmu

  /** A range create has mapped can be removed as intended: no superpage of it reaches outside. */
  lemma CreatedIsRemovable(m0: Memory, m: Memory, root: nat, role: map<nat, Role>, va: nat, pa: nat, size: nat,
                           prot: nat)
    requires Shaped(m, root, role) && CanMap(va, pa, size, prot) && Maps(m0, m, root, va, va + size, To(pa, prot))
    ensures CanRemove(m, root, va, size) && AllInside(m, root, va, va + size)
  {
    forall x: nat | va <= x < va + size && x < SPACE
      ensures LeafInside(Resolve(m, root, x), x, va, va + size)
    {
      assert MapsAt(m0, m, root, va, va + size, To(pa, prot), x);
    }
    assert MapsAt(m0, m, root, va, va + size, To(pa, prot), va);
  }

  /** Mapping an unmapped range and unmapping it again gives back the translation of every address,
      whatever mixture of leaves served the range. */
  method MapThenUnmap(v: Vtable, va: nat, pa: nat, size: nat, prot: nat) returns (mapped: Err, unmapped: Err)
    requires v.Valid() && CanMap(va, pa, size, prot)
    requires forall x: nat :: va <= x < va + size ==> Translate(v.mem, v.root, x) == Unmapped
    modifies v
    ensures v.Valid()
    ensures mapped != Perm && (mapped == NoMem ==> |old(v.pool)| < Tables(va, size))
    ensures mapped == Ok ==> unmapped == Ok
    ensures mapped == Ok ==> forall x: nat :: x < SPACE ==>
              Translate(v.mem, v.root, x) == Translate(old(v.mem), v.root, x)
  {
    ghost var done;
    mapped, done := v.CreateMapping(va, pa, size, prot);
    if mapped == Perm {
      BlockedIsMapped(old(v.mem), v.root, va + done);
    }
    unmapped := Ok;
    if mapped == Ok {
      ghost var m := v.mem;
      CreatedIsRemovable(old(v.mem), m, v.root, v.role, va, pa, size, prot);
      unmapped, done := v.RemoveMapping(va, size);
      Undone(old(v.mem), m, v.mem, v.root, va, size, To(pa, prot));
    }
  }

  lemma BlockedIsMapped(m: Memory, root: nat, x: nat)
    requires Blocked(m, root, x)
    ensures Translate(m, root, x) != Unmapped
  {
  }

  lemma Undone(m0: Memory, m1: Memory, m2: Memory, root: nat, va: nat, size: nat, target: Target)
    requires Maps(m0, m1, root, va, va + size, target) && Maps(m1, m2, root, va, va + size, Away)
    requires forall x: nat :: va <= x < va + size ==> Translate(m0, root, x) == Unmapped
    ensures forall x: nat :: x < SPACE ==> Translate(m2, root, x) == Translate(m0, root, x)
  {
    forall x: nat | x < SPACE
      ensures Translate(m2, root, x) == Translate(m0, root, x)
    {
      assert MapsAt(m0, m1, root, va, va + size, target, x) && MapsAt(m1, m2, root, va, va + size, Away, x);
    }
  }

  /** Create as an update of the flat map: the range goes to the target, all else stays. */
  lemma FlatUpdate(m0: Memory, m: Memory, root: nat, va: nat, done: nat, target: Target, x: nat)
    requires Maps(m0, m, root, va, va + done, target) && x < SPACE
    ensures !(va <= x < va + done) ==> Translate(m, root, x) == Translate(m0, root, x)
    ensures va <= x < va + done ==>
              Translate(m, root, x) == if target.To? then Mapped(target.pa + (x - va), target.prot) else Unmapped
  {
    assert MapsAt(m0, m, root, va, va + done, target, x);
  }

  /** Frames for the tables of a new address space whose first-level table is at 1. */
  predicate Frames(frames: seq<nat>) {
    && (forall i :: 0 <= i < |frames| ==> frames[i] > 1)
    && (forall i, j :: 0 <= i < j < |frames| ==> frames[i] != frames[j])
  }

  /**
   * A page into a 2 MiB block, with an aligned target. On a new table with frames enough create succeeds, and the
   * page asked for is a page off its target, and the page before it is mapped.
   */
  method CreateMisplacesMega(frames: seq<nat>) returns (v: Vtable, err: Err)
    requires Frames(frames) && |frames| >= 3
    ensures fresh(v) && v.Valid() && err == Ok
    ensures Translate(v.mem, v.root, 0x20_1000) == Mapped(0x8020_1000, 15)
    ensures Translate(v.mem, v.root, 0x20_0000) == Mapped(0x8020_0000, 15)
  {
    v := new Vtable(1, frames);
    assert Wrong(0x20_1000, 0x8020_0000, 0x20_0000) == MEGA && Tables(0x20_1000, 0x20_0000) == 3;
    hide Wrong, Tables, Translate, Frames, Blocked;
    err := CreateOnEmpty(v, 0x20_1000, 0x8020_0000, 0x20_0000, 15);
  }

  /** The same one level up. */
  method CreateMisplacesGiga(frames: seq<nat>) returns (v: Vtable, err: Err)
    requires Frames(frames) && |frames| >= 515
    ensures fresh(v) && v.Valid() && err == Ok
    ensures Translate(v.mem, v.root, 0x4000_1000) == Mapped(0x8000_1000, 15)
    ensures Translate(v.mem, v.root, 0x4000_0000) == Mapped(0x8000_0000, 15)
  {
    v := new Vtable(1, frames);
    assert Wrong(0x4000_1000, 0x8000_0000, 0x4000_0000) == GIGA && Tables(0x4000_1000, 0x4000_0000) == 515;
    hide Wrong, Tables, Translate, Frames, Blocked;
    err := CreateOnEmpty(v, 0x4000_1000, 0x8000_0000, 0x4000_0000, 15);
  }

  /** Where nothing is mapped through the end and the frames are enough create succeeds, whatever it then maps. */
  method CreateOnEmpty(v: Vtable, va: nat, pa: nat, size: nat, prot: nat) returns (err: Err)
    requires v.Valid() && Asked(va, pa, size, prot) && |v.pool| >= Tables(va, size)
    requires forall x: nat :: va <= x <= va + size ==> Translate(v.mem, v.root, x) == Unmapped
    modifies v
    ensures v.Valid() && err == Ok
    ensures Maps(old(v.mem), v.mem, v.root, va, va + size, To(pa, prot)) <==> CanMap(va, pa, size, prot)
    ensures var reach := Wrong(va, pa, size);
            reach != 0 ==> forall x: nat :: x < SPACE && x / reach == va / reach ==>
              Translate(v.mem, v.root, x) == Mapped(pa + x % reach, prot)
    ensures Landed(old(v.mem), v.mem, v.root, va, pa, size, prot, SPACE)
  {
    hide Wrong, Tables, Translate, Blocked, Landed;
    ghost var done;
    err, done := v.CreateMapping(va, pa, size, prot);
    if err == Perm {
      BlockedIsMapped(old(v.mem), v.root, va + done);
    }
  }

  /** What a call that has landed everything did to an address. */
  lemma AfterLanding(m: Memory, m': Memory, root: nat, va: nat, pa: nat, size: nat, prot: nat, x: nat)
    requires va + size > 0 && Landed(m, m', root, va, pa, size, prot, SPACE) && x < SPACE
    ensures Translate(m', root, x) == match LandingOf(va, pa, size, x)
                                      case Stays => Translate(m, root, x)
                                      case At(a) => Mapped(a, prot)
  {
    assert LandedAt(m, m', root, va, pa, size, prot, SPACE, x);
  }

  /**
   * Two whole blocks off their boundaries and a page: create succeeds, the block after the first is misplaced too, the
   * last page of the range has its target, and a page of the range between them is not mapped at all.
   */
  method CreateLeavesGapMega(frames: seq<nat>) returns (v: Vtable, err: Err)
    requires Frames(frames) && |frames| >= 4
    ensures fresh(v) && v.Valid() && err == Ok
    ensures Translate(v.mem, v.root, 0x40_0000) == Mapped(0x8040_0000, 15)
    ensures Translate(v.mem, v.root, 0x60_0000) == Unmapped
    ensures Translate(v.mem, v.root, 0x60_1000) == Mapped(0x8060_0000, 15)
    ensures Translate(v.mem, v.root, 0x60_2000) == Unmapped
  {
    v := new Vtable(1, frames);
    assert Tables(0x20_1000, 0x40_1000) == 4;
    assert LandingOf(0x20_1000, 0x8020_0000, 0x40_1000, 0x40_0000) == At(0x8040_0000);
    assert LandingOf(0x20_1000, 0x8020_0000, 0x40_1000, 0x60_0000) == Stays;
    assert LandingOf(0x20_1000, 0x8020_0000, 0x40_1000, 0x60_1000) == At(0x8060_0000);
    assert LandingOf(0x20_1000, 0x8020_0000, 0x40_1000, 0x60_2000) == Stays;
    hide Wrong, Tables, Translate, Frames, Blocked, LandingOf, Landed;
    ghost var m := v.mem;
    err := CreateOnEmpty(v, 0x20_1000, 0x8020_0000, 0x40_1000, 15);
    AfterLanding(m, v.mem, v.root, 0x20_1000, 0x8020_0000, 0x40_1000, 15, 0x40_0000);
    AfterLanding(m, v.mem, v.root, 0x20_1000, 0x8020_0000, 0x40_1000, 15, 0x60_0000);
    AfterLanding(m, v.mem, v.root, 0x20_1000, 0x8020_0000, 0x40_1000, 15, 0x60_1000);
    AfterLanding(m, v.mem, v.root, 0x20_1000, 0x8020_0000, 0x40_1000, 15, 0x60_2000);
  }

  /** The same one level up. */
  method CreateLeavesGapGiga(frames: seq<nat>) returns (v: Vtable, err: Err)
    requires Frames(frames) && |frames| >= 1028
    ensures fresh(v) && v.Valid() && err == Ok
    ensures Translate(v.mem, v.root, 0x8000_0000) == Mapped(0xC000_0000, 15)
    ensures Translate(v.mem, v.root, 0xC000_0000) == Unmapped
    ensures Translate(v.mem, v.root, 0xC000_1000) == Mapped(0x1_0000_0000, 15)
  {
    v := new Vtable(1, frames);
    assert Tables(0x4000_1000, 0x8000_1000) == 1028;
    assert LandingOf(0x4000_1000, 0x8000_0000, 0x8000_1000, 0x8000_0000) == At(0xC000_0000);
    assert LandingOf(0x4000_1000, 0x8000_0000, 0x8000_1000, 0xC000_0000) == Stays;
    assert LandingOf(0x4000_1000, 0x8000_0000, 0x8000_1000, 0xC000_1000) == At(0x1_0000_0000);
    hide Wrong, Tables, Translate, Frames, Blocked, LandingOf, Landed;
    ghost var m := v.mem;
    err := CreateOnEmpty(v, 0x4000_1000, 0x8000_0000, 0x8000_1000, 15);
    AfterLanding(m, v.mem, v.root, 0x4000_1000, 0x8000_0000, 0x8000_1000, 15, 0x8000_0000);
    AfterLanding(m, v.mem, v.root, 0x4000_1000, 0x8000_0000, 0x8000_1000, 15, 0xC000_0000);
    AfterLanding(m, v.mem, v.root, 0x4000_1000, 0x8000_0000, 0x8000_1000, 15, 0xC000_1000);
  }

  /** Where no test misfires every address of the range lands at its own distance from the target, and no other does. */
  lemma LandsAsAsked(va: nat, pa: nat, size: nat, x: nat)
    requires size > 0 && va + size <= SPACE
    ensures Wrong(va, pa, size) == 0 ==>
              LandingOf(va, pa, size, x) == if va <= x < va + size then At(pa + (x - va)) else Stays
  {
    ChunkAtMost(va, size, GIGA);
    hide Chunk;
  }

  /** A first-level table with a second-level table below it, whose entry 1 is a superpage. */
  function OneSuperpage(): Memory {
    map[1 := EmptyTable()[0 := Entry(2, TABLE_PROT)], 2 := EmptyTable()[1 := Entry(0x8_0200, 15)]]
  }

  /** The same with entry 1 null and entry 2 a third-level table, whose first entry is a page. */
  function OnePage(): Memory {
    map[1 := EmptyTable()[0 := Entry(2, TABLE_PROT)], 2 := EmptyTable()[2 := Entry(3, TABLE_PROT)],
        3 := EmptyTable()[0 := Entry(0x8_0000, 15)]]
  }

  lemma OneSuperpageSweep()
    ensures SweepOf(OneSuperpage(), 1, 0x20_1000, 0x20_0000) == Straight(0x20_0000)
    ensures !CanRemove(OneSuperpage(), 1, 0x20_1000, 0x20_0000)
    ensures Resolve(OneSuperpage(), 1, 0x40_1000) == Nothing
    ensures Translate(OneSuperpage(), 1, 0x20_0000) == Mapped(0x8020_0000, 15)
  {
    assert FirstTable(OneSuperpage(), 2, 0x40_1000, 0, MEGA) == NoTable;
  }

  lemma OnePageSweep()
    ensures SweepOf(OnePage(), 1, 0x20_1000, 0x20_0000) == Sweep(0x20_0000, 0x40_0000, 0x40_1000, 0, 0)
    ensures !CanRemove(OnePage(), 1, 0x20_1000, 0x20_0000)
    ensures Resolve(OnePage(), 1, 0x40_1000) == Nothing
    ensures Translate(OnePage(), 1, 0x40_0000) == Mapped(0x8000_0000, 15)
  {
    assert FirstTable(OnePage(), 2, 0x40_1000, 0, MEGA) == Table(0x40_1000, 0);
  }

  /** A range whose end is unmapped does not stop a removal that gets as far. */
  lemma NotStopped(m: Memory, m': Memory, root: nat, x: nat)
    requires OnlyClears(m, m', root) && x < SPACE && Resolve(m, root, x) == Nothing
    ensures !Blocked(m', root, x)
  {
    hide Resolve;
  }

  lemma AfterSweep(m: Memory, m': Memory, root: nat, s: Sweep, end: nat, x: nat)
    requires Swept(m, m', root, s, end) && x < SPACE
    ensures Translate(m', root, x) == if Clears(s, end, x) then Unmapped else Translate(m, root, x)
  {
    assert SweptAt(m, m', root, s, end, x);
  }

  /** A range that starts a page into a block which one superpage serves: the page before it is lost with it. */
  method RemoveLosesPageBefore(v: Vtable) returns (err: Err)
    requires v.Valid() && v.root == 1 && v.mem == OneSuperpage()
    modifies v
    ensures err == Ok
    ensures Translate(old(v.mem), 1, 0x20_0000) == Mapped(0x8020_0000, 15)
    ensures Translate(v.mem, 1, 0x20_0000) == Unmapped
  {
    hide SweepOf, CanRemove, OneSuperpage, Resolve, Translate, OnlyClears, Blocked, Swept, Maps, Vtable.Valid;
    ghost var m := v.mem;
    OneSuperpageSweep();
    ghost var done;
    err, done := v.RemoveMapping(0x20_1000, 0x20_0000);
    NotStopped(m, v.mem, 1, 0x40_1000);
    if err == Ok {
      AfterSweep(m, v.mem, 1, Straight(0x20_0000), 0x40_1000, 0x20_0000);
    }
  }

  /** A range that starts a page into an empty block, with a table for the next: the head of that one stays mapped. */
  method RemoveLeavesHead(v: Vtable) returns (err: Err)
    requires v.Valid() && v.root == 1 && v.mem == OnePage()
    modifies v
    ensures err == Ok
    ensures Translate(v.mem, 1, 0x40_0000) == Mapped(0x8000_0000, 15)
  {
    hide SweepOf, CanRemove, OnePage, Resolve, Translate, OnlyClears, Blocked, Swept, Maps, Vtable.Valid;
    ghost var m := v.mem;
    OnePageSweep();
    ghost var done;
    err, done := v.RemoveMapping(0x20_1000, 0x20_0000);
    NotStopped(m, v.mem, 1, 0x40_1000);
    if err == Ok {
      AfterSweep(m, v.mem, 1, Sweep(0x20_0000, 0x40_0000, 0x40_1000, 0, 0), 0x40_1000, 0x40_0000);
    }
  }

  /** A first-level table with a superpage in entry 1. */
  function OneGigaSuperpage(): Memory {
    map[1 := EmptyTable()[1 := Entry(0x8_0000, 15)]]
  }

  /** Entry 1 null, and below entry 2 a page at the start of the block. */
  function OnePageInNext(): Memory {
    map[1 := EmptyTable()[2 := Entry(2, TABLE_PROT)], 2 := EmptyTable()[0 := Entry(3, TABLE_PROT)],
        3 := EmptyTable()[0 := Entry(0x8_0000, 15)]]
  }

  lemma OneGigaSuperpageSweep()
    ensures SweepOf(OneGigaSuperpage(), 1, 0x4000_1000, 0x4000_0000) == Straight(0x4000_0000)
    ensures Astray(0x4000_1000, 0x4000_0000, GIGA, Get(OneGigaSuperpage(), 1, I1(0x4000_1000)))
    ensures Resolve(OneGigaSuperpage(), 1, 0x8000_1000) == Nothing
    ensures Translate(OneGigaSuperpage(), 1, 0x4000_0000) == Mapped(0x8000_0000, 15)
  {
    assert FirstTable(OneGigaSuperpage(), 1, 0x8000_1000, 0, GIGA) == NoTable;
  }

  lemma OnePageInNextSweep()
    ensures SweepOf(OnePageInNext(), 1, 0x4000_1000, 0x4000_0000) == Sweep(0x4000_0000, 0x8000_0000, 0x8000_1000, 0, 0)
    ensures Astray(0x4000_1000, 0x4000_0000, GIGA, Get(OnePageInNext(), 1, I1(0x4000_1000)))
    ensures Translate(OnePageInNext(), 1, 0x8000_0000) == Mapped(0x8000_0000, 15)
    ensures Resolve(OnePageInNext(), 1, 0x8000_1000) == Nothing
  {
    assert FirstTable(OnePageInNext(), 1, 0x8000_1000, 0, GIGA) == Table(0x8000_1000, 0);
  }

  /** The page before the range is lost one level up as well. */
  method RemoveLosesPageBeforeGiga(v: Vtable) returns (err: Err)
    requires v.Valid() && v.root == 1 && v.mem == OneGigaSuperpage()
    modifies v
    ensures err == Ok
    ensures Translate(old(v.mem), 1, 0x4000_0000) == Mapped(0x8000_0000, 15)
    ensures Translate(v.mem, 1, 0x4000_0000) == Unmapped
  {
    hide SweepOf, CanRemove, Astray, OneGigaSuperpage, Resolve, Translate, OnlyClears, Blocked, Swept, Maps;
    hide Vtable.Valid;
    ghost var m := v.mem;
    OneGigaSuperpageSweep();
    ghost var done;
    err, done := v.RemoveMapping(0x4000_1000, 0x4000_0000);
    NotStopped(m, v.mem, 1, 0x8000_1000);
    if err == Ok {
      AfterSweep(m, v.mem, 1, Straight(0x4000_0000), 0x8000_1000, 0x4000_0000);
    }
  }

  /** What a call that succeeds leaves of the head of the next block, one level up. */
  method RemoveLeavesHeadGiga(v: Vtable) returns (err: Err)
    requires v.Valid() && v.root == 1 && v.mem == OnePageInNext()
    modifies v
    ensures err == Ok
    ensures Translate(v.mem, 1, 0x8000_0000) == Mapped(0x8000_0000, 15)
  {
    hide SweepOf, CanRemove, Astray, OnePageInNext, Resolve, Translate, OnlyClears, Blocked, Swept, Maps, Vtable.Valid;
    ghost var m := v.mem;
    OnePageInNextSweep();
    ghost var done;
    err, done := v.RemoveMapping(0x4000_1000, 0x4000_0000);
    NotStopped(m, v.mem, 1, 0x8000_1000);
    if err == Ok {
      AfterSweep(m, v.mem, 1, Sweep(0x4000_0000, 0x8000_0000, 0x8000_1000, 0, 0), 0x8000_1000, 0x8000_0000);
    }
  }

  /** The kernel's linear window onto physical memory. */
  const KERNEL_START := 0x20_0000_0000
  const MEMORY_BASE := 0x8000_0000

  function KernelAlias(pa: nat): nat {
    pa + (KERNEL_START - MEMORY_BASE)
  }

  /** The software walk for a user address; 0 is the null pointer. */
  function UserToKernel(m: Memory, root: nat, va: nat): nat {
    var e1 := Get(m, root, I1(va));
    if e1.IsNull() then 0
    else if !e1.IsTable() then 0
    else
      var e2 := Get(m, e1.ppn, I2(va));
      if e2.IsNull() then 0
      else if !e2.IsTable() then 0
      else
        var e3 := Get(m, e2.ppn, I3(va));
        if e3.IsNull() then 0 else KernelAlias(e3.ppn * PAGE) + va % PAGE
  }

  /** The walk answers exactly for the addresses a 4 KiB leaf serves, and then with the alias of their translation. */
  lemma WalkFindsPages(m: Memory, root: nat, va: nat)
    ensures UserToKernel(m, root, va) != 0 <==> Resolve(m, root, va).Leaf? && Resolve(m, root, va).reach == PAGE
    ensures UserToKernel(m, root, va) != 0 ==>
              Translate(m, root, va).Mapped? && UserToKernel(m, root, va) == KernelAlias(Translate(m, root, va).pa)
    ensures Translate(m, root, va) == Unmapped ==> UserToKernel(m, root, va) == 0
  {
  }

  /**
   * The answer reads the right byte: in a kernel table that maps the window onto n bytes of memory it translates to
   * where the user's table sends the address, and lies in the window.
   */
  lemma WalkReadsThePage(m: Memory, root: nat, va: nat, m0: Memory, kernel: Memory, top: nat, n: nat, prot: nat)
    requires Maps(m0, kernel, top, 0x20_0000_0000, 0x20_0000_0000 + n, To(0x8000_0000, prot))
    requires 0x20_0000_0000 + n <= SPACE && UserToKernel(m, root, va) != 0
    requires Translate(m, root, va).Mapped? ==> 0x8000_0000 <= Translate(m, root, va).pa < 0x8000_0000 + n
    ensures Translate(m, root, va).Mapped?
    ensures 0x20_0000_0000 <= UserToKernel(m, root, va) < 0x20_0000_0000 + n
    ensures Translate(kernel, top, UserToKernel(m, root, va)) == Mapped(Translate(m, root, va).pa, prot)
  {
    WalkFindsPages(m, root, va);
    assert MapsAt(m0, kernel, top, 0x20_0000_0000, 0x20_0000_0000 + n, To(0x8000_0000, prot),
                  UserToKernel(m, root, va));
    hide UserToKernel, Resolve;
  }

  /**
   * Permission bits of an entry that the processor accepts in a leaf: valid, and not writable without being
   * readable.
   */
  predicate HardwareProt(prot: nat) {
    Present(prot) && (Writable(prot) ==> Readable(prot))
  }

  predicate Present(prot: nat) { prot % 2 == 1 }
  predicate Readable(prot: nat) { prot / 2 % 2 == 1 }
  predicate Writable(prot: nat) { prot / 4 % 2 == 1 }
  predicate Executable(prot: nat) { prot / 8 % 2 == 1 }

  lemma AccessIs(e: Entry)
    ensures e.Access() == 0 <==> !Readable(e.prot) && !Writable(e.prot) && !Executable(e.prot)
  {
    ThreeBits(e.prot / 2);
    Shifts(e.prot);
  }

  lemma Shifts(x: nat)
    ensures x / 4 == x / 2 / 2 && x / 8 == x / 2 / 4
  {
  }

  lemma ThreeBits(y: nat)
    ensures y % 8 == 0 <==> y % 2 == 0 && y / 2 % 2 == 0 && y / 4 % 2 == 0
  {
    TwoBits(y);
    ThirdBit(y / 4, y % 4);
    assert y == 4 * (y / 4) + y % 4;
  }

  lemma TwoBits(y: nat)
    ensures y % 4 == 0 <==> y % 2 == 0 && y / 2 % 2 == 0
  {
  }

  lemma ThirdBit(q: nat, r: nat)
    requires r < 4
    ensures (4 * q + r) % 8 == 0 <==> q % 2 == 0 && r == 0
  {
  }

  lemma TableProt()
    ensures Present(TABLE_PROT) && !Readable(TABLE_PROT) && !Writable(TABLE_PROT) && !Executable(TABLE_PROT)
    ensures !Present(0)
  {
  }

  function Power512(level: nat): (r: nat)
    ensures r > 0
  {
    if level == 0 then 1 else 512 * Power512(level - 1)
  }

  /** The reach of an entry at a level. */
  function LevelReach(level: nat): (r: nat)
    ensures r > 0
  {
    PAGE * Power512(level)
  }

  /** The processor's walk, from the algorithm of section 4.4 (Sv39) of the RISC-V Privileged Architecture manual:
      an invalid or reserved entry, a misaligned superpage and a pointer at the last level all fault. */
  function HardwareWalk(m: Memory, a: nat, level: nat, va: nat): Mapping
    decreases level
  {
    var pte := Get(m, a, va / LevelReach(level) % ENTRIES);
    if !Present(pte.prot) || (!Readable(pte.prot) && Writable(pte.prot)) then Unmapped
    else if Readable(pte.prot) || Executable(pte.prot) then
      if pte.ppn % Power512(level) != 0 then Unmapped
      else Mapped(pte.ppn * PAGE + va % LevelReach(level), pte.prot)
    else if level == 0 then Unmapped
    else HardwareWalk(m, pte.ppn, level - 1, va)
  }

  lemma Levels()
    ensures Power512(0) == 1 && Power512(1) == 512 && Power512(2) == 512 * 512
    ensures LevelReach(0) == PAGE && LevelReach(1) == MEGA && LevelReach(2) == GIGA
  {
  }

  /** One step of the processor's walk on an entry of a well-shaped table. */
  lemma HardwareStep(m: Memory, a: nat, level: nat, va: nat, reach: nat, e: Entry)
    requires level <= 2 && reach == (if level == 2 then GIGA else if level == 1 then MEGA else PAGE)
    requires e == Get(m, a, va / reach % ENTRIES) && (e.IsNull() || e.IsTable() || e.IsLeaf())
    requires e.IsTable() ==> level > 0 && e.prot == TABLE_PROT
    requires e.IsLeaf() ==> HardwareProt(e.prot) && e.ppn * PAGE % reach == 0
    ensures HardwareWalk(m, a, level, va) ==
            if e.IsTable() then HardwareWalk(m, e.ppn, level - 1, va) else Place(LeafOf(e, reach), va)
  {
    Levels();
    LeafFrame(e.ppn);
    AccessIs(e);
    TableProt();
    hide Power512, LevelReach, Present, Readable, Writable, Executable, Entry.Access;
  }

  lemma LeafFrame(ppn: nat)
    ensures ppn * PAGE % GIGA == 0 <==> ppn % (512 * 512) == 0
    ensures ppn * PAGE % MEGA == 0 <==> ppn % 512 == 0
  {
    MultipleMod(ppn / 512, MEGA, ppn % 512 * PAGE);
    MultipleMod(ppn / 262144, GIGA, ppn % 262144 * PAGE);
    assert ppn * 0x1000 == ppn / 512 * 0x20_0000 + ppn % 512 * 0x1000;
    assert ppn * 0x1000 == ppn / 262144 * 0x4000_0000 + ppn % 262144 * 0x1000;
  }

  /** On every table create and remove can build, the processor translates as the flat map says. */
  lemma HardwareAgrees(m: Memory, root: nat, role: map<nat, Role>, va: nat)
    requires Shaped(m, root, role) && va < SPACE
    requires Translate(m, root, va).Mapped? ==> HardwareProt(Translate(m, root, va).prot)
    ensures HardwareWalk(m, root, 2, va) == Translate(m, root, va)
  {
    PathRoles(m, root, role, va);
    var e1 := Get(m, root, I1(va));
    assert EntryOk(m, role, role[root], I1(va), e1);
    HardwareStep(m, root, 2, va, GIGA, e1);
    if e1.IsTable() {
      var e2 := Get(m, e1.ppn, I2(va));
      assert EntryOk(m, role, role[e1.ppn], I2(va), e2);
      HardwareStep(m, e1.ppn, 1, va, MEGA, e2);
      if e2.IsTable() {
        var e3 := Get(m, e2.ppn, I3(va));
        assert EntryOk(m, role, role[e2.ppn], I3(va), e3);
        HardwareStep(m, e2.ppn, 0, va, PAGE, e3);
      }
    }
  }
}
