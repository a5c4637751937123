/** Three-level Sv39 page tables in memory, and what they translate. */
module PageTable {

  const PAGE := 0x1000         // the reach of a third-level entry
  const MEGA := 0x20_0000      // the reach of a second-level entry
  const GIGA := 0x4000_0000    // the reach of a first-level entry
  const SPACE := 0x80_0000_0000
  const ENTRIES := 512

  const VALID := 1
  const GLOBAL := 32
  const TABLE_PROT := VALID + GLOBAL

  /** A 64-bit entry: the frame number in bits 10 to 63 and the low ten bits. */
  datatype Entry = Entry(ppn: nat, prot: nat) {
    function Value(): nat { ppn * 1024 + prot }

    /** Bits 1 to 3: readable, writable, executable. */
    function Access(): nat { prot / 2 % 8 }

    predicate IsNull() { ppn == 0 && prot == 0 }

    /** Points to a table of the next level. */
    predicate IsTable() { Access() == 0 && ppn != 0 }

    predicate IsLeaf() { Access() != 0 }
  }

  const NULL_ENTRY := Entry(0, 0)

  /** The tests the kernel makes on the 64-bit value are the tests on the fields. */
  lemma EntryFields(e: Entry)
    requires e.prot < 1024
    ensures e.Value() / 1024 == e.ppn && e.Value() % 1024 == e.prot
    ensures e.IsNull() <==> e.Value() == 0
    ensures e.Access() == e.Value() / 2 % 8
    ensures e.IsTable() <==> e.Value() / 2 % 8 == 0 && e.Value() / 1024 != 0
  {
    AccessBits(e.ppn, e.prot);
  }

  lemma AccessBits(ppn: nat, prot: nat)
    ensures (ppn * 1024 + prot) / 2 % 8 == prot / 2 % 8
  {
    var high, low := ppn * 64, prot / 2;
    assert (ppn * 1024 + prot) / 2 == 8 * high + low;
    LowThreeBits(high, low);
  }

  lemma LowThreeBits(high: nat, low: nat)
    ensures (8 * high + low) % 8 == low % 8
  {
  }

  type Table = seq<Entry>
  type Memory = map<nat, Table>

  function EmptyTable(): (t: Table)
    ensures |t| == ENTRIES && forall i :: 0 <= i < ENTRIES ==> t[i] == NULL_ENTRY
  {
    seq(ENTRIES, _ => NULL_ENTRY)
  }

  function Get(m: Memory, t: nat, i: nat): Entry {
    if t in m && i < |m[t]| then m[t][i] else NULL_ENTRY
  }

  function Put(m: Memory, t: nat, i: nat, e: Entry): Memory
    requires t in m && i < |m[t]|
  {
    m[t := m[t][i := e]]
  }

  function I1(va: nat): nat { va / GIGA % ENTRIES }
  function I2(va: nat): nat { va / MEGA % ENTRIES }
  function I3(va: nat): nat { va / PAGE % ENTRIES }

  /** What an address resolves to: the leaf entry and the reach of the level it stands at. */
  datatype Resolution = Nothing | Leaf(entry: Entry, reach: nat)

  function LeafOf(e: Entry, reach: nat): Resolution {
    if e.IsNull() then Nothing else Leaf(e, reach)
  }

  function Resolve3(m: Memory, t: nat, va: nat): Resolution {
    LeafOf(Get(m, t, I3(va)), PAGE)
  }

  function Resolve2(m: Memory, t: nat, va: nat): Resolution {
    var e := Get(m, t, I2(va));
    if e.IsTable() then Resolve3(m, e.ppn, va) else LeafOf(e, MEGA)
  }

  function Resolve(m: Memory, root: nat, va: nat): Resolution {
    var e := Get(m, root, I1(va));
    if e.IsTable() then Resolve2(m, e.ppn, va) else LeafOf(e, GIGA)
  }

  datatype Mapping = Unmapped | Mapped(pa: nat, prot: nat)

  function Place(r: Resolution, va: nat): Mapping {
    match r
    case Nothing => Unmapped
    case Leaf(e, reach) => if reach == 0 then Unmapped else Mapped(e.ppn * PAGE + va % reach, e.prot)
  }

  /** The flat map a table stands for. */
  function Translate(m: Memory, root: nat, va: nat): Mapping {
    Place(Resolve(m, root, va), va)
  }

  /** Where a table hangs in the tree. */
  datatype Role = Top | Middle(i1: nat) | Bottom(i1: nat, i2: nat)

  ghost predicate Shaped(m: Memory, root: nat, role: map<nat, Role>) {
    && root in m && m.Keys <= role.Keys && role[root] == Top
    && (forall t :: t in m ==> t > 0 && |m[t]| == ENTRIES)
    && (forall t, i :: t in m && 0 <= i < ENTRIES ==> EntryOk(m, role, role[t], i, m[t][i]))
  }

  /** An entry is null, an aligned leaf, or a pointer to the table that hangs there. */
  ghost predicate EntryOk(m: Memory, role: map<nat, Role>, r: Role, i: nat, e: Entry) {
    && e.prot < 1024
    && (e.IsNull() || e.IsTable() || e.IsLeaf())
    && match r
       case Top => (e.IsTable() ==> HangsAs(m, role, e, Middle(i))) && (e.IsLeaf() ==> e.ppn * PAGE % GIGA == 0)
       case Middle(i1) =>
         && (e.IsTable() ==> HangsAs(m, role, e, Bottom(i1, i)))
         && (e.IsLeaf() ==> e.ppn * PAGE % MEGA == 0)
       case Bottom(_, _) => !e.IsTable()
  }

  ghost predicate HangsAs(m: Memory, role: map<nat, Role>, e: Entry, r: Role) {
    e.ppn in m && e.ppn in role && role[e.ppn] == r && e.prot == TABLE_PROT
  }

  /** t is the second-level table of va. */
  ghost predicate Middling(m: Memory, root: nat, va: nat, t: nat) {
    Get(m, root, I1(va)).IsTable() && Get(m, root, I1(va)).ppn == t
  }

  /** t is the third-level table of va, below the second-level table t2. */
  ghost predicate Bottoming(m: Memory, root: nat, va: nat, t2: nat, t: nat) {
    Middling(m, root, va, t2) && Get(m, t2, I2(va)).IsTable() && Get(m, t2, I2(va)).ppn == t
  }

  /** Equal quotients are equal indices all the way down. */
  lemma SameIndices(x: nat, y: nat)
    requires x < SPACE && y < SPACE
    ensures I1(x) == I1(y) <==> x / GIGA == y / GIGA
    ensures I1(x) == I1(y) && I2(x) == I2(y) <==> x / MEGA == y / MEGA
    ensures I1(x) == I1(y) && I2(x) == I2(y) && I3(x) == I3(y) <==> x / PAGE == y / PAGE
  {
  }

  lemma PathRoles(m: Memory, root: nat, role: map<nat, Role>, va: nat)
    requires Shaped(m, root, role)
    ensures var e := Get(m, root, I1(va));
            e.IsTable() ==> && e.ppn in m && role[e.ppn] == Middle(I1(va))
                            && var e2 := Get(m, e.ppn, I2(va));
                               && (e2.IsTable() ==> e2.ppn in m && role[e2.ppn] == Bottom(I1(va), I2(va))
                                                    && !Get(m, e2.ppn, I3(va)).IsTable())
  {
    var e := Get(m, root, I1(va));
    assert EntryOk(m, role, role[root], I1(va), e);
    if e.IsTable() {
      var e2 := Get(m, e.ppn, I2(va));
      assert EntryOk(m, role, role[e.ppn], I2(va), e2);
      if e2.IsTable() {
        assert EntryOk(m, role, role[e2.ppn], I3(va), Get(m, e2.ppn, I3(va)));
      }
    }
  }

  /** Writing a non-table entry at the third level changes one page. */
  lemma WriteBottom(m: Memory, root: nat, role: map<nat, Role>, va: nat, t2: nat, t: nat, e: Entry, x: nat)
    requires Shaped(m, root, role) && Bottoming(m, root, va, t2, t) && !e.IsTable() && va < SPACE && x < SPACE
    ensures t in m && I3(va) < |m[t]|
    ensures Resolve(Put(m, t, I3(va), e), root, x)
            == if x / PAGE == va / PAGE then LeafOf(e, PAGE) else Resolve(m, root, x)
  {
    PathRoles(m, root, role, va);
    PathRoles(m, root, role, x);
    SameIndices(x, va);
  }

  /** Writing a non-table entry at the second level changes one 2 MiB block. */
  lemma WriteMiddle(m: Memory, root: nat, role: map<nat, Role>, va: nat, t: nat, e: Entry, x: nat)
    requires Shaped(m, root, role) && Middling(m, root, va, t) && !e.IsTable() && va < SPACE && x < SPACE
    ensures t in m && I2(va) < |m[t]|
    ensures Resolve(Put(m, t, I2(va), e), root, x)
            == if x / MEGA == va / MEGA then LeafOf(e, MEGA) else Resolve(m, root, x)
  {
    PathRoles(m, root, role, va);
    PathRoles(m, root, role, x);
    SameIndices(x, va);
  }

  /** Writing a non-table entry at the first level changes one 1 GiB block. */
  lemma WriteTop(m: Memory, root: nat, role: map<nat, Role>, va: nat, e: Entry, x: nat)
    requires Shaped(m, root, role) && !e.IsTable() && va < SPACE && x < SPACE
    ensures Resolve(Put(m, root, I1(va), e), root, x)
            == if x / GIGA == va / GIGA then LeafOf(e, GIGA) else Resolve(m, root, x)
  {
    PathRoles(m, root, role, x);
    SameIndices(x, va);
  }

  /** Hanging a fresh empty table in place of a null entry changes no translation. */
  lemma HangMiddle(m: Memory, root: nat, role: map<nat, Role>, va: nat, spare: nat, x: nat)
    requires Shaped(m, root, role) && spare !in m && spare > 0 && Get(m, root, I1(va)).IsNull()
    ensures Resolve(Put(m[spare := EmptyTable()], root, I1(va), Entry(spare, TABLE_PROT)), root, x)
            == Resolve(m, root, x)
  {
    PathRoles(m, root, role, x);
  }

  lemma HangBottom(m: Memory, root: nat, role: map<nat, Role>, va: nat, t: nat, spare: nat, x: nat)
    requires Shaped(m, root, role) && spare !in m && spare > 0 && Middling(m, root, va, t) && Get(m, t, I2(va)).IsNull()
    ensures t in m && I2(va) < |m[t]|
    ensures Resolve(Put(m[spare := EmptyTable()], t, I2(va), Entry(spare, TABLE_PROT)), root, x) == Resolve(m, root, x)
  {
    PathRoles(m, root, role, va);
    PathRoles(m, root, role, x);
  }

  /** The shape survives a write of a fitting entry. */
  lemma WriteKeepsShape(m: Memory, root: nat, role: map<nat, Role>, t: nat, i: nat, e: Entry)
    requires Shaped(m, root, role) && t in m && i < ENTRIES && EntryOk(m, role, role[t], i, e)
    ensures Shaped(Put(m, t, i, e), root, role)
  {
    var m' := Put(m, t, i, e);
    forall u, j | u in m' && 0 <= j < ENTRIES
      ensures EntryOk(m', role, role[u], j, m'[u][j])
    {
      assert EntryOk(m, role, role[u], j, m[u][j]);
      assert EntryOk(m, role, role[u], j, m'[u][j]);
    }
  }

  /** The shape survives the arrival of a fresh empty table, whatever its role. */
  lemma FreshKeepsShape(m: Memory, root: nat, role: map<nat, Role>, spare: nat, r: Role)
    requires Shaped(m, root, role) && spare !in m && spare > 0
    ensures Shaped(m[spare := EmptyTable()], root, role[spare := r])
  {
    var m', role' := m[spare := EmptyTable()], role[spare := r];
    forall u, j | u in m' && 0 <= j < ENTRIES
      ensures EntryOk(m', role', role'[u], j, m'[u][j])
    {
      if u != spare {
        assert EntryOk(m, role, role[u], j, m[u][j]);
      }
    }
  }

  /** What a stretch of addresses is made to translate to. */
  datatype Target = To(pa: nat, prot: nat) | Away

  function TargetAt(target: Target, offset: nat): Mapping {
    match target
    case To(pa, prot) => Mapped(pa + offset, prot)
    case Away => Unmapped
  }

  function Shift(target: Target, offset: nat): Target {
    match target
    case To(pa, prot) => To(pa + offset, prot)
    case Away => Away
  }

  function EntryFor(target: Target): Entry {
    match target
    case To(pa, prot) => Entry(pa / PAGE, prot)
    case Away => NULL_ENTRY
  }

  /** A target of leaf permissions aligned to the reach of a level. */
  predicate Fits(target: Target, reach: nat)
    requires reach > 0
  {
    target.To? ==> target.pa % PAGE == 0 && target.pa % reach == 0 && LeafProt(target.prot)
  }

  predicate LeafProt(prot: nat) {
    prot < 1024 && prot / 2 % 8 != 0
  }

  /** The leaf that serves x lies within the stretch, and above the first block of its level when it is a superpage. */
  predicate LeafInside(r: Resolution, x: nat, lo: nat, hi: nat) {
    r.Leaf? && r.reach > 0 ==>
      && lo <= x - x % r.reach && x - x % r.reach + r.reach <= hi
      && (r.reach > PAGE ==> x >= r.reach)
  }

  /** From m0 to m the stretch lo .. hi is redirected to the target by leaves of its own, and nothing else changes. */
  ghost predicate Maps(m0: Memory, m: Memory, root: nat, lo: nat, hi: nat, target: Target) {
    forall x: nat :: x < SPACE ==> MapsAt(m0, m, root, lo, hi, target, x)
  }

  ghost predicate MapsAt(m0: Memory, m: Memory, root: nat, lo: nat, hi: nat, target: Target, x: nat) {
    if lo <= x < hi then
      && Translate(m, root, x) == TargetAt(target, x - lo)
      && LeafInside(Resolve(m, root, x), x, lo, hi)
    else
      Resolve(m, root, x) == Resolve(m0, root, x)
  }

  lemma MapsNothing(m: Memory, root: nat, lo: nat, target: Target)
    ensures Maps(m, m, root, lo, lo, target)
  {
  }

  lemma MapsCompose(m0: Memory, m1: Memory, m2: Memory, root: nat, lo: nat, mid: nat, hi: nat, target: Target)
    requires lo <= mid <= hi
    requires Maps(m0, m1, root, lo, mid, target) && Maps(m1, m2, root, mid, hi, Shift(target, mid - lo))
    ensures Maps(m0, m2, root, lo, hi, target)
  {
    forall x: nat | x < SPACE
      ensures MapsAt(m0, m2, root, lo, hi, target, x)
    {
      assert MapsAt(m0, m1, root, lo, mid, target, x) && MapsAt(m1, m2, root, mid, hi, Shift(target, mid - lo), x);
    }
  }

  /** A block of one level, resolved to one entry, lies at consecutive addresses. */
  lemma BlockPlaced(va: nat, target: Target, reach: nat, x: nat)
    requires reach == PAGE || reach == MEGA || reach == GIGA
    requires va % reach == 0 && Fits(target, reach) && (reach > PAGE && target.To? ==> va >= reach)
    ensures x / reach == va / reach <==> va <= x < va + reach
    ensures va <= x < va + reach ==>
              && Place(LeafOf(EntryFor(target), reach), x) == TargetAt(target, x - va)
              && LeafInside(LeafOf(EntryFor(target), reach), x, va, va + reach)
  {
  }

  lemma StepBottom(m: Memory, root: nat, role: map<nat, Role>, va: nat, t2: nat, t: nat, target: Target)
    requires Shaped(m, root, role) && Bottoming(m, root, va, t2, t) && va < SPACE && va % PAGE == 0
             && Fits(target, PAGE)
    ensures t in m && I3(va) < |m[t]| && t != root && t != t2
    ensures var m' := Put(m, t, I3(va), EntryFor(target));
            Maps(m, m', root, va, va + PAGE, target) && Shaped(m', root, role)
  {
    PathRoles(m, root, role, va);
    var m', end := Put(m, t, I3(va), EntryFor(target)), va + PAGE;
    forall x: nat | x < SPACE
      ensures MapsAt(m, m', root, va, end, target, x)
    {
      WriteBottom(m, root, role, va, t2, t, EntryFor(target), x);
      BlockPlaced(va, target, PAGE, x);
    }
    WriteKeepsShape(m, root, role, t, I3(va), EntryFor(target));
  }

  lemma StepMiddle(m: Memory, root: nat, role: map<nat, Role>, va: nat, t: nat, target: Target)
    requires Shaped(m, root, role) && Middling(m, root, va, t) && va < SPACE && va % MEGA == 0 && Fits(target, MEGA)
    requires target.To? ==> va >= MEGA
    ensures t in m && I2(va) < |m[t]| && t != root
    ensures var m' := Put(m, t, I2(va), EntryFor(target));
            Maps(m, m', root, va, va + MEGA, target) && Shaped(m', root, role)
  {
    PathRoles(m, root, role, va);
    var m', end := Put(m, t, I2(va), EntryFor(target)), va + MEGA;
    forall x: nat | x < SPACE
      ensures MapsAt(m, m', root, va, end, target, x)
    {
      WriteMiddle(m, root, role, va, t, EntryFor(target), x);
      BlockPlaced(va, target, MEGA, x);
    }
    WriteKeepsShape(m, root, role, t, I2(va), EntryFor(target));
  }

  lemma StepTop(m: Memory, root: nat, role: map<nat, Role>, va: nat, target: Target)
    requires Shaped(m, root, role) && va < SPACE && va % GIGA == 0 && Fits(target, GIGA)
    requires target.To? ==> va >= GIGA
    ensures var m' := Put(m, root, I1(va), EntryFor(target));
            Maps(m, m', root, va, va + GIGA, target) && Shaped(m', root, role)
  {
    var m', end := Put(m, root, I1(va), EntryFor(target)), va + GIGA;
    forall x: nat | x < SPACE
      ensures MapsAt(m, m', root, va, end, target, x)
    {
      WriteTop(m, root, role, va, EntryFor(target), x);
      BlockPlaced(va, target, GIGA, x);
    }
    WriteKeepsShape(m, root, role, root, I1(va), EntryFor(target));
  }

  /** A fresh table put where an entry was null: the same translations, and a longer path. */
  lemma StepHangMiddle(m: Memory, root: nat, role: map<nat, Role>, va: nat, spare: nat, lo: nat, target: Target)
    requires Shaped(m, root, role) && spare !in m && spare > 0 && Get(m, root, I1(va)).IsNull()
    ensures var m' := Put(m[spare := EmptyTable()], root, I1(va), Entry(spare, TABLE_PROT));
            var role' := role[spare := Middle(I1(va))];
            Maps(m, m', root, lo, lo, target) && Shaped(m', root, role') && Middling(m', root, va, spare)
  {
    var m' := Put(m[spare := EmptyTable()], root, I1(va), Entry(spare, TABLE_PROT));
    forall x: nat | x < SPACE
      ensures MapsAt(m, m', root, lo, lo, target, x)
    {
      HangMiddle(m, root, role, va, spare, x);
    }
    FreshKeepsShape(m, root, role, spare, Middle(I1(va)));
    WriteKeepsShape(m[spare := EmptyTable()], root, role[spare := Middle(I1(va))], root, I1(va),
                    Entry(spare, TABLE_PROT));
  }

  lemma StepHangBottom(m: Memory, root: nat, role: map<nat, Role>, va: nat, t: nat, spare: nat, lo: nat, target: Target)
    requires Shaped(m, root, role) && spare !in m && spare > 0 && Middling(m, root, va, t) && Get(m, t, I2(va)).IsNull()
    ensures t in m && I2(va) < |m[t]| && t != root && t != spare
    ensures var m' := Put(m[spare := EmptyTable()], t, I2(va), Entry(spare, TABLE_PROT));
            var role' := role[spare := Bottom(I1(va), I2(va))];
            Maps(m, m', root, lo, lo, target) && Shaped(m', root, role') && Bottoming(m', root, va, t, spare)
  {
    PathRoles(m, root, role, va);
    var m' := Put(m[spare := EmptyTable()], t, I2(va), Entry(spare, TABLE_PROT));
    forall x: nat | x < SPACE
      ensures MapsAt(m, m', root, lo, lo, target, x)
    {
      HangBottom(m, root, role, va, t, spare, x);
    }
    var role' := role[spare := Bottom(I1(va), I2(va))];
    FreshKeepsShape(m, root, role, spare, Bottom(I1(va), I2(va)));
    WriteKeepsShape(m[spare := EmptyTable()], root, role', t, I2(va), Entry(spare, TABLE_PROT));
  }
}
