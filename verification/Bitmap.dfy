/** Bitmaps kept in words of 64 bits, searched and filled a word at a time where possible. */
module Bitmap {
  import opened Powers

  const LIMIT := Pow2(64)
  const NOT_FOUND := LIMIT - 1

  // ---------------------------------------------------------------- words and bits

  /** Bit k of a word: shift right by k, keep the lowest bit. */
  predicate Bit(w: nat, k: nat) {
    w / Pow2(k) % 2 == 1
  }

  /** Or-ing in the mask 1 << k adds that power of two where it is missing. */
  function OrMask(w: nat, k: nat): (r: nat) {
    if Bit(w, k) then w else w + Pow2(k)
  }

  /** And-ing with the complement of the mask takes it away where it is present. */
  function AndNotMask(w: nat, k: nat): (r: nat)
    ensures r <= w
  {
    if Bit(w, k) then BitMeansAtLeast(w, k); w - Pow2(k) else w
  }

  /** The word with all bits v. */
  function Uniform(v: bool): nat {
    if v then LIMIT - 1 else 0
  }

  lemma BitMeansAtLeast(w: nat, k: nat)
    requires Bit(w, k)
    ensures Pow2(k) <= w
  {
    if w < Pow2(k) {
      DivisionUnique(w, Pow2(k), 0, w);
      assert false;
    }
  }

  /** Bit k + 1 of a word is bit k of its half. */
  lemma BitOfHalf(w: nat, k: nat)
    ensures Bit(w, k + 1) == Bit(w / 2, k) && Bit(w, 0) == (w % 2 == 1)
  {
    var q, r := (w / 2) / Pow2(k), (w / 2) % Pow2(k);
    QuotientParts(w / 2, Pow2(k));
    DoubleProduct(q, Pow2(k));
    DivisionUnique(w, Pow2(k + 1), q, 2 * r + w % 2);
  }

  lemma QuotientParts(x: nat, m: nat)
    requires m > 0
    ensures x == x / m * m + x % m && x % m < m
  {
  }

  /** Or-ing a mask in sets its bit and no other bit changes. */
  lemma {:induction false} OrMaskBit(w: nat, k: nat, j: nat)
    ensures Bit(OrMask(w, k), j) == (j == k || Bit(w, j))
  {
    BitOfHalf(w, if j == 0 then 0 else j - 1);
    BitOfHalf(OrMask(w, k), if j == 0 then 0 else j - 1);
    if k > 0 {
      BitOfHalf(w, k - 1);
      assert OrMask(w, k) / 2 == OrMask(w / 2, k - 1) && OrMask(w, k) % 2 == w % 2;
      if j > 0 {
        OrMaskBit(w / 2, k - 1, j - 1);
      }
    } else {
      assert OrMask(w, k) / 2 == w / 2;
    }
  }

  /** And-ing with the complement of a mask clears its bit and no other bit changes. */
  lemma {:induction false} AndNotMaskBit(w: nat, k: nat, j: nat)
    ensures Bit(AndNotMask(w, k), j) == (j != k && Bit(w, j))
  {
    BitOfHalf(w, if j == 0 then 0 else j - 1);
    BitOfHalf(AndNotMask(w, k), if j == 0 then 0 else j - 1);
    if k > 0 {
      BitOfHalf(w, k - 1);
      assert AndNotMask(w, k) / 2 == AndNotMask(w / 2, k - 1) && AndNotMask(w, k) % 2 == w % 2;
      if j > 0 {
        AndNotMaskBit(w / 2, k - 1, j - 1);
      }
    } else {
      assert AndNotMask(w, k) / 2 == w / 2;
    }
  }

  /** Masks stay within the word. */
  lemma {:induction false} OrMaskFits(w: nat, k: nat, n: nat)
    requires k < n && w < Pow2(n)
    ensures OrMask(w, k) < Pow2(n)
  {
    BitOfHalf(w, if k == 0 then 0 else k - 1);
    if k == 0 {
    } else {
      OrMaskFits(w / 2, k - 1, n - 1);
    }
  }

  /** The first n bits of a number below 2^n all agree exactly in 0 and in 2^n - 1. */
  lemma {:induction false} UniformBits(v: bool, w: nat, n: nat)
    requires w < Pow2(n)
    ensures (forall j :: 0 <= j < n ==> Bit(w, j) == v) <==> w == if v then Pow2(n) - 1 else 0
  {
    if n == 0 {
    } else {
      UniformBits(v, w / 2, n - 1);
      BitOfHalf(w, 0);
      forall j | 0 <= j < n - 1
        ensures Bit(w / 2, j) == Bit(w, j + 1)
      {
        BitOfHalf(w, j);
      }
      hide Bit;
      if forall j :: 0 <= j < n ==> Bit(w, j) == v {
        assert forall j :: 0 <= j < n - 1 ==> Bit(w / 2, j) == v;
      }
      if w == (if v then Pow2(n) - 1 else 0) {
        forall j | 0 <= j < n
          ensures Bit(w, j) == v
        {
          assert j > 0 ==> Bit(w / 2, j - 1) == Bit(w, (j - 1) + 1);
        }
      }
    }
  }

  // ---------------------------------------------------------------- what a search finds

  /** The word bit i is in. */
  function GroupId(i: nat): (g: nat)
    ensures 64 * g <= i < 64 * g + 64
  {
    i / 64
  }

  /** The place of bit i in its word. */
  function IndexId(i: nat): (k: nat)
    ensures k < 64 && i == 64 * GroupId(i) + k
  {
    i % 64
  }

  /** Bit i of the map. */
  predicate BitAt(ws: seq<nat>, i: nat)
    requires i < 64 * |ws|
  {
    Bit(ws[GroupId(i)], IndexId(i))
  }

  predicate Words(ws: seq<nat>) {
    forall g :: 0 <= g < |ws| ==> ws[g] < LIMIT
  }

  /** The count bits from r on are all v. */
  predicate RunAt(ws: seq<nat>, v: bool, r: nat, count: nat) {
    forall i :: r <= i < r + count ==> BitIs(ws, i, v)
  }

  predicate BitIs(ws: seq<nat>, i: nat, v: bool) {
    i < 64 * |ws| && BitAt(ws, i) == v
  }

  /** The words are just enough to hold size bits. */
  predicate Holds(ws: seq<nat>, size: nat) {
    Words(ws) && size <= 64 * |ws| < size + 64 && 64 * |ws| + 64 <= LIMIT
  }

  /**
   * A run a search from start accepts at r: inside the map, or ending with the last word when it begins there
   * and is at least a word long.
   */
  predicate Accepts(ws: seq<nat>, size: nat, v: bool, start: nat, count: nat, r: nat)
    requires Holds(ws, size)
  {
    && 0 < count && start <= r && RunAt(ws, v, r, count)
    && (r + count <= size
        || (r + count == 64 * |ws| && count >= 64 && (r == start || (0 < r <= 64 * |ws| && BitAt(ws, r - 1) != v))))
  }

  /** The least run accepted, or NOT_FOUND when there is none. */
  ghost predicate Finds(ws: seq<nat>, size: nat, v: bool, start: nat, count: nat, r: nat)
    requires Holds(ws, size)
  {
    if r == NOT_FOUND then forall q :: start <= q ==> !Accepts(ws, size, v, start, count, q)
    else Accepts(ws, size, v, start, count, r) && forall q :: start <= q < r ==> !Accepts(ws, size, v, start, count, q)
  }

  /**
   * Any search: none of no bits is found; a run found has all its bits, from the start on, and ends inside the map or
   * with its last word; no run inside the map begins before it.
   */
  lemma SearchAlways(ws: seq<nat>, size: nat, v: bool, start: nat, count: nat, r: nat)
    requires Holds(ws, size) && Finds(ws, size, v, start, count, r)
    ensures count == 0 ==> r == NOT_FOUND
    ensures r != NOT_FOUND ==>
              && start <= r && RunAt(ws, v, r, count)
              && (r + count <= size || (r + count == 64 * |ws| && count >= 64))
    ensures count > 0 ==> forall q :: start <= q < r && q + count <= size ==> !RunAt(ws, v, q, count)
  {
    hide RunAt, BitAt, Pow2, Holds;
    forall q | start <= q < r && q + count <= size && count > 0
      ensures !RunAt(ws, v, q, count)
    {
      assert !Accepts(ws, size, v, start, count, q);
    }
  }

  /**
   * On maps of whole words, and for runs shorter than a word, a search is the naive one: the least run inside the
   * map.
   */
  lemma SearchIsNaive(ws: seq<nat>, size: nat, v: bool, start: nat, count: nat, r: nat)
    requires Holds(ws, size) && count > 0 && Finds(ws, size, v, start, count, r) && (size % 64 == 0 || count < 64)
    ensures r != NOT_FOUND ==> start <= r && r + count <= size && RunAt(ws, v, r, count)
    ensures forall q :: start <= q < r && q + count <= size ==> !RunAt(ws, v, q, count)
  {
    if size % 64 == 0 {
      WholeWords(|ws|, size);
    }
    hide RunAt, Holds, BitAt, Pow2;
    forall q | start <= q < r && q + count <= size
      ensures !RunAt(ws, v, q, count)
    {
      assert !Accepts(ws, size, v, start, count, q);
    }
  }

  /** Otherwise some map makes it return a run that ends beyond the map, if the words hold a run that long at all. */
  lemma SearchOvershootsExactlyWhen(n: nat, size: nat, v: bool, count: nat)
    requires 0 < count && size <= 64 * n < size + 64 && 64 * n + 64 <= LIMIT
    ensures (exists ws: seq<nat>, start: nat, r: nat :: |ws| == n && Holds(ws, size) && start < size && r != NOT_FOUND
                                                     && Finds(ws, size, v, start, count, r) && r + count > size)
       <==> size % 64 != 0 && 64 <= count <= 64 * n
  {
    hide Holds, Finds, Pow2;
    if size % 64 != 0 && 64 <= count <= 64 * n {
      UniformOvershoots(n, size, v, count);
    }
    forall ws: seq<nat>, start: nat, r: nat | |ws| == n && Holds(ws, size) && start < size && r != NOT_FOUND
                                              && Finds(ws, size, v, start, count, r) && r + count > size
      ensures size % 64 != 0 && 64 <= count <= 64 * n
    {
      OvershootNeeds(ws, size, v, start, count, r);
    }
  }

  lemma WholeWords(n: nat, size: nat)
    requires size % 64 == 0 && size <= 64 * n < size + 64
    ensures size == 64 * n
  {
  }

  lemma PartialWord(n: nat, size: nat)
    requires size % 64 != 0 && size <= 64 * n < size + 64
    ensures size < 64 * n
  {
  }

  lemma OvershootNeeds(ws: seq<nat>, size: nat, v: bool, start: nat, count: nat, r: nat)
    requires Holds(ws, size) && r != NOT_FOUND && Finds(ws, size, v, start, count, r) && r + count > size
    ensures size % 64 != 0 && 64 <= count <= 64 * |ws|
  {
    if size % 64 == 0 {
      WholeWords(|ws|, size);
    }
    hide RunAt, BitAt, Words, Pow2;
  }

  /** A map of uniform words holds a run from the last place it can begin. */
  lemma UniformOvershoots(n: nat, size: nat, v: bool, count: nat)
    requires size % 64 != 0 && 64 <= count <= 64 * n && size <= 64 * n < size + 64 && 64 * n + 64 <= LIMIT
    ensures exists ws: seq<nat>, start: nat, r: nat :: |ws| == n && Holds(ws, size) && start < size && r != NOT_FOUND
                                                    && Finds(ws, size, v, start, count, r) && r + count > size
  {
    var ws, start := UniformMap(n, v), 64 * n - count;
    PartialWord(n, size);
    UniformMapBits(n, v);
    hide UniformMap, Pow2, BitAt;
    assert Holds(ws, size) && start < size && start != NOT_FOUND;
    assert Accepts(ws, size, v, start, count, start);
    assert Finds(ws, size, v, start, count, start);
  }

  function UniformMap(n: nat, v: bool): seq<nat> {
    seq(n, _ => Uniform(v))
  }

  lemma UniformMapBits(n: nat, v: bool)
    ensures |UniformMap(n, v)| == n && Words(UniformMap(n, v))
    ensures forall i :: 0 <= i < 64 * n ==> BitAt(UniformMap(n, v), i) == v
  {
    UniformBits(v, Uniform(v), 64);
    hide GroupId, IndexId, Bit, Pow2;
  }

  // ---------------------------------------------------------------- how a search proceeds

  /** Subtraction of machine words. */
  function Minus(x: nat, y: nat): nat
    requires y <= x + LIMIT
  {
    if y <= x then x - y else x + LIMIT - y
  }

  /** The run under way began at ret and reaches up to i; nothing before ret is accepted. */
  ghost predicate Scanning(ws: seq<nat>, size: nat, v: bool, start: nat, count: nat, i: nat, ret: nat, remained: nat)
    requires Holds(ws, size)
  {
    && start <= ret <= i && (i <= 64 * |ws| || i == start) && RunAt(ws, v, ret, i - ret)
    && i - ret < LIMIT && remained == Minus(count, i - ret) && (0 < count ==> i - ret < count)
    && (ret == start || (0 < ret <= 64 * |ws| && BitAt(ws, ret - 1) != v))
    && (forall q :: start <= q < ret ==> !Accepts(ws, size, v, start, count, q))
    && (64 * |ws| - 64 < i < 64 * |ws| && ret + count == 64 * |ws| && count >= 64 ==> !RunAt(ws, v, ret, count))
  }

  lemma ScanStarts(ws: seq<nat>, size: nat, v: bool, start: nat, count: nat)
    requires Holds(ws, size) && count < LIMIT
    ensures Scanning(ws, size, v, start, count, start, start, count)
  {
  }

  /** One bit of a word, and the bits of one word. */
  lemma BitsOfWord(ws: seq<nat>, g: nat)
    requires g < |ws|
    ensures forall k :: 0 <= k < 64 ==> BitAt(ws, 64 * g + k) == Bit(ws[g], k)
  {
    hide Bit, GroupId, IndexId;
    forall k | 0 <= k < 64
      ensures BitAt(ws, 64 * g + k) == Bit(ws[g], k)
    {
      assert GroupId(64 * g + k) == g && IndexId(64 * g + k) == k;
    }
  }

  /** A word is uniform exactly when its 64 bits of the map are. */
  lemma UniformInMap(ws: seq<nat>, v: bool, g: nat)
    requires Words(ws) && g < |ws|
    ensures ws[g] == Uniform(v) <==> RunAt(ws, v, 64 * g, 64)
  {
    BitsOfWord(ws, g);
    UniformBits(v, ws[g], 64);
    hide GroupId, IndexId, Bit, BitAt, Pow2, Words;
    if RunAt(ws, v, 64 * g, 64) {
      forall k | 0 <= k < 64
        ensures Bit(ws[g], k) == v
      {
        assert BitIs(ws, 64 * g + k, v);
      }
    }
    if ws[g] == Uniform(v) {
      forall i | 64 * g <= i < 64 * g + 64
        ensures BitAt(ws, i) == v
      {
        var k := i - 64 * g;
        assert BitAt(ws, 64 * g + k) == Bit(ws[g], k);
      }
    }
  }

  /** The word test of the search. */
  predicate WholeWord(ws: seq<nat>, v: bool, i: nat, remained: nat) {
    IndexId(i) == 0 && remained >= 64 && GroupId(i) < |ws| && ws[GroupId(i)] == Uniform(v)
  }

  lemma ScanHit(ws: seq<nat>, size: nat, v: bool, start: nat, count: nat, i: nat, ret: nat, remained: nat)
    requires Holds(ws, size) && count < LIMIT && Scanning(ws, size, v, start, count, i, ret, remained)
    requires i < size && BitAt(ws, i) == v && !WholeWord(ws, v, i, remained)
    ensures Minus(remained, 1) == 0 ==> Finds(ws, size, v, start, count, ret)
    ensures Minus(remained, 1) != 0 ==> Scanning(ws, size, v, start, count, i + 1, ret, Minus(remained, 1))
  {
    if i + 64 == 64 * |ws| && ret + count == 64 * |ws| && count >= 64 {
      LastWordSpoilsRun(ws, v, count, i, ret, remained);
    }
    hide GroupId, IndexId, BitAt, Pow2, Words, WholeWord;
    assert RunAt(ws, v, ret, i + 1 - ret);
  }

  /** A run that needs the whole last word ends when that word was not taken whole. */
  lemma LastWordSpoilsRun(ws: seq<nat>, v: bool, count: nat, i: nat, ret: nat, remained: nat)
    requires Words(ws) && i + 64 == 64 * |ws| && ret + count == 64 * |ws| && ret <= i && remained == 64
    requires !WholeWord(ws, v, i, remained)
    ensures !RunAt(ws, v, ret, count)
  {
    UniformInMap(ws, v, |ws| - 1);
    hide GroupId, IndexId, BitAt, Pow2, Words, RunAt;
    SubRun(ws, v, ret, count, i, 64);
  }

  lemma SubRun(ws: seq<nat>, v: bool, r: nat, count: nat, r': nat, count': nat)
    requires r <= r' && r' + count' <= r + count
    ensures RunAt(ws, v, r, count) ==> RunAt(ws, v, r', count')
  {
    hide BitIs;
  }

  lemma ScanGroup(ws: seq<nat>, size: nat, v: bool, start: nat, count: nat, i: nat, ret: nat, remained: nat)
    requires Holds(ws, size) && count < LIMIT && Scanning(ws, size, v, start, count, i, ret, remained)
    requires i < size && WholeWord(ws, v, i, remained)
    ensures i + 64 <= 64 * |ws|
    ensures remained == 64 ==> Finds(ws, size, v, start, count, ret)
    ensures remained != 64 ==> Scanning(ws, size, v, start, count, i + 64, ret, remained - 64)
  {
    WholeWordIsRun(ws, v, i, remained);
    hide GroupId, IndexId, BitAt, Pow2, Words, WholeWord;
    assert RunAt(ws, v, ret, i + 64 - ret);
  }

  lemma WholeWordIsRun(ws: seq<nat>, v: bool, i: nat, remained: nat)
    requires Words(ws) && WholeWord(ws, v, i, remained)
    ensures remained >= 64 && RunAt(ws, v, i, 64) && (i + 64 == 64 * |ws| || i + 2 * 64 <= 64 * |ws|)
  {
    UniformInMap(ws, v, GroupId(i));
    hide GroupId, IndexId, RunAt, Words, Pow2;
  }

  lemma Interrupted(ws: seq<nat>, v: bool, q: nat, count: nat, i: nat)
    requires q <= i < q + count && i < 64 * |ws| && BitAt(ws, i) != v
    ensures !RunAt(ws, v, q, count)
  {
    assert !BitIs(ws, i, v);
  }

  lemma ScanMiss(ws: seq<nat>, size: nat, v: bool, start: nat, count: nat, i: nat, ret: nat, remained: nat)
    requires Holds(ws, size) && count < LIMIT && Scanning(ws, size, v, start, count, i, ret, remained)
    requires i < size && BitAt(ws, i) != v
    ensures Scanning(ws, size, v, start, count, i + 1, i + 1, count)
  {
    hide GroupId, IndexId, BitAt, Pow2, Words;
    forall q | start <= q < i + 1
      ensures !Accepts(ws, size, v, start, count, q)
    {
      if ret <= q && 0 < count {
        Interrupted(ws, v, q, count, i);
      }
    }
  }

  lemma ScanEnds(ws: seq<nat>, size: nat, v: bool, start: nat, count: nat, i: nat, ret: nat, remained: nat)
    requires Holds(ws, size) && Scanning(ws, size, v, start, count, i, ret, remained) && i >= size
    ensures Finds(ws, size, v, start, count, NOT_FOUND)
  {
    hide GroupId, IndexId, BitAt, Pow2, Words;
    forall q | start <= q
      ensures !Accepts(ws, size, v, start, count, q)
    {
      if 0 < count && ret < q <= i {
        assert BitIs(ws, q - 1, v);
      }
    }
  }

  // ---------------------------------------------------------------- the calls

  /** Where a fill ends; a count of zero wraps around and fills on to the end. */
  function FillEnd(n: nat, size: nat, start: nat, count: nat): nat {
    if count > 0 then start + count else if start + 64 < 64 * n then 64 * n else size
  }

  lemma FillEndIs(n: nat, size: nat, start: nat, count: nat)
    ensures FillEnd(n, size, start, count) ==
              if count > 0 then start + count else if start + 64 < 64 * n then 64 * n else size
  {
  }

  class Bits {
    const memory: array<nat>
    const size: nat

    /** A map over the words supplied. */
    constructor (memory: array<nat>, size: nat)
      requires Holds(memory[..], size)
      ensures Valid() && this.memory == memory && this.size == size
    {
      this.memory, this.size := memory, size;
    }

    ghost predicate Valid()
      reads this, memory
    {
      Holds(memory[..], size)
    }

    method GetBit(id: nat) returns (r: nat)
      requires Valid() && id < size
      ensures r == if BitAt(memory[..], id) then 1 else 0
    {
      var g, k := GroupId(id), IndexId(id);
      r := memory[g] / Pow2(k) % 2;
    }

    method SetBit(id: nat, value: nat)
      requires Valid() && id < size
      modifies memory
      ensures Valid() && Filled(old(memory[..]), memory[..], id, id + 1, value % 2 == 1)
    {
      hide Bit, Pow2, AndNotMask, OrMask, Filled;
      var g, k := GroupId(id), IndexId(id);
      ghost var before := memory[..];
      BitMap(before, g, k, false);
      memory[g] := AndNotMask(memory[g], k);
      ghost var cleared := memory[..];
      assert cleared == before[g := WithBit(before[g], k, false)];
      if value % 2 == 1 {
        BitMap(cleared, g, k, true);
        memory[g] := OrMask(memory[g], k);
        assert memory[..] == cleared[g := WithBit(cleared[g], k, true)];
        FilledAgain(before, cleared, memory[..], id, id + 1);
      }
    }

    /** The loop the two searches share: the least start of count bits with value v from start on. */
    method FindSome(v: bool, start: nat, count: nat) returns (r: nat)
      requires Valid() && count < LIMIT
      ensures Finds(memory[..], size, v, start, count, r)
    {
      ghost var ws := memory[..];
      var i: nat, ret: nat, remained: nat := start, start, count;
      ScanStarts(ws, size, v, start, count);
      hide GroupId, IndexId, Scanning, Finds, Bit, Pow2, Uniform, Words;
      while i < size
        invariant Scanning(ws, size, v, start, count, i, ret, remained)
        decreases 64 * |ws| + size - i
      {
        var g, k := GroupId(i), IndexId(i);
        if k == 0 && remained >= 64 {
          if memory[g] == Uniform(v) {
            ScanGroup(ws, size, v, start, count, i, ret, remained);
            i, remained := i + 64, remained - 64;
            if remained == 0 {
              return ret;
            }
            continue;
          }
        }
        if Bit(memory[g], k) == v {
          ScanHit(ws, size, v, start, count, i, ret, remained);
          remained := Minus(remained, 1);
          if remained == 0 {
            return ret;
          }
        } else {
          ScanMiss(ws, size, v, start, count, i, ret, remained);
          remained := count;
          ret := i + 1;
        }
        i := i + 1;
      }
      ScanEnds(ws, size, v, start, count, i, ret, remained);
      r := NOT_FOUND;
    }

    /** The least start of count ones from start on. */
    method FindSomeOnes(start: nat, count: nat) returns (r: nat)
      requires Valid() && count < LIMIT
      ensures Finds(memory[..], size, true, start, count, r)
    {
      r := FindSome(true, start, count);
    }

    /** The least start of count zeros from start on. */
    method FindSomeZeros(start: nat, count: nat) returns (r: nat)
      requires Valid() && count < LIMIT
      ensures Finds(memory[..], size, false, start, count, r)
    {
      r := FindSome(false, start, count);
    }

    /** Fill count bits from start on. */
    method SetBits(start: nat, count: nat, value: nat)
      requires Valid() && start + count <= size
      modifies memory
      ensures Valid()
      ensures count > 0 ==> Filled(old(memory[..]), memory[..], start, start + count, value != 0)
      ensures count == 0 ==>
                var all := 64 * memory.Length;
                Filled(old(memory[..]), memory[..], start, if start + 64 < all then all else size, value != 0)
    {
      hide GroupId, IndexId, Filling, Filled, Pow2, Bit, Uniform, OrMask, AndNotMask, FillEnd, Words;
      ghost var before := memory[..];
      var remained: nat, i: nat := count, start;
      FillStarts(before, size, start, count, value != 0);
      FillEndIs(memory.Length, size, start, count);
      while i < size
        invariant Holds(memory[..], size) && Filling(before, memory[..], size, start, count, i, remained, value != 0)
        invariant i == start || remained > 0
        decreases 64 * memory.Length + size - i
      {
        var g, k := GroupId(i), IndexId(i);
        ghost var now := memory[..];
        if k == 0 && remained >= 64 {
          FillWord(before, now, size, start, count, g, remained, value != 0);
          memory[g] := Uniform(value != 0);
          i, remained := i + 64, remained - 64;
          assert memory[..] == now[g := Uniform(value != 0)];
        } else {
          FillBit(before, now, size, start, count, g, k, remained, value != 0);
          memory[g] := if value != 0 then OrMask(memory[g], k) else AndNotMask(memory[g], k);
          i, remained := i + 1, Minus(remained, 1);
          assert memory[..] == now[g := WithBit(now[g], k, value != 0)];
        }
        if remained == 0 {
          break;
        }
      }
      FillEnds(before, memory[..], size, start, count, i, remained, value != 0);
    }
  }

  function WithBit(w: nat, k: nat, v: bool): nat {
    if v then OrMask(w, k) else AndNotMask(w, k)
  }

  /** Exactly the bits from start to end are v now, the others as before. */
  ghost predicate Filled(before: seq<nat>, after: seq<nat>, start: nat, end: nat, v: bool) {
    |after| == |before| && forall i: nat :: i < 64 * |before| ==> FilledAt(before, after, start, end, v, i)
  }

  predicate FilledAt(before: seq<nat>, after: seq<nat>, start: nat, end: nat, v: bool, i: nat)
    requires |after| == |before| && i < 64 * |before|
  {
    BitAt(after, i) == if start <= i < end then v else BitAt(before, i)
  }

  /** The bits up to i are done. */
  ghost predicate Filling(before: seq<nat>, after: seq<nat>, size: nat, start: nat, count: nat, i: nat, remained: nat,
                          v: bool) {
    start <= i && Filled(before, after, start, i, v) && Counting(|before|, size, start, count, i, remained)
  }

  predicate Counting(n: nat, size: nat, start: nat, count: nat, i: nat, remained: nat) {
    && start <= i && (i <= size || (i == 64 * n && start + 64 < 64 * n))
    && i - start < LIMIT && remained == Minus(count, i - start) && (0 < count ==> i <= start + count)
    && (count == 0 && start + 64 < 64 * n && i + 64 > 64 * n ==> i == 64 * n)
    && (i == start || remained > 0 || i == start + count)
  }

  lemma CountWord(n: nat, size: nat, start: nat, count: nat, g: nat, remained: nat)
    requires size <= 64 * n < size + 64 && 64 * n + 64 <= LIMIT && start + count <= size && 64 * g < size
             && remained >= 64
    requires Counting(n, size, start, count, 64 * g, remained)
    ensures g < n && Counting(n, size, start, count, 64 * g + 64, remained - 64)
  {
    hide Pow2;
  }

  lemma CountBit(n: nat, size: nat, start: nat, count: nat, g: nat, k: nat, remained: nat)
    requires size <= 64 * n < size + 64 && 64 * n + 64 <= LIMIT && start + count <= size
    requires k < 64 && 64 * g + k < size && !(k == 0 && remained >= 64) && (64 * g + k == start || remained > 0)
    requires Counting(n, size, start, count, 64 * g + k, remained)
    ensures g < n && Counting(n, size, start, count, 64 * g + k + 1, Minus(remained, 1))
  {
    hide Pow2;
  }

  lemma FillStarts(ws: seq<nat>, size: nat, start: nat, count: nat, v: bool)
    requires Holds(ws, size) && start + count <= size
    ensures Filling(ws, ws, size, start, count, start, count, v)
  {
    hide GroupId, IndexId, BitAt, Words, Pow2;
  }

  lemma FillWord(before: seq<nat>, now: seq<nat>, size: nat, start: nat, count: nat, g: nat, remained: nat, v: bool)
    requires Holds(before, size) && Holds(now, size) && start + count <= size
    requires Filling(before, now, size, start, count, 64 * g, remained, v) && 64 * g < size && remained >= 64
    ensures g < |now| && Holds(now[g := Uniform(v)], size)
    ensures Filling(before, now[g := Uniform(v)], size, start, count, 64 * g + 64, remained - 64, v)
  {
    CountWord(|now|, size, start, count, g, remained);
    hide Counting;
    WordMap(now, g, v);
    FilledFurther(before, now, now[g := Uniform(v)], start, 64 * g, 64 * g + 64, v);
    hide GroupId, IndexId, Filled, BitAt, Pow2, Words, Uniform;
  }

  lemma FilledAgain(before: seq<nat>, now: seq<nat>, later: seq<nat>, start: nat, end: nat)
    requires Filled(before, now, start, end, false) && Filled(now, later, start, end, true)
    ensures Filled(before, later, start, end, true)
  {
    hide GroupId, IndexId, BitAt;
    forall j: nat | j < 64 * |before|
      ensures FilledAt(before, later, start, end, true, j)
    {
      assert FilledAt(before, now, start, end, false, j) && FilledAt(now, later, start, end, true, j);
    }
  }

  lemma FilledFurther(before: seq<nat>, now: seq<nat>, later: seq<nat>, start: nat, i: nat, end: nat, v: bool)
    requires Filled(before, now, start, i, v) && Filled(now, later, i, end, v) && start <= i <= end
    ensures Filled(before, later, start, end, v)
  {
    hide GroupId, IndexId, BitAt;
    forall j: nat | j < 64 * |before|
      ensures FilledAt(before, later, start, end, v, j)
    {
      assert FilledAt(before, now, start, i, v, j) && FilledAt(now, later, i, end, v, j);
    }
  }

  lemma FillBit(before: seq<nat>, now: seq<nat>, size: nat, start: nat, count: nat, g: nat, k: nat, remained: nat,
                v: bool)
    requires Holds(before, size) && Holds(now, size) && start + count <= size && k < 64
    requires Filling(before, now, size, start, count, 64 * g + k, remained, v) && 64 * g + k < size
    requires !(k == 0 && remained >= 64) && (64 * g + k == start || remained > 0)
    ensures g < |now| && Holds(now[g := WithBit(now[g], k, v)], size)
    ensures Filling(before, now[g := WithBit(now[g], k, v)], size, start, count, 64 * g + k + 1, Minus(remained, 1), v)
  {
    CountBit(|now|, size, start, count, g, k, remained);
    hide Counting;
    BitMap(now, g, k, v);
    FilledFurther(before, now, now[g := WithBit(now[g], k, v)], start, 64 * g + k, 64 * g + k + 1, v);
    hide GroupId, IndexId, Filled, BitAt, Pow2, WithBit, Words;
  }

  lemma FillEnds(before: seq<nat>, after: seq<nat>, size: nat, start: nat, count: nat, i: nat, remained: nat, v: bool)
    requires Holds(before, size) && start + count <= size && Filling(before, after, size, start, count, i, remained, v)
    requires i >= size || (remained == 0 && i > start)
    ensures Filled(before, after, start, FillEnd(|before|, size, start, count), v)
  {
    hide GroupId, IndexId, BitAt, Pow2, Words;
  }

  lemma UniformBit(v: bool, k: nat)
    requires k < 64
    ensures Bit(Uniform(v), k) == v && Uniform(v) < LIMIT
  {
    UniformBits(v, Uniform(v), 64);
    hide Bit, Pow2;
  }

  lemma WordMap(ws: seq<nat>, g: nat, v: bool)
    requires Words(ws) && g < |ws|
    ensures Words(ws[g := Uniform(v)]) && Filled(ws, ws[g := Uniform(v)], 64 * g, 64 * g + 64, v)
  {
    hide GroupId, IndexId, Bit, Pow2, Uniform;
    UniformBit(v, 0);
    var first, end := 64 * g, 64 * g + 64;
    var ws' := ws[g := Uniform(v)];
    forall i: nat | i < 64 * |ws|
      ensures FilledAt(ws, ws', first, end, v, i)
    {
      UniformBit(v, IndexId(i));
    }
  }

  lemma BitMap(ws: seq<nat>, g: nat, k: nat, v: bool)
    requires Words(ws) && g < |ws| && k < 64
    ensures Words(ws[g := WithBit(ws[g], k, v)])
    ensures Filled(ws, ws[g := WithBit(ws[g], k, v)], 64 * g + k, 64 * g + k + 1, v)
  {
    hide GroupId, IndexId, Bit, OrMask, AndNotMask, Pow2;
    OrMaskFits(ws[g], k, 64);
    var first, end := 64 * g + k, 64 * g + k + 1;
    var ws' := ws[g := WithBit(ws[g], k, v)];
    forall i: nat | i < 64 * |ws|
      ensures FilledAt(ws, ws', first, end, v, i)
    {
      OrMaskBit(ws[g], k, IndexId(i));
      AndNotMaskBit(ws[g], k, IndexId(i));
    }
  }
}
