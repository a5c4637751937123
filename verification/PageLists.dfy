/** The doubly linked free lists threaded through the page metainfo records.
    A record is named by its page frame; the list heads are records of their own. */
module PageLists {
  import opened PageBlocks

  const NIL := -1

  /** The name of the head record of the list of the given order, as a prev pointer holds it. */
  function HeadRecord(order: nat): int {
    -2 - order
  }

  function Link(l: seq<nat>, i: nat): int {
    if i < |l| then l[i] else NIL
  }

  function BackLink(l: seq<nat>, i: nat, order: nat): int
    requires i <= |l|
  {
    if i == 0 then HeadRecord(order) else l[i - 1]
  }

  /** The list without its i-th entry. */
  function Without(l: seq<nat>, i: nat): seq<nat>
    requires i < |l|
  {
    l[..i] + l[i + 1..]
  }

  function Skip(i: nat, j: nat): nat {
    if j < i then j else j + 1
  }

  lemma WithoutSkips(l: seq<nat>, i: nat)
    requires i < |l|
    ensures |Without(l, i)| == |l| - 1
    ensures forall j :: 0 <= j < |l| - 1 ==> Without(l, i)[j] == l[Skip(i, j)]
  {
  }

  /** The links of one list spell out its contents. */
  ghost predicate Spells(first: int, next: seq<int>, prev: seq<int>, k: nat, l: seq<nat>) {
    && |next| == |prev|
    && first == Link(l, 0)
    && (forall i :: 0 <= i < |l| ==> l[i] < |next|)
    && (forall i :: 0 <= i < |l| ==> next[l[i]] == Link(l, i + 1))
    && (forall i :: 0 <= i < |l| ==> prev[l[i]] == BackLink(l, i, k))
    && (forall i, j :: 0 <= i < j < |l| ==> l[i] != l[j])
  }

  /** A list holds exactly the pages whose order field names it. */
  ghost predicate Holds(order: Orders, k: nat, l: seq<nat>) {
    && (forall i :: 0 <= i < |l| ==> l[i] < |order| && order[l[i]] == k)
    && (forall p :: 0 <= p < |order| && order[p] == k ==> p in l)
  }

  lemma SpellsPushed(first: int, next: seq<int>, prev: seq<int>, k: nat, l: seq<nat>, p: nat)
    requires Spells(first, next, prev, k, l) && p < |next| && p !in l
    ensures var prev1 := prev[p := HeadRecord(k)];
            Spells(p, next[p := first], if first == NIL then prev1 else prev1[first := p], k, [p] + l)
  {
    var m := [p] + l;
    var next', prev1 := next[p := first], prev[p := HeadRecord(k)];
    var prev' := if first == NIL then prev1 else prev1[first := p];
    assert forall i :: 0 <= i < |l| ==> l[i] != p;
    forall i | 0 <= i < |m|
      ensures next'[m[i]] == Link(m, i + 1) && prev'[m[i]] == BackLink(m, i, k)
    {
      if i > 0 {
        assert m[i] == l[i - 1];
        assert i > 1 ==> l[i - 1] != l[0];
      }
    }
  }

  /** The next and prev links after the i-th record of a list is bypassed. */
  function NextPopped(next: seq<int>, l: seq<nat>, i: nat): seq<int>
    requires i < |l| && forall j :: 0 <= j < |l| ==> l[j] < |next|
  {
    if i == 0 then next else next[l[i - 1] := next[l[i]]]
  }

  function PrevPopped(prev: seq<int>, l: seq<nat>, i: nat): seq<int>
    requires i < |l| && forall j :: 0 <= j < |l| ==> l[j] < |prev|
  {
    if i + 1 == |l| then prev else prev[l[i + 1] := prev[l[i]]]
  }

  lemma SpellsPopped(first: int, next: seq<int>, prev: seq<int>, k: nat, l: seq<nat>, i: nat)
    requires Spells(first, next, prev, k, l) && i < |l|
    ensures Spells(if i == 0 then next[l[0]] else first, NextPopped(next, l, i), PrevPopped(prev, l, i), k,
                   Without(l, i))
  {
    PoppedNext(first, next, prev, k, l, i);
    PoppedPrev(first, next, prev, k, l, i);
    WithoutSkips(l, i);
  }

  lemma PoppedNext(first: int, next: seq<int>, prev: seq<int>, k: nat, l: seq<nat>, i: nat)
    requires Spells(first, next, prev, k, l) && i < |l|
    ensures var m := Without(l, i);
            forall j :: 0 <= j < |m| ==> m[j] < |next| && NextPopped(next, l, i)[m[j]] == Link(m, j + 1)
  {
    var m := Without(l, i);
    WithoutSkips(l, i);
    forall j | 0 <= j < |m|
      ensures NextPopped(next, l, i)[m[j]] == Link(m, j + 1)
    {
      var next' := NextPopped(next, l, i);
      if j + 1 < i {
        assert m[j] == l[j] && next'[l[j]] == next[l[j]] && m[j + 1] == l[j + 1];
      } else if j + 1 == i {
        assert m[j] == l[j] && next'[l[j]] == next[l[i]];
      } else {
        assert m[j] == l[j + 1] && next'[l[j + 1]] == next[l[j + 1]];
      }
    }
  }

  lemma PoppedPrev(first: int, next: seq<int>, prev: seq<int>, k: nat, l: seq<nat>, i: nat)
    requires Spells(first, next, prev, k, l) && i < |l|
    ensures var m := Without(l, i);
            forall j :: 0 <= j < |m| ==> m[j] < |prev| && PrevPopped(prev, l, i)[m[j]] == BackLink(m, j, k)
  {
    var m := Without(l, i);
    WithoutSkips(l, i);
    forall j | 0 <= j < |m|
      ensures PrevPopped(prev, l, i)[m[j]] == BackLink(m, j, k)
    {
      var prev' := PrevPopped(prev, l, i);
      if j < i {
        assert m[j] == l[j] && prev'[l[j]] == prev[l[j]];
      } else if j == i {
        assert m[j] == l[i + 1] && prev'[l[i + 1]] == prev[l[i]];
      } else {
        assert m[j] == l[j + 1] && prev'[l[j + 1]] == prev[l[j + 1]] && m[j - 1] == l[j];
      }
    }
  }

  /** Unlinking a record of one list leaves the others alone. */
  lemma SpellsPoppedElsewhere(first: int, next: seq<int>, prev: seq<int>, order: Orders, k: nat, l: seq<nat>, i: nat,
                              j: nat, m: seq<nat>)
    requires i < |l| && (forall a :: 0 <= a < |l| ==> l[a] < |next|)
    requires Spells(first, next, prev, j, m) && Holds(order, k, l) && Holds(order, j, m) && j != k
    ensures Spells(first, NextPopped(next, l, i), PrevPopped(prev, l, i), j, m)
  {
    forall x, a | 0 <= x < |m| && 0 <= a < |l|
      ensures m[x] != l[a]
    {
      assert order[m[x]] == j && order[l[a]] == k;
    }
  }

  /** Writes to records of other lists leave a list alone. */
  lemma SpellsElsewhere(first: int, next: seq<int>, prev: seq<int>, next': seq<int>, prev': seq<int>, k: nat,
                        l: seq<nat>)
    requires Spells(first, next, prev, k, l) && |next'| == |prev'| == |next|
    requires forall i :: 0 <= i < |l| ==> next'[l[i]] == next[l[i]] && prev'[l[i]] == prev[l[i]]
    ensures Spells(first, next', prev', k, l)
  {
  }

  lemma HoldsPushed(order: Orders, k: nat, l: seq<nat>, p: nat, j: nat, m: seq<nat>)
    requires Holds(order, k, l) && p < |order| && order[p] == ORDER_NONE && Holds(order, j, m)
    requires k < ORDER_NONE && j < ORDER_NONE
    ensures p !in l && Holds(order[p := k], k, [p] + l)
    ensures j != k ==> Holds(order[p := k], j, m)
  {
    var order' := order[p := k];
    forall q | 0 <= q < |order| && order'[q] == k
      ensures q in [p] + l
    {
      assert q == p || q in l;
    }
  }

  lemma HoldsPopped(order: Orders, k: nat, l: seq<nat>, i: nat, j: nat, m: seq<nat>)
    requires Holds(order, k, l) && i < |l| && Holds(order, j, m)
    requires k < ORDER_NONE && j < ORDER_NONE
    requires forall a, b :: 0 <= a < b < |l| ==> l[a] != l[b]
    ensures Holds(order[l[i] := ORDER_NONE], k, Without(l, i))
    ensures j != k ==> Holds(order[l[i] := ORDER_NONE], j, m)
  {
    var order' := order[l[i] := ORDER_NONE];
    forall q | 0 <= q < |order| && order'[q] == k
      ensures q in Without(l, i)
    {
      var a :| 0 <= a < |l| && l[a] == q;
      assert Without(l, i)[if a < i then a else a - 1] == q;
    }
  }

  /** Every list is spelled out by the links and holds the pages of its order. */
  ghost predicate AllLinked(first: seq<int>, next: seq<int>, prev: seq<int>, order: Orders, lists: seq<seq<nat>>) {
    |lists| <= |first| && forall k :: 0 <= k < |lists| ==> ListLinked(first[k], next, prev, order, k, lists[k])
  }

  ghost predicate ListLinked(first: int, next: seq<int>, prev: seq<int>, order: Orders, k: nat, l: seq<nat>) {
    Spells(first, next, prev, k, l) && Holds(order, k, l)
  }

  lemma AllLinkedPopped(first: seq<int>, next: seq<int>, prev: seq<int>, order: Orders, lists: seq<seq<nat>>, k: nat,
                        i: nat)
    requires AllLinked(first, next, prev, order, lists) && |lists| <= ORDER_NONE && k < |lists| && i < |lists[k]|
    requires (forall a :: 0 <= a < |lists[k]| ==> lists[k][a] < |order|) && |next| == |prev| == |order|
    ensures var l := lists[k];
            AllLinked(if i == 0 then first[k := next[l[0]]] else first, NextPopped(next, l, i), PrevPopped(prev, l, i),
                      order[l[i] := ORDER_NONE], lists[k := Without(l, i)])
  {
    var l := lists[k];
    var first' := if i == 0 then first[k := next[l[0]]] else first;
    assert ListLinked(first[k], next, prev, order, k, l);
    forall j | 0 <= j < |lists|
      ensures ListLinked(first'[j], NextPopped(next, l, i), PrevPopped(prev, l, i), order[l[i] := ORDER_NONE], j,
                         lists[k := Without(l, i)][j])
    {
      assert ListLinked(first[j], next, prev, order, j, lists[j]);
      HoldsPopped(order, k, l, i, j, lists[j]);
      if j == k {
        SpellsPopped(first[k], next, prev, k, l, i);
      } else {
        SpellsPoppedElsewhere(first[j], next, prev, order, k, l, i, j, lists[j]);
      }
    }
  }

  class FreeLists {
    const n: nat
    const first: array<int>   // the next pointer of each head record
    const next: array<int>
    const prev: array<int>
    const order: array<nat>
    ghost var lists: seq<seq<nat>>

    ghost predicate Valid()
      reads this, first, next, prev, order
    {
      && first.Length == ORDER_NONE && next.Length == n && prev.Length == n && order.Length == n
      && first != next && first != prev && next != prev
      && |lists| == ORDER_NONE
      && AllLinked(first[..], next[..], prev[..], order[..], lists)
    }

    constructor (pageNum: nat)
      ensures Valid() && n == pageNum
      ensures lists == seq(ORDER_NONE, _ => [])
      ensures order[..] == seq(pageNum, _ => ORDER_NONE)
      ensures fresh(first) && fresh(next) && fresh(prev) && fresh(order)
    {
      n := pageNum;
      first := new int[ORDER_NONE](_ => NIL);
      next := new int[pageNum](_ => NIL);
      prev := new int[pageNum](_ => NIL);
      order := new nat[pageNum](_ => ORDER_NONE);
      lists := seq(ORDER_NONE, _ => []);
    }

    /** Put a page that is on no list at the front of a list. */
    method Insert(k: nat, p: nat)
      requires Valid() && k < ORDER_NONE && p < n && order[p] == ORDER_NONE
      modifies this, first, next, prev, order
      ensures Valid()
      ensures lists == old(lists)[k := [p] + old(lists)[k]]
      ensures order[..] == old(order[..])[p := k]
    {
      prev[p] := HeadRecord(k);
      next[p] := first[k];
      first[k] := p;
      order[p] := k;
      assert ListLinked(old(first[k]), old(next[..]), old(prev[..]), old(order[..]), k, lists[k]);
      if next[p] != NIL {
        prev[next[p]] := p;
      }
      ghost var l := lists[k];
      lists := lists[k := [p] + l];
      forall j | 0 <= j < ORDER_NONE
        ensures ListLinked(first[j], next[..], prev[..], order[..], j, lists[j])
      {
        ghost var m := old(lists)[j];
        assert ListLinked(old(first[j]), old(next[..]), old(prev[..]), old(order[..]), j, m);
        HoldsPushed(old(order[..]), k, l, p, j, m);
        if j == k {
          SpellsPushed(old(first[k]), old(next[..]), old(prev[..]), k, l, p);
        } else {
          SpellsElsewhere(first[j], old(next[..]), old(prev[..]), next[..], prev[..], j, m);
        }
      }
    }

    /** Unlink a page from whichever list holds it. */
    method Remove(p: nat) returns (ghost i: nat)
      requires Valid() && p < n && order[p] < ORDER_NONE
      modifies this, first, next, prev, order
      ensures Valid()
      ensures order[..] == old(order[..])[p := ORDER_NONE]
      ensures i < |old(lists)[old(order[p])]| && old(lists)[old(order[p])][i] == p
      ensures lists == old(lists)[old(order[p]) := Without(old(lists)[old(order[p])], i)]
    {
      hide AllLinked;
      i := Neighbours(p);
      ghost var k, l := order[p], lists[order[p]];
      AllLinkedPopped(first[..], next[..], prev[..], order[..], lists, k, i);
      Bypass(p, k, l, i);
      order[p] := ORDER_NONE;
      lists := lists[k := Without(l, i)];
    }

    /** Point the neighbours of a record at each other. */
    method Bypass(p: nat, ghost k: nat, ghost l: seq<nat>, ghost i: nat)
      requires first.Length == ORDER_NONE && next.Length == n && prev.Length == n
      requires first != next && first != prev && next != prev
      requires p < n && k < ORDER_NONE && i < |l| && l[i] == p && (forall a :: 0 <= a < |l| ==> l[a] < n)
      requires prev[p] == (if i == 0 then HeadRecord(k) else l[i - 1])
      requires next[p] == (if i + 1 == |l| then NIL else l[i + 1])
      requires (i > 0 ==> l[i - 1] != p) && (i + 1 < |l| ==> l[i + 1] != p)
      modifies first, next, prev
      ensures first[..] == if i == 0 then old(first[..])[k := old(next[p])] else old(first[..])
      ensures next[..] == NextPopped(old(next[..]), l, i)
      ensures prev[..] == PrevPopped(old(prev[..]), l, i)
    {
      if prev[p] < NIL {
        first[-2 - prev[p]] := next[p];
      } else {
        next[prev[p]] := next[p];
      }
      if next[p] != NIL {
        prev[next[p]] := prev[p];
      }
    }

    /** Where a listed page stands, and what its links hold. */
    lemma Neighbours(p: nat) returns (i: nat)
      requires Valid() && p < n && order[p] < ORDER_NONE
      ensures var l := lists[order[p]];
              && i < |l| && l[i] == p && (forall a :: 0 <= a < |l| ==> l[a] < n)
              && prev[p] == (if i == 0 then HeadRecord(order[p]) else l[i - 1])
              && next[p] == (if i + 1 == |l| then NIL else l[i + 1])
              && (i > 0 ==> l[i - 1] != p) && (i + 1 < |l| ==> l[i + 1] != p)
    {
      var k := order[p];
      var l := lists[k];
      assert ListLinked(first[k], next[..], prev[..], order[..], k, l);
      i :| 0 <= i < |l| && l[i] == p;
      assert next[..][l[i]] == Link(l, i + 1) && prev[..][l[i]] == BackLink(l, i, k);
    }
  }
}
