/** The circular, doubly linked lists whose nodes lie inside the objects they list. */
module KernelLists {
  import opened Scheduler

  datatype List = ReadyList(p: nat) | WaitQueue(m: MutexId)

  /** The node at the head of a list, or a task's node: one for the ready lists and one for the wait queues. */
  datatype Node = HeadNode(list: List) | TaskNode(t: TaskId, waits: bool)

  function NodeOf(h: List, t: TaskId): Node {
    TaskNode(t, h.WaitQueue?)
  }

  /** The node at a place of the ring: the tasks in order, and the head before the first and after the last. */
  function At(h: List, s: seq<TaskId>, i: int): Node {
    if 0 <= i < |s| then NodeOf(h, s[i]) else HeadNode(h)
  }

  type Links = map<Node, Node>   // a missing entry is a null pointer

  /** The nodes at places i and i + 1 point to each other. */
  predicate LinkedAt(next: Links, prev: Links, h: List, s: seq<TaskId>, i: int) {
    && At(h, s, i) in next && next[At(h, s, i)] == At(h, s, i + 1)
    && At(h, s, i + 1) in prev && prev[At(h, s, i + 1)] == At(h, s, i)
  }

  ghost predicate Ring(next: Links, prev: Links, h: List, s: seq<TaskId>) {
    && (forall i :: -1 <= i < |s| ==> LinkedAt(next, prev, h, s, i))
    && (forall i, j :: 0 <= i < j < |s| ==> s[i] != s[j])
  }

  /** Writes to other nodes leave a ring alone. */
  lemma RingKept(next: Links, prev: Links, next': Links, prev': Links, h: List, s: seq<TaskId>)
    requires Ring(next, prev, h, s)
    requires forall i :: -1 <= i < |s| ==>
               && (At(h, s, i) in next ==> At(h, s, i) in next' && next'[At(h, s, i)] == next[At(h, s, i)])
               && (At(h, s, i) in prev ==> At(h, s, i) in prev' && prev'[At(h, s, i)] == prev[At(h, s, i)])
    ensures Ring(next', prev', h, s)
  {
    forall i | -1 <= i < |s|
      ensures LinkedAt(next', prev', h, s, i)
    {
      assert LinkedAt(next, prev, h, s, i);
      if i + 1 == |s| {
        assert At(h, s, i + 1) == At(h, s, -1);
      }
    }
  }

  lemma RingAppended(next: Links, prev: Links, h: List, s: seq<TaskId>, t: TaskId)
    requires Ring(next, prev, h, s) && t !in s
    ensures HeadNode(h) in prev && prev[HeadNode(h)] == At(h, s, |s| - 1)
    ensures var n, last := NodeOf(h, t), At(h, s, |s| - 1);
            Ring(next[n := HeadNode(h)][last := n], prev[n := last][HeadNode(h) := n], h, s + [t])
  {
    var n, last := NodeOf(h, t), At(h, s, |s| - 1);
    var next', prev', s' := next[n := HeadNode(h)][last := n], prev[n := last][HeadNode(h) := n], s + [t];
    assert LinkedAt(next, prev, h, s, |s| - 1);
    forall i | -1 <= i < |s'|
      ensures LinkedAt(next', prev', h, s', i)
    {
      if i < |s| - 1 {
        assert LinkedAt(next, prev, h, s, i);
        assert At(h, s', i) == At(h, s, i) && At(h, s', i + 1) == At(h, s, i + 1);
      }
    }
  }

  function Without<T>(s: seq<T>, i: nat): seq<T>
    requires i < |s|
  {
    s[..i] + s[i + 1..]
  }

  lemma RingWithout(next: Links, prev: Links, h: List, s: seq<TaskId>, i: nat)
    requires Ring(next, prev, h, s) && i < |s|
    ensures var n, before, after := At(h, s, i), At(h, s, i - 1), At(h, s, i + 1);
            && n in next && next[n] == after && n in prev && prev[n] == before
            && Ring(next[before := after] - {n}, prev[after := before] - {n}, h, Without(s, i))
  {
    var n, before, after := At(h, s, i), At(h, s, i - 1), At(h, s, i + 1);
    var next', prev', s' := next[before := after] - {n}, prev[after := before] - {n}, Without(s, i);
    assert LinkedAt(next, prev, h, s, i) && LinkedAt(next, prev, h, s, i - 1);
    forall j | -1 <= j < |s'|
      ensures LinkedAt(next', prev', h, s', j)
    {
      if j < i {
        assert LinkedAt(next, prev, h, s, j);
        assert At(h, s', j) == At(h, s, j);
      } else {
        assert LinkedAt(next, prev, h, s, j + 1);
        assert At(h, s', j) == At(h, s, j + 1);
      }
      assert At(h, s', j + 1) == At(h, s, if j + 1 < i then j + 1 else j + 2);
    }
  }

  /** A linked node is on the list that is its home, and nowhere else. */
  predicate AtHome(lists: map<List, seq<TaskId>>, home: map<Node, List>, n: Node)
    requires n in home
  {
    n.TaskNode? && home[n] in lists && n.t in lists[home[n]] && n == NodeOf(home[n], n.t)
  }

  ghost predicate Housed(lists: map<List, seq<TaskId>>, home: map<Node, List>) {
    && (forall h, t :: h in lists && t in lists[h] ==> NodeOf(h, t) in home && home[NodeOf(h, t)] == h)
    && (forall n :: n in home ==> AtHome(lists, home, n))
  }

  /** Different lists share no node. */
  lemma ListsApart(lists: map<List, seq<TaskId>>, home: map<Node, List>, g: List, h: List)
    requires Housed(lists, home) && g in lists && h in lists && g != h
    ensures forall i, j :: At(g, lists[g], i) != At(h, lists[h], j)
  {
    forall i, j
      ensures At(g, lists[g], i) != At(h, lists[h], j)
    {
      if 0 <= i < |lists[g]| && 0 <= j < |lists[h]| {
        assert lists[g][i] in lists[g] && lists[h][j] in lists[h];
      }
    }
  }

  lemma HomelessApart(lists: map<List, seq<TaskId>>, home: map<Node, List>, g: List, n: Node)
    requires Housed(lists, home) && g in lists && n !in home && n.TaskNode?
    ensures forall i :: At(g, lists[g], i) != n
  {
    forall i
      ensures At(g, lists[g], i) != n
    {
      if 0 <= i < |lists[g]| {
        assert lists[g][i] in lists[g];
      }
    }
  }

  lemma HousedAppended(lists: map<List, seq<TaskId>>, home: map<Node, List>, h: List, t: TaskId)
    requires Housed(lists, home) && h in lists && NodeOf(h, t) !in home
    ensures Housed(lists[h := lists[h] + [t]], home[NodeOf(h, t) := h]) && t !in lists[h]
  {
    var lists', home', n := lists[h := lists[h] + [t]], home[NodeOf(h, t) := h], NodeOf(h, t);
    forall g, u | g in lists' && u in lists'[g]
      ensures NodeOf(g, u) in home' && home'[NodeOf(g, u)] == g
    {
      if !(g == h && u == t) {
        assert u in lists[g];
      }
    }
    forall m | m in home'
      ensures AtHome(lists', home', m)
    {
      assert m != n ==> AtHome(lists, home, m);
    }
  }

  lemma HousedWithout(lists: map<List, seq<TaskId>>, home: map<Node, List>, h: List, i: nat)
    requires Housed(lists, home) && h in lists && i < |lists[h]|
    requires forall j, k :: 0 <= j < k < |lists[h]| ==> lists[h][j] != lists[h][k]
    ensures Housed(lists[h := Without(lists[h], i)], home - {NodeOf(h, lists[h][i])})
  {
    var s, n := lists[h], NodeOf(h, lists[h][i]);
    var lists', home' := lists[h := Without(s, i)], home - {n};
    forall g, u | g in lists' && u in lists'[g]
      ensures NodeOf(g, u) in home' && home'[NodeOf(g, u)] == g
    {
      assert u in lists[g];
      if g == h {
        var j :| 0 <= j < |Without(s, i)| && Without(s, i)[j] == u;
        assert u == s[if j < i then j else j + 1];
      }
    }
    forall m | m in home'
      ensures AtHome(lists', home', m)
    {
      assert AtHome(lists, home, m);
      if home[m] == h {
        var j :| 0 <= j < |s| && s[j] == m.t;
        assert Without(s, i)[if j < i then j else j - 1] == m.t;
      }
    }
  }

  class Nodes {
    var next: Links
    var prev: Links
    ghost var lists: map<List, seq<TaskId>>
    ghost var home: map<Node, List>   // the list a linked node is on

    ghost predicate Valid()
      reads this
    {
      (forall h :: h in lists ==> Ring(next, prev, h, lists[h])) && Housed(lists, home)
    }

    constructor ()
      ensures Valid() && lists == map[]
    {
      next, prev, lists, home := map[], map[], map[], map[];
    }

    /** An empty list. */
    method Init(h: List)
      requires Valid() && h !in lists
      modifies this
      ensures Valid() && lists == old(lists)[h := []] && home == old(home)
    {
      next := next[HeadNode(h) := HeadNode(h)];
      prev := prev[HeadNode(h) := HeadNode(h)];
      lists := lists[h := []];
      forall g | g in lists
        ensures Ring(next, prev, g, lists[g])
      {
        if g == h {
          assert LinkedAt(next, prev, h, [], -1);
        } else {
          RingKept(old(next), old(prev), next, prev, g, lists[g]);
        }
      }
      forall n | n in home
        ensures AtHome(lists, home, n)
      {
        assert AtHome(old(lists), home, n);
      }
    }

    /** Put a node before another one: the four pointer writes. */
    method InsertBefore(n: Node, ref: Node)
      requires ref in prev && prev[ref] != n && ref != n
      modifies this`next, this`prev
      ensures next == old(next[n := ref][prev[ref] := n])
      ensures prev == old(prev[n := prev[ref]][ref := n])
    {
      next := next[n := ref];
      prev := prev[n := prev[ref]];
      prev := prev[ref := n];
      next := next[prev[n] := n];
    }

    /** Append a task whose node is on no list. */
    method InsertTail(h: List, t: TaskId)
      requires Valid() && h in lists && NodeOf(h, t) !in home
      modifies this
      ensures Valid() && lists == old(lists[h := lists[h] + [t]]) && home == old(home)[NodeOf(h, t) := h]
    {
      ghost var n, s := NodeOf(h, t), lists[h];
      HousedAppended(lists, home, h, t);
      RingAppended(next, prev, h, s, t);
      InsertBefore(NodeOf(h, t), HeadNode(h));
      lists := lists[h := s + [t]];
      home := home[n := h];
      forall g | g in lists && g != h
        ensures Ring(next, prev, g, lists[g])
      {
        ListsApart(old(lists), old(home), g, h);
        HomelessApart(old(lists), old(home), g, n);
        RingKept(old(next), old(prev), next, prev, g, lists[g]);
      }
    }

    /** Unlink a node: its neighbours are joined and it points nowhere. */
    method Unlink(n: Node)
      requires n in prev && n in next && prev[n] != n && next[n] != n
      modifies this`next, this`prev
      ensures next == old(next[prev[n] := next[n]]) - {n}
      ensures prev == old(prev[next[n] := prev[n]]) - {n}
    {
      next := next[prev[n] := next[n]];
      prev := prev[next[n] := prev[n]];
      prev := prev - {n};
      next := next - {n};
    }

    /** Take a task off its list, from any place. */
    method Remove(n: Node, ghost h: List, ghost i: nat)
      requires Valid() && h in lists && i < |lists[h]| && n == NodeOf(h, lists[h][i])
      modifies this
      ensures Valid() && lists == old(lists[h := Without(lists[h], i)]) && home == old(home) - {n}
    {
      ghost var s := lists[h];
      HousedWithout(lists, home, h, i);
      RingWithout(next, prev, h, s, i);
      Unlink(n);
      lists := lists[h := Without(s, i)];
      home := home - {n};
      forall g | g in lists && g != h
        ensures Ring(next, prev, g, lists[g])
      {
        ListsApart(old(lists), old(home), g, h);
        RingKept(old(next), old(prev), next, prev, g, lists[g]);
      }
    }

    method Empty(h: List) returns (empty: bool)
      requires Valid() && h in lists
      ensures empty <==> lists[h] == []
    {
      assert LinkedAt(next, prev, h, lists[h], -1) && LinkedAt(next, prev, h, lists[h], |lists[h]| - 1);
      empty := next[HeadNode(h)] == HeadNode(h) && prev[HeadNode(h)] == HeadNode(h);
    }

    method GetHead(h: List) returns (n: Node)
      requires Valid() && h in lists && lists[h] != []
      ensures n == NodeOf(h, lists[h][0])
    {
      assert LinkedAt(next, prev, h, lists[h], -1);
      n := next[HeadNode(h)];
    }
  }
}
