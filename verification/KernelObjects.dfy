/** The scheduler, wait queue and mutex calls as they update the kernel's objects and their lists in place. */
module KernelObjects {
  import opened KernelLists
  import opened Scheduler

  /** A mutex's own fields; its wait queue is a list. */
  datatype Lock = Lock(locked: bool, owner: Option<TaskId>, refcnt: nat)

  type Lists = map<List, seq<TaskId>>

  function ListAt(l: Lists, h: List): seq<TaskId> {
    if h in l then l[h] else []
  }

  function ReadyOf(l: Lists): (r: seq<seq<TaskId>>)
    ensures |r| == PRIORITIES
  {
    seq(PRIORITIES, (p: nat) => ListAt(l, ReadyList(p)))
  }

  function MutexesOf(locks: map<MutexId, Lock>, l: Lists): (r: map<MutexId, Mutex>)
    ensures r.Keys == locks.Keys
    ensures forall m :: m in r ==>
              r[m].locked == locks[m].locked && r[m].owner == locks[m].owner && r[m].refcnt == locks[m].refcnt
  {
    map m | m in locks :: Mutex(locks[m].locked, locks[m].owner, locks[m].refcnt, ListAt(l, WaitQueue(m)))
  }

  /** The task is on no ready list. */
  predicate Unlisted(k: Kernel, t: TaskId) {
    forall p :: 0 <= p < |k.ready| ==> t !in k.ready[p]
  }

  lemma StillUnlisted(k: Kernel, p: nat, t: TaskId)
    requires Unlisted(k, t) && p < |k.ready| && k.ready[p] != []
    ensures Unlisted(k.(ready := k.ready[p := k.ready[p][1..]]), t)
  {
  }

  lemma ReadyUpdated(locks: map<MutexId, Lock>, l: Lists, p: nat, s: seq<TaskId>)
    requires p < PRIORITIES
    ensures ReadyOf(l[ReadyList(p) := s]) == ReadyOf(l)[p := s]
    ensures MutexesOf(locks, l[ReadyList(p) := s]) == MutexesOf(locks, l)
  {
  }

  lemma QueueUpdated(locks: map<MutexId, Lock>, l: Lists, m: MutexId, s: seq<TaskId>)
    requires m in locks
    ensures ReadyOf(l[WaitQueue(m) := s]) == ReadyOf(l)
    ensures MutexesOf(locks, l[WaitQueue(m) := s]) == MutexesOf(locks, l)[m := MutexesOf(locks, l)[m].(waiting := s)]
  {
  }

  lemma LockUpdated(locks: map<MutexId, Lock>, l: Lists, m: MutexId, v: Lock)
    ensures MutexesOf(locks[m := v], l)
            == MutexesOf(locks, l)[m := Mutex(v.locked, v.owner, v.refcnt, ListAt(l, WaitQueue(m)))]
  {
  }

  lemma LockAdded(locks: map<MutexId, Lock>, l: Lists, m: MutexId)
    requires m !in locks
    ensures ReadyOf(l[WaitQueue(m) := []]) == ReadyOf(l)
    ensures MutexesOf(locks[m := Lock(false, None, 0)], l[WaitQueue(m) := []])
            == MutexesOf(locks, l)[m := Mutex(false, None, 0, [])]
  {
  }

  lemma AllEmpty(l: Lists)
    requires forall h :: h in l ==> l[h] == []
    ensures ReadyOf(l) == seq(PRIORITIES, _ => []) && MutexesOf(map[], l) == map[]
  {
  }

  /** Started, running and taken off its list again the idle task leaves the state the boot ends in. */
  lemma StartsAndLeaves(tasks: map<TaskId, Task>, idle: TaskId)
    requires idle in tasks && tasks[idle].priority < PRIORITIES
    ensures var k := Kernel(tasks, idle, seq(PRIORITIES, _ => []), map[]);
            var p, ran := tasks[idle].priority, k.Startup(idle).tasks[idle].(state := Running);
            && k.Startup(idle).ready[p] == [idle]
            && Kernel(k.Startup(idle).tasks[idle := ran], idle, k.Startup(idle).ready[p := [idle][1..]], map[])
               == Boot(tasks, idle)
  {
    var p: nat, empty: seq<seq<TaskId>> := tasks[idle].priority, seq(PRIORITIES, _ => []);
    assert [idle][1..] == [];
    assert empty[p := [idle]][p := []] == empty;
  }

  class KernelState {
    var tasks: map<TaskId, Task>
    var current: TaskId
    var locks: map<MutexId, Lock>
    const nodes: Nodes

    /** There is a linked list for every priority and every mutex, and no other. */
    ghost predicate Valid()
      reads this, nodes
    {
      && nodes.Valid()
      && (forall h :: h in nodes.lists <==> if h.ReadyList? then h.p < PRIORITIES else h.m in locks)
    }

    /** The state the objects and the links of their lists stand for. */
    ghost function State(): Kernel
      reads this, nodes
    {
      Kernel(tasks, current, ReadyOf(nodes.lists), MutexesOf(locks, nodes.lists))
    }

    /** The current task is a task with a ready list, and is on none. */
    ghost predicate Current()
      reads this, nodes
    {
      Valid() && current in tasks && tasks[current].priority < PRIORITIES && Unlisted(State(), current)
    }

    lemma CurrentIs()
      requires Current()
      ensures Valid() && current in tasks && tasks[current].priority < PRIORITIES && Unlisted(State(), current)
    {
    }

    lemma NotLinked(t: TaskId)
      requires Valid()
      ensures Unlisted(State(), t) ==> TaskNode(t, false) !in nodes.home
      ensures WaitsForNone(State(), t) ==> TaskNode(t, true) !in nodes.home
    {
      if TaskNode(t, false) in nodes.home {
        var h := nodes.home[TaskNode(t, false)];
        assert AtHome(nodes.lists, nodes.home, TaskNode(t, false));
        assert t in State().ready[h.p];
      }
      if TaskNode(t, true) in nodes.home {
        var h := nodes.home[TaskNode(t, true)];
        assert AtHome(nodes.lists, nodes.home, TaskNode(t, true));
        assert h.m in State().mutexes && t in State().mutexes[h.m].waiting;
      }
    }

    /** Set up the ready lists, start the idle task, take it off its list again and run it. */
    constructor (tasks: map<TaskId, Task>, idle: TaskId)
      requires idle in tasks && forall t :: t in tasks ==> NewTask(tasks[t])
      ensures fresh(nodes) && Valid() && Inv(State()) && State() == Boot(tasks, idle)
      ensures current == idle && this.tasks == tasks[idle := tasks[idle].(started := true, state := Running)]
      ensures locks == map[] && forall p :: 0 <= p < PRIORITIES ==> State().ready[p] == []
    {
      this.tasks, this.current, this.locks := tasks, idle, map[];
      nodes := new Nodes();
      new;
      InitLists();
      BootKeeps(tasks, idle);
      StartsAndLeaves(tasks, idle);
      hide ReadyOf, MutexesOf, ListAt, Nodes.Valid, Inv;
      Startup(idle);
      this.tasks := this.tasks[idle := this.tasks[idle].(state := Running)];
      TakeReady(idle, tasks[idle].priority);
      assert State() == Boot(tasks, idle);
    }

    /** An empty list for every priority. */
    method InitLists()
      requires nodes.Valid() && nodes.lists == map[] && locks == map[]
      modifies nodes
      ensures Valid() && State() == Kernel(tasks, current, seq(PRIORITIES, _ => []), map[])
    {
      var p := 0;
      while p < PRIORITIES
        invariant 0 <= p <= PRIORITIES && nodes.Valid()
        invariant forall h :: h in nodes.lists <==> h.ReadyList? && h.p < p
        invariant forall h :: h in nodes.lists ==> nodes.lists[h] == []
      {
        nodes.Init(ReadyList(p));
        p := p + 1;
      }
      AllEmpty(nodes.lists);
    }

    /** Scan the ready lists from the best priority down to the worst. */
    method GetNextTask() returns (next: Option<TaskId>, ghost list: nat)
      requires Valid()
      ensures list == State().FirstReady(0)
      ensures next == if list < PRIORITIES then Some(State().ready[list][0]) else None
    {
      var i := 0;
      while i < PRIORITIES
        invariant 0 <= i <= PRIORITIES && State().FirstReady(i) == State().FirstReady(0)
      {
        var empty := nodes.Empty(ReadyList(i));
        if !empty {
          var head := nodes.GetHead(ReadyList(i));
          return Some(head.t), i;
        }
        i := i + 1;
      }
      return None, i;
    }

    /** Put a task at the end of its ready list. */
    method AddReady(t: TaskId)
      requires Valid() && t in tasks && tasks[t].priority < PRIORITIES && Unlisted(State(), t)
      modifies nodes
      ensures Valid() && State()
              == old(State().(ready := State().ready[tasks[t].priority := State().ready[tasks[t].priority] + [t]]))
    {
      NotLinked(t);
      ghost var p, l := tasks[t].priority, nodes.lists;
      ReadyUpdated(locks, l, p, l[ReadyList(p)] + [t]);
      nodes.InsertTail(ReadyList(tasks[t].priority), t);
    }

    /** Take the first task off a ready list. */
    method TakeReady(t: TaskId, ghost p: nat)
      requires Valid() && p < PRIORITIES && State().ready[p] != [] && State().ready[p][0] == t
      modifies nodes
      ensures Valid() && State() == old(State().(ready := State().ready[p := State().ready[p][1..]]))
    {
      ghost var l := nodes.lists;
      assert Without(l[ReadyList(p)], 0) == l[ReadyList(p)][1..];
      ReadyUpdated(locks, l, p, l[ReadyList(p)][1..]);
      nodes.Remove(TaskNode(t, false), ReadyList(p), 0);
    }

    /** Leave the current task for the first one of a ready list. */
    method SwitchTo(next: TaskId, ghost p: nat)
      requires Current() && p < PRIORITIES && State().ready[p] != [] && State().ready[p][0] == next && next != current
      modifies this`tasks, this`current, nodes
      ensures Valid() && State() == old(State().SwitchTo(p))
    {
      hide ReadyOf, MutexesOf, Nodes.Valid, Unlisted;
      ghost var before := State();
      StillUnlisted(before, p, current);
      TakeReady(next, p);
      if tasks[current].state == Running {
        AddReady(current);
      }
      LeaveCurrent();
      ghost var left := tasks[current];
      assert tasks == before.tasks[before.current := left];
      current := next;
      if current in tasks {
        tasks := tasks[current := tasks[current].(state := Running)];
      }
    }

    /** The current task gives up the processor: a running one is ready again, and a slice used up starts anew. */
    method LeaveCurrent()
      requires current in tasks
      modifies this`tasks
      ensures var cur := old(tasks[current]);
              tasks == old(tasks)[current := cur.(state := if cur.state == Running then Ready else cur.state,
                                                  tickRemaining := if cur.tickRemaining == 0 then cur.tickInit
                                                    else cur.tickRemaining)]
    {
      if tasks[current].state == Running {
        tasks := tasks[current := tasks[current].(state := Ready)];
      }
      if tasks[current].tickRemaining == 0 {
        tasks := tasks[current := tasks[current].(tickRemaining := tasks[current].tickInit)];
      }
    }

    method Schedule()
      requires Current() && State().HasReady()
      modifies this`tasks, this`current, nodes
      ensures Valid() && State() == old(State().Schedule())
    {
      hide Kernel.FirstReady, ReadyOf, MutexesOf, Nodes.Valid;
      CurrentIs();
      var next, list := GetNextTask();
      assert next.Some? && list < PRIORITIES;
      var chosen := next.value;
      if tasks[current].state == Running {
        if chosen in tasks && tasks[chosen].priority > tasks[current].priority {
          chosen := current;
        }
      }
      if chosen != current {
        SwitchTo(chosen, list);
      }
    }

    method Startup(t: TaskId)
      requires Valid() && t in tasks && tasks[t].priority < PRIORITIES && Unlisted(State(), t)
      modifies this`tasks, nodes
      ensures Valid() && State() == old(State().Startup(t))
    {
      AddReady(t);
      tasks := tasks[t := tasks[t].(started := true)];
    }

    method Yield()
      requires Current() && State().HasReady()
      modifies this`tasks, this`current, nodes
      ensures Valid() && State() == old(State().Schedule())
    {
      Schedule();
    }

    method SetCurrentTaskState(state: TaskState)
      requires current in tasks
      modifies this`tasks
      ensures tasks == old(tasks[current := tasks[current].(state := state)])
    {
      tasks := tasks[current := tasks[current].(state := state)];
    }

    method Sleep()
      requires Current() && State().HasReady()
      modifies this`tasks, this`current, nodes
      ensures Valid() && State() == old(State().Sleep())
    {
      SetCurrentTaskState(Sleeping);
      Schedule();
    }

    /** The exit call. */
    method Exit()
      requires Current() && State().HasReady()
      modifies this`tasks, this`current, nodes
      ensures Valid() && State() == old(State().Exit())
    {
      SetCurrentTaskState(Stopped);
      Schedule();
    }

    /** A sleeping task other than the current one is on no ready list. */
    ghost predicate MayWake(t: TaskId)
      reads this, nodes
    {
      && t in tasks && tasks[t].priority < PRIORITIES
      && (tasks[t].state == Sleeping ==> t != current && Unlisted(State(), t))
    }

    method Wakeup(t: TaskId)
      requires Current() && MayWake(t)
      modifies this`tasks, this`current, nodes
      ensures Valid() && State() == old(State().Wakeup(t))
    {
      if tasks[t].state == Sleeping {
        tasks := tasks[t := tasks[t].(state := Ready)];
        AddReady(t);
        assert State() == old(State().Enqueue(t));
        assert State().ready[tasks[t].priority] != [];
        Schedule();
      }
    }

    /** The timer interrupt. */
    method TickHandler()
      requires Current() && (tasks[current].tickRemaining > 0 || State().HasReady())
      modifies this`tasks, this`current, nodes
      ensures Valid() && State() == old(State().Tick())
    {
      var cur := tasks[current];
      if cur.tickRemaining > 0 {
        tasks := tasks[current := cur.(tickRemaining := cur.tickRemaining - 1)];
      } else {
        tasks := tasks[current := cur.(tickRemaining := cur.tickInit)];
        Schedule();
      }
    }

    // ---------------------------------------------------------------- wait queues, each inside its mutex

    /** Link a waiting task's node in at the end of a queue. */
    method QueueAdd(m: MutexId, t: TaskId)
      requires Valid() && m in locks && WaitsForNone(State(), t)
      modifies nodes
      ensures Valid() && State() == old(State().(mutexes := State().mutexes[m := State().mutexes[m].(
                                                   waiting := State().mutexes[m].waiting + [t])]))
    {
      NotLinked(t);
      ghost var l := nodes.lists;
      QueueUpdated(locks, l, m, l[WaitQueue(m)] + [t]);
      nodes.InsertTail(WaitQueue(m), t);
    }

    method QueueWait(m: MutexId)
      requires Current() && State().HasReady() && m in locks && WaitsForNone(State(), current)
      modifies this`tasks, this`current, nodes
      ensures Valid()
      ensures State() == old(State().(mutexes := State().mutexes[m := State().mutexes[m].(
                                        waiting := State().mutexes[m].waiting + [current])]).Sleep())
    {
      QueueAdd(m, current);
      Sleep();
    }

    /** The task at the front of a queue, read off the links. */
    method QueueGetHead(m: MutexId) returns (head: Option<TaskId>)
      requires Valid() && m in locks
      ensures var waiting := State().mutexes[m].waiting; head == if waiting == [] then None else Some(waiting[0])
    {
      var empty := nodes.Empty(WaitQueue(m));
      if !empty {
        var n := nodes.GetHead(WaitQueue(m));
        head := Some(n.t);
      } else {
        head := None;
      }
    }

    /** Take the first waiter out of the queue and wake it; nothing happens when nobody waits. */
    method QueueWakeup(m: MutexId)
      requires Current() && m in locks
      requires var waiting := State().mutexes[m].waiting; waiting != [] ==> MayWake(waiting[0])
      modifies this`tasks, this`current, nodes
      ensures Valid()
      ensures State() == if old(State().mutexes[m].waiting) == [] then old(State())
                         else old(State().(mutexes := State().mutexes[m := State().mutexes[m].(
                                             waiting := State().mutexes[m].waiting[1..])])
                                         .Wakeup(State().mutexes[m].waiting[0]))
    {
      var empty := nodes.Empty(WaitQueue(m));
      if !empty {
        var n := nodes.GetHead(WaitQueue(m));
        ghost var l := nodes.lists;
        assert Without(l[WaitQueue(m)], 0) == l[WaitQueue(m)][1..];
        QueueUpdated(locks, l, m, l[WaitQueue(m)][1..]);
        nodes.Remove(n, WaitQueue(m), 0);
        Wakeup(n.t);
      }
    }

    // ---------------------------------------------------------------- mutexes

    method MutexInit(m: MutexId)
      requires Valid() && Inv(State()) && m !in locks
      modifies this`locks, nodes
      ensures Valid() && Inv(State())
      ensures State() == old(State().(mutexes := State().mutexes[m := Mutex(false, None, 0, [])]))
    {
      hide Inv, Base, ReadyOf, MutexesOf, Nodes.Valid;
      FreshMutexKeeps(State(), m);
      LockAdded(locks, nodes.lists, m);
      locks := locks[m := Lock(false, None, 0)];
      nodes.Init(WaitQueue(m));
    }

    /** Write a mutex's own fields. */
    method SetLock(m: MutexId, v: Lock)
      requires Valid() && m in locks
      modifies this`locks
      ensures Valid() && locks == old(locks)[m := v]
      ensures State() == old(State().(mutexes :=
                                 State().mutexes[m := Mutex(v.locked, v.owner, v.refcnt, State().mutexes[m].waiting)]))
    {
      LockUpdated(locks, nodes.lists, m, v);
      locks := locks[m := v];
    }

    method MutexLock(m: MutexId)
      requires Current() && m in locks && (State().Blocks(m) ==> State().HasReady() && WaitsForNone(State(), current))
      modifies this, nodes
      ensures Valid() && State() == old(State().Lock(m))
    {
      var lock := locks[m];
      if lock.locked {
        if lock.owner == Some(current) {
          SetLock(m, lock.(refcnt := lock.refcnt + 1));
        } else {
          QueueWait(m);
        }
      } else {
        SetLock(m, lock.(refcnt := 1, owner := Some(current), locked := true));
      }
    }

    method MutexUnlock(m: MutexId)
      requires Current() && State().MayUnlock(m)
      requires var waiting := State().mutexes[m].waiting; waiting != [] ==> MayWake(waiting[0])
      modifies this, nodes
      ensures Valid() && State() == old(State().Unlock(m))
    {
      hide ReadyOf, MutexesOf, Nodes.Valid;
      ghost var before := State();
      SetLock(m, locks[m].(refcnt := locks[m].refcnt - 1));
      if locks[m].refcnt == 0 {
        var next := QueueGetHead(m);
        if next.Some? {
          SetLock(m, locks[m].(refcnt := 1, owner := next));
          ghost var handed := State();
          assert handed.mutexes[m := handed.mutexes[m].(waiting := handed.mutexes[m].waiting[1..])]
              == before.mutexes[m := before.mutexes[m].(refcnt := 1, owner := next,
                                                        waiting := before.mutexes[m].waiting[1..])];
          QueueWakeup(m);
        } else {
          SetLock(m, locks[m].(owner := None, locked := false));
        }
      }
    }

    /** What the single calls rely on follows from the invariant. */
    lemma StepReady(s: Step)
      requires Valid() && Inv(State()) && Enabled(State(), s)
      ensures Current()
      ensures s.StartupStep? ==> Unlisted(State(), s.t)
      ensures s.WakeupStep? ==> MayWake(s.t)
      ensures s.LockStep? ==> WaitsForNone(State(), current)
      ensures s.UnlockStep? ==> var waiting := State().mutexes[s.m].waiting; waiting != [] ==> MayWake(waiting[0])
    {
      var k := State();
      NotReadyUnlisted(k, current);
      WaitersAreNotCurrent(k);
      if s.StartupStep? || s.WakeupStep? {
        assert TaskOk(k, s.t);
        NotReadyUnlisted(k, s.t);
      }
      if s.UnlockStep? && k.mutexes[s.m].waiting != [] {
        assert MutexOk(k, s.m);
        NotReadyUnlisted(k, k.mutexes[s.m].waiting[0]);
      }
    }

    /** Any one call, made when the kernel's own assertions allow it, keeps the invariant. */
    method Do(s: Step)
      requires Valid() && Inv(State()) && Enabled(State(), s)
      modifies this, nodes
      ensures Valid() && State() == old(Apply(State(), s)) && Inv(State())
    {
      StepKeeps(State(), s);
      StepReady(s);
      match s
      case StartupStep(t) => Startup(t);
      case YieldStep => Yield();
      case SleepStep => Sleep();
      case ExitStep => Exit();
      case WakeupStep(t) => Wakeup(t);
      case TickStep => TickHandler();
      case LockStep(m) => MutexLock(m);
      case UnlockStep(m) => MutexUnlock(m);
    }
  }

  /** A task that is not ready, or not started, is on no ready list. */
  lemma NotReadyUnlisted(k: Kernel, t: TaskId)
    requires Base(k) && t in k.tasks
    ensures k.tasks[t].state != Ready || !k.tasks[t].started ==> Unlisted(k, t)
  {
    forall p | 0 <= p < |k.ready| && t in k.ready[p]
      ensures k.tasks[t].state == Ready && k.tasks[t].started
    {
      assert ListOk(k, p);
    }
  }

  /** A new mutex nobody waits for disturbs nothing. */
  lemma FreshMutexKeeps(k: Kernel, m: MutexId)
    requires Inv(k) && m !in k.mutexes
    ensures Inv(k.(mutexes := k.mutexes[m := Mutex(false, None, 0, [])]))
  {
    var k' := k.(mutexes := k.mutexes[m := Mutex(false, None, 0, [])]);
    forall t | t in k'.tasks
      ensures TaskOk(k', t)
    {
      assert TaskOk(k, t);
    }
    forall p | 0 <= p < PRIORITIES
      ensures ListOk(k', p)
    {
      assert ListOk(k, p);
    }
    forall n | n in k'.mutexes
      ensures MutexOk(k', n)
    {
      assert n != m ==> MutexOk(k, n);
    }
    forall n, o | n in k'.mutexes && o in k'.mutexes
      ensures Apart(k', n, o)
    {
      assert n != m && o != m ==> Apart(k, n, o);
    }
  }
}
