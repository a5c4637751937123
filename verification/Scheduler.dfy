/** Tasks, ready lists, wait queues and recursive mutexes of one hart, as a step system. */
module Scheduler {

  const PRIORITIES := 32

  type TaskId = nat
  type MutexId = nat

  datatype Option<T> = None | Some(value: T)

  datatype TaskState = Running | Ready | Sleeping | Stopped

  /** A task's scheduling fields; started once it has been put on a ready list. */
  datatype Task = Task(priority: nat, tickInit: nat, tickRemaining: nat, state: TaskState, started: bool)

  datatype Mutex = Mutex(locked: bool, owner: Option<TaskId>, refcnt: nat, waiting: seq<TaskId>)

  datatype Kernel = Kernel(tasks: map<TaskId, Task>, current: TaskId, ready: seq<seq<TaskId>>,
                           mutexes: map<MutexId, Mutex>) {

    function Priority(t: TaskId): nat {
      if t in tasks then tasks[t].priority else 0
    }

    /** The first non-empty ready list from p on; PRIORITIES when there is none. */
    function FirstReady(p: nat): (r: nat)
      requires |ready| == PRIORITIES && p <= PRIORITIES
      ensures p <= r <= PRIORITIES && (r < PRIORITIES ==> ready[r] != [])
      ensures forall q :: p <= q < r ==> ready[q] == []
      decreases PRIORITIES - p
    {
      if p == PRIORITIES then p
      else if ready[p] != [] then p
      else FirstReady(p + 1)
    }

    predicate HasReady() {
      |ready| == PRIORITIES && exists p :: 0 <= p < PRIORITIES && ready[p] != []
    }

    /** Append a task to the ready list of its priority. */
    function Enqueue(t: TaskId): Kernel
      requires t in tasks && tasks[t].priority < |ready|
    {
      var p := tasks[t].priority;
      this.(tasks := tasks[t := tasks[t].(state := Ready)], ready := ready[p := ready[p] + [t]])
    }

    /** Choose the task to run: the head of the best ready list, unless the current task runs on and is better. */
    function Schedule(): Kernel
      requires HasReady() && current in tasks && tasks[current].priority < PRIORITIES
    {
      var p := FirstReady(0);
      if p == PRIORITIES then this
      else
        var next := ready[p][0];
        if tasks[current].state == Running && Priority(next) > tasks[current].priority then this
        else if next == current then this
        else SwitchTo(p)
    }

    /** Leave the current task for the head of list p. */
    function SwitchTo(p: nat): Kernel
      requires p < |ready| && ready[p] != [] && current in tasks && tasks[current].priority < |ready|
    {
      var next, cur := ready[p][0], tasks[current];
      var ready1 := ready[p := ready[p][1..]];
      var ready2 := if cur.state == Running then ready1[cur.priority := ready1[cur.priority] + [current]] else ready1;
      var cur1 := cur.(state := if cur.state == Running then Ready else cur.state,
                       tickRemaining := if cur.tickRemaining == 0 then cur.tickInit else cur.tickRemaining);
      var tasks1 := tasks[current := cur1];
      var tasks2 := if next in tasks1 then tasks1[next := tasks1[next].(state := Running)] else tasks1;
      this.(tasks := tasks2, current := next, ready := ready2)
    }

    /** Put the current task to sleep and run another. */
    function Sleep(): Kernel
      requires HasReady() && current in tasks && tasks[current].priority < PRIORITIES
    {
      this.(tasks := tasks[current := tasks[current].(state := Sleeping)]).Schedule()
    }

    /** Stop the current task for good and run another. */
    function Exit(): Kernel
      requires HasReady() && current in tasks && tasks[current].priority < PRIORITIES
    {
      this.(tasks := tasks[current := tasks[current].(state := Stopped)]).Schedule()
    }

    /** Make a sleeping task ready and schedule at once; anything else is left alone. */
    function Wakeup(t: TaskId): Kernel
      requires t in tasks && tasks[t].priority < PRIORITIES && |ready| == PRIORITIES
      requires current in tasks && tasks[current].priority < PRIORITIES
    {
      if tasks[t].state == Sleeping then
        var k := Enqueue(t);
        assert k.ready[tasks[t].priority] != [];
        k.Schedule()
      else this
    }

    /** Put a new task on its ready list. */
    function Startup(t: TaskId): Kernel
      requires t in tasks && tasks[t].priority < |ready|
    {
      var p := tasks[t].priority;
      this.(tasks := tasks[t := tasks[t].(started := true)], ready := ready[p := ready[p] + [t]])
    }

    /** The timer tick: run the slice down, then schedule. */
    function Tick(): Kernel
      requires current in tasks && tasks[current].priority < PRIORITIES
      requires tasks[current].tickRemaining > 0 || HasReady()
    {
      var cur := tasks[current];
      if cur.tickRemaining > 0 then
        this.(tasks := tasks[current := cur.(tickRemaining := cur.tickRemaining - 1)])
      else
        this.(tasks := tasks[current := cur.(tickRemaining := cur.tickInit)]).Schedule()
    }

    /** The lock call blocks: the mutex is locked by another task. */
    predicate Blocks(m: MutexId)
      requires m in mutexes
    {
      mutexes[m].locked && mutexes[m].owner != Some(current)
    }

    function Lock(m: MutexId): Kernel
      requires m in mutexes && current in tasks && tasks[current].priority < PRIORITIES
      requires Blocks(m) ==> HasReady()
    {
      var mu := mutexes[m];
      if mu.locked then
        if mu.owner == Some(current) then
          this.(mutexes := mutexes[m := mu.(refcnt := mu.refcnt + 1)])
        else
          this.(mutexes := mutexes[m := mu.(waiting := mu.waiting + [current])]).Sleep()
      else
        this.(mutexes := mutexes[m := mu.(refcnt := 1, owner := Some(current), locked := true)])
    }

    /** The assertions of the unlock call. */
    predicate MayUnlock(m: MutexId) {
      m in mutexes && mutexes[m].owner == Some(current) && mutexes[m].locked && mutexes[m].refcnt > 0
    }

    /** The unlock call gives the mutex up for good. */
    predicate Releases(m: MutexId) {
      MayUnlock(m) && mutexes[m].refcnt == 1
    }

    function Unlock(m: MutexId): Kernel
      requires MayUnlock(m) && current in tasks && tasks[current].priority < PRIORITIES && |ready| == PRIORITIES
      requires mutexes[m].waiting != [] ==>
                 mutexes[m].waiting[0] in tasks && tasks[mutexes[m].waiting[0]].priority < PRIORITIES
    {
      var mu := mutexes[m];
      if mu.refcnt > 1 then
        this.(mutexes := mutexes[m := mu.(refcnt := mu.refcnt - 1)])
      else if mu.waiting != [] then
        var next := mu.waiting[0];
        this.(mutexes := mutexes[m := mu.(refcnt := 1, owner := Some(next), waiting := mu.waiting[1..])]).Wakeup(next)
      else
        this.(mutexes := mutexes[m := mu.(refcnt := 0, owner := None, locked := false)])
    }
  }

  /** A task as its initialisation leaves it. */
  predicate NewTask(t: Task) {
    t.priority < PRIORITIES && t.tickRemaining == t.tickInit && t.state == Ready && !t.started
  }

  /** The state in which the idle task starts to run: nobody is ready and there is no mutex. */
  function Boot(tasks: map<TaskId, Task>, idle: TaskId): Kernel
    requires idle in tasks
  {
    Kernel(tasks[idle := tasks[idle].(started := true, state := Running)], idle, seq(PRIORITIES, _ => []), map[])
  }

  predicate TaskOk(k: Kernel, t: TaskId)
    requires t in k.tasks && |k.ready| == PRIORITIES
  {
    var task := k.tasks[t];
    && task.priority < PRIORITIES
    && (task.state == Running ==> t == k.current)
    && (task.started && task.state == Ready ==> t in k.ready[task.priority])
    && (!task.started ==> task.state == Ready)
  }

  /** A ready list holds started ready tasks of its priority, each once. */
  predicate ListOk(k: Kernel, p: nat)
    requires p < |k.ready|
  {
    && (forall i :: 0 <= i < |k.ready[p]| ==>
          && k.ready[p][i] in k.tasks
          && k.tasks[k.ready[p][i]].state == Ready && k.tasks[k.ready[p][i]].started
             && k.tasks[k.ready[p][i]].priority == p)
    && (forall i, j :: 0 <= i < j < |k.ready[p]| ==> k.ready[p][i] != k.ready[p][j])
  }

  /**
   * locked, owned and counted are one condition; waiters sleep, each once, and only on a locked mutex they do not
   * own.
   */
  predicate MutexOk(k: Kernel, m: MutexId)
    requires m in k.mutexes
  {
    var mu := k.mutexes[m];
    && (mu.locked <==> mu.owner.Some?) && (mu.locked <==> mu.refcnt >= 1)
    && (mu.waiting != [] ==> mu.locked)
    && (mu.owner.Some? ==> mu.owner.value in k.tasks && mu.owner.value !in mu.waiting)
    && (forall i :: 0 <= i < |mu.waiting| ==> mu.waiting[i] in k.tasks && k.tasks[mu.waiting[i]].state == Sleeping
                                               && k.tasks[mu.waiting[i]].started)
    && (forall i, j :: 0 <= i < j < |mu.waiting| ==> mu.waiting[i] != mu.waiting[j])
  }

  /** No task waits for two mutexes. */
  predicate Apart(k: Kernel, m: MutexId, n: MutexId)
    requires m in k.mutexes && n in k.mutexes
  {
    m != n ==> forall t :: t in k.mutexes[m].waiting ==> t !in k.mutexes[n].waiting
  }

  /** What holds inside a critical section, the current task running or just put to sleep. */
  ghost predicate Base(k: Kernel) {
    && |k.ready| == PRIORITIES
    && k.current in k.tasks && k.tasks[k.current].started && k.tasks[k.current].state != Ready
    && (forall t :: t in k.tasks ==> TaskOk(k, t))
    && (forall p :: 0 <= p < PRIORITIES ==> ListOk(k, p))
    && (forall m :: m in k.mutexes ==> MutexOk(k, m))
    && (forall m, n :: m in k.mutexes && n in k.mutexes ==> Apart(k, m, n))
  }

  /** What holds between steps. */
  ghost predicate Inv(k: Kernel) {
    Base(k) && k.tasks[k.current].state == Running
  }

  lemma BootKeeps(tasks: map<TaskId, Task>, idle: TaskId)
    requires idle in tasks && forall t :: t in tasks ==> NewTask(tasks[t])
    ensures Inv(Boot(tasks, idle))
  {
  }

  /** The assertion of the scheduler holds exactly when some started task is ready. */
  lemma SchedulableExactlyWhen(k: Kernel)
    requires Inv(k)
    ensures k.HasReady() <==> exists t :: t in k.tasks && k.tasks[t].started && k.tasks[t].state == Ready
  {
    if k.HasReady() {
      var p :| 0 <= p < PRIORITIES && k.ready[p] != [];
      assert ListOk(k, p);
      assert k.ready[p][0] in k.tasks;
    }
    if t :| t in k.tasks && k.tasks[t].started && k.tasks[t].state == Ready {
      assert TaskOk(k, t);
      assert k.ready[k.tasks[t].priority] != [];
    }
  }

  /** No ready task has a better priority than the current one. */
  ghost predicate BestRuns(k: Kernel) {
    forall t :: t in k.tasks && k.tasks[t].started && k.tasks[t].state == Ready ==>
      k.Priority(k.current) <= k.tasks[t].priority
  }

  /** Stopped tasks stay stopped. */
  predicate StopsKept(k: Kernel, k': Kernel) {
    forall t :: t in k.tasks && k.tasks[t].state == Stopped ==> t in k'.tasks && k'.tasks[t].state == Stopped
  }

  /** The head of a ready list is another task, and that task is ready. */
  lemma HeadIsReady(k: Kernel, p: nat)
    requires Base(k) && p < PRIORITIES && k.ready[p] != []
    ensures var next := k.ready[p][0];
            && next in k.tasks && next != k.current && k.tasks[next].state == Ready && k.tasks[next].priority == p
            && k.tasks[next].started && next !in k.ready[p][1..] && k.tasks[k.current].priority < PRIORITIES
  {
    assert ListOk(k, p) && TaskOk(k, k.current);
  }

  lemma SwitchTaskOk(k: Kernel, p: nat, t: TaskId)
    requires Base(k) && p < PRIORITIES && k.ready[p] != [] && t in k.tasks && k.tasks[k.current].priority < PRIORITIES
    ensures t in k.SwitchTo(p).tasks && TaskOk(k.SwitchTo(p), t)
  {
    HeadIsReady(k, p);
    assert TaskOk(k, t);
    var q := k.tasks[t].priority;
    if t != k.ready[p][0] && t in k.ready[q] {
      var i :| 0 <= i < |k.ready[q]| && k.ready[q][i] == t;
      if q == p {
        assert k.ready[p][1..][i - 1] == t;
      }
    }
  }

  lemma SwitchListOk(k: Kernel, p: nat, q: nat)
    requires Base(k) && p < PRIORITIES && k.ready[p] != [] && q < PRIORITIES && k.tasks[k.current].priority < PRIORITIES
    ensures ListOk(k.SwitchTo(p), q)
  {
    HeadIsReady(k, p);
    assert ListOk(k, q);
    hide Base;
  }

  lemma SwitchKeeps(k: Kernel, p: nat)
    requires Base(k) && p < PRIORITIES && k.ready[p] != []
    ensures k.tasks[k.current].priority < PRIORITIES && Inv(k.SwitchTo(p))
    ensures StopsKept(k, k.SwitchTo(p))
  {
    HeadIsReady(k, p);
    var k' := k.SwitchTo(p);
    forall t | t in k'.tasks
      ensures TaskOk(k', t)
    {
      SwitchTaskOk(k, p, t);
    }
    forall q | 0 <= q < PRIORITIES
      ensures ListOk(k', q)
    {
      SwitchListOk(k, p, q);
    }
    forall m | m in k'.mutexes
      ensures MutexOk(k', m)
    {
      assert MutexOk(k, m);
    }
    forall m, n | m in k'.mutexes && n in k'.mutexes
      ensures Apart(k', m, n)
    {
      assert Apart(k, m, n);
    }
  }

  /** Scheduling ends with a running current task and no better one ready, and touches no mutex. */
  lemma ScheduleKeeps(k: Kernel)
    requires Base(k) && k.HasReady()
    ensures TaskOk(k, k.current)
    ensures Inv(k.Schedule()) && BestRuns(k.Schedule()) && k.Schedule().mutexes == k.mutexes
    ensures k.Schedule().tasks.Keys == k.tasks.Keys
    ensures StopsKept(k, k.Schedule())
  {
    var p := k.FirstReady(0);
    assert TaskOk(k, k.current) && ListOk(k, p);
    var next := k.ready[p][0];
    ReadyAreNoBetter(k, p);
    if !(k.tasks[k.current].state == Running && k.Priority(next) > k.tasks[k.current].priority) {
      assert next != k.current;
      SwitchKeeps(k, p);
      forall t | t in k.SwitchTo(p).tasks && k.SwitchTo(p).tasks[t].started && k.SwitchTo(p).tasks[t].state == Ready
        ensures k.SwitchTo(p).Priority(next) <= k.SwitchTo(p).tasks[t].priority
      {
        assert t != k.current ==> k.tasks[t].started && k.tasks[t].state == Ready;
      }
    }
  }

  lemma ReadyAreNoBetter(k: Kernel, p: nat)
    requires Base(k) && p == k.FirstReady(0) && p < PRIORITIES
    ensures forall t :: t in k.tasks && k.tasks[t].started && k.tasks[t].state == Ready ==> p <= k.tasks[t].priority
  {
    forall t | t in k.tasks && k.tasks[t].started && k.tasks[t].state == Ready
      ensures p <= k.tasks[t].priority
    {
      assert TaskOk(k, t);
    }
  }

  /** A sleeping task that waits for no mutex can be made ready. */
  lemma EnqueueKeeps(k: Kernel, t: TaskId)
    requires Base(k) && t in k.tasks && k.tasks[t].state == Sleeping && k.tasks[t].started && t != k.current
    requires forall m :: m in k.mutexes ==> t !in k.mutexes[m].waiting
    ensures TaskOk(k, t)
    ensures Base(k.Enqueue(t)) && k.Enqueue(t).HasReady() && k.Enqueue(t).mutexes == k.mutexes
    ensures k.Enqueue(t).tasks.Keys == k.tasks.Keys && k.Enqueue(t).current == k.current
  {
    assert TaskOk(k, t);
    var k', p := k.Enqueue(t), k.tasks[t].priority;
    assert k'.ready[p] != [];
    forall u | u in k'.tasks
      ensures TaskOk(k', u)
    {
      assert TaskOk(k, u);
      if u == t {
        assert k'.ready[p][|k.ready[p]|] == t;
      }
    }
    forall q | 0 <= q < PRIORITIES
      ensures ListOk(k', q)
    {
      assert ListOk(k, q);
    }
    MutexesKept(k, k');
  }

  /** The mutexes stay in order when no waiter is touched. */
  lemma MutexesKept(k: Kernel, k': Kernel)
    requires Base(k) && k'.mutexes == k.mutexes && k'.tasks.Keys == k.tasks.Keys
    requires forall m, i :: m in k.mutexes && 0 <= i < |k.mutexes[m].waiting| ==>
               k.mutexes[m].waiting[i] in k.tasks
                 && k'.tasks[k.mutexes[m].waiting[i]].state == k.tasks[k.mutexes[m].waiting[i]].state
               && k'.tasks[k.mutexes[m].waiting[i]].started == k.tasks[k.mutexes[m].waiting[i]].started
    ensures forall m :: m in k'.mutexes ==> MutexOk(k', m)
    ensures forall m, n :: m in k'.mutexes && n in k'.mutexes ==> Apart(k', m, n)
  {
    forall m | m in k'.mutexes
      ensures MutexOk(k', m)
    {
      assert MutexOk(k, m);
    }
    forall m, n | m in k'.mutexes && n in k'.mutexes
      ensures Apart(k', m, n)
    {
      assert Apart(k, m, n);
    }
  }

  /** Waking keeps the invariant when the task waits for no mutex. */
  lemma WakeupKeeps(k: Kernel, t: TaskId)
    requires Inv(k) && t in k.tasks && (forall m :: m in k.mutexes ==> t !in k.mutexes[m].waiting)
    ensures TaskOk(k, t) && TaskOk(k, k.current)
    ensures Inv(k.Wakeup(t)) && k.Wakeup(t).mutexes == k.mutexes && k.Wakeup(t).tasks.Keys == k.tasks.Keys
    ensures StopsKept(k, k.Wakeup(t))
    ensures k.tasks[t].state == Sleeping ==> BestRuns(k.Wakeup(t)) && k.Wakeup(t).tasks[t].state != Sleeping
  {
    assert TaskOk(k, t) && TaskOk(k, k.current);
    if k.tasks[t].state == Sleeping {
      EnqueueKeeps(k, t);
      ScheduleKeeps(k.Enqueue(t));
      AwakeAfterSchedule(k.Enqueue(t), t);
    }
  }

  lemma AwakeAfterSchedule(k: Kernel, t: TaskId)
    requires Base(k) && k.HasReady() && t in k.tasks && k.tasks[t].state != Sleeping
    ensures TaskOk(k, k.current) && t in k.Schedule().tasks && k.Schedule().tasks[t].state != Sleeping
  {
    assert TaskOk(k, k.current);
  }

  /** Going to sleep keeps the invariant. */
  lemma SleepKeeps(k: Kernel)
    requires Inv(k) && k.HasReady()
    ensures TaskOk(k, k.current)
    ensures Inv(k.Sleep()) && BestRuns(k.Sleep()) && k.Sleep().mutexes == k.mutexes
            && k.Sleep().tasks.Keys == k.tasks.Keys
    ensures StopsKept(k, k.Sleep())
  {
    assert TaskOk(k, k.current);
    LeaveKeeps(k, Sleeping);
    ScheduleKeeps(Leave(k, Sleeping));
  }

  /** So does exiting. */
  lemma ExitKeeps(k: Kernel)
    requires Inv(k) && k.HasReady()
    ensures TaskOk(k, k.current)
    ensures Inv(k.Exit()) && BestRuns(k.Exit()) && k.Exit().mutexes == k.mutexes && k.Exit().tasks.Keys == k.tasks.Keys
    ensures StopsKept(k, k.Exit())
  {
    assert TaskOk(k, k.current);
    LeaveKeeps(k, Stopped);
    ScheduleKeeps(Leave(k, Stopped));
  }

  function Leave(k: Kernel, state: TaskState): Kernel
    requires k.current in k.tasks
  {
    k.(tasks := k.tasks[k.current := k.tasks[k.current].(state := state)])
  }

  lemma LeaveKeeps(k: Kernel, state: TaskState)
    requires Inv(k) && (state == Sleeping || state == Stopped)
    ensures Base(Leave(k, state))
  {
    var k' := Leave(k, state);
    forall u | u in k'.tasks
      ensures TaskOk(k', u)
    {
      assert TaskOk(k, u);
    }
    forall q | 0 <= q < PRIORITIES
      ensures ListOk(k', q)
    {
      assert ListOk(k, q);
    }
    WaitersAreNotCurrent(k);
    MutexesKept(k, k');
  }

  lemma WaitersAreNotCurrent(k: Kernel)
    requires Inv(k)
    ensures forall m, i :: m in k.mutexes && 0 <= i < |k.mutexes[m].waiting| ==>
              k.mutexes[m].waiting[i] in k.tasks && k.mutexes[m].waiting[i] != k.current
  {
    forall m, i | m in k.mutexes && 0 <= i < |k.mutexes[m].waiting|
      ensures k.mutexes[m].waiting[i] in k.tasks && k.mutexes[m].waiting[i] != k.current
    {
      assert MutexOk(k, m);
    }
  }

  lemma StartupKeeps(k: Kernel, t: TaskId)
    requires Inv(k) && t in k.tasks && !k.tasks[t].started
    ensures TaskOk(k, t) && Inv(k.Startup(t)) && k.Startup(t).mutexes == k.mutexes
            && k.Startup(t).tasks.Keys == k.tasks.Keys
    ensures StopsKept(k, k.Startup(t))
  {
    assert TaskOk(k, t);
    var k', p := k.Startup(t), k.tasks[t].priority;
    forall u | u in k'.tasks
      ensures TaskOk(k', u)
    {
      assert TaskOk(k, u);
      if u == t {
        assert k'.ready[p][|k.ready[p]|] == t;
      }
    }
    forall q | 0 <= q < PRIORITIES
      ensures ListOk(k', q)
    {
      assert ListOk(k, q);
    }
    forall m, i | m in k.mutexes && 0 <= i < |k.mutexes[m].waiting|
      ensures k.mutexes[m].waiting[i] in k.tasks && k.mutexes[m].waiting[i] != t
    {
      assert MutexOk(k, m);
    }
    MutexesKept(k, k');
  }

  /** The tick keeps the invariant; when the slice is used up it schedules. */
  lemma TickKeeps(k: Kernel)
    requires Inv(k) && (k.tasks[k.current].tickRemaining > 0 || k.HasReady())
    ensures TaskOk(k, k.current)
    ensures Inv(k.Tick()) && k.Tick().mutexes == k.mutexes && k.Tick().tasks.Keys == k.tasks.Keys
    ensures StopsKept(k, k.Tick())
    ensures k.tasks[k.current].tickRemaining == 0 ==> BestRuns(k.Tick())
  {
    assert TaskOk(k, k.current);
    var cur := k.tasks[k.current];
    RetickKeeps(k, if cur.tickRemaining > 0 then cur.tickRemaining - 1 else cur.tickInit);
    if cur.tickRemaining == 0 {
      ScheduleKeeps(Retick(k, cur.tickInit));
    }
  }

  function Retick(k: Kernel, ticks: nat): Kernel
    requires k.current in k.tasks
  {
    k.(tasks := k.tasks[k.current := k.tasks[k.current].(tickRemaining := ticks)])
  }

  lemma RetickKeeps(k: Kernel, ticks: nat)
    requires Inv(k)
    ensures Inv(Retick(k, ticks))
  {
    var k' := Retick(k, ticks);
    forall u | u in k'.tasks
      ensures TaskOk(k', u)
    {
      assert TaskOk(k, u);
    }
    forall q | 0 <= q < PRIORITIES
      ensures ListOk(k', q)
    {
      assert ListOk(k, q);
    }
    WaitersAreNotCurrent(k);
    MutexesKept(k, k');
  }

  /** Replacing one mutex keeps the invariant when the new one is in order and shares no waiter with the others. */
  lemma ReplaceMutex(k: Kernel, m: MutexId, mu: Mutex)
    requires Base(k) && m in k.mutexes
    requires MutexOk(k.(mutexes := k.mutexes[m := mu]), m)
    requires forall t, n :: t in mu.waiting && n in k.mutexes && n != m ==> t !in k.mutexes[n].waiting
    ensures Base(k.(mutexes := k.mutexes[m := mu]))
  {
    var k' := k.(mutexes := k.mutexes[m := mu]);
    forall u | u in k'.tasks
      ensures TaskOk(k', u)
    {
      assert TaskOk(k, u);
    }
    forall q | 0 <= q < PRIORITIES
      ensures ListOk(k', q)
    {
      assert ListOk(k, q);
    }
    forall n | n in k'.mutexes
      ensures MutexOk(k', n)
    {
      assert n != m ==> MutexOk(k, n);
    }
    forall n, o | n in k'.mutexes && o in k'.mutexes
      ensures Apart(k', n, o)
    {
      assert Apart(k, n, o);
    }
  }

  /** A blocking lock call queues the caller and puts it to sleep. */
  lemma LockBlocks(k: Kernel, m: MutexId)
    requires Inv(k) && m in k.mutexes && k.Blocks(m) && k.HasReady()
    ensures TaskOk(k, k.current)
    ensures Inv(k.Lock(m)) && BestRuns(k.Lock(m)) && k.Lock(m).tasks.Keys == k.tasks.Keys
    ensures StopsKept(k, k.Lock(m))
    ensures k.Lock(m).mutexes == k.mutexes[m := k.mutexes[m].(waiting := k.mutexes[m].waiting + [k.current])]
  {
    assert TaskOk(k, k.current);
    QueuedKeeps(k, m);
    hide Base, Inv;
    ScheduleKeeps(Queued(k, m));
  }

  /** The current task at the end of the queue, asleep. */
  function Queued(k: Kernel, m: MutexId): Kernel
    requires m in k.mutexes && k.current in k.tasks
  {
    Leave(k, Sleeping).(mutexes := k.mutexes[m := k.mutexes[m].(waiting := k.mutexes[m].waiting + [k.current])])
  }

  lemma QueuedKeeps(k: Kernel, m: MutexId)
    requires Inv(k) && m in k.mutexes && k.Blocks(m) && k.HasReady()
    ensures Base(Queued(k, m)) && Queued(k, m).HasReady()
  {
    WaitersAreNotCurrent(k);
    LeaveKeeps(k, Sleeping);
    var mu := k.mutexes[m].(waiting := k.mutexes[m].waiting + [k.current]);
    BlockedMutexOk(k, m, mu);
    OthersDoNotWait(k, m);
    hide Base;
    ReplaceMutex(Leave(k, Sleeping), m, mu);
  }

  lemma BlockedMutexOk(k: Kernel, m: MutexId, mu: Mutex)
    requires Inv(k) && m in k.mutexes && k.Blocks(m)
             && mu == k.mutexes[m].(waiting := k.mutexes[m].waiting + [k.current])
    ensures MutexOk(Leave(k, Sleeping).(mutexes := k.mutexes[m := mu]), m)
  {
    assert MutexOk(k, m);
    WaitersAreNotCurrent(k);
  }

  /** Locking keeps the invariant, whether it succeeds, nests or blocks. */
  lemma LockKeeps(k: Kernel, m: MutexId)
    requires Inv(k) && m in k.mutexes && (k.Blocks(m) ==> k.HasReady())
    ensures TaskOk(k, k.current)
    ensures Inv(k.Lock(m)) && k.Lock(m).tasks.Keys == k.tasks.Keys
    ensures StopsKept(k, k.Lock(m))
    ensures k.Lock(m).mutexes == k.mutexes[m := k.Lock(m).mutexes[m]]
    ensures !k.Blocks(m) ==> k.Lock(m).current == k.current && k.Lock(m).mutexes[m].owner == Some(k.current)
    ensures k.Blocks(m) ==> k.Lock(m).mutexes[m] == k.mutexes[m].(waiting := k.mutexes[m].waiting + [k.current])
    ensures k.Blocks(m) ==> BestRuns(k.Lock(m))
  {
    assert TaskOk(k, k.current) && MutexOk(k, m);
    if k.Blocks(m) {
      LockBlocks(k, m);
    } else {
      ReplaceMutex(k, m, k.Lock(m).mutexes[m]);
    }
  }

  /** The mutex given to its first waiter, who still sleeps. */
  function Handed(k: Kernel, m: MutexId): Kernel
    requires m in k.mutexes && k.mutexes[m].waiting != []
  {
    var mu := k.mutexes[m];
    k.(mutexes := k.mutexes[m := mu.(refcnt := 1, owner := Some(mu.waiting[0]), waiting := mu.waiting[1..])])
  }

  lemma HandedKeeps(k: Kernel, m: MutexId)
    requires Inv(k) && k.Releases(m) && k.mutexes[m].waiting != []
    ensures var next := k.mutexes[m].waiting[0];
            && Inv(Handed(k, m)) && next in k.tasks && k.tasks[next].state == Sleeping
            && forall n :: n in k.mutexes ==> next !in Handed(k, m).mutexes[n].waiting
  {
    assert MutexOk(k, m);
    var mu := k.mutexes[m];
    OthersDoNotWait(k, m);
    ReplaceMutex(k, m, Handed(k, m).mutexes[m]);
  }

  /** The final unlock of a mutex somebody waits for hands it to the first waiter and wakes that task. */
  lemma HandoffKeeps(k: Kernel, m: MutexId)
    requires Inv(k) && k.Releases(m) && k.mutexes[m].waiting != []
    ensures TaskOk(k, k.current) && k.mutexes[m].waiting[0] in k.tasks && TaskOk(k, k.mutexes[m].waiting[0])
    ensures StopsKept(k, k.Unlock(m))
    ensures var next := k.mutexes[m].waiting[0];
            && Inv(k.Unlock(m)) && k.Unlock(m).tasks.Keys == k.tasks.Keys && BestRuns(k.Unlock(m))
            && k.Unlock(m).mutexes
               == k.mutexes[m := k.mutexes[m].(owner := Some(next), refcnt := 1, waiting := k.mutexes[m].waiting[1..])]
            && k.Unlock(m).tasks[next].state != Sleeping
  {
    HandedKeeps(k, m);
    assert TaskOk(k, k.current) && TaskOk(k, k.mutexes[m].waiting[0]);
    hide Base;
    WakeupKeeps(Handed(k, m), k.mutexes[m].waiting[0]);
  }

  /** Unlocking keeps the invariant. */
  lemma UnlockKeeps(k: Kernel, m: MutexId)
    requires Inv(k) && k.MayUnlock(m)
    ensures TaskOk(k, k.current)
    ensures k.mutexes[m].waiting != [] ==>
              k.mutexes[m].waiting[0] in k.tasks && k.tasks[k.mutexes[m].waiting[0]].priority < PRIORITIES
    ensures Inv(k.Unlock(m)) && k.Unlock(m).tasks.Keys == k.tasks.Keys
    ensures StopsKept(k, k.Unlock(m))
    ensures k.Unlock(m).mutexes == k.mutexes[m := k.Unlock(m).mutexes[m]]
    ensures k.Releases(m) && k.mutexes[m].waiting != [] ==>
              var next := k.mutexes[m].waiting[0];
              && k.Unlock(m).mutexes[m]
                 == k.mutexes[m].(owner := Some(next), refcnt := 1, waiting := k.mutexes[m].waiting[1..])
              && k.Unlock(m).tasks[next].state != Sleeping
    ensures k.Releases(m) && k.mutexes[m].waiting == [] ==> k.Unlock(m).mutexes[m] == Mutex(false, None, 0, [])
    ensures !k.Releases(m) ==> k.Unlock(m).mutexes[m] == k.mutexes[m].(refcnt := k.mutexes[m].refcnt - 1)
  {
    assert TaskOk(k, k.current) && MutexOk(k, m);
    assert k.mutexes[m].waiting != [] ==> TaskOk(k, k.mutexes[m].waiting[0]);
    if k.Releases(m) && k.mutexes[m].waiting != [] {
      HandoffKeeps(k, m);
    } else {
      OthersDoNotWait(k, m);
      ReplaceMutex(k, m, k.Unlock(m).mutexes[m]);
    }
  }

  lemma OthersDoNotWait(k: Kernel, m: MutexId)
    requires Base(k) && m in k.mutexes
    ensures forall t, n :: t in k.mutexes[m].waiting && n in k.mutexes && n != m ==> t !in k.mutexes[n].waiting
  {
    forall t, n | t in k.mutexes[m].waiting && n in k.mutexes && n != m
      ensures t !in k.mutexes[n].waiting
    {
      assert Apart(k, m, n);
    }
  }

  /** What the current task, or the timer, does next. */
  datatype Step = StartupStep(t: TaskId) | YieldStep | SleepStep | ExitStep | WakeupStep(t: TaskId) | TickStep
                | LockStep(m: MutexId) | UnlockStep(m: MutexId)

  /** No mutex has the task in its queue. */
  predicate WaitsForNone(k: Kernel, t: TaskId) {
    forall m :: m in k.mutexes ==> t !in k.mutexes[m].waiting
  }

  /** The kernel's own assertions hold, and nobody wakes a task out of a mutex queue behind the mutex's back. */
  predicate Enabled(k: Kernel, s: Step) {
    && |k.ready| == PRIORITIES && k.current in k.tasks && k.tasks[k.current].priority < PRIORITIES
    && match s
       case StartupStep(t) => t in k.tasks && !k.tasks[t].started && k.tasks[t].priority < PRIORITIES
       case YieldStep => k.HasReady()
       case SleepStep => k.HasReady()
       case ExitStep => k.HasReady()
       case WakeupStep(t) => t in k.tasks && k.tasks[t].priority < PRIORITIES && WaitsForNone(k, t)
       case TickStep => k.tasks[k.current].tickRemaining > 0 || k.HasReady()
       case LockStep(m) => m in k.mutexes && (k.Blocks(m) ==> k.HasReady())
       case UnlockStep(m) => k.MayUnlock(m) && (k.mutexes[m].waiting != [] ==>
                               k.mutexes[m].waiting[0] in k.tasks
                                 && k.tasks[k.mutexes[m].waiting[0]].priority < PRIORITIES)
  }

  function Apply(k: Kernel, s: Step): Kernel
    requires Enabled(k, s)
  {
    match s
    case StartupStep(t) => k.Startup(t)
    case YieldStep => k.Schedule()
    case SleepStep => k.Sleep()
    case ExitStep => k.Exit()
    case WakeupStep(t) => k.Wakeup(t)
    case TickStep => k.Tick()
    case LockStep(m) => k.Lock(m)
    case UnlockStep(m) => k.Unlock(m)
  }

  /** Every step keeps the invariant. */
  lemma StepKeeps(k: Kernel, s: Step)
    requires Inv(k) && Enabled(k, s)
    ensures Inv(Apply(k, s)) && Apply(k, s).mutexes.Keys == k.mutexes.Keys && Apply(k, s).tasks.Keys == k.tasks.Keys
    ensures StopsKept(k, Apply(k, s))
    ensures !s.LockStep? && !s.UnlockStep? ==> Apply(k, s).mutexes == k.mutexes
    ensures s.LockStep? || s.UnlockStep? ==> Apply(k, s).mutexes == k.mutexes[s.m := Apply(k, s).mutexes[s.m]]
    ensures s.YieldStep? || s.SleepStep? || s.ExitStep? ==> BestRuns(Apply(k, s))
  {
    match s
    case StartupStep(t) => StartupKeeps(k, t);
    case YieldStep => ScheduleKeeps(k);
    case SleepStep => SleepKeeps(k);
    case ExitStep => ExitKeeps(k);
    case WakeupStep(t) => WakeupKeeps(k, t);
    case TickStep => TickKeeps(k);
    case LockStep(m) => LockKeeps(k, m);
    case UnlockStep(m) => UnlockKeeps(k, m);
  }
}
