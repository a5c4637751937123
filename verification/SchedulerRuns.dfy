/** Whole runs of the scheduler: the invariant, lock nesting, ownership, arrival order and round robin. */
module SchedulerRuns {
  import opened Scheduler

  ghost predicate CanRun(k: Kernel, steps: seq<Step>)
    decreases |steps|
  {
    steps != [] ==> Enabled(k, steps[0]) && CanRun(Apply(k, steps[0]), steps[1..])
  }

  ghost function Run(k: Kernel, steps: seq<Step>): Kernel
    requires CanRun(k, steps)
    decreases |steps|
  {
    if steps == [] then k else Run(Apply(k, steps[0]), steps[1..])
  }

  /** Every reachable state satisfies the invariant. */
  lemma {:induction false} RunKeeps(k: Kernel, steps: seq<Step>)
    requires Inv(k) && CanRun(k, steps)
    ensures Inv(Run(k, steps)) && Run(k, steps).tasks.Keys == k.tasks.Keys
            && Run(k, steps).mutexes.Keys == k.mutexes.Keys
    decreases |steps|
  {
    if steps == [] {
    } else {
      StepKeeps(k, steps[0]);
      RunKeeps(Apply(k, steps[0]), steps[1..]);
    }
  }

  lemma {:induction false} RunTogether(k: Kernel, a: seq<Step>, b: seq<Step>)
    requires CanRun(k, a) && CanRun(Run(k, a), b)
    ensures CanRun(k, a + b) && Run(k, a + b) == Run(Run(k, a), b)
    decreases |a|
  {
    if a == [] {
      assert a + b == b;
    } else {
      assert (a + b)[0] == a[0] && (a + b)[1..] == a[1..] + b;
      RunTogether(Apply(k, a[0]), a[1..], b);
    }
  }

  // ---------------------------------------------------------------- nesting depth

  /** How often task t holds m: the count of the owner, and one for a lock call still waiting. */
  ghost function Held(k: Kernel, t: TaskId, m: MutexId): nat
    requires m in k.mutexes
  {
    var mu := k.mutexes[m];
    if mu.owner == Some(t) then mu.refcnt else if t in mu.waiting then 1 else 0
  }

  /** Lock calls minus unlock calls that task t makes on m during a run. */
  ghost function Depth(k: Kernel, steps: seq<Step>, t: TaskId, m: MutexId): int
    requires CanRun(k, steps)
    decreases |steps|
  {
    if steps == [] then 0
    else Change(k, steps[0], t, m) + Depth(Apply(k, steps[0]), steps[1..], t, m)
  }

  function Change(k: Kernel, s: Step, t: TaskId, m: MutexId): int {
    if k.current != t then 0 else if s == LockStep(m) then 1 else if s == UnlockStep(m) then -1 else 0
  }

  lemma MutexInOrder(k: Kernel, m: MutexId)
    requires Base(k) && m in k.mutexes
    ensures MutexOk(k, m)
  {
  }

  lemma StepBalance(k: Kernel, s: Step, t: TaskId, m: MutexId)
    requires Inv(k) && Enabled(k, s) && m in k.mutexes
    ensures m in Apply(k, s).mutexes && Held(Apply(k, s), t, m) == Held(k, t, m) + Change(k, s, t, m)
  {
    hide Base;
    StepKeeps(k, s);
    MutexInOrder(k, m);
    if s == LockStep(m) {
      LockKeeps(k, m);
      LockBalance(k, t, m);
    } else if s == UnlockStep(m) {
      UnlockKeeps(k, m);
      UnlockBalance(k, t, m);
    }
  }

  lemma LockBalance(k: Kernel, t: TaskId, m: MutexId)
    requires Inv(k) && m in k.mutexes && Enabled(k, LockStep(m))
    ensures m in k.Lock(m).mutexes && Held(k.Lock(m), t, m) == Held(k, t, m) + Change(k, LockStep(m), t, m)
  {
    LockKeeps(k, m);
    WaitersAreNotCurrent(k);
    assert MutexOk(k, m);
    var mu := k.mutexes[m];
    assert k.current !in mu.waiting;
    hide Inv;
  }

  lemma UnlockBalance(k: Kernel, t: TaskId, m: MutexId)
    requires Inv(k) && m in k.mutexes && Enabled(k, UnlockStep(m))
    ensures m in k.Unlock(m).mutexes && Held(k.Unlock(m), t, m) == Held(k, t, m) + Change(k, UnlockStep(m), t, m)
  {
    hide Base, TaskOk;
    UnlockKeeps(k, m);
    MutexInOrder(k, m);
    var mu := k.mutexes[m];
    if k.Releases(m) && mu.waiting != [] {
      assert mu.waiting == [mu.waiting[0]] + mu.waiting[1..];
      assert mu.waiting[0] !in mu.waiting[1..];
    }
    hide Inv, Kernel.Unlock, MutexOk;
  }

  /** Held grows by one with each lock call and falls by one with each unlock call of the task, over any run. */
  lemma {:induction false} HeldIsDepth(k: Kernel, steps: seq<Step>, t: TaskId, m: MutexId)
    requires Inv(k) && CanRun(k, steps) && m in k.mutexes
    ensures m in Run(k, steps).mutexes && Held(Run(k, steps), t, m) == Held(k, t, m) + Depth(k, steps, t, m)
    decreases |steps|
  {
    if steps == [] {
    } else {
      StepKeeps(k, steps[0]);
      StepBalance(k, steps[0], t, m);
      HeldIsDepth(Apply(k, steps[0]), steps[1..], t, m);
    }
  }

  /** From a fresh mutex: the owner's count is its nesting depth, a waiter's depth is one, everybody else's is zero. */
  lemma RefcntIsDepth(k: Kernel, steps: seq<Step>, t: TaskId, m: MutexId)
    requires Inv(k) && CanRun(k, steps) && m in k.mutexes && k.mutexes[m] == Mutex(false, None, 0, [])
    ensures m in Run(k, steps).mutexes
    ensures var mu, d := Run(k, steps).mutexes[m], Depth(k, steps, t, m);
            && (mu.owner == Some(t) ==> mu.refcnt == d && d >= 1)
            && (t in mu.waiting ==> d == 1 && mu.owner != Some(t))
            && (mu.owner != Some(t) && t !in mu.waiting ==> d == 0)
  {
    HeldIsDepth(k, steps, t, m);
    RunKeeps(k, steps);
    assert MutexOk(Run(k, steps), m);
  }

  // ---------------------------------------------------------------- ownership when a lock call returns

  /** The task does not run during the steps. */
  ghost predicate Away(k: Kernel, steps: seq<Step>, t: TaskId)
    requires CanRun(k, steps)
    decreases |steps|
  {
    steps != [] ==> k.current != t && Away(Apply(k, steps[0]), steps[1..], t)
  }

  /** Waiting for m, or given it. */
  predicate Claims(k: Kernel, t: TaskId, m: MutexId) {
    m in k.mutexes && (t in k.mutexes[m].waiting || (k.mutexes[m].owner == Some(t) && k.mutexes[m].refcnt == 1))
  }

  lemma ClaimKept(k: Kernel, s: Step, t: TaskId, m: MutexId)
    requires Inv(k) && Enabled(k, s) && k.current != t && Claims(k, t, m)
    ensures Claims(Apply(k, s), t, m)
  {
    hide Base;
    StepKeeps(k, s);
    MutexInOrder(k, m);
    if s == LockStep(m) {
      LockKeeps(k, m);
    } else if s == UnlockStep(m) {
      UnlockKeeps(k, m);
      var mu := k.mutexes[m];
      assert mu.waiting != [] ==> mu.waiting == [mu.waiting[0]] + mu.waiting[1..];
    }
  }

  lemma {:induction false} ClaimKeptAway(k: Kernel, steps: seq<Step>, t: TaskId, m: MutexId)
    requires Inv(k) && CanRun(k, steps) && Away(k, steps, t) && Claims(k, t, m)
    ensures Claims(Run(k, steps), t, m)
    decreases |steps|
  {
    if steps == [] {
    } else {
      ClaimKept(k, steps[0], t, m);
      StepKeeps(k, steps[0]);
      ClaimKeptAway(Apply(k, steps[0]), steps[1..], t, m);
    }
  }

  /** Whenever a lock call returns, at once or after sleeping through any other activity, its caller owns the mutex. */
  lemma LockReturnsOwned(k: Kernel, m: MutexId, steps: seq<Step>)
    requires Inv(k) && Enabled(k, LockStep(m))
    requires CanRun(k.Lock(m), steps) && Away(k.Lock(m), steps, k.current)
    requires Run(k.Lock(m), steps).current == k.current
    ensures m in Run(k.Lock(m), steps).mutexes
    ensures var mu := Run(k.Lock(m), steps).mutexes[m];
            && mu.locked && mu.owner == Some(k.current)
            && mu.refcnt == (if k.Blocks(m) then 1 else Held(k, k.current, m) + 1)
  {
    var k1 := k.Lock(m);
    LockKeeps(k, m);
    RunKeeps(k1, steps);
    var end := Run(k1, steps);
    assert MutexOk(end, m);
    if k.Blocks(m) {
      assert k1.mutexes[m].waiting[|k.mutexes[m].waiting|] == k.current;
      ClaimKeptAway(k1, steps, k.current, m);
      WaitersAreNotCurrent(end);
    } else {
      assert steps == [];
      LockBalance(k, k.current, m);
    }
  }

  // ---------------------------------------------------------------- arrival order

  /** How many steps of a run give m up for good. */
  ghost function FinalReleases(k: Kernel, steps: seq<Step>, m: MutexId): nat
    requires CanRun(k, steps)
    decreases |steps|
  {
    if steps == [] then 0
    else
      var now := if steps[0] == UnlockStep(m) && k.Releases(m) then 1 else 0;
      now + FinalReleases(Apply(k, steps[0]), steps[1..], m)
  }

  lemma QueueMoves(k: Kernel, s: Step, m: MutexId, i: nat)
    requires Inv(k) && Enabled(k, s) && m in k.mutexes && i < |k.mutexes[m].waiting|
    ensures m in Apply(k, s).mutexes
    ensures var t, mu := k.mutexes[m].waiting[i], Apply(k, s).mutexes[m];
            if s == UnlockStep(m) && k.Releases(m)
            then if i == 0 then mu.owner == Some(t) && mu.locked else i - 1 < |mu.waiting| && mu.waiting[i - 1] == t
            else i < |mu.waiting| && mu.waiting[i] == t
  {
    hide Base;
    StepKeeps(k, s);
    MutexInOrder(k, m);
    if s == LockStep(m) {
      LockKeeps(k, m);
    } else if s == UnlockStep(m) {
      UnlockKeeps(k, m);
    }
  }

  lemma OwnerStays(k: Kernel, s: Step, m: MutexId)
    requires Inv(k) && Enabled(k, s) && m in k.mutexes && k.mutexes[m].locked && !(s == UnlockStep(m) && k.Releases(m))
    ensures m in Apply(k, s).mutexes && Apply(k, s).mutexes[m].locked
            && Apply(k, s).mutexes[m].owner == k.mutexes[m].owner
  {
    hide Base;
    StepKeeps(k, s);
    MutexInOrder(k, m);
    if s == LockStep(m) {
      LockKeeps(k, m);
    } else if s == UnlockStep(m) {
      UnlockKeeps(k, m);
    }
  }

  lemma {:induction false} OwnerStaysThroughout(k: Kernel, steps: seq<Step>, m: MutexId)
    requires Inv(k) && CanRun(k, steps) && m in k.mutexes && k.mutexes[m].locked && FinalReleases(k, steps, m) == 0
    ensures m in Run(k, steps).mutexes && Run(k, steps).mutexes[m].owner == k.mutexes[m].owner
    decreases |steps|
  {
    if steps == [] {
    } else {
      OwnerStays(k, steps[0], m);
      StepKeeps(k, steps[0]);
      OwnerStaysThroughout(Apply(k, steps[0]), steps[1..], m);
    }
  }

  lemma WaiterIsNotOwner(k: Kernel, m: MutexId, i: nat)
    requires Inv(k) && m in k.mutexes && i < |k.mutexes[m].waiting|
    ensures k.mutexes[m].owner != Some(k.mutexes[m].waiting[i])
  {
    assert MutexOk(k, m);
  }

  /**
   * First come, first served: the waiter with i tasks ahead of it moves up by one with each final release, and the
   * next one makes it the owner.
   */
  lemma {:induction false} ArrivalOrder(k: Kernel, steps: seq<Step>, m: MutexId, i: nat)
    requires Inv(k) && CanRun(k, steps) && m in k.mutexes && i < |k.mutexes[m].waiting|
    ensures m in Run(k, steps).mutexes
    ensures var t, r, mu := k.mutexes[m].waiting[i], FinalReleases(k, steps, m), Run(k, steps).mutexes[m];
            && (r <= i ==> i - r < |mu.waiting| && mu.waiting[i - r] == t && mu.owner != Some(t))
            && (r == i + 1 ==> mu.owner == Some(t))
    decreases |steps|
  {
    hide Inv, Enabled, Apply;
    RunKeeps(k, steps);
    if steps == [] {
      WaiterIsNotOwner(k, m, i);
    } else {
      QueueMoves(k, steps[0], m, i);
      StepKeeps(k, steps[0]);
      var k1 := Apply(k, steps[0]);
      if steps[0] == UnlockStep(m) && k.Releases(m) {
        if i > 0 {
          ArrivalOrder(k1, steps[1..], m, i - 1);
        } else if FinalReleases(k, steps, m) == 1 {
          OwnerStaysThroughout(k1, steps[1..], m);
        }
      } else {
        ArrivalOrder(k1, steps[1..], m, i);
      }
    }
  }

  /** The release that serves a waiter also wakes it. */
  lemma HandoffWakesOwner(k: Kernel, m: MutexId)
    requires Inv(k) && k.Releases(m) && k.mutexes[m].waiting != []
    ensures Enabled(k, UnlockStep(m))
    ensures var k', t := k.Unlock(m), k.mutexes[m].waiting[0];
            && k'.mutexes[m].owner == Some(t) && t in k'.tasks
            && ((t == k'.current && k'.tasks[t].state == Running)
                || (k'.tasks[t].priority < |k'.ready| && t in k'.ready[k'.tasks[t].priority]
                    && k'.tasks[t].state == Ready))
  {
    HandoffKeeps(k, m);
    var k', t := k.Unlock(m), k.mutexes[m].waiting[0];
    assert MutexOk(k, m);
    assert TaskOk(k', t);
  }

  // ---------------------------------------------------------------- waking a waiter from outside

  /** The plain wake-up call keeps the invariant exactly when its task is awake or waits for no mutex. */
  lemma WakeupKeepsExactlyWhen(k: Kernel, t: TaskId)
    requires Inv(k) && t in k.tasks
    ensures TaskOk(k, t) && TaskOk(k, k.current)
    ensures Inv(k.Wakeup(t)) <==> k.tasks[t].state != Sleeping || WaitsForNone(k, t)
  {
    assert TaskOk(k, t) && TaskOk(k, k.current);
    if k.tasks[t].state == Sleeping && !WaitsForNone(k, t) {
      var m :| m in k.mutexes && t in k.mutexes[m].waiting;
      assert t in k.Wakeup(t).mutexes[m].waiting && k.Wakeup(t).tasks[t].state != Sleeping;
      assert !MutexOk(k.Wakeup(t), m);
    } else {
      WakeupKeeps(k, t);
    }
  }

  /** When it wakes a waiter that may run at once, the waiter's lock call returns without the lock. */
  lemma OutsideWakeupStealsReturn(k: Kernel, t: TaskId, m: MutexId)
    requires Inv(k) && m in k.mutexes && t in k.mutexes[m].waiting
    requires TaskOk(k, k.current) && t in k.tasks && TaskOk(k, t)
    requires k.Priority(t) <= k.Priority(k.current) && forall p :: 0 <= p <= k.Priority(t) ==> k.ready[p] == []
    ensures k.Wakeup(t).current == t && k.Wakeup(t).mutexes == k.mutexes && k.mutexes[m].owner != Some(t)
  {
    assert MutexOk(k, m);
    WaitersAreNotCurrent(k);
    var k1 := k.Enqueue(t);
    assert k1.ready[k.tasks[t].priority] == [t];
    FirstIs(k1, k.tasks[t].priority);
    assert k.tasks[t].state == Sleeping && t != k.current;
    assert k1.Schedule() == k1.SwitchTo(k.tasks[t].priority);
  }

  // ---------------------------------------------------------------- runs from the boot

  lemma FirstIs(k: Kernel, p: nat)
    requires |k.ready| == PRIORITIES && p < PRIORITIES && k.ready[p] != []
    requires forall q :: 0 <= q < p ==> k.ready[q] == []
    ensures k.HasReady() && k.FirstReady(0) == p
  {
  }

  lemma ThreeSteps(k: Kernel, a: Step, b: Step, c: Step)
    requires Enabled(k, a) && Enabled(Apply(k, a), b) && Enabled(Apply(Apply(k, a), b), c)
    ensures CanRun(k, [a, b, c]) && Run(k, [a, b, c]) == Apply(Apply(Apply(k, a), b), c)
  {
    hide Enabled, Apply;
    assert [a, b, c][1..] == [b, c] && [b, c][1..] == [c] && [c][1..] == [];
    var k1, k2 := Apply(k, a), Apply(Apply(k, a), b);
    assert CanRun(Apply(k2, c), []) && Run(Apply(k2, c), []) == Apply(k2, c);
    assert CanRun(k2, [c]) && Run(k2, [c]) == Apply(k2, c);
    assert CanRun(k1, [b, c]) && Run(k1, [b, c]) == Apply(k2, c);
  }

  /**
   * The idle task starts another one, which runs and then sleeps: the idle task is alone, and its next yield fails
   * the assertion of the scheduler.
   */
  lemma IdleAloneCannotYield(tasks: map<TaskId, Task>, idle: TaskId, main: TaskId)
    requires idle in tasks && main in tasks && main != idle && forall t :: t in tasks ==> NewTask(tasks[t])
    requires tasks[main].priority <= tasks[idle].priority
    ensures Inv(Boot(tasks, idle)) && CanRun(Boot(tasks, idle), [StartupStep(main), YieldStep, SleepStep])
    ensures var k := Run(Boot(tasks, idle), [StartupStep(main), YieldStep, SleepStep]);
            k.current == idle && !Enabled(k, YieldStep)
  {
    var k0 := Boot(tasks, idle);
    BootKeeps(tasks, idle);
    hide Base, Inv;
    var pm, pi := tasks[main].priority, tasks[idle].priority;
    var k1 := k0.Startup(main);
    assert k1.ready[pm] == [main];
    FirstIs(k1, pm);
    var k2 := k1.Schedule();
    assert k2 == k1.SwitchTo(pm) && k2.ready[pi] == [idle] && k2.current == main;
    assert forall q :: 0 <= q < PRIORITIES && q != pi ==> k2.ready[q] == [];
    FirstIs(k2, pi);
    var k3 := k2.Sleep();
    FirstIs(Leave(k2, Sleeping), pi);
    assert k3 == Leave(k2, Sleeping).SwitchTo(pi);
    assert forall q :: 0 <= q < PRIORITIES ==> k3.ready[q] == [];
    ThreeSteps(k0, StartupStep(main), YieldStep, SleepStep);
  }

  /** The boot state with one mutex. */
  function BootWithMutex(tasks: map<TaskId, Task>, idle: TaskId, m: MutexId): Kernel
    requires idle in tasks
  {
    Boot(tasks, idle).(mutexes := map[m := Mutex(false, None, 0, [])])
  }

  /** Task a runs and locks the mutex. */
  lemma FirstLocks(tasks: map<TaskId, Task>, idle: TaskId, a: TaskId, m: MutexId)
    requires idle in tasks && a in tasks && a != idle && forall t :: t in tasks ==> NewTask(tasks[t])
    requires tasks[a].priority < tasks[idle].priority
    ensures var k0, steps := BootWithMutex(tasks, idle, m), [StartupStep(a), YieldStep, LockStep(m)];
            CanRun(k0, steps) && FirstLocked(tasks, idle, a, m, Run(k0, steps))
  {
    var k0, pa, pi := BootWithMutex(tasks, idle, m), tasks[a].priority, tasks[idle].priority;
    var k1 := k0.Startup(a);
    assert k1.ready[pa] == [a];
    FirstIs(k1, pa);
    var k2 := k1.Schedule();
    assert k2 == k1.SwitchTo(pa) && k2.ready[pi] == [idle] && k2.current == a;
    assert forall q :: 0 <= q < PRIORITIES && q != pi ==> k2.ready[q] == [];
    ThreeSteps(k0, StartupStep(a), YieldStep, LockStep(m));
  }

  predicate FirstLocked(tasks: map<TaskId, Task>, idle: TaskId, a: TaskId, m: MutexId, k: Kernel)
    requires idle in tasks && a in tasks
  {
    && |k.ready| == PRIORITIES && k.current == a && k.mutexes == map[m := Mutex(true, Some(a), 1, [])]
    && tasks[a].priority < tasks[idle].priority < PRIORITIES
    && k.tasks.Keys == tasks.Keys
    && (forall t :: t in tasks && t != a && t != idle ==> k.tasks[t] == tasks[t])
    && k.tasks[a].priority == tasks[a].priority && k.tasks[a].state == Running
    && (forall q :: 0 <= q < PRIORITIES ==> k.ready[q] == if q == tasks[idle].priority then [idle] else [])
  }

  /** A better task b starts, runs, and waits for the mutex; a runs on. */
  lemma SecondWaits(tasks: map<TaskId, Task>, idle: TaskId, a: TaskId, b: TaskId, m: MutexId, k: Kernel)
    requires idle in tasks && a in tasks && b in tasks && a != idle && b != idle && b != a
    requires FirstLocked(tasks, idle, a, m, k) && NewTask(tasks[b]) && tasks[b].priority < tasks[a].priority
    ensures var steps := [StartupStep(b), YieldStep, LockStep(m)];
            CanRun(k, steps) && SecondWaiting(tasks, idle, a, b, m, Run(k, steps))
  {
    hide FirstLocked, SecondWaiting, Enabled, Apply;
    FirstLockedPriorities(tasks, idle, a, m, k);
    SecondRuns(tasks, idle, a, b, m, k);
    FirstRunsOn(tasks, idle, a, b, m, Apply(Apply(k, StartupStep(b)), YieldStep));
    ThreeSteps(k, StartupStep(b), YieldStep, LockStep(m));
  }

  lemma FirstLockedPriorities(tasks: map<TaskId, Task>, idle: TaskId, a: TaskId, m: MutexId, k: Kernel)
    requires idle in tasks && a in tasks && FirstLocked(tasks, idle, a, m, k)
    ensures tasks[a].priority < tasks[idle].priority < PRIORITIES && k.mutexes == map[m := Mutex(true, Some(a), 1, [])]
  {
  }

  lemma FirstRunsOn(tasks: map<TaskId, Task>, idle: TaskId, a: TaskId, b: TaskId, m: MutexId, k: Kernel)
    requires idle in tasks && a in tasks && b in tasks && a != idle && b != idle && b != a
    requires |k.ready| == PRIORITIES && k.current == b && k.mutexes == map[m := Mutex(true, Some(a), 1, [])]
    requires k.tasks.Keys == tasks.Keys && tasks[b].priority < tasks[a].priority < tasks[idle].priority < PRIORITIES
    requires k.Priority(a) == tasks[a].priority && k.tasks[b].priority == tasks[b].priority
             && k.tasks[b].state == Running
    requires forall q :: 0 <= q < PRIORITIES ==>
               k.ready[q] == if q == tasks[idle].priority then [idle] else if q == tasks[a].priority then [a] else []
    ensures Enabled(k, LockStep(m)) && SecondWaiting(tasks, idle, a, b, m, Apply(k, LockStep(m)))
  {
    var pa := tasks[a].priority;
    FirstIs(k, pa);
    FirstIs(Queued(k, m), pa);
    assert k.Lock(m) == Queued(k, m).SwitchTo(pa);
    assert [] + [b] == [b];
    assert Queued(k, m).mutexes[m] == Mutex(true, Some(a), 1, [b]);
    assert Queued(k, m).mutexes == map[m := Mutex(true, Some(a), 1, [b])];
  }

  lemma SecondRuns(tasks: map<TaskId, Task>, idle: TaskId, a: TaskId, b: TaskId, m: MutexId, k: Kernel)
    requires idle in tasks && a in tasks && b in tasks && a != idle && b != idle && b != a
    requires FirstLocked(tasks, idle, a, m, k) && NewTask(tasks[b]) && tasks[b].priority < tasks[a].priority
    ensures Enabled(k, StartupStep(b)) && Enabled(Apply(k, StartupStep(b)), YieldStep)
    ensures var k2, pb := Apply(Apply(k, StartupStep(b)), YieldStep), tasks[b].priority;
               && |k2.ready| == PRIORITIES && k2.current == b && k2.mutexes == k.mutexes && k2.tasks.Keys == tasks.Keys
               && k2.Priority(a) == tasks[a].priority && k2.tasks[b].priority == pb && k2.tasks[b].state == Running
               && (forall q :: 0 <= q < PRIORITIES ==>
                     k2.ready[q] == if q == tasks[idle].priority then [idle] else if q == tasks[a].priority then [a]
                       else [])
  {
    var pb, k1 := tasks[b].priority, k.Startup(b);
    assert k1.ready[pb] == [b];
    FirstIs(k1, pb);
    var k2 := k1.SwitchTo(pb);
    assert k2.ready[tasks[a].priority] == [a];
  }

  predicate SecondWaiting(tasks: map<TaskId, Task>, idle: TaskId, a: TaskId, b: TaskId, m: MutexId, k: Kernel)
    requires idle in tasks && a in tasks && b in tasks
  {
    && |k.ready| == PRIORITIES && k.current == a && k.mutexes == map[m := Mutex(true, Some(a), 1, [b])]
    && tasks[b].priority < tasks[a].priority < tasks[idle].priority
    && k.tasks.Keys == tasks.Keys && k.Priority(b) == tasks[b].priority && k.Priority(a) == tasks[a].priority
    && (forall q :: 0 <= q < PRIORITIES && q != tasks[idle].priority ==> k.ready[q] == [])
  }

  lemma BootWithMutexKeeps(tasks: map<TaskId, Task>, idle: TaskId, m: MutexId)
    requires idle in tasks && forall t :: t in tasks ==> NewTask(tasks[t])
    ensures Inv(BootWithMutex(tasks, idle, m))
  {
    BootKeeps(tasks, idle);
  }

  /**
   * A run from the boot to such a state: a locks, the better task b waits, and when a wakes b by the plain call
   * the lock call of b returns while a owns the mutex.
   */
  lemma StealIsReachable(tasks: map<TaskId, Task>, idle: TaskId, a: TaskId, b: TaskId, m: MutexId)
    requires idle in tasks && a in tasks && b in tasks && a != idle && b != idle && b != a
    requires forall t :: t in tasks ==> NewTask(tasks[t])
    requires tasks[b].priority < tasks[a].priority < tasks[idle].priority
    ensures var k0 := BootWithMutex(tasks, idle, m);
            var steps := [StartupStep(a), YieldStep, LockStep(m)] + [StartupStep(b), YieldStep, LockStep(m)];
            && Inv(k0) && CanRun(k0, steps)
            && var k := Run(k0, steps);
               && |k.ready| == PRIORITIES && b in k.tasks && k.current in k.tasks && TaskOk(k, b)
                  && TaskOk(k, k.current)
               && k.current == a && m in k.mutexes && b in k.mutexes[m].waiting
               && k.Wakeup(b).current == b && k.Wakeup(b).mutexes[m].owner == Some(a)
  {
    var k0, first := BootWithMutex(tasks, idle, m), [StartupStep(a), YieldStep, LockStep(m)];
    var second := [StartupStep(b), YieldStep, LockStep(m)];
    BootWithMutexKeeps(tasks, idle, m);
    FirstLocks(tasks, idle, a, m);
    SecondWaits(tasks, idle, a, b, m, Run(k0, first));
    RunTogether(k0, first, second);
    var k := Run(k0, first + second);
    RunKeeps(k0, first + second);
    hide CanRun, Run, FirstLocked, BootWithMutex, Kernel.Wakeup;
    assert TaskOk(k, b) && TaskOk(k, k.current);
    OutsideWakeupStealsReturn(k, b, m);
  }

  // ---------------------------------------------------------------- the best task runs

  /** Once the best task runs, every step but a startup keeps it so; a startup does unless the new task is better. */
  lemma BestStays(k: Kernel, s: Step)
    requires Inv(k) && Enabled(k, s) && BestRuns(k)
    requires s.StartupStep? ==> k.Priority(k.current) <= k.Priority(s.t)
    ensures BestRuns(Apply(k, s))
  {
    match s
    case StartupStep(t) =>
    case YieldStep => StepKeeps(k, s);
    case SleepStep => StepKeeps(k, s);
    case ExitStep => StepKeeps(k, s);
    case WakeupStep(t) => WakeupKeeps(k, t);
    case TickStep => TickKeeps(k);
    case LockStep(m) => LockKeeps(k, m);
    case UnlockStep(m) =>
      if k.Releases(m) && k.mutexes[m].waiting != [] {
        HandoffKeeps(k, m);
      }
  }

  /** A stopped task is never run again. */
  lemma {:induction false} StoppedForGood(k: Kernel, steps: seq<Step>, t: TaskId)
    requires Inv(k) && CanRun(k, steps) && t in k.tasks && k.tasks[t].state == Stopped
    ensures t in Run(k, steps).tasks && Run(k, steps).tasks[t].state == Stopped && Run(k, steps).current != t
    decreases |steps|
  {
    if steps == [] {
    } else {
      StepKeeps(k, steps[0]);
      StoppedForGood(Apply(k, steps[0]), steps[1..], t);
    }
  }

  // ---------------------------------------------------------------- order within one priority

  /** Tasks join a ready list at its end and leave it from its front, to run. */
  predicate Fifo(before: seq<TaskId>, after: seq<TaskId>, running: TaskId) {
    before <= after || (before != [] && running == before[0] && before[1..] <= after)
  }

  lemma ScheduleIsFifo(k: Kernel, q: nat)
    requires k.HasReady() && k.current in k.tasks && k.tasks[k.current].priority < PRIORITIES && q < PRIORITIES
    ensures |k.Schedule().ready| == PRIORITIES && Fifo(k.ready[q], k.Schedule().ready[q], k.Schedule().current)
  {
  }

  lemma WakeupIsFifo(k: Kernel, t: TaskId, q: nat)
    requires t in k.tasks && k.tasks[t].priority < PRIORITIES && |k.ready| == PRIORITIES && q < PRIORITIES
    requires k.current in k.tasks && k.tasks[k.current].priority < PRIORITIES
    ensures |k.Wakeup(t).ready| == PRIORITIES && Fifo(k.ready[q], k.Wakeup(t).ready[q], k.Wakeup(t).current)
  {
    if k.tasks[t].state == Sleeping {
      var k1 := k.Enqueue(t);
      assert k1.ready[k.tasks[t].priority] != [];
      ScheduleIsFifo(k1, q);
      JoinedIsFifo(k.ready[q], t, k1.Schedule().ready[q], k1.Schedule().current);
    }
  }

  lemma JoinedIsFifo(before: seq<TaskId>, t: TaskId, after: seq<TaskId>, running: TaskId)
    requires Fifo(before, after, running) || Fifo(before + [t], after, running)
    ensures Fifo(before, after, running)
  {
    assert before != [] ==> (before + [t])[1..] == before[1..] + [t];
  }

  /** No step lets a task overtake another one on its ready list. */
  lemma StepIsFifo(k: Kernel, s: Step, q: nat)
    requires Enabled(k, s) && q < PRIORITIES
    ensures |Apply(k, s).ready| == PRIORITIES && Fifo(k.ready[q], Apply(k, s).ready[q], Apply(k, s).current)
  {
    match s
    case StartupStep(t) =>
    case YieldStep => ScheduleIsFifo(k, q);
    case SleepStep => ScheduleIsFifo(Leave(k, Sleeping), q);
    case ExitStep => ScheduleIsFifo(Leave(k, Stopped), q);
    case WakeupStep(t) => WakeupIsFifo(k, t, q);
    case TickStep =>
      if k.tasks[k.current].tickRemaining == 0 {
        ScheduleIsFifo(Retick(k, k.tasks[k.current].tickInit), q);
      }
    case LockStep(m) =>
      if k.Blocks(m) {
        ScheduleIsFifo(Queued(k, m), q);
      }
    case UnlockStep(m) =>
      if k.Releases(m) && k.mutexes[m].waiting != [] {
        WakeupIsFifo(Handed(k, m), k.mutexes[m].waiting[0], q);
      }
  }

  // ---------------------------------------------------------------- round robin

  /** The ready tasks of the best priority, the current one first, then in list order. */
  ghost predicate Ring(k: Kernel, ring: seq<TaskId>) {
    && Inv(k) && |ring| >= 2 && k.Priority(k.current) < PRIORITIES
    && [k.current] + k.ready[k.Priority(k.current)] == ring
    && (forall q :: 0 <= q < k.Priority(k.current) ==> k.ready[q] == [])
  }

  function Repeat(s: Step, n: nat): seq<Step> {
    seq(n, _ => s)
  }

  function Rotate(ring: seq<TaskId>, j: nat): seq<TaskId>
    requires j <= |ring|
  {
    ring[j..] + ring[..j]
  }

  /** The ready lists agree except for list p, which is that of both current tasks. */
  predicate SameBut(k: Kernel, k': Kernel, p: nat) {
    && |k'.ready| == |k.ready| && k.Priority(k.current) == p == k'.Priority(k'.current)
    && forall q :: 0 <= q < |k.ready| && q != p ==> k'.ready[q] == k.ready[q]
  }

  lemma RingFixesReady(k: Kernel, k': Kernel, ring: seq<TaskId>)
    requires Ring(k, ring) && Ring(k', ring) && SameBut(k, k', k.Priority(k.current))
    ensures k'.ready == k.ready && k'.current == k.current
  {
    var p := k.Priority(k.current);
    assert k.ready[p] == ring[1..] && k'.ready[p] == ring[1..];
    RingHead(k, ring);
    RingHead(k', ring);
    assert forall q :: 0 <= q < |k.ready| ==> k'.ready[q] == k.ready[q];
  }

  /** Scheduling moves the ring on by one. */
  lemma ScheduleRotates(k: Kernel, ring: seq<TaskId>)
    requires Ring(k, ring)
    ensures k.HasReady() && TaskOk(k, k.current)
    ensures Ring(k.Schedule(), Rotate(ring, 1)) && k.Schedule().mutexes == k.mutexes
    ensures SameBut(k, k.Schedule(), k.Priority(k.current))
    ensures forall t :: t in k.tasks ==>
              && t in k.Schedule().tasks && k.Schedule().tasks[t].tickInit == k.tasks[t].tickInit
              && k.Schedule().tasks[t].priority == k.tasks[t].priority
              && (k.tasks[t].tickRemaining > 0 || t != k.current ==>
                  k.Schedule().tasks[t].tickRemaining == k.tasks[t].tickRemaining)
  {
    hide MutexOk, Apart, StopsKept, BestRuns;
    var p := k.Priority(k.current);
    assert TaskOk(k, k.current) && ListOk(k, p);
    assert k.ready[p] == ring[1..] && k.ready[p] != [];
    assert k.FirstReady(0) == p;
    var next := k.ready[p][0];
    assert next in k.tasks && k.tasks[next].priority == p && next != k.current;
    ScheduleKeeps(k);
    var k' := k.Schedule();
    assert k' == k.SwitchTo(p) && k'.current == next;
    assert next in k'.tasks && k'.tasks[next].priority == p;
    assert k'.ready[p] == k.ready[p][1..] + [k.current];
    assert ring[1..] == [next] + k.ready[p][1..];
  }

  /** The steps of a run with one repeated step more. */
  lemma OneMore(k: Kernel, s: Step, n: nat)
    requires CanRun(k, Repeat(s, n)) && Enabled(Run(k, Repeat(s, n)), s)
    ensures CanRun(k, Repeat(s, n + 1)) && Run(k, Repeat(s, n + 1)) == Apply(Run(k, Repeat(s, n)), s)
  {
    var k1 := Run(k, Repeat(s, n));
    assert Repeat(s, n + 1) == Repeat(s, n) + [s];
    hide Apply, Enabled;
    assert [s][1..] == [];
    assert Run(Apply(k1, s), [s][1..]) == Apply(k1, s);
    RunTogether(k, Repeat(s, n), [s]);
  }

  lemma RingHead(k: Kernel, ring: seq<TaskId>)
    requires Ring(k, ring)
    ensures |ring| >= 2 && Inv(k) && k.current in k.tasks && k.current == ring[0]
  {
    assert ([k.current] + k.ready[k.Priority(k.current)])[0] == k.current;
  }

  lemma YieldsOnce(k: Kernel)
    requires |k.ready| == PRIORITIES && k.current in k.tasks && TaskOk(k, k.current) && k.HasReady()
    ensures Enabled(k, YieldStep) && Apply(k, YieldStep) == k.Schedule()
  {
  }

  /** After j yields the ring has moved on by j, and nothing outside it has changed. */
  ghost predicate Rotated(k: Kernel, ring: seq<TaskId>, j: nat) {
    && j <= |ring| && CanRun(k, Repeat(YieldStep, j))
    && var k' := Run(k, Repeat(YieldStep, j));
       && Ring(k', Rotate(ring, j)) && k'.mutexes == k.mutexes && SameBut(k, k', k.Priority(k.current))
  }

  lemma RotatedOnce(k: Kernel, ring: seq<TaskId>, j: nat)
    requires Rotated(k, ring, j) && j < |ring|
    ensures Rotated(k, ring, j + 1)
  {
    hide Ring, Apply, Enabled;
    var k1 := Run(k, Repeat(YieldStep, j));
    RingHead(k1, Rotate(ring, j));
    hide Inv;
    ScheduleRotates(k1, Rotate(ring, j));
    YieldsOnce(k1);
    OneMore(k, YieldStep, j);
    assert Rotate(Rotate(ring, j), 1) == Rotate(ring, j + 1);
  }

  lemma {:induction false} RotatedBy(k: Kernel, ring: seq<TaskId>, j: nat)
    requires Ring(k, ring) && j <= |ring|
    ensures Rotated(k, ring, j)
  {
    if j == 0 {
      assert Rotate(ring, 0) == ring;
      assert Run(k, Repeat(YieldStep, 0)) == k;
    } else {
      RotatedBy(k, ring, j - 1);
      hide Rotated;
      RotatedOnce(k, ring, j - 1);
    }
  }

  /**
   * After j yields the j-th task of the ring runs; after as many yields as there are tasks the order is the first
   * one again.
   */
  lemma RoundRobin(k: Kernel, ring: seq<TaskId>, j: nat)
    requires Ring(k, ring) && j <= |ring|
    ensures CanRun(k, Repeat(YieldStep, j)) && Run(k, Repeat(YieldStep, j)).mutexes == k.mutexes
    ensures SameBut(k, Run(k, Repeat(YieldStep, j)), k.Priority(k.current))
    ensures j < |ring| ==> Run(k, Repeat(YieldStep, j)).current == ring[j]
    ensures j == |ring| ==>
              Run(k, Repeat(YieldStep, j)).current == k.current && Run(k, Repeat(YieldStep, j)).ready == k.ready
  {
    hide Ring;
    RotatedBy(k, ring, j);
    RingHead(Run(k, Repeat(YieldStep, j)), Rotate(ring, j));
    if j == |ring| {
      assert Rotate(ring, j) == ring;
      RingFixesReady(k, Run(k, Repeat(YieldStep, j)), ring);
    }
  }

  // ---------------------------------------------------------------- waiting time under the timer

  /** Ticks until the j-th task of the ring runs: what is left of the slices before it, and one tick each to switch. */
  function TicksUntil(k: Kernel, ring: seq<TaskId>, j: nat): nat
    requires j <= |ring| && forall t :: t in ring ==> t in k.tasks
  {
    if j == 0 then 0 else TicksUntil(k, ring, j - 1) + k.tasks[ring[j - 1]].tickRemaining + 1
  }

  function SlicesUntil(k: Kernel, ring: seq<TaskId>, j: nat): nat
    requires j <= |ring| && forall t :: t in ring ==> t in k.tasks
  {
    if j == 0 then 0 else SlicesUntil(k, ring, j - 1) + k.tasks[ring[j - 1]].tickInit + 1
  }

  lemma RingTasks(k: Kernel, ring: seq<TaskId>)
    requires Ring(k, ring)
    ensures forall t :: t in ring ==> t in k.tasks
    ensures forall i, j :: 0 <= i < j < |ring| ==> ring[i] != ring[j]
  {
    var p := k.Priority(k.current);
    assert ListOk(k, p) && k.ready[p] == ring[1..];
    forall i, j | 0 <= i < j < |ring|
      ensures ring[i] != ring[j]
    {
      assert ring[j] == k.ready[p][j - 1];
      assert i > 0 ==> ring[i] == k.ready[p][i - 1];
    }
  }

  /** While a slice lasts, ticks only count it down. */
  lemma {:induction false} SliceRunsDown(k: Kernel, ring: seq<TaskId>, n: nat)
    requires Ring(k, ring) && n <= k.tasks[k.current].tickRemaining
    ensures CanRun(k, Repeat(TickStep, n))
    ensures Ring(Run(k, Repeat(TickStep, n)), ring)
    ensures Run(k, Repeat(TickStep, n)) == Retick(k, k.tasks[k.current].tickRemaining - n)
  {
    hide ListOk, MutexOk, Apart;
    if n == 0 {
      assert Retick(k, k.tasks[k.current].tickRemaining) == k by {
        assert k.tasks[k.current := k.tasks[k.current]] == k.tasks;
      }
    } else {
      SliceRunsDown(k, ring, n - 1);
      var k1 := Run(k, Repeat(TickStep, n - 1));
      assert TaskOk(k1, k1.current);
      TickKeeps(k1);
      OneMore(k, TickStep, n - 1);
      var left := k.tasks[k.current].tickRemaining - n;
      assert k1.Tick() == Retick(k1, left);
      assert Retick(k1, left) == Retick(k, left);
    }
  }

  /**
   * A turn takes what is left of the slice and one tick; then the next task runs and nobody else's slice has
   * changed.
   */
  lemma TurnEnds(k: Kernel, ring: seq<TaskId>)
    requires Ring(k, ring)
    ensures var n := k.tasks[k.current].tickRemaining + 1;
            && CanRun(k, Repeat(TickStep, n)) && Ring(Run(k, Repeat(TickStep, n)), Rotate(ring, 1))
            && (forall t :: t in k.tasks ==>
                  && t in Run(k, Repeat(TickStep, n)).tasks
                  && Run(k, Repeat(TickStep, n)).tasks[t].tickRemaining
                     == if t == k.current then k.tasks[t].tickInit else k.tasks[t].tickRemaining)
  {
    hide ListOk, MutexOk, Apart;
    var r := k.tasks[k.current].tickRemaining;
    SliceRunsDown(k, ring, r);
    var k1 := Run(k, Repeat(TickStep, r));
    var k2 := Retick(k1, k.tasks[k.current].tickInit);
    RetickKeeps(k1, k.tasks[k.current].tickInit);
    assert Ring(k2, ring);
    assert TaskOk(k1, k1.current);
    ScheduleRotates(k2, ring);
    assert k1.HasReady();
    assert k1.Tick() == k2.Schedule();
    OneMore(k, TickStep, r);
    EmptySlice(k2);
  }

  /** A slice of no ticks is put back to no ticks. */
  lemma EmptySlice(k: Kernel)
    requires Inv(k) && k.HasReady() && k.tasks[k.current].tickRemaining == k.tasks[k.current].tickInit
    ensures TaskOk(k, k.current) && k.current in k.Schedule().tasks
    ensures k.Schedule().tasks[k.current].tickRemaining == k.tasks[k.current].tickInit
  {
    assert TaskOk(k, k.current);
  }

  /** After n ticks task j of the first ring runs and the slices from there on are as they were. */
  ghost predicate Reached(k: Kernel, ring: seq<TaskId>, n: nat, j: nat) {
    && j < |ring| && CanRun(k, Repeat(TickStep, n))
    && (forall t :: t in ring ==> t in k.tasks)
    && var k' := Run(k, Repeat(TickStep, n));
       && Ring(k', Rotate(ring, j)) && k'.current == ring[j]
       && (forall i :: j <= i < |ring| ==>
           ring[i] in k'.tasks && k'.tasks[ring[i]].tickRemaining == k.tasks[ring[i]].tickRemaining)
  }

  lemma NextReached(k: Kernel, ring: seq<TaskId>, n: nat, j: nat)
    requires Reached(k, ring, n, j) && j + 1 < |ring| && forall i, l :: 0 <= i < l < |ring| ==> ring[i] != ring[l]
    ensures ring[j] in k.tasks && Reached(k, ring, n + k.tasks[ring[j]].tickRemaining + 1, j + 1)
  {
    hide Ring, Enabled, Apply;
    assert ring[j] in ring;
    var k1 := Run(k, Repeat(TickStep, n));
    RingHead(k1, Rotate(ring, j));
    hide Inv;
    TurnEnds(k1, Rotate(ring, j));
    var turn := k.tasks[ring[j]].tickRemaining + 1;
    assert turn == k1.tasks[k1.current].tickRemaining + 1;
    RunTogether(k, Repeat(TickStep, n), Repeat(TickStep, turn));
    assert Repeat(TickStep, n) + Repeat(TickStep, turn) == Repeat(TickStep, n + turn);
    assert Rotate(Rotate(ring, j), 1) == Rotate(ring, j + 1);
    RingHead(Run(k, Repeat(TickStep, n + turn)), Rotate(ring, j + 1));
  }

  lemma {:induction false} ReachedInTime(k: Kernel, ring: seq<TaskId>, j: nat)
    requires Ring(k, ring) && j < |ring|
    ensures (forall t :: t in ring ==> t in k.tasks) && Reached(k, ring, TicksUntil(k, ring, j), j)
  {
    RingTasks(k, ring);
    RingHead(k, ring);
    if j == 0 {
      assert Rotate(ring, 0) == ring;
      assert Run(k, Repeat(TickStep, 0)) == k;
    } else {
      hide Ring, Inv, Reached;
      ReachedInTime(k, ring, j - 1);
      NextReached(k, ring, TicksUntil(k, ring, j - 1), j - 1);
    }
  }

  /** Within its slice the i-th task of the ring goes on running. */
  lemma RunsOn(k: Kernel, ring: seq<TaskId>, i: nat, d: nat)
    requires Ring(k, ring) && i < |ring| && (forall t :: t in ring ==> t in k.tasks)
             && d <= k.tasks[ring[i]].tickRemaining
    ensures CanRun(k, Repeat(TickStep, TicksUntil(k, ring, i) + d))
    ensures Run(k, Repeat(TickStep, TicksUntil(k, ring, i) + d)).current == ring[i]
  {
    hide Ring;
    ReachedInTime(k, ring, i);
    var n := TicksUntil(k, ring, i);
    var k1 := Run(k, Repeat(TickStep, n));
    RingHead(k1, Rotate(ring, i));
    SliceRunsDown(k1, Rotate(ring, i), d);
    RunTogether(k, Repeat(TickStep, n), Repeat(TickStep, d));
    assert Repeat(TickStep, n) + Repeat(TickStep, d) == Repeat(TickStep, n + d);
  }

  /** Before its turn comes an earlier task of the ring runs. */
  lemma {:induction false} EarlierRuns(k: Kernel, ring: seq<TaskId>, j: nat, n: nat) returns (i: nat)
    requires Ring(k, ring) && j < |ring| && (forall t :: t in ring ==> t in k.tasks) && n < TicksUntil(k, ring, j)
    ensures i < j && CanRun(k, Repeat(TickStep, n)) && Run(k, Repeat(TickStep, n)).current == ring[i]
  {
    var before := TicksUntil(k, ring, j - 1);
    if n < before {
      i := EarlierRuns(k, ring, j - 1, n);
    } else {
      i := j - 1;
      assert n == before + (n - before);
      RunsOn(k, ring, i, n - before);
    }
  }

  /**
   * Driven by the timer alone, the j-th task of the ring runs after exactly the sum of the slices before it:
   * then, and not after any smaller number of ticks.
   */
  lemma ExactWait(k: Kernel, ring: seq<TaskId>, j: nat)
    requires Ring(k, ring) && j < |ring|
    ensures (forall t :: t in ring ==> t in k.tasks) && Reached(k, ring, TicksUntil(k, ring, j), j)
    ensures forall n: nat :: n < TicksUntil(k, ring, j) ==>
              CanRun(k, Repeat(TickStep, n)) && Run(k, Repeat(TickStep, n)).current != ring[j]
  {
    RingTasks(k, ring);
    ReachedInTime(k, ring, j);
    forall n: nat | n < TicksUntil(k, ring, j)
      ensures CanRun(k, Repeat(TickStep, n)) && Run(k, Repeat(TickStep, n)).current != ring[j]
    {
      var i := EarlierRuns(k, ring, j, n);
    }
  }

  /** The sum of what is left of the slices is at most the sum of the full slices. */
  lemma {:induction false} AtMostFullSlices(k: Kernel, ring: seq<TaskId>, j: nat)
    requires j <= |ring| && forall t :: t in ring ==> t in k.tasks && k.tasks[t].tickRemaining <= k.tasks[t].tickInit
    ensures TicksUntil(k, ring, j) <= SlicesUntil(k, ring, j)
  {
    if j == 0 {
    } else {
      AtMostFullSlices(k, ring, j - 1);
    }
  }

  /**
   * Nobody has more of a slice left than a full one, and who is off the processor has some of it, if slices there
   * are.
   */
  predicate FullSlices(k: Kernel) {
    forall t :: t in k.tasks ==>
      && k.tasks[t].tickRemaining <= k.tasks[t].tickInit
      && (t != k.current && k.tasks[t].tickInit > 0 ==> k.tasks[t].tickRemaining > 0)
  }

  lemma ScheduleKeepsSlices(k: Kernel)
    requires k.HasReady() && k.current in k.tasks && k.tasks[k.current].priority < PRIORITIES && FullSlices(k)
    ensures FullSlices(k.Schedule())
  {
  }

  /** No step leaves a task more of its slice than a full one, or takes it off the processor with none. */
  lemma StepKeepsSlices(k: Kernel, s: Step)
    requires Enabled(k, s) && FullSlices(k)
    ensures FullSlices(Apply(k, s))
  {
    match s
    case StartupStep(t) =>
    case YieldStep => ScheduleKeepsSlices(k);
    case SleepStep => ScheduleKeepsSlices(Leave(k, Sleeping));
    case ExitStep => ScheduleKeepsSlices(Leave(k, Stopped));
    case WakeupStep(t) => WakeupKeepsSlices(k, t);
    case TickStep =>
      if k.tasks[k.current].tickRemaining == 0 {
        ScheduleKeepsSlices(Retick(k, k.tasks[k.current].tickInit));
      }
    case LockStep(m) =>
      if k.Blocks(m) {
        var mu := k.mutexes[m];
        ScheduleKeepsSlices(Leave(k, Sleeping).(mutexes := k.mutexes[m := mu.(waiting := mu.waiting + [k.current])]));
      }
    case UnlockStep(m) =>
      var mu := k.mutexes[m];
      if k.Releases(m) && mu.waiting != [] {
        WakeupKeepsSlices(k.(mutexes :=
                           k.mutexes[m := mu.(refcnt := 1, owner := Some(mu.waiting[0]), waiting := mu.waiting[1..])]),
                          mu.waiting[0]);
      }
  }

  lemma WakeupKeepsSlices(k: Kernel, t: TaskId)
    requires t in k.tasks && k.tasks[t].priority < PRIORITIES && |k.ready| == PRIORITIES
    requires k.current in k.tasks && k.tasks[k.current].priority < PRIORITIES && FullSlices(k)
    ensures FullSlices(k.Wakeup(t))
  {
    if k.tasks[t].state == Sleeping {
      var k1 := k.Enqueue(t);
      assert k1.ready[k.tasks[t].priority] != [];
      ScheduleKeepsSlices(k1);
    }
  }

  lemma {:induction false} RunKeepsSlices(k: Kernel, steps: seq<Step>)
    requires CanRun(k, steps) && FullSlices(k)
    ensures FullSlices(Run(k, steps))
    decreases |steps|
  {
    if steps == [] {
    } else {
      StepKeepsSlices(k, steps[0]);
      RunKeepsSlices(Apply(k, steps[0]), steps[1..]);
    }
  }

  /**
   * Bounded waiting: whatever ran before, from a state of full slices, such as the boot, a task of the ring runs
   * within the full slices of the tasks before it and a tick each to switch.
   */
  lemma BoundedWait(k0: Kernel, steps: seq<Step>, ring: seq<TaskId>, j: nat)
    requires Inv(k0) && FullSlices(k0) && CanRun(k0, steps) && Ring(Run(k0, steps), ring) && j < |ring|
    ensures forall t :: t in ring ==> t in Run(k0, steps).tasks
    ensures exists n: nat :: n <= SlicesUntil(Run(k0, steps), ring, j) && Reached(Run(k0, steps), ring, n, j)
  {
    hide Ring, Inv, Reached;
    var k := Run(k0, steps);
    RunKeepsSlices(k0, steps);
    ExactWait(k, ring, j);
    AtMostFullSlices(k, ring, j);
  }

  lemma BootHasFullSlices(tasks: map<TaskId, Task>, idle: TaskId)
    requires idle in tasks && forall t :: t in tasks ==> NewTask(tasks[t])
    ensures Inv(Boot(tasks, idle)) && FullSlices(Boot(tasks, idle))
  {
    BootKeeps(tasks, idle);
  }
}
