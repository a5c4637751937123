/** Bounded waiting under any activity: how long a ready task waits while no better one runs. */
module SchedulerWaits {
  import opened Scheduler
  import opened SchedulerRuns

  /** What is left of the slices of some tasks, and one tick each to switch. */
  function Turns(k: Kernel, s: seq<TaskId>): nat {
    if s == [] then 0
    else (if s[0] in k.tasks then k.tasks[s[0]].tickRemaining else 0) + 1 + Turns(k, s[1..])
  }

  /** The same with full slices. */
  function FullTurns(k: Kernel, s: seq<TaskId>): nat {
    if s == [] then 0
    else (if s[0] in k.tasks then k.tasks[s[0]].tickInit else 0) + 1 + FullTurns(k, s[1..])
  }

  /** Task t has i tasks ahead of it on the ready list of priority p, and a task of that priority runs. */
  predicate WaitsAt(k: Kernel, t: TaskId, p: nat, i: nat) {
    && |k.ready| == PRIORITIES && p < PRIORITIES && k.current in k.tasks && k.tasks[k.current].priority == p
    && i < |k.ready[p]| && k.ready[p][i] == t
  }

  /** The tasks that run before task i of the list: the current one, and those ahead. */
  function Ahead(k: Kernel, p: nat, i: nat): seq<TaskId>
    requires p < |k.ready| && i <= |k.ready[p]|
  {
    [k.current] + k.ready[p][..i]
  }

  /** Throughout the run a task of priority p runs. */
  ghost predicate StaysAt(k: Kernel, steps: seq<Step>, p: nat)
    requires CanRun(k, steps)
    decreases |steps|
  {
    && k.current in k.tasks && k.tasks[k.current].priority == p
    && (steps != [] ==> StaysAt(Apply(k, steps[0]), steps[1..], p))
  }

  function Ticks(steps: seq<Step>): nat {
    if steps == [] then 0 else (if steps[0].TickStep? then 1 else 0) + Ticks(steps[1..])
  }

  // ---------------------------------------------------------------- one step

  lemma {:induction false} TurnsSame(k: Kernel, k': Kernel, s: seq<TaskId>)
    requires forall x :: x in s ==>
               x in k.tasks && x in k'.tasks && k'.tasks[x].tickRemaining == k.tasks[x].tickRemaining
    ensures Turns(k', s) == Turns(k, s)
  {
    if s == [] {
    } else {
      TurnsSame(k, k', s[1..]);
    }
  }

  lemma TurnsAhead(k: Kernel, p: nat, i: nat)
    requires p < |k.ready| && i <= |k.ready[p]| && k.current in k.tasks
    ensures Turns(k, Ahead(k, p, i)) == k.tasks[k.current].tickRemaining + 1 + Turns(k, k.ready[p][..i])
  {
    assert Ahead(k, p, i)[1..] == k.ready[p][..i];
  }

  /** The tasks on a ready list are tasks, and not the current one. */
  lemma ListedTasks(k: Kernel, p: nat)
    requires Base(k) && p < PRIORITIES
    ensures forall x :: x in k.ready[p] ==> x in k.tasks && x != k.current
  {
    assert ListOk(k, p);
  }

  /** Scheduling takes the first task of the list when one of that list is to run. */
  lemma ScheduleTurn(k: Kernel, t: TaskId, p: nat, i: nat)
    requires Base(k) && WaitsAt(k, t, p, i)
    ensures k.HasReady() && k.Schedule().current in k.Schedule().tasks
    ensures k.Schedule().tasks[k.Schedule().current].priority == p ==>
              if i == 0 then k.Schedule().current == t
              else && WaitsAt(k.Schedule(), t, p, i - 1)
                   && Turns(k.Schedule(), Ahead(k.Schedule(), p, i - 1)) == Turns(k, k.ready[p][..i])
  {
    var q := k.FirstReady(0);
    ScheduleKeeps(k);
    assert ListOk(k, q) && ListOk(k, p);
    var next, k' := k.ready[q][0], k.Schedule();
    assert k' == k.SwitchTo(q) && k'.current == next && k'.tasks[next].priority == q;
    if q == p && i > 0 {
      assert next == k.ready[p][..i][0];
      assert k.ready[p][..i][1..] == k.ready[p][1..i];
      assert k'.ready[p][..i - 1] == k.ready[p][1..i];
      assert Ahead(k', p, i - 1) == k.ready[p][..i];
      ListedTasks(k, p);
      TurnsSame(k, k', k.ready[p][..i]);
    }
  }

  /** From k to k1 the same task runs, nobody leaves the list, and the slices of the tasks off the processor stay. */
  predicate InPlace(k: Kernel, k1: Kernel, p: nat) {
    && |k.ready| == |k1.ready| == PRIORITIES && p < PRIORITIES && k1.current == k.current
    && k.current in k.tasks && k.current in k1.tasks && k1.tasks[k.current].priority == k.tasks[k.current].priority
    && k.ready[p] <= k1.ready[p]
    && (forall x :: x in k.tasks && x != k.current ==>
          x in k1.tasks && k1.tasks[x].tickRemaining == k.tasks[x].tickRemaining)
  }

  lemma InPlaceTurns(k: Kernel, k1: Kernel, t: TaskId, p: nat, i: nat)
    requires Base(k) && WaitsAt(k, t, p, i) && InPlace(k, k1, p)
    ensures WaitsAt(k1, t, p, i) && k1.ready[p][..i] == k.ready[p][..i]
    ensures Turns(k1, k1.ready[p][..i]) == Turns(k, k.ready[p][..i])
  {
    ListedTasks(k, p);
    TurnsSame(k, k1, k.ready[p][..i]);
  }

  /** The task has come to run, or has moved on with at least as many ticks less as have passed. */
  predicate CameOn(k: Kernel, k': Kernel, t: TaskId, p: nat, i: nat, ticks: nat, j: nat) {
    WaitsAt(k, t, p, i) && (
      k'.current == t || (WaitsAt(k', t, p, j) && Turns(k', Ahead(k', p, j)) + ticks <= Turns(k, Ahead(k, p, i))))
  }

  lemma StillAhead(k: Kernel, k1: Kernel, t: TaskId, p: nat, i: nat, ticks: nat)
    requires Base(k) && WaitsAt(k, t, p, i) && InPlace(k, k1, p)
    requires k1.tasks[k.current].tickRemaining + ticks <= k.tasks[k.current].tickRemaining
    ensures CameOn(k, k1, t, p, i, ticks, i)
  {
    InPlaceTurns(k, k1, t, p, i);
    TurnsAhead(k, p, i);
    TurnsAhead(k1, p, i);
  }

  /** Whatever brings the scheduler in, the turn ends. */
  lemma TurnPasses(k: Kernel, k1: Kernel, t: TaskId, p: nat, i: nat)
    requires Base(k) && Base(k1) && WaitsAt(k, t, p, i) && InPlace(k, k1, p)
    ensures k1.HasReady() && k1.Schedule().current in k1.Schedule().tasks
    ensures k1.Schedule().tasks[k1.Schedule().current].priority == p ==>
              CameOn(k, k1.Schedule(), t, p, i, 1, if i == 0 then 0 else i - 1)
  {
    hide Base;
    InPlaceTurns(k, k1, t, p, i);
    ScheduleTurn(k1, t, p, i);
    TurnsAhead(k, p, i);
  }

  /** A woken task joins a list, and then the scheduler comes in. */
  lemma WakeupPasses(k: Kernel, k0: Kernel, u: TaskId, t: TaskId, p: nat, i: nat)
    requires Base(k) && Inv(k0) && WaitsAt(k, t, p, i)
    requires k0.tasks == k.tasks && k0.ready == k.ready && k0.current == k.current
    requires u in k0.tasks && WaitsForNone(k0, u)
    ensures TaskOk(k0, u) && k0.Wakeup(u).current in k0.Wakeup(u).tasks
    ensures k0.Wakeup(u).tasks[k0.Wakeup(u).current].priority == p ==>
              CameOn(k, k0.Wakeup(u), t, p, i, 0, i) || CameOn(k, k0.Wakeup(u), t, p, i, 1, if i == 0 then 0 else i - 1)
  {
    assert TaskOk(k0, u);
    if k0.tasks[u].state == Sleeping {
      EnqueueKeeps(k0, u);
      TurnPasses(k, k0.Enqueue(u), t, p, i);
    } else {
      StillAhead(k, k0, t, p, i, 0);
    }
  }

  /** A step of any kind, between two at which a task of the priority runs. */
  lemma OneStep(k: Kernel, s: Step, t: TaskId, p: nat, i: nat) returns (j: nat)
    requires Inv(k) && Enabled(k, s) && WaitsAt(k, t, p, i)
    requires var k' := Apply(k, s); k'.current in k'.tasks && k'.tasks[k'.current].priority == p
    ensures CameOn(k, Apply(k, s), t, p, i, if s.TickStep? then 1 else 0, j)
  {
    j := i;
    var before := if i == 0 then 0 else i - 1;
    hide CameOn, Base;
    match s {
    case StartupStep(u) => StillAhead(k, Apply(k, s), t, p, i, 0);
    case YieldStep =>
      TurnPasses(k, k, t, p, i);
      j := before;
    case SleepStep =>
      LeaveKeeps(k, Sleeping);
      TurnPasses(k, Leave(k, Sleeping), t, p, i);
      j := before;
    case ExitStep =>
      LeaveKeeps(k, Stopped);
      TurnPasses(k, Leave(k, Stopped), t, p, i);
      j := before;
    case WakeupStep(u) =>
      WakeupPasses(k, k, u, t, p, i);
      j := if CameOn(k, Apply(k, s), t, p, i, 0, i) then i else before;
    case TickStep =>
      if k.tasks[k.current].tickRemaining > 0 {
        StillAhead(k, Apply(k, s), t, p, i, 1);
      } else {
        RetickKeeps(k, k.tasks[k.current].tickInit);
        TurnPasses(k, Retick(k, k.tasks[k.current].tickInit), t, p, i);
        j := before;
      }
    case LockStep(m) =>
      if k.Blocks(m) {
        QueuedKeeps(k, m);
        TurnPasses(k, Queued(k, m), t, p, i);
        j := before;
      } else {
        StillAhead(k, Apply(k, s), t, p, i, 0);
      }
    case UnlockStep(m) =>
      if k.Releases(m) && k.mutexes[m].waiting != [] {
        HandedKeeps(k, m);
        WakeupPasses(k, Handed(k, m), k.mutexes[m].waiting[0], t, p, i);
        j := if CameOn(k, Apply(k, s), t, p, i, 0, i) then i else before;
      } else {
        StillAhead(k, Apply(k, s), t, p, i, 0);
      }
    }
    FewerTicks(k, Apply(k, s), t, p, i, j);
  }

  lemma FewerTicks(k: Kernel, k': Kernel, t: TaskId, p: nat, i: nat, j: nat)
    ensures CameOn(k, k', t, p, i, 1, j) ==> CameOn(k, k', t, p, i, 0, j)
  {
  }

  // ---------------------------------------------------------------- whole runs

  /**
   * Within the turns of those ahead of it a ready task runs, whatever the tasks do meanwhile: yield, sleep, exit,
   * start and wake others, lock and unlock. All it takes is that no task of another priority comes to run.
   */
  lemma {:induction false} TurnComes(k: Kernel, steps: seq<Step>, t: TaskId, p: nat, i: nat) returns (n: nat)
    requires Inv(k) && CanRun(k, steps) && StaysAt(k, steps, p) && WaitsAt(k, t, p, i)
    requires Turns(k, Ahead(k, p, i)) <= Ticks(steps)
    ensures n <= |steps| && CanRun(k, steps[..n]) && Run(k, steps[..n]).current == t
    ensures Ticks(steps[..n]) <= Turns(k, Ahead(k, p, i))
    decreases |steps|
  {
    TurnsAhead(k, p, i);
    assert steps != [];
    var s, k' := steps[0], Apply(k, steps[0]);
    StepKeeps(k, s);
    var j := OneStep(k, s, t, p, i);
    hide Inv, Enabled, Apply;
    if k'.current == t {
      n := 1;
      assert steps[..1] == [s] && [s][1..] == [];
      assert CanRun(k', []) && Run(k', []) == k';
      assert Ticks([]) == 0;
    } else {
      var n' := TurnComes(k', steps[1..], t, p, j);
      n := n' + 1;
      assert steps[..n][0] == s && steps[..n][1..] == steps[1..][..n'];
    }
  }

  lemma {:induction false} TurnsAtMostFull(k: Kernel, s: seq<TaskId>)
    requires FullSlices(k)
    ensures Turns(k, s) <= FullTurns(k, s)
  {
    if s == [] {
    } else {
      TurnsAtMostFull(k, s[1..]);
    }
  }

  /** From the boot, or any other state of full slices, the wait is at most the full slices of those ahead. */
  lemma WaitIsBounded(k0: Kernel, before: seq<Step>, steps: seq<Step>, t: TaskId, p: nat, i: nat) returns (n: nat)
    requires Inv(k0) && FullSlices(k0) && CanRun(k0, before)
    requires var k := Run(k0, before);
             && CanRun(k, steps) && StaysAt(k, steps, p) && WaitsAt(k, t, p, i)
             && FullTurns(k, Ahead(k, p, i)) <= Ticks(steps)
    ensures var k := Run(k0, before);
            && n <= |steps| && CanRun(k, steps[..n]) && Run(k, steps[..n]).current == t
            && Ticks(steps[..n]) <= FullTurns(k, Ahead(k, p, i))
  {
    var k := Run(k0, before);
    RunKeeps(k0, before);
    RunKeepsSlices(k0, before);
    TurnsAtMostFull(k, Ahead(k, p, i));
    n := TurnComes(k, steps, t, p, i);
  }
}
