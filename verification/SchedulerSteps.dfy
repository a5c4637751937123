/**
 * What each call does, told without the scheduler: who joins the ready lists, who runs next, and what becomes of
 * every field. No other state meets this, so the steps are pinned down by it.
 */
module SchedulerSteps {
  import opened Scheduler
  import opened SchedulerRuns

  // ---------------------------------------------------------------- the reference

  /** The call gives the mutex up while somebody waits for it. */
  predicate HandsOver(k: Kernel, m: MutexId) {
    m in k.mutexes && k.mutexes[m].refcnt == 1 && k.mutexes[m].waiting != []
  }

  /** The mutex is another task's. */
  predicate Taken(k: Kernel, m: MutexId) {
    m in k.mutexes && k.mutexes[m].locked && k.mutexes[m].owner != Some(k.current)
  }

  /** The task that joins the end of its ready list: a new one, a sleeper woken, or the first waiter. */
  function Joining(k: Kernel, s: Step): Option<TaskId> {
    match s
    case StartupStep(t) => Some(t)
    case WakeupStep(t) => if t in k.tasks && k.tasks[t].state == Sleeping then Some(t) else None
    case UnlockStep(m) => if HandsOver(k, m) then Some(k.mutexes[m].waiting[0]) else None
    case _ => None
  }

  /** The state the caller is in when another task may be chosen. */
  function CallerState(k: Kernel, s: Step): TaskState {
    match s
    case SleepStep => Sleeping
    case ExitStep => Stopped
    case LockStep(m) => if Taken(k, m) then Sleeping else Running
    case _ => Running
  }

  /** The step may change who runs. */
  predicate Chooses(k: Kernel, s: Step) {
    match s
    case StartupStep(_) => false
    case YieldStep => true
    case TickStep => k.current in k.tasks && k.tasks[k.current].tickRemaining == 0
    case _ => CallerState(k, s) != Running || Joining(k, s) != None
  }

  /** The ready list of a priority with the task that joins. */
  function Waiting(k: Kernel, s: Step, p: nat): seq<TaskId>
    requires p < |k.ready|
  {
    match Joining(k, s)
    case Some(t) => if k.Priority(t) == p then k.ready[p] + [t] else k.ready[p]
    case None => k.ready[p]
  }

  /** The caller runs on where nobody as good waits; else the first task of the best list runs. */
  predicate BestChosen(k: Kernel, s: Step, k': Kernel) {
    if !Chooses(k, s) then k'.current == k.current
    else if k'.current == k.current then
      && CallerState(k, s) == Running
      && forall p :: 0 <= p <= k.Priority(k.current) && p < |k.ready| ==> Waiting(k, s, p) == []
    else
      var best := k.Priority(k'.current);
      && best < |k.ready| && Waiting(k, s, best) != [] && Waiting(k, s, best)[0] == k'.current
      && (CallerState(k, s) == Running ==> best <= k.Priority(k.current))
      && forall p :: 0 <= p < best ==> Waiting(k, s, p) == []
  }

  /** A ready list gains who joins, then the caller when it could run on; it loses who runs. */
  predicate ListFollows(k: Kernel, s: Step, k': Kernel, p: nat)
    requires p < |k.ready| == |k'.ready|
  {
    var switched := k'.current != k.current;
    var preempted := switched && CallerState(k, s) == Running && k.Priority(k.current) == p;
    var all := Waiting(k, s, p) + if preempted then [k.current] else [];
    k'.ready[p] == if switched && k.Priority(k'.current) == p && all != [] then all[1..] else all
  }

  /** Priority and full slice stay; only a startup marks a task as started. */
  predicate FieldsKept(s: Step, t: TaskId, before: Task, after: Task) {
    && after.priority == before.priority && after.tickInit == before.tickInit
    && after.started == (before.started || s == StartupStep(t))
  }

  /** Only the caller's slice changes: a tick takes one of it, and none left is a full one again. */
  function SliceAfter(k: Kernel, s: Step, k': Kernel, t: TaskId): nat
    requires t in k.tasks
  {
    var left := k.tasks[t].tickRemaining;
    if t != k.current then left
    else if s.TickStep? && left > 0 then left - 1
    else if left == 0 && (s.TickStep? || k'.current != k.current) then k.tasks[t].tickInit
    else left
  }

  function StateAfter(k: Kernel, s: Step, k': Kernel, t: TaskId): TaskState
    requires t in k.tasks
  {
    if t == k'.current then Running
    else if t == k.current then if CallerState(k, s) == Running then Ready else CallerState(k, s)
    else if Joining(k, s) == Some(t) then Ready
    else k.tasks[t].state
  }

  predicate TaskFollows(k: Kernel, s: Step, k': Kernel, t: TaskId)
    requires t in k.tasks
  {
    && t in k'.tasks && FieldsKept(s, t, k.tasks[t], k'.tasks[t])
    && k'.tasks[t].tickRemaining == SliceAfter(k, s, k', t) && k'.tasks[t].state == StateAfter(k, s, k', t)
  }

  /** What a call leaves of its mutex: taken, nested, queued for; unnested, handed to the first waiter, let go. */
  function MutexAfter(k: Kernel, s: Step, m: MutexId): Mutex
    requires m in k.mutexes
  {
    var mu := k.mutexes[m];
    if s == LockStep(m) then
      if Taken(k, m) then mu.(waiting := mu.waiting + [k.current])
      else if mu.locked then mu.(refcnt := mu.refcnt + 1)
      else Mutex(true, Some(k.current), 1, [])
    else if s == UnlockStep(m) && mu.refcnt > 0 then
      if HandsOver(k, m) then Mutex(true, Some(mu.waiting[0]), 1, mu.waiting[1..])
      else if mu.refcnt == 1 then Mutex(false, None, 0, [])
      else mu.(refcnt := mu.refcnt - 1)
    else mu
  }

  /** From k the step leads to k'. */
  predicate Leads(k: Kernel, s: Step, k': Kernel) {
    && |k'.ready| == |k.ready| == PRIORITIES && k'.tasks.Keys == k.tasks.Keys && k'.mutexes.Keys == k.mutexes.Keys
    && BestChosen(k, s, k')
    && (forall p :: 0 <= p < PRIORITIES ==> ListFollows(k, s, k', p))
    && (forall t :: t in k.tasks ==> TaskFollows(k, s, k', t))
    && (forall m :: m in k.mutexes ==> k'.mutexes[m] == MutexAfter(k, s, m))
  }

  // ---------------------------------------------------------------- it fixes the state

  lemma SameCurrent(k: Kernel, s: Step, a: Kernel, b: Kernel)
    requires Leads(k, s, a) && Leads(k, s, b)
    ensures a.current == b.current
  {
    var p, q := k.Priority(a.current), k.Priority(b.current);
    if Chooses(k, s) {
      if a.current != k.current && b.current != k.current {
        assert p <= q && q <= p;
      }
    }
  }

  lemma SameTask(k: Kernel, s: Step, a: Kernel, b: Kernel, t: TaskId)
    requires a.current == b.current && t in k.tasks && TaskFollows(k, s, a, t) && TaskFollows(k, s, b, t)
    ensures a.tasks[t] == b.tasks[t]
  {
    hide CallerState, Joining;
  }

  lemma SameList(k: Kernel, s: Step, a: Kernel, b: Kernel, p: nat)
    requires a.current == b.current && p < |k.ready| && |a.ready| == |b.ready| == |k.ready|
    requires ListFollows(k, s, a, p) && ListFollows(k, s, b, p)
    ensures a.ready[p] == b.ready[p]
  {
    hide CallerState, Waiting;
  }

  /** There is one state the step leads to. */
  lemma LeadsToOne(k: Kernel, s: Step, a: Kernel, b: Kernel)
    requires Leads(k, s, a) && Leads(k, s, b)
    ensures a == b
  {
    hide BestChosen, MutexAfter, ListFollows, TaskFollows;
    SameCurrent(k, s, a, b);
    forall p | 0 <= p < PRIORITIES
      ensures a.ready[p] == b.ready[p]
    {
      SameList(k, s, a, b, p);
    }
    forall t | t in k.tasks
      ensures a.tasks[t] == b.tasks[t]
    {
      SameTask(k, s, a, b, t);
    }
    assert a.ready == b.ready && a.tasks == b.tasks && a.mutexes == b.mutexes;
  }

  // ---------------------------------------------------------------- every step meets it

  /** The state in which the scheduler chooses: the list joined, the caller in its new state, its slice anew. */
  predicate Eve(k: Kernel, s: Step, k0: Kernel) {
    && |k0.ready| == |k.ready| == PRIORITIES && k0.current == k.current && k0.tasks.Keys == k.tasks.Keys
    && (forall p :: 0 <= p < PRIORITIES ==> k0.ready[p] == Waiting(k, s, p))
    && (forall t :: t in k.tasks ==> EveTask(k, s, k0, t))
  }

  predicate EveTask(k: Kernel, s: Step, k0: Kernel, t: TaskId)
    requires t in k.tasks && t in k0.tasks
  {
    var before, after := k.tasks[t], k0.tasks[t];
    && after.priority == before.priority && after.tickInit == before.tickInit && after.started == before.started
    && after.state == (if t == k.current then CallerState(k, s)
                       else if Joining(k, s) == Some(t) then Ready else before.state)
    && after.tickRemaining == if t == k.current && s.TickStep? then before.tickInit else before.tickRemaining
  }

  lemma ScheduleIs(k: Kernel)
    requires Base(k) && k.HasReady()
    ensures k.current in k.tasks && k.tasks[k.current].priority < PRIORITIES && |k.ready| == PRIORITIES
    ensures var p := k.FirstReady(0);
            && p < PRIORITIES && k.ready[p] != [] && k.ready[p][0] in k.tasks && k.ready[p][0] != k.current
            && k.tasks[k.ready[p][0]].priority == p
            && k.Schedule() == if k.tasks[k.current].state == Running && p > k.tasks[k.current].priority then k
                               else k.SwitchTo(p)
  {
    assert TaskOk(k, k.current);
    HeadIsReady(k, k.FirstReady(0));
  }

  /** The scheduler's choice in such a state. */
  lemma ChoiceFollows(k: Kernel, s: Step, k0: Kernel)
    requires Base(k0) && k0.HasReady() && Eve(k, s, k0) && Chooses(k, s)
    ensures k0.current in k0.tasks && k0.tasks[k0.current].priority < PRIORITIES
    ensures BestChosen(k, s, k0.Schedule()) && |k0.Schedule().ready| == PRIORITIES
  {
    hide Base, Joining, CallerState, Chooses, Waiting;
    ScheduleIs(k0);
    var p := k0.FirstReady(0);
    hide Kernel.Schedule;
    assert EveTask(k, s, k0, k0.current) && EveTask(k, s, k0, k0.ready[p][0]);
  }

  /** The lists after a switch. */
  lemma SwitchedList(k: Kernel, p: nat, q: nat)
    requires p < |k.ready| && k.ready[p] != [] && k.current in k.tasks && k.tasks[k.current].priority < |k.ready|
    requires q < |k.ready|
    ensures k.SwitchTo(p).current == k.ready[p][0] && |k.SwitchTo(p).ready| == |k.ready|
    ensures var all := k.ready[q] + if k.tasks[k.current].state == Running && k.tasks[k.current].priority == q
                                    then [k.current] else [];
            k.SwitchTo(p).ready[q] == if q == p then all[1..] else all
  {
  }

  lemma ListsFollow(k: Kernel, s: Step, k0: Kernel, q: nat)
    requires Base(k0) && k0.HasReady() && Eve(k, s, k0) && q < PRIORITIES
    ensures k0.current in k0.tasks && k0.tasks[k0.current].priority < PRIORITIES
    ensures |k0.Schedule().ready| == PRIORITIES && ListFollows(k, s, k0.Schedule(), q)
  {
    hide Base, Joining, CallerState, Waiting, Kernel.SwitchTo;
    ScheduleIs(k0);
    var p := k0.FirstReady(0);
    SwitchedList(k0, p, q);
    hide Kernel.Schedule, Kernel.FirstReady;
    assert EveTask(k, s, k0, k0.current) && EveTask(k, s, k0, k0.ready[p][0]);
    assert k0.ready[q] == Waiting(k, s, q);
    hide Eve, EveTask;
  }

  /** The tasks after a switch. */
  lemma SwitchedTask(k: Kernel, p: nat, t: TaskId)
    requires p < |k.ready| && k.ready[p] != [] && k.current in k.tasks && k.tasks[k.current].priority < |k.ready|
    requires t in k.tasks && k.ready[p][0] in k.tasks && k.ready[p][0] != k.current
    ensures k.SwitchTo(p).current == k.ready[p][0] && t in k.SwitchTo(p).tasks
    ensures var before := k.tasks[t];
            k.SwitchTo(p).tasks[t] ==
              if t == k.ready[p][0] then before.(state := Running)
              else if t != k.current then before
              else before.(state := if before.state == Running then Ready else before.state,
                           tickRemaining := if before.tickRemaining == 0 then before.tickInit else before.tickRemaining)
  {
  }

  lemma TaskFollowsChoice(k: Kernel, s: Step, k0: Kernel, t: TaskId)
    requires Base(k0) && k0.HasReady() && Eve(k, s, k0) && Chooses(k, s) && !s.StartupStep? && t in k.tasks
    requires k.current in k.tasks && (t != k.current ==> k.tasks[t].state != Running)
    ensures k0.current in k0.tasks && k0.tasks[k0.current].priority < PRIORITIES
    ensures TaskFollows(k, s, k0.Schedule(), t)
  {
    hide Base, Joining, CallerState, Waiting, Kernel.SwitchTo;
    ScheduleIs(k0);
    SwitchedTask(k0, k0.FirstReady(0), t);
    hide Kernel.Schedule, Kernel.FirstReady;
    assert EveTask(k, s, k0, t) && EveTask(k, s, k0, k0.current);
    hide Eve;
  }

  lemma OnlyCurrentRuns(k: Kernel)
    requires Base(k)
    ensures k.current in k.tasks && |k.ready| == PRIORITIES
    ensures forall t :: t in k.tasks && t != k.current ==> k.tasks[t].state != Running
  {
    forall t | t in k.tasks && t != k.current
      ensures k.tasks[t].state != Running
    {
      assert TaskOk(k, t);
    }
  }

  predicate MutexesFollow(k: Kernel, s: Step, k': Kernel) {
    k'.mutexes.Keys == k.mutexes.Keys && forall m :: m in k.mutexes ==> k'.mutexes[m] == MutexAfter(k, s, m)
  }

  lemma ChoiceLeads(k: Kernel, s: Step, k0: Kernel)
    requires Inv(k) && Base(k0) && k0.HasReady() && Eve(k, s, k0) && Chooses(k, s) && MutexesFollow(k, s, k0)
    ensures k0.current in k0.tasks && k0.tasks[k0.current].priority < PRIORITIES
    ensures Leads(k, s, k0.Schedule())
  {
    hide Inv, Base, BestChosen, ListFollows, TaskFollows, MutexAfter, Joining, CallerState, Waiting, Kernel.Schedule;
    BetweenSteps(k);
    OnlyCurrentRuns(k);
    ScheduleKeeps(k0);
    ChoiceFollows(k, s, k0);
    forall q | 0 <= q < PRIORITIES
      ensures ListFollows(k, s, k0.Schedule(), q)
    {
      ListsFollow(k, s, k0, q);
    }
    forall t | t in k.tasks
      ensures TaskFollows(k, s, k0.Schedule(), t)
    {
      TaskFollowsChoice(k, s, k0, t);
    }
  }

  lemma BetweenSteps(k: Kernel)
    requires Inv(k)
    ensures Base(k) && k.current in k.tasks && k.tasks[k.current].state == Running
  {
  }

  // ---------------------------------------------------------------- step by step

  lemma LeaveIsEve(k: Kernel, s: Step)
    requires Inv(k) && (s == SleepStep || s == ExitStep)
    ensures var k0 := Leave(k, CallerState(k, s)); Eve(k, s, k0) && MutexesFollow(k, s, k0)
  {
  }

  lemma TickIsEve(k: Kernel)
    requires Inv(k)
    ensures var k0 := Retick(k, k.tasks[k.current].tickInit); Eve(k, TickStep, k0) && MutexesFollow(k, TickStep, k0)
  {
  }

  lemma YieldIsEve(k: Kernel)
    requires Inv(k)
    ensures Eve(k, YieldStep, k) && MutexesFollow(k, YieldStep, k)
  {
  }

  lemma WakeupIsEve(k: Kernel, t: TaskId)
    requires Inv(k) && t in k.tasks && k.tasks[t].state == Sleeping && k.tasks[t].priority < PRIORITIES
    ensures var s, k0 := WakeupStep(t), k.Enqueue(t); Eve(k, s, k0) && MutexesFollow(k, s, k0)
  {
  }

  lemma LockIsEve(k: Kernel, m: MutexId)
    requires Inv(k) && m in k.mutexes && k.Blocks(m)
    ensures var s, k0 := LockStep(m), Queued(k, m); Eve(k, s, k0) && MutexesFollow(k, s, k0)
  {
  }

  lemma HandoverIsEve(k: Kernel, m: MutexId)
    requires Inv(k) && k.Releases(m) && HandsOver(k, m)
    ensures k.mutexes[m].waiting[0] in k.tasks && k.tasks[k.mutexes[m].waiting[0]].priority < PRIORITIES
    ensures var s, k0 := UnlockStep(m), Handed(k, m).Enqueue(k.mutexes[m].waiting[0]);
            Eve(k, s, k0) && MutexesFollow(k, s, k0)
  {
    assert MutexOk(k, m) && TaskOk(k, k.mutexes[m].waiting[0]);
  }

  /** Every step, from every state in the invariant, leads where the reference says, and nowhere else. */
  lemma StepLeads(k: Kernel, s: Step, k': Kernel)
    requires Inv(k) && Enabled(k, s)
    ensures Leads(k, s, k') <==> k' == Apply(k, s)
  {
    Led(k, s);
    if Leads(k, s, k') {
      LeadsToOne(k, s, k', Apply(k, s));
    }
  }

  lemma Led(k: Kernel, s: Step)
    requires Inv(k) && Enabled(k, s)
    ensures Leads(k, s, Apply(k, s))
  {
    match s {
      case StartupStep(t) => QuietLeads(k, s);
      case YieldStep => YieldIsEve(k);
        ChoiceLeads(k, s, k);
      case SleepStep =>
        LeaveKeeps(k, Sleeping);
        LeaveIsEve(k, s);
        ChoiceLeads(k, s, Leave(k, Sleeping));
      case ExitStep =>
        LeaveKeeps(k, Stopped);
        LeaveIsEve(k, s);
        ChoiceLeads(k, s, Leave(k, Stopped));
      case WakeupStep(t) => WakeupLeads(k, t);
      case TickStep => TickLeads(k);
      case LockStep(m) =>
        if k.Blocks(m) {
          QueuedKeeps(k, m);
          LockIsEve(k, m);
          ChoiceLeads(k, s, Queued(k, m));
        } else {
          QuietLeads(k, s);
        }
      case UnlockStep(m) =>
        if HandsOver(k, m) {
          HandoverLeads(k, m);
        } else {
          QuietLeads(k, s);
        }
    }
  }

  lemma WakeupLeads(k: Kernel, t: TaskId)
    requires Inv(k) && Enabled(k, WakeupStep(t))
    ensures Leads(k, WakeupStep(t), Apply(k, WakeupStep(t)))
  {
    if k.tasks[t].state == Sleeping {
      assert TaskOk(k, t);
      EnqueueKeeps(k, t);
      WakeupIsEve(k, t);
      hide Eve, MutexesFollow, Leads, Base, Inv;
      ChoiceLeads(k, WakeupStep(t), k.Enqueue(t));
    } else {
      QuietLeads(k, WakeupStep(t));
    }
  }

  lemma TickLeads(k: Kernel)
    requires Inv(k) && Enabled(k, TickStep)
    ensures Leads(k, TickStep, Apply(k, TickStep))
  {
    if k.tasks[k.current].tickRemaining > 0 {
      QuietLeads(k, TickStep);
    } else {
      RetickKeeps(k, k.tasks[k.current].tickInit);
      TickIsEve(k);
      ChoiceLeads(k, TickStep, Retick(k, k.tasks[k.current].tickInit));
    }
  }

  lemma HandoverLeads(k: Kernel, m: MutexId)
    requires Inv(k) && Enabled(k, UnlockStep(m)) && HandsOver(k, m)
    ensures Leads(k, UnlockStep(m), Apply(k, UnlockStep(m)))
  {
    var next := k.mutexes[m].waiting[0];
    HandedKeeps(k, m);
    HandoverIsEve(k, m);
    assert MutexOk(k, m);
    EnqueueKeeps(Handed(k, m), next);
    hide Eve, MutexesFollow, Leads, Base, Inv;
    ChoiceLeads(k, UnlockStep(m), Handed(k, m).Enqueue(next));
  }

  /** The steps after which the caller runs on whoever is ready. */
  lemma QuietLeads(k: Kernel, s: Step)
    requires Inv(k) && Enabled(k, s) && !Chooses(k, s)
    ensures Leads(k, s, Apply(k, s))
  {
    OnlyCurrentRuns(k);
    if s.LockStep? || s.UnlockStep? {
      QuietMutex(k, s);
    } else {
      hide Inv, Base;
    }
  }

  lemma QuietMutex(k: Kernel, s: Step)
    requires Inv(k) && Enabled(k, s) && !Chooses(k, s) && (s.LockStep? || s.UnlockStep?)
    ensures Leads(k, s, Apply(k, s))
  {
    hide Inv, Base;
    BetweenSteps(k);
    OnlyCurrentRuns(k);
    MutexInOrder(k, s.m);
  }

  // ---------------------------------------------------------------- what follows

  /** What any step does to a task's fields and its slice. */
  lemma SliceFrame(k: Kernel, s: Step, t: TaskId)
    requires Inv(k) && Enabled(k, s) && t in k.tasks
    ensures t in Apply(k, s).tasks
    ensures var before, after := k.tasks[t], Apply(k, s).tasks[t];
            && after.priority == before.priority && after.tickInit == before.tickInit
            && (s != StartupStep(t) ==> after.started == before.started)
            && (after.tickRemaining == before.tickRemaining
                || (t == k.current && s == TickStep && after.tickRemaining == before.tickRemaining - 1)
                || (t == k.current && before.tickRemaining == 0 && after.tickRemaining == after.tickInit
                    && (s == TickStep || Apply(k, s).current != t)))
            && (s == TickStep && t == k.current && before.tickRemaining > 0 ==>
                  after.tickRemaining == before.tickRemaining - 1)
            && (before.tickRemaining == 0 && t == k.current && (s == TickStep || Apply(k, s).current != t) ==>
                  after.tickRemaining == after.tickInit)
  {
    hide Inv;
    Led(k, s);
    assert TaskFollows(k, s, Apply(k, s), t);
    hide Apply, Leads;
  }

  /** The task is off the processor and on no ready list. */
  predicate Off(k: Kernel, t: TaskId) {
    k.current != t && forall p :: 0 <= p < |k.ready| ==> t !in k.ready[p]
  }

  lemma NotReadyIsOff(k: Kernel, t: TaskId)
    requires Inv(k) && t in k.tasks && k.tasks[t].state != Ready && k.tasks[t].state != Running
    ensures Off(k, t)
  {
    forall p | 0 <= p < |k.ready|
      ensures t !in k.ready[p]
    {
      assert ListOk(k, p);
    }
  }

  /** An exit stops its caller, who never comes on the processor or a ready list again. */
  lemma ExitIsFinal(k: Kernel, steps: seq<Step>)
    requires Inv(k) && Enabled(k, ExitStep) && CanRun(Apply(k, ExitStep), steps)
    ensures var k' := Run(Apply(k, ExitStep), steps);
            && k.current in k'.tasks && k'.tasks[k.current].state == Stopped && Off(k', k.current)
  {
    hide Inv;
    Led(k, ExitStep);
    OneRuns(k, ExitStep);
    assert TaskFollows(k, ExitStep, Apply(k, ExitStep), k.current);
    StepKeeps(k, ExitStep);
    hide Apply, Leads, Run, CanRun;
    var k1 := Apply(k, ExitStep);
    StoppedForGood(k1, steps, k.current);
    RunKeeps(k1, steps);
    NotReadyIsOff(Run(k1, steps), k.current);
  }

  lemma OneRuns(k: Kernel, s: Step)
    requires Inv(k) && Enabled(k, s) && CallerState(k, s) != Running
    ensures k.current in k.tasks && Apply(k, s).current != k.current
  {
    Led(k, s);
  }

  /** The step wakes the task: by the plain call, or as the first waiter of a mutex given up. */
  predicate Wakes(k: Kernel, s: Step, t: TaskId) {
    || s == WakeupStep(t)
    || (s.UnlockStep? && HandsOver(k, s.m) && k.mutexes[s.m].waiting[0] == t)
  }

  /** A sleeper sleeps on through every step but the one that wakes it, and after that one it does not. */
  lemma SleepsUnlessWoken(k: Kernel, s: Step, t: TaskId)
    requires Inv(k) && Enabled(k, s) && t in k.tasks && k.tasks[t].state == Sleeping
    ensures t in Apply(k, s).tasks && (Apply(k, s).tasks[t].state == Sleeping <==> !Wakes(k, s, t))
  {
    SleeperIs(k, t);
    hide Inv, Apply, Enabled;
    Led(k, s);
    assert TaskFollows(k, s, Apply(k, s), t);
  }

  lemma SleeperIs(k: Kernel, t: TaskId)
    requires Inv(k) && t in k.tasks && k.tasks[t].state == Sleeping
    ensures k.current != t && k.tasks[t].started && Off(k, t)
  {
    assert TaskOk(k, t);
    NotReadyIsOff(k, t);
  }

  /** No step of the run wakes the task. */
  ghost predicate Undisturbed(k: Kernel, steps: seq<Step>, t: TaskId)
    requires CanRun(k, steps)
    decreases |steps|
  {
    steps != [] ==> !Wakes(k, steps[0], t) && Undisturbed(Apply(k, steps[0]), steps[1..], t)
  }

  lemma {:induction false} SleepsOn(k: Kernel, steps: seq<Step>, t: TaskId)
    requires Inv(k) && CanRun(k, steps) && Undisturbed(k, steps, t) && t in k.tasks && k.tasks[t].state == Sleeping
    ensures var k' := Run(k, steps); t in k'.tasks && k'.tasks[t].state == Sleeping && Off(k', t)
    decreases |steps|
  {
    hide Inv, Off, Enabled, Apply, Wakes;
    if steps == [] {
      NotReadyIsOff(k, t);
    } else {
      StepKeeps(k, steps[0]);
      SleepsUnlessWoken(k, steps[0], t);
      SleepsOn(Apply(k, steps[0]), steps[1..], t);
    }
  }

  /** Whoever goes to sleep, by the sleep call or a lock, sleeps until a step wakes it. */
  lemma SleepLasts(k: Kernel, s: Step, steps: seq<Step>)
    requires Inv(k) && Enabled(k, s) && (s == SleepStep || (s.LockStep? && Taken(k, s.m)))
    requires CanRun(Apply(k, s), steps) && Undisturbed(Apply(k, s), steps, k.current)
    ensures var k' := Run(Apply(k, s), steps);
            && k.current in k'.tasks && k'.tasks[k.current].state == Sleeping && Off(k', k.current)
  {
    hide Inv, Undisturbed;
    Led(k, s);
    OneRuns(k, s);
    assert TaskFollows(k, s, Apply(k, s), k.current);
    StepKeeps(k, s);
    hide Apply, Leads, Run, CanRun;
    SleepsOn(Apply(k, s), steps, k.current);
  }
}
