// The process state machine of scheduler.c and the process system calls. One core runs and
// exceptions mask interrupts, so each kernel entry is one step.
module SchedulerSpec {
  import opened ListSpec

  datatype RunState = Blocked | Ready | Running | Terminated

  // The idle loop's control block and the first process. A process is known by its pid, which
  // the kernel counts up from 2; idle's pid is whatever its block was allocated with.
  const IDLE := 0
  const FIRST := 2
  const WAITING_NONE := 0
  const WAITING_ALL := 0xFFFF_FFFF

  datatype Proc = Proc(state: RunState, waitingOn: nat, parent: nat)

  // procs: the process list. queue: the run queue, front first. waiters: processes that
  // some wait queue or the sleep queue will wake.
  datatype Sched = Sched(procs: map<nat, Proc>, queue: seq<nat>, current: nat, waiters: set<nat>, nextPid: nat,
    idlePid: nat)

  predicate Known(s: Sched) {
    && s.current in s.procs && IDLE in s.procs && s.waiters <= s.procs.Keys
    && forall i :: 0 <= i < |s.queue| ==> s.queue[i] in s.procs
  }

  function Pid(s: Sched, p: nat): (pid: nat) {
    if p == IDLE then s.idlePid else p
  }

  function SetState(s: Sched, p: nat, st: RunState): (r: Sched)
    requires p in s.procs
  {
    s.(procs := s.procs[p := s.procs[p].(state := st)])
  }

  // ---- scheduler.c:46-64 pre_context_switch ----

  function SwitchTo(s: Sched, p: nat): (r: Sched)
    requires p in s.procs
  {
    SetState(s, p, Running).(current := p)
  }

  // ---- scheduler.c:109-159 scheduler ----

  function Schedule(s: Sched): (r: Sched)
    requires Known(s)
  {
    if s.queue == [] then
      if s.procs[s.current].state == Running then s else SwitchTo(s, IDLE)
    else
      var p := s.queue[0];
      if p == s.current then s
      else
        var a := if Pid(s, p) != 0 then s.(queue := Without(s.queue, p)) else s;
        if s.procs[s.current].state == Running then
          var b := SetState(a, s.current, Ready);
          SwitchTo(if Pid(s, s.current) != 0 then b.(queue := [s.current] + b.queue) else b, p)
        else SwitchTo(a, p)
  }

  // ---- scheduler.c:176-187 deschedule ----

  function Deschedule(s: Sched): (r: Sched)
    requires Known(s)
  {
    if s.procs[s.current].state == Running then
      WithoutElements(s.queue, s.current);
      Schedule(SetState(s, s.current, Blocked).(queue := Without(s.queue, s.current)))
    else Schedule(s)
  }

  // ---- scheduler.c:189-193 ----

  function Reschedule(s: Sched, p: nat): (r: Sched)
    requires p in s.procs
  {
    SetState(s, p, Ready).(queue := [p] + s.queue)
  }

  // ---- the steps ----

  // A system call by the running process, or an interrupt.
  datatype Step =
    | Tick
    | Fork
    | Sleep(registered: bool)
    | Wake(pid: nat)
    | WaitFor(pid: nat)
    | Exit

  predicate Enabled(s: Sched, step: Step) {
    match step
    case Tick => true
    case Wake(p) => p in s.waiters
    case _ => s.current != IDLE
  }

  // process.c:113-176: the child copies the parent's control block, waiting_on included.
  function DoFork(s: Sched): (r: Sched)
    requires Known(s)
  {
    s.(procs := s.procs[s.nextPid := Proc(Ready, s.procs[s.current].waitingOn, s.current)],
       queue := [s.nextPid] + s.queue,
       nextPid := s.nextPid + 1)
  }

  // Blocking on a wait queue or on the sleep queue; a second reader of an empty pipe blocks
  // without being registered (filedescriptors.c:36-38).
  function DoSleep(s: Sched, registered: bool): (r: Sched)
    requires Known(s)
  {
    Deschedule(if registered then s.(waiters := s.waiters + {s.current}) else s)
  }

  // default_wake_fn and handle_virtual_timer.
  function DoWake(s: Sched, p: nat): (r: Sched)
    requires p in s.procs
  {
    Reschedule(s, p).(waiters := s.waiters - {p})
  }

  // sys_waitid on one of the caller's children; it returns at once if the child is gone.
  function DoWait(s: Sched, c: nat): (r: Sched)
    requires Known(s)
  {
    if c in s.procs && c != IDLE && s.procs[c].parent == s.current then
      var a := Waiting(s, c);
      if a.procs[c].state == Terminated then a else Deschedule(a)
    else s
  }

  // The caller's child list is empty: sys_waitid then returns ECHILD.
  predicate NoChildren(s: Sched) {
    forall p :: p in s.procs ==> p == IDLE || s.procs[p].parent != s.current
  }

  // reap: the parent is woken only if it waits for this process.
  function DoExit(s: Sched): (r: Sched)
    requires Known(s)
  {
    Schedule(Exiting(s))
  }

  function Apply(s: Sched, step: Step): (r: Sched)
    requires Known(s) && Enabled(s, step)
  {
    match step
    case Tick => Schedule(s)
    case Fork => DoFork(s)
    case Sleep(b) => DoSleep(s, b)
    case Wake(p) => DoWake(s, p)
    case WaitFor(c) => DoWait(s, c)
    case Exit => DoExit(s)
  }

  // ---- the invariant ----

  // At a kernel entry: the current process and only it is running; the run queue holds
  // exactly the ready processes other than idle, each once; a registered waiter is blocked;
  // a process waiting for a live process is blocked and only that exit will wake it.
  ghost predicate Safe(s: Sched) {
    && Known(s) && s.procs[s.current].state == Running
    && QueueOk(s) && WaitersOk(s) && WaitOk(s)
    && (forall p :: p in s.procs && s.procs[p].state == Running ==> p == s.current)
  }

  ghost predicate QueueOk(s: Sched) {
    && s.idlePid == 0 && NoDup(s.queue)
    && (forall p: nat :: p in s.queue <==> p in s.procs && p != IDLE && s.procs[p].state == Ready)
    && IDLE in s.procs && (s.procs[IDLE].state == Ready || s.procs[IDLE].state == Running)
  }

  ghost predicate WaitersOk(s: Sched) {
    forall p :: p in s.waiters ==> p in s.procs && p != IDLE && s.procs[p].state == Blocked
  }

  ghost predicate WaitOk(s: Sched) {
    && s.nextPid > 1 && s.nextPid < WAITING_ALL
    && (forall p :: p in s.procs ==> p < s.nextPid)
    && (forall p :: p in s.procs && p != IDLE ==> s.procs[p].waitingOn < s.nextPid && s.procs[p].parent < p)
    && (forall p :: p in s.procs && p != IDLE && AwaitsLive(s, p) ==> WaitsAsParent(s, p))
    && IDLE in s.procs && !IdleWaits(s)
  }

  // An exit would wake idle: its block says that it waits for all children, or for one it has.
  predicate IdleWaits(s: Sched)
    requires IDLE in s.procs
  {
    || s.procs[IDLE].waitingOn == WAITING_ALL
    || exists p :: p in s.procs && p != IDLE && s.procs[p].parent == IDLE && p == s.procs[IDLE].waitingOn
  }

  predicate AwaitsLive(s: Sched, p: nat) {
    p in s.procs && s.procs[p].waitingOn != WAITING_NONE && s.procs[p].waitingOn in s.procs
      && s.procs[s.procs[p].waitingOn].state != Terminated
  }

  predicate WaitsAsParent(s: Sched, p: nat)
    requires AwaitsLive(s, p)
  {
    s.procs[p].state == Blocked && p !in s.waiters && s.procs[s.procs[p].waitingOn].parent == p
  }

  // What the scheduler is called with: as above, except that the current process may just
  // have stopped running.
  ghost predicate Leaving(s: Sched) {
    && Known(s) && QueueOk(s) && WaitersOk(s) && WaitOk(s)
    && (forall p :: p in s.procs && s.procs[p].state == Running ==> p == s.current)
    && s.procs[s.current].state != Ready
  }

  // The guard against scheduling the current process is unreachable.
  lemma GuardUnreachable(s: Sched)
    requires Leaving(s)
    ensures s.current !in s.queue
  {
  }

  lemma ScheduleKeeps(s: Sched)
    requires Leaving(s)
    ensures Safe(Schedule(s))
    ensures Schedule(s).nextPid == s.nextPid && Schedule(s).waiters == s.waiters
  {
    hide Schedule, QueueOk, AwaitsLive, WaitOk, WaitersOk, Without;
    GuardUnreachable(s);
    ScheduleSwitches(s);
    WaitsKept(s, Schedule(s));
    if s.queue == [] {
      IdleQueue(s);
    } else {
      ScheduleQueue(s);
    }
    QueueKnown(Schedule(s));
  }

  lemma QueueKnown(s: Sched)
    requires QueueOk(s) && WaitersOk(s) && s.current in s.procs
    ensures Known(s)
  {
  }

  lemma IdleQueue(s: Sched)
    requires Leaving(s) && s.queue == []
    ensures QueueOk(Schedule(s))
  {
    hide WaitOk, WaitersOk;
  }

  // The switch moves processes between ready and running only, and leaves one running.
  lemma ScheduleSwitches(s: Sched)
    requires Leaving(s) && s.current !in s.queue
    ensures var r := Schedule(s);
      && SameWaits(s, r) && r.current in r.procs && r.procs[r.current].state == Running
      && forall p :: p in r.procs && r.procs[p].state == Running ==> p == r.current
  {
    hide WaitOk, WaitersOk, NoDup, Without;
    if s.queue != [] {
      assert s.queue[0] in s.queue;
    }
  }

  ghost predicate SameWaits(s: Sched, r: Sched) {
    && r.procs.Keys == s.procs.Keys && r.waiters == s.waiters && r.nextPid == s.nextPid
    && forall p :: p in s.procs ==> SameWait(s.procs[p], r.procs[p])
  }

  predicate SameWait(p: Proc, q: Proc) {
    && q.waitingOn == p.waitingOn && q.parent == p.parent
    && (q.state == Blocked <==> p.state == Blocked) && (q.state == Terminated <==> p.state == Terminated)
  }

  lemma WaitsKept(s: Sched, r: Sched)
    requires WaitersOk(s) && WaitOk(s) && SameWaits(s, r)
    ensures WaitersOk(r) && WaitOk(r)
  {
    forall p | p in r.procs
      ensures r.procs[p].waitingOn == s.procs[p].waitingOn && (AwaitsLive(r, p) <==> AwaitsLive(s, p))
    {
      assert SameWait(s.procs[p], r.procs[p]);
      if s.procs[p].waitingOn in s.procs {
        assert SameWait(s.procs[s.procs[p].waitingOn], r.procs[s.procs[p].waitingOn]);
      }
    }
    forall p | p in r.procs && p != IDLE && AwaitsLive(r, p)
      ensures WaitsAsParent(r, p)
    {
      assert AwaitsLive(s, p) && SameWait(s.procs[p], r.procs[p]);
    }
    forall p | p in r.waiters
      ensures p in r.procs && p != IDLE && r.procs[p].state == Blocked
    {
      assert SameWait(s.procs[p], r.procs[p]);
    }
    hide AwaitsLive;
  }

  lemma ScheduleQueue(s: Sched)
    requires Leaving(s) && s.queue != [] && s.current !in s.queue
    ensures QueueOk(Schedule(s))
  {
    var p, r := s.queue[0], Schedule(s);
    assert p in s.queue;
    WithoutMembers(s.queue, p);
    if s.procs[s.current].state == Running && s.current != IDLE {
      NoDupCons(s.current, Without(s.queue, p));
    }
    forall q: nat
      ensures q in r.queue <==> q in r.procs && q != IDLE && r.procs[q].state == Ready
    {
      assert q in s.queue <==> q in s.procs && q != IDLE && s.procs[q].state == Ready;
    }
  }

  lemma DescheduleKeeps(s: Sched, s': Sched)
    requires Known(s) && s.procs[s.current].state == Running && s.current != IDLE
    requires s' == SetState(s, s.current, Blocked) && Leaving(s')
    ensures Safe(Deschedule(s))
  {
    GuardUnreachable(s');
    WithoutAbsent(s.queue, s.current);
    ScheduleKeeps(s');
  }

  lemma TickKeeps(s: Sched)
    requires Safe(s)
    ensures Safe(Schedule(s))
  {
    ScheduleKeeps(s);
  }

  lemma ForkKeeps(s: Sched)
    requires Safe(s) && s.current != IDLE && s.nextPid + 1 < WAITING_ALL
    ensures Safe(DoFork(s))
  {
    assert s.nextPid !in s.queue;
    NoDupCons(s.nextPid, s.queue);
    assert !AwaitsLive(s, s.current);
    var r := DoFork(s);
    forall p | p in r.procs && p != IDLE && AwaitsLive(r, p)
      ensures WaitsAsParent(r, p)
    {
      assert p != s.nextPid;
      assert AwaitsLive(s, p);
    }
  }

  lemma FreshPid(s: Sched)
    requires Safe(s)
    ensures Known(s) && s.nextPid !in s.queue && s.nextPid !in s.procs
  {
  }

  lemma SleepLeaves(s: Sched, registered: bool)
    requires Safe(s) && s.current != IDLE
    ensures Leaving(SetState(if registered then s.(waiters := s.waiters + {s.current}) else s, s.current, Blocked))
  {
    var a := if registered then s.(waiters := s.waiters + {s.current}) else s;
    BlockedQueue(s, a);
    BlockedWaits(s, a);
    hide QueueOk, WaitOk, WaitersOk;
  }

  lemma BlockedQueue(s: Sched, a: Sched)
    requires Safe(s) && s.current != IDLE && a == s.(waiters := a.waiters)
    ensures QueueOk(SetState(a, a.current, Blocked))
  {
    hide WaitOk, WaitersOk, NoDup;
  }

  lemma BlockedWaits(s: Sched, a: Sched)
    requires Safe(s) && s.current != IDLE && a == s.(waiters := a.waiters)
    requires s.waiters <= a.waiters <= s.waiters + {s.current}
    ensures WaitersOk(SetState(a, a.current, Blocked)) && WaitOk(SetState(a, a.current, Blocked))
  {
    hide QueueOk;
    var b := SetState(a, a.current, Blocked);
    assert !AwaitsLive(s, s.current);
    forall p | p in b.procs && p != IDLE && AwaitsLive(b, p)
      ensures WaitsAsParent(b, p)
    {
      assert AwaitsLive(s, p);
    }
  }

  lemma SleepKeeps(s: Sched, registered: bool)
    requires Safe(s) && s.current != IDLE
    ensures Safe(DoSleep(s, registered))
  {
    var a := if registered then s.(waiters := s.waiters + {s.current}) else s;
    SleepLeaves(s, registered);
    DescheduleKeeps(a, SetState(a, s.current, Blocked));
  }

  lemma WakeKeeps(s: Sched, p: nat)
    requires Safe(s) && p in s.waiters
    ensures Safe(DoWake(s, p)) && p !in s.queue
  {
    NoDupCons(p, s.queue);
    var r := DoWake(s, p);
    forall q | q in r.procs && q != IDLE && AwaitsLive(r, q)
      ensures WaitsAsParent(r, q)
    {
      assert AwaitsLive(s, q);
    }
  }

  function Waiting(s: Sched, c: nat): (r: Sched)
    requires Known(s)
  {
    s.(procs := s.procs[s.current := s.procs[s.current].(waitingOn := c)])
  }

  lemma WaitLeaves(s: Sched, c: nat)
    requires Safe(s) && s.current != IDLE
    ensures c in s.procs && c != IDLE && s.procs[c].parent == s.current && s.procs[c].state != Terminated ==>
      Leaving(SetState(Waiting(s, c), s.current, Blocked))
  {
    if c in s.procs && c != IDLE && s.procs[c].parent == s.current && s.procs[c].state != Terminated {
      var b := SetState(Waiting(s, c), s.current, Blocked);
      forall p | p in b.procs && p != IDLE && AwaitsLive(b, p)
        ensures WaitsAsParent(b, p)
      {
        assert p != s.current ==> AwaitsLive(s, p);
      }
    }
  }

  lemma WaitKeeps(s: Sched, c: nat)
    requires Safe(s) && s.current != IDLE
    ensures Safe(DoWait(s, c))
  {
    if c in s.procs && c != IDLE && s.procs[c].parent == s.current {
      var a := Waiting(s, c);
      if a.procs[c].state == Terminated {
        forall p | p in a.procs && p != IDLE && AwaitsLive(a, p)
          ensures WaitsAsParent(a, p)
        {
          assert AwaitsLive(s, p);
        }
      } else {
        WaitLeaves(s, c);
        DescheduleKeeps(a, SetState(a, s.current, Blocked));
      }
    }
  }

  // The state in which reap calls the scheduler.
  function Exiting(s: Sched): (r: Sched)
    requires Known(s)
  {
    var a := SetState(s, s.current, Terminated);
    var p := s.procs[s.current].parent;
    if p in s.procs && (s.procs[p].waitingOn == s.current || s.procs[p].waitingOn == WAITING_ALL)
      then Reschedule(a, p) else a
  }

  lemma ExitLeaves(s: Sched)
    requires Safe(s) && s.current != IDLE
    ensures Leaving(SetState(s, s.current, Terminated)) && Leaving(Exiting(s))
    ensures var p := s.procs[s.current].parent;
      p in s.procs && (s.procs[p].waitingOn == s.current || s.procs[p].waitingOn == WAITING_ALL) ==>
        p !in s.queue && p != s.current
  {
    ExitStops(s);
    var a := SetState(s, s.current, Terminated);
    var p := s.procs[s.current].parent;
    if p in s.procs && (s.procs[p].waitingOn == s.current || s.procs[p].waitingOn == WAITING_ALL) {
      assert AwaitsLive(s, p);
      assert p !in s.queue && p != s.current;
      ParentWoken(a, p);
    }
    hide Safe, Leaving, AwaitsLive;
  }

  lemma ExitStops(s: Sched)
    requires Safe(s) && s.current != IDLE
    ensures Leaving(SetState(s, s.current, Terminated))
  {
    var a := SetState(s, s.current, Terminated);
    forall q | q in a.procs && q != IDLE && AwaitsLive(a, q)
      ensures WaitsAsParent(a, q)
    {
      assert AwaitsLive(s, q);
    }
    hide AwaitsLive;
  }

  // The parent was waiting for a process that is now gone.
  lemma ParentWoken(a: Sched, p: nat)
    requires Leaving(a) && p in a.procs && p != IDLE && p != a.current && p !in a.queue
    requires a.procs[p].state == Blocked && p !in a.waiters && !AwaitsLive(a, p)
    ensures Leaving(Reschedule(a, p))
  {
    var b := Reschedule(a, p);
    NoDupCons(p, a.queue);
    forall q | q in b.procs && q != IDLE && AwaitsLive(b, q)
      ensures WaitsAsParent(b, q)
    {
      assert AwaitsLive(a, q);
    }
    hide AwaitsLive;
  }

  lemma ExitKeeps(s: Sched)
    requires Safe(s) && s.current != IDLE
    ensures Safe(DoExit(s))
  {
    ExitLeaves(s);
    ScheduleKeeps(Exiting(s));
  }

  // ---- whole runs ----

  // scheduler_init, add_shell_to_scheduler and start_scheduler: the first process, a child of
  // idle, runs. Nobody writes pid and waiting_on in idle's block, so they are what kmalloc left.
  function Booted(idlePid: nat, idleWaits: nat): (s: Sched)
    ensures Known(s)
  {
    Sched(map[IDLE := Proc(Ready, idleWaits, IDLE), FIRST := Proc(Running, WAITING_NONE, IDLE)], [], FIRST, {}, 3,
      idlePid)
  }

  predicate CleanBlock(idlePid: nat, idleWaits: nat) {
    idlePid == 0 && idleWaits != FIRST && idleWaits != WAITING_ALL
  }

  lemma BootSafe(idlePid: nat, idleWaits: nat)
    ensures Safe(Booted(idlePid, idleWaits)) <==> CleanBlock(idlePid, idleWaits)
  {
    assert FIRST in Booted(idlePid, idleWaits).procs;
  }

  lemma StepKeeps(s: Sched, step: Step)
    requires Safe(s) && Enabled(s, step) && (step.Fork? ==> s.nextPid + 1 < WAITING_ALL)
    ensures Safe(Apply(s, step))
  {
    match step
    case Tick => TickKeeps(s);
    case Fork => ForkKeeps(s);
    case Sleep(b) => SleepKeeps(s, b);
    case Wake(p) => WakeKeeps(s, p);
    case WaitFor(c) => WaitKeeps(s, c);
    case Exit => ExitKeeps(s);
  }

  lemma StepKnown(s: Sched, step: Step)
    requires Known(s) && Enabled(s, step)
    ensures Known(Apply(s, step))
  {
    match step
    case Tick => ScheduleKnown(s);
    case Fork =>
    case Sleep(b) => DescheduleKnown(if b then s.(waiters := s.waiters + {s.current}) else s);
    case Wake(p) =>
    case WaitFor(c) => if c in s.procs { DescheduleKnown(Waiting(s, c)); }
    case Exit => ScheduleKnown(Exiting(s));
  }

  lemma ScheduleKnown(s: Sched)
    requires Known(s)
    ensures Known(Schedule(s))
  {
    if s.queue != [] {
      WithoutElements(s.queue, s.queue[0]);
    }
    hide Without;
  }

  lemma DescheduleKnown(s: Sched)
    requires Known(s)
    ensures Known(Deschedule(s))
  {
    hide Schedule;
    WithoutElements(s.queue, s.current);
    ScheduleKnown(if s.procs[s.current].state == Running
      then SetState(s, s.current, Blocked).(queue := Without(s.queue, s.current)) else s);
  }

  ghost predicate Reaches(s: Sched, steps: seq<Step>, s': Sched)
    requires Known(s)
    decreases |steps|
  {
    if steps == [] then s' == s
    else
      && Enabled(s, steps[0]) && (steps[0].Fork? ==> s.nextPid + 1 < WAITING_ALL)
      && (StepKnown(s, steps[0]); Reaches(Apply(s, steps[0]), steps[1..], s'))
  }

  lemma {:induction false} RunsKeep(s: Sched, steps: seq<Step>, s': Sched)
    requires Safe(s) && Reaches(s, steps, s')
    ensures Safe(s')
    decreases |steps|
  {
    if steps != [] {
      StepKeeps(s, steps[0]);
      RunsKeep(Apply(s, steps[0]), steps[1..], s');
    }
  }

  // Exactly one process is running and it is current, and the run queue is the set of ready
  // processes other than idle, without repetition.
  ghost predicate InOrder(s: Sched) {
    && (forall p :: p in s.procs ==> (s.procs[p].state == Running <==> p == s.current))
    && (forall p: nat :: p in s.queue <==> p in s.procs && p != IDLE && s.procs[p].state == Ready)
    && NoDup(s.queue) && s.current !in s.queue
  }

  // So it is over every run from boot, if the memory of idle's block was clean.
  lemma SchedulerSafety(idlePid: nat, idleWaits: nat, steps: seq<Step>, s: Sched)
    requires CleanBlock(idlePid, idleWaits) && Reaches(Booted(idlePid, idleWaits), steps, s)
    ensures Safe(s) && InOrder(s)
  {
    BootSafe(idlePid, idleWaits);
    RunsKeep(Booted(idlePid, idleWaits), steps, s);
  }

  // And only then. With another pid idle queues itself when it gives way; and if its block says
  // that it waits for the first process or for all, the first exit queues it for good.
  lemma SchedulerSafetyIff(idlePid: nat, idleWaits: nat)
    ensures (forall steps: seq<Step>, s: Sched :: Reaches(Booted(idlePid, idleWaits), steps, s) ==> InOrder(s))
      <==> CleanBlock(idlePid, idleWaits)
  {
    hide Reaches, InOrder, Safe, Booted;
    if CleanBlock(idlePid, idleWaits) {
      forall steps: seq<Step>, s: Sched | Reaches(Booted(idlePid, idleWaits), steps, s)
        ensures InOrder(s)
      {
        SchedulerSafety(idlePid, idleWaits, steps, s);
      }
    } else if idlePid != 0 {
      var steps, s := IdleQueuesItself(idlePid, idleWaits);
      assert Reaches(Booted(idlePid, idleWaits), steps, s) && !InOrder(s);
    } else {
      var steps, s := ExitQueuesIdle(idlePid, idleWaits);
      assert Reaches(Booted(idlePid, idleWaits), steps, s) && !InOrder(s);
    }
  }

  lemma IdleQueuesItself(idlePid: nat, idleWaits: nat) returns (steps: seq<Step>, s: Sched)
    requires idlePid != 0
    ensures Reaches(Booted(idlePid, idleWaits), steps, s) && IDLE in s.queue && !InOrder(s)
  {
    var a := Booted(idlePid, idleWaits);
    var b := Apply(a, Sleep(true));
    assert b.current == IDLE && b.queue == [] && b.waiters == {FIRST};
    StepKnown(a, Sleep(true));
    var c := Apply(b, Wake(FIRST));
    assert c.queue == [FIRST];
    StepKnown(b, Wake(FIRST));
    s := Apply(c, Tick);
    steps := [Sleep(true), Wake(FIRST), Tick];
    assert steps[1..] == [Wake(FIRST), Tick] && [Wake(FIRST), Tick][1..] == [Tick] && [Tick][1..] == [];
    assert Reaches(c, [Tick], s) && Reaches(b, [Wake(FIRST), Tick], s);
  }

  lemma ExitQueuesIdle(idlePid: nat, idleWaits: nat) returns (steps: seq<Step>, s: Sched)
    requires idlePid == 0 && (idleWaits == FIRST || idleWaits == WAITING_ALL)
    ensures Reaches(Booted(idlePid, idleWaits), steps, s) && s.current == IDLE && IDLE in s.queue && !InOrder(s)
  {
    var a := Booted(idlePid, idleWaits);
    s := Apply(a, Exit);
    steps := [Exit];
    assert steps[1..] == [];
    StepKnown(a, Exit);
  }

  // A process that runs again after waiting finds the child it waited for terminated, so
  // the loop in sys_waitid ends at its first wake-up.
  lemma WaitEnds(s: Sched, c: nat)
    requires Safe(s) && s.current != IDLE
    requires s.procs[s.current].waitingOn == c && c in s.procs && c != WAITING_NONE
    ensures s.procs[c].state == Terminated
  {
    assert !AwaitsLive(s, s.current);
  }

  // ---- the order of the run queue ----

  // Insertion and removal are both at the front: ticks alternate between the running
  // process and the front of the queue, and two of them restore the state.
  lemma TicksAlternate(s: Sched)
    requires Safe(s) && s.current != IDLE && s.queue != []
    ensures var r := Schedule(s);
      Safe(r) && r.current == s.queue[0] && r.queue == [s.current] + s.queue[1..] && Schedule(r) == s
  {
    hide WaitOk, WaitersOk, NoDup;
    ScheduleKeeps(s);
    var p := s.queue[0];
    assert p in s.queue;
    assert Without(s.queue, p) == s.queue[1..];
    var r := Schedule(s);
    assert r.queue == [s.current] + s.queue[1..];
    assert Without(r.queue, s.current) == s.queue[1..];
    assert Schedule(r).procs == s.procs;
    assert [p] + s.queue[1..] == s.queue;
  }

  function Ticks(s: Sched, n: nat): (r: Sched)
    requires Safe(s)
    decreases n
  {
    TickKeeps(s);
    if n == 0 then s else Ticks(Schedule(s), n - 1)
  }

  // So the quantum never reaches a third process: however many ticks pass, only the running
  // process and the front of the queue take turns.
  lemma {:induction false} OnlyTwoTakeTurns(s: Sched, n: nat)
    requires Safe(s) && s.current != IDLE && s.queue != []
    ensures Ticks(s, n) == if n % 2 == 0 then s else Schedule(s)
    ensures Ticks(s, n).current == if n % 2 == 0 then s.current else s.queue[0]
    decreases n
  {
    hide Schedule, QueueOk, WaitersOk, WaitOk;
    TicksAlternate(s);
    if n >= 2 {
      OnlyTwoTakeTurns(s, n - 2);
      assert Ticks(s, n) == Ticks(Schedule(s), n - 1);
      assert Ticks(Schedule(s), n - 1) == Ticks(Schedule(Schedule(s)), n - 2);
    }
  }

  // By ticks alone every queued process gets its turn exactly when there is at most one.
  lemma AllTakeTurnsIff(s: Sched)
    requires Safe(s) && s.current != IDLE
    ensures (forall p :: p in s.queue ==> GetsTurn(s, p)) <==> |s.queue| <= 1
  {
    hide Safe, Schedule, Ticks;
    if s.queue != [] {
      OnlyTwoTakeTurns(s, 1);
      assert GetsTurn(s, s.queue[0]);
    }
    if |s.queue| >= 2 {
      var p := s.queue[1];
      ThirdIsOther(s);
      forall n: nat
        ensures Ticks(s, n).current != p
      {
        OnlyTwoTakeTurns(s, n);
      }
      assert p in s.queue && !GetsTurn(s, p);
    }
  }

  // Two forks by the first process: whoever was queued first never runs by ticks alone.
  lemma SomebodyStarves()
    ensures exists steps: seq<Step>, s: Sched, p: nat ::
      Reaches(Booted(0, WAITING_NONE), steps, s) && Safe(s) && p in s.queue && !GetsTurn(s, p)
  {
    hide Safe;
    var a, steps := Booted(0, WAITING_NONE), [Fork, Fork];
    BootSafe(0, WAITING_NONE);
    StepKeeps(a, Fork);
    var b := DoFork(a);
    StepKeeps(b, Fork);
    var c := DoFork(b);
    assert steps[1..] == [Fork] && steps[1..][1..] == [];
    assert Reaches(c, [], c) && Reaches(b, [Fork], c);
    assert Reaches(a, steps, c);
    assert c.queue == [4, 3] && c.current == 2;
    forall n: nat
      ensures Ticks(c, n).current != 3
    {
      OnlyTwoTakeTurns(c, n);
    }
    assert 3 in c.queue && !GetsTurn(c, 3);
  }

  ghost predicate GetsTurn(s: Sched, p: nat)
    requires Safe(s)
  {
    exists n: nat :: Ticks(s, n).current == p
  }

  lemma ThirdIsOther(s: Sched)
    requires Safe(s) && |s.queue| >= 2
    ensures s.queue[1] != s.queue[0] && s.queue[1] != s.current
  {
    assert s.queue[1] in s.queue;
  }
}
