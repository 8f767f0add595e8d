// What the scheduler's steps do to the process that makes them, to those it wakes and to those
// that wait: who runs next, who stays blocked and why, and how waiting for a child ends.
module SchedulerLaws {
  import opened ListSpec
  import opened SchedulerSpec

  // ---- who runs next ----

  // Idle runs only when nobody else is ready.
  lemma IdleLast(s: Sched)
    requires Leaving(s)
    ensures Schedule(s).current == IDLE ==> Schedule(s).queue == []
    ensures Schedule(s).current == (if s.queue != [] then s.queue[0]
      else if s.procs[s.current].state == Running then s.current else IDLE)
  {
    hide WaitOk, WaitersOk, Without;
    GuardUnreachable(s);
    if s.queue != [] {
      assert s.queue[0] in s.queue;
    }
  }

  // A tick changes nothing if nobody else is ready; otherwise the front of the queue runs, and
  // the process that ran is in front of the others, unless it is idle.
  lemma TickLaw(s: Sched)
    requires Safe(s)
    ensures var r := Apply(s, Tick);
      if s.queue == [] then r == s
      else
        && r.current == s.queue[0] && r.procs[r.current].state == Running && r.procs[s.current].state == Ready
        && r.queue == (if s.current == IDLE then [] else [s.current]) + s.queue[1..]
  {
    hide WaitOk, WaitersOk;
    if s.queue != [] {
      assert s.queue[0] in s.queue && s.current !in s.queue;
      WithoutAt(s.queue, 0);
    }
  }

  // ---- what a step does to one process ----

  lemma ForkLaw(s: Sched)
    requires Safe(s) && s.current != IDLE
    ensures s.nextPid !in s.procs
    ensures var r, c := Apply(s, Fork), s.nextPid;
      && r.procs.Keys == s.procs.Keys + {c} && r.current == s.current && r.queue == [c] + s.queue
      && r.procs[c] == Proc(Ready, s.procs[s.current].waitingOn, s.current) && c < r.nextPid
      && forall p :: p in s.procs ==> r.procs[p] == s.procs[p]
  {
    FreshPid(s);
  }

  lemma SleepLaw(s: Sched, registered: bool)
    requires Safe(s) && s.current != IDLE
    ensures var r := Apply(s, Sleep(registered));
      && r.procs[s.current].state == Blocked && r.current != s.current && s.current !in r.queue
      && r.waiters == (if registered then s.waiters + {s.current} else s.waiters)
  {
    hide Deschedule, QueueOk, WaitersOk, WaitOk;
    SleepKeeps(s, registered);
    BlockedIsOff(s, if registered then s.(waiters := s.waiters + {s.current}) else s);
    QueueOff(s);
  }

  lemma QueueOff(s: Sched)
    requires Safe(s)
    ensures s.current !in s.queue && NoDup(s.queue)
  {
  }

  // Blocking the running process, which has just been changed in its waiting_on or registered.
  lemma BlockedIsOff(s: Sched, a: Sched)
    requires Safe(s) && s.current != IDLE && Known(a) && a.current == s.current && a.queue == s.queue
    requires a.procs.Keys == s.procs.Keys && a.procs[a.current].state == Running
    requires forall p :: p in s.procs ==> SameRun(s.procs[p], a.procs[p])
    ensures var r := Deschedule(a);
      && r.procs.Keys == a.procs.Keys && r.procs[a.current] == a.procs[a.current].(state := Blocked)
      && r.current == (if s.queue == [] then IDLE else s.queue[0])
        && r.queue == (if s.queue == [] then [] else s.queue[1..])
      && r.waiters == a.waiters
      && forall p :: p in s.procs && p != a.current && p != r.current ==> r.procs[p] == a.procs[p]
  {
    hide WaitOk, WaitersOk;
    assert s.current !in s.queue;
    WithoutAbsent(s.queue, s.current);
    if s.queue != [] {
      assert s.queue[0] in s.queue;
      WithoutAt(s.queue, 0);
    }
  }

  predicate SameRun(p: Proc, q: Proc) {
    q.state == p.state && q.parent == p.parent
  }

  lemma WakeLaw(s: Sched, p: nat)
    requires Safe(s) && p in s.waiters
    ensures p in s.procs && p in Apply(s, Wake(p)).procs
    ensures var r := Apply(s, Wake(p));
      r.procs[p].state == Ready && r.queue == [p] + s.queue && p !in r.waiters && r.current == s.current
  {
  }

  // A live child of the caller.
  predicate LiveChild(s: Sched, c: nat) {
    s.current in s.procs && c in s.procs && c != IDLE && s.procs[c].parent == s.current
      && s.procs[c].state != Terminated
  }

  // sys_waitid on a live child blocks the caller until that child is gone; otherwise the caller
  // goes on.
  lemma WaitLaw(s: Sched, c: nat)
    requires Safe(s) && s.current != IDLE
    ensures var r := Apply(s, WaitFor(c));
      if LiveChild(s, c) then
        && s.current in r.procs && r.procs[s.current].state == Blocked && r.procs[s.current].waitingOn == c
        && AwaitsLive(r, s.current) && r.current == (if s.queue == [] then IDLE else s.queue[0])
      else
        && r.current == s.current && r.queue == s.queue && r.procs.Keys == s.procs.Keys
        && r.procs[s.current].state == Running
        && (c in s.procs && c != IDLE && s.procs[c].parent == s.current ==> r.procs[s.current].waitingOn == c)
  {
    if LiveChild(s, c) {
      BlockedIsOff(s, Waiting(s, c));
      assert c != s.current;
      var r := Apply(s, WaitFor(c));
      WaitKeeps(s, c);
      NotGone(s, r, c);
    }
  }

  lemma NotGone(s: Sched, r: Sched, c: nat)
    requires Safe(s) && s.current != IDLE && LiveChild(s, c) && r == Apply(s, WaitFor(c))
    ensures c in r.procs && r.procs[c].state != Terminated
  {
    hide Without;
  }

  // The process that exits is gone, and a parent that waits for it runs next.
  lemma ExitLaw(s: Sched)
    requires Safe(s) && s.current != IDLE
    ensures var r, q := Apply(s, Exit), s.procs[s.current].parent;
      && s.current in r.procs && r.procs[s.current].state == Terminated && s.current !in r.queue
      && r.current == (if q in s.procs && s.procs[q].waitingOn == s.current then q
        else if s.queue == [] then IDLE else s.queue[0])
      && r.current in r.procs && r.procs[r.current].state == Running
  {
    ExitLeaves(s);
    ExitKeeps(s);
    IdleLast(Exiting(s));
    ExitKeepsGone(s);
    assert s.procs[s.current].parent in s.procs ==> s.procs[s.procs[s.current].parent].waitingOn != WAITING_ALL;
  }

  lemma ExitKeepsGone(s: Sched)
    requires Safe(s) && s.current != IDLE && Leaving(Exiting(s))
    ensures s.current in Apply(s, Exit).procs && Apply(s, Exit).procs[s.current].state == Terminated
  {
    var a := Exiting(s);
    assert a.procs[s.current].state == Terminated && a.current == s.current;
    ScheduleSwitches(a);
    assert SameWait(a.procs[s.current], Schedule(a).procs[s.current]);
  }

  // ---- who stays blocked, and why ----

  // Blocked processes that no wait queue holds and that await no live child: nobody wakes them.
  function Forgotten(s: Sched): (f: set<nat>) {
    set p | p in s.procs && p != IDLE && s.procs[p].state == Blocked && p !in s.waiters && !AwaitsLive(s, p)
  }

  // A process joins them exactly by blocking unregistered, and never leaves them.
  lemma StepForgets(s: Sched, step: Step)
    requires Safe(s) && Enabled(s, step) && (step.Fork? ==> s.nextPid + 1 < WAITING_ALL)
    ensures Forgotten(Apply(s, step)) == Forgotten(s) + (if step == Sleep(false) then {s.current} else {})
  {
    hide Forgotten, Schedule, Safe, Leaving;
    match step
    case Tick => ScheduleForgets(s);
    case Fork => ForkForgets(s);
    case Sleep(b) => SleepForgets(s, b);
    case Wake(p) => WakeForgets(s, p);
    case WaitFor(c) => WaitForgets(s, c);
    case Exit => ExitForgets(s);
  }

  lemma SafeLeaves(s: Sched)
    requires Safe(s)
    ensures Leaving(s)
  {
  }

  lemma SwitchForgets(s: Sched)
    requires Leaving(s)
    ensures Forgotten(Schedule(s)) == Forgotten(s)
  {
    GuardUnreachable(s);
    ScheduleSwitches(s);
    hide Leaving, Schedule;
    var r := Schedule(s);
    forall p | p in s.procs
      ensures p in Forgotten(r) <==> p in Forgotten(s)
    {
      assert SameWait(s.procs[p], r.procs[p]);
      if s.procs[p].waitingOn in s.procs {
        assert SameWait(s.procs[s.procs[p].waitingOn], r.procs[s.procs[p].waitingOn]);
      }
    }
  }

  lemma ScheduleForgets(s: Sched)
    requires Safe(s)
    ensures Forgotten(Schedule(s)) == Forgotten(s)
  {
    SafeLeaves(s);
    SwitchForgets(s);
  }

  lemma ForkForgets(s: Sched)
    requires Safe(s) && s.current != IDLE
    ensures Forgotten(DoFork(s)) == Forgotten(s)
  {
    var r := DoFork(s);
    forall p
      ensures p in Forgotten(r) <==> p in Forgotten(s)
    {
    }
  }

  // Deschedule blocks the running process and switches.
  lemma DescheduleIs(a: Sched)
    requires Known(a) && a.procs[a.current].state == Running && a.current !in a.queue
    ensures Deschedule(a) == Schedule(SetState(a, a.current, Blocked))
  {
    WithoutAbsent(a.queue, a.current);
  }

  lemma SleepForgets(s: Sched, registered: bool)
    requires Safe(s) && s.current != IDLE
    ensures Forgotten(DoSleep(s, registered)) == Forgotten(s) + (if registered then {} else {s.current})
  {
    var a := if registered then s.(waiters := s.waiters + {s.current}) else s;
    SleepLeaves(s, registered);
    assert s.current !in s.queue;
    DescheduleIs(a);
    SwitchForgets(SetState(a, a.current, Blocked));
    BlockForgets(s, registered);
  }

  lemma BlockForgets(s: Sched, registered: bool)
    requires Safe(s) && s.current != IDLE
    ensures Forgotten(SetState(if registered then s.(waiters := s.waiters + {s.current}) else s, s.current, Blocked))
      == Forgotten(s) + (if registered then {} else {s.current})
  {
    hide QueueOk;
    assert !AwaitsLive(s, s.current);
  }

  lemma WakeForgets(s: Sched, p: nat)
    requires Safe(s) && p in s.waiters
    ensures Forgotten(DoWake(s, p)) == Forgotten(s)
  {
    hide QueueOk;
  }

  lemma WaitForgets(s: Sched, c: nat)
    requires Safe(s) && s.current != IDLE
    ensures Forgotten(DoWait(s, c)) == Forgotten(s)
  {
    if c in s.procs {
      WaitingForgets(s, c);
      if LiveChild(s, c) {
        WaitLeaves(s, c);
        assert s.current !in s.queue;
        DescheduleIs(Waiting(s, c));
        SwitchForgets(SetState(Waiting(s, c), s.current, Blocked));
      }
    }
  }

  lemma WaitingForgets(s: Sched, c: nat)
    requires Safe(s) && s.current != IDLE && c in s.procs
    ensures Forgotten(Waiting(s, c)) == Forgotten(s)
    ensures LiveChild(s, c) ==> Forgotten(SetState(Waiting(s, c), s.current, Blocked)) == Forgotten(s)
  {
    hide QueueOk;
    if LiveChild(s, c) {
      var b := SetState(Waiting(s, c), s.current, Blocked);
      assert AwaitsLive(b, s.current);
    }
  }

  lemma ExitForgets(s: Sched)
    requires Safe(s) && s.current != IDLE
    ensures Forgotten(DoExit(s)) == Forgotten(s)
  {
    ExitLeaves(s);
    SwitchForgets(Exiting(s));
    GoneForgets(s);
  }

  lemma GoneForgets(s: Sched)
    requires Safe(s) && s.current != IDLE
    ensures Forgotten(Exiting(s)) == Forgotten(s)
  {
    hide QueueOk;
    var r := Exiting(s);
    forall p | p in s.procs
      ensures p in Forgotten(r) <==> p in Forgotten(s)
    {
      if AwaitsLive(s, p) && p != IDLE {
        assert WaitsAsParent(s, p);
      }
    }
  }

  // The processes that block unregistered during a run.
  function Unregistered(s: Sched, steps: seq<Step>): (f: set<nat>)
    requires Known(s)
    decreases |steps|
  {
    if steps == [] || !Enabled(s, steps[0]) then {}
    else
      StepKnown(s, steps[0]);
      (if steps[0] == Sleep(false) then {s.current} else {}) + Unregistered(Apply(s, steps[0]), steps[1..])
  }

  lemma {:induction false} RunForgets(s: Sched, steps: seq<Step>, s': Sched)
    requires Safe(s) && Reaches(s, steps, s')
    ensures Forgotten(s') == Forgotten(s) + Unregistered(s, steps)
    decreases |steps|
  {
    hide Safe, Apply, Enabled, Forgotten;
    SafeKnown(s);
    if steps != [] {
      OneStep(s, steps, s');
      StepForgets(s, steps[0]);
      RunForgets(Apply(s, steps[0]), steps[1..], s');
    }
  }

  lemma SafeKnown(s: Sched)
    requires Safe(s)
    ensures Known(s)
  {
  }

  lemma OneStep(s: Sched, steps: seq<Step>, s': Sched)
    requires Safe(s) && steps != [] && Reaches(s, steps, s')
    ensures Enabled(s, steps[0]) && (steps[0].Fork? ==> s.nextPid + 1 < WAITING_ALL)
    ensures Safe(Apply(s, steps[0])) && Known(Apply(s, steps[0])) && Reaches(Apply(s, steps[0]), steps[1..], s')
  {
    StepKeeps(s, steps[0]);
  }

  // Over every run from boot a blocked process is on a wait queue, or its parent awaits a live
  // child, or it is one of those that blocked unregistered; no two of these.
  lemma BlockedForAReason(idleWaits: nat, steps: seq<Step>, s: Sched)
    requires CleanBlock(0, idleWaits) && Reaches(Booted(0, idleWaits), steps, s)
    ensures forall p: nat :: p in s.procs && s.procs[p].state == Blocked ==>
      (p in s.waiters || AwaitsLive(s, p) || p in Unregistered(Booted(0, idleWaits), steps))
    ensures forall p: nat :: p in Unregistered(Booted(0, idleWaits), steps) ==>
      p in s.procs && s.procs[p].state == Blocked && p !in s.waiters && !AwaitsLive(s, p)
    ensures forall p: nat :: p in s.waiters ==> p in s.procs && s.procs[p].state == Blocked && !AwaitsLive(s, p)
  {
    BootSafe(0, idleWaits);
    SchedulerSafety(0, idleWaits, steps, s);
    RunForgets(Booted(0, idleWaits), steps, s);
    assert Forgotten(Booted(0, idleWaits)) == {};
    WaitersAwaitNobody(s);
    hide Reaches, Booted;
  }

  lemma WaitersAwaitNobody(s: Sched)
    requires Safe(s)
    ensures forall p: nat :: p in s.waiters ==> p in s.procs && s.procs[p].state == Blocked && !AwaitsLive(s, p)
    ensures s.procs[IDLE].state != Blocked
  {
    forall p: nat | p in s.waiters
      ensures !AwaitsLive(s, p)
    {
      assert AwaitsLive(s, p) ==> WaitsAsParent(s, p);
    }
  }

  // ---- how waiting for a child ends ----

  predicate Gone(s: Sched, c: nat) {
    c in s.procs && s.procs[c].state == Terminated
  }

  // p is blocked until c, its child, exits.
  predicate Awaits(s: Sched, p: nat, c: nat) {
    p in s.procs && p != IDLE && s.procs[p].waitingOn == c && AwaitsLive(s, p)
  }

  // No step brings a process back, and a waiting parent stays blocked until its child is gone.
  lemma StepWaits(s: Sched, step: Step, p: nat, c: nat)
    requires Safe(s) && Enabled(s, step) && (step.Fork? ==> s.nextPid + 1 < WAITING_ALL)
    ensures Gone(s, c) ==> Gone(Apply(s, step), c)
    ensures Awaits(s, p, c)
      ==> Awaits(Apply(s, step), p, c) || (step == Exit && s.current == c && Gone(Apply(s, step), c))
  {
    hide Safe, Leaving, Gone, Awaits, Schedule, Deschedule;
    match step
    case Tick => SafeLeaves(s); SwitchWaits(s, p, c);
    case Fork => ForkWaits(s, p, c);
    case Sleep(b) => SleepWaits(s, b, p, c);
    case Wake(q) => WakeWaits(s, q, p, c);
    case WaitFor(d) => ChildWaits(s, d, p, c);
    case Exit => ExitWaits(s, p, c);
  }

  lemma SwitchWaits(s: Sched, p: nat, c: nat)
    requires Leaving(s)
    ensures Gone(Schedule(s), c) <==> Gone(s, c)
    ensures Awaits(Schedule(s), p, c) <==> Awaits(s, p, c)
  {
    GuardUnreachable(s);
    ScheduleSwitches(s);
    hide Leaving, Schedule;
    var r := Schedule(s);
    if p in s.procs {
      assert SameWait(s.procs[p], r.procs[p]);
    }
    if c in s.procs {
      assert SameWait(s.procs[c], r.procs[c]);
    }
  }

  lemma ForkWaits(s: Sched, p: nat, c: nat)
    requires Safe(s) && s.current != IDLE
    ensures Gone(s, c) ==> Gone(DoFork(s), c)
    ensures Awaits(s, p, c) ==> Awaits(DoFork(s), p, c)
  {
    FreshPid(s);
  }

  lemma SleepWaits(s: Sched, registered: bool, p: nat, c: nat)
    requires Safe(s) && s.current != IDLE
    ensures Gone(s, c) ==> Gone(DoSleep(s, registered), c)
    ensures Awaits(s, p, c) ==> Awaits(DoSleep(s, registered), p, c)
  {
    var a := if registered then s.(waiters := s.waiters + {s.current}) else s;
    SleepLeaves(s, registered);
    assert s.current !in s.queue;
    DescheduleIs(a);
    SwitchWaits(SetState(a, a.current, Blocked), p, c);
  }

  lemma WakeWaits(s: Sched, q: nat, p: nat, c: nat)
    requires Safe(s) && q in s.waiters
    ensures Gone(s, c) ==> Gone(DoWake(s, q), c)
    ensures Awaits(s, p, c) ==> Awaits(DoWake(s, q), p, c)
  {
  }

  lemma ChildWaits(s: Sched, d: nat, p: nat, c: nat)
    requires Safe(s) && s.current != IDLE
    ensures Gone(s, c) ==> Gone(DoWait(s, d), c)
    ensures Awaits(s, p, c) ==> Awaits(DoWait(s, d), p, c)
  {
    assert Awaits(s, p, c) ==> WaitsAsParent(s, p);
    if LiveChild(s, d) {
      WaitLeaves(s, d);
      assert s.current !in s.queue;
      DescheduleIs(Waiting(s, d));
      SwitchWaits(SetState(Waiting(s, d), s.current, Blocked), p, c);
    }
  }

  lemma ExitWaits(s: Sched, p: nat, c: nat)
    requires Safe(s) && s.current != IDLE
    ensures Gone(s, c) ==> Gone(DoExit(s), c)
    ensures Awaits(s, p, c) ==> Awaits(DoExit(s), p, c) || (s.current == c && Gone(DoExit(s), c))
  {
    ExitLeaves(s);
    SwitchWaits(Exiting(s), p, c);
    var q := s.procs[s.current].parent;
    if q in s.procs && s.procs[q].waitingOn == s.current {
      assert AwaitsLive(s, q) && WaitsAsParent(s, q);
    }
    assert Awaits(s, p, c) ==> WaitsAsParent(s, p);
  }

  // Whatever happens after a process has begun to wait for a live child: it is current again
  // only when the child is gone.
  lemma {:induction false} RunWaits(s: Sched, steps: seq<Step>, s': Sched, p: nat, c: nat)
    requires Safe(s) && Reaches(s, steps, s') && (Gone(s, c) || Awaits(s, p, c))
    ensures Safe(s') && (Gone(s', c) || Awaits(s', p, c))
    decreases |steps|
  {
    hide Safe, Apply, Enabled, Gone, Awaits;
    SafeKnown(s);
    if steps != [] {
      OneStep(s, steps, s');
      StepWaits(s, steps[0], p, c);
      RunWaits(Apply(s, steps[0]), steps[1..], s', p, c);
    }
  }

  lemma WaitsUntilGone(s: Sched, c: nat, steps: seq<Step>, s': Sched)
    requires Safe(s) && s.current != IDLE && LiveChild(s, c)
    requires Safe(Apply(s, WaitFor(c))) && Reaches(Apply(s, WaitFor(c)), steps, s')
    ensures s'.current == s.current ==> Gone(s', c)
    ensures s.current in s'.queue ==> Gone(s', c)
  {
    var r := Apply(s, WaitFor(c));
    WaitLaw(s, c);
    assert Awaits(r, s.current, c);
    RunWaits(r, steps, s', s.current, c);
    hide Reaches, Apply;
    if Awaits(s', s.current, c) {
      assert WaitsAsParent(s', s.current);
    }
  }

  // A process forks, waits for the child, and the child, which runs at once, exits after any
  // run: the parent then runs next, and its wait is over.
  lemma ForkWaitExit(s: Sched, steps: seq<Step>, t: Sched)
    requires Safe(s) && s.current != IDLE && s.nextPid + 1 < WAITING_ALL
    ensures var c := s.nextPid; var a := Apply(s, Fork);
      && a.current == s.current && LiveChild(a, c) && Safe(a) && Known(Apply(a, WaitFor(c)))
      && Apply(a, WaitFor(c)).current == c
      && (Reaches(Apply(a, WaitFor(c)), steps, t) && t.current == c ==>
            && Enabled(t, Exit) && Known(t)
            && Apply(t, Exit).current == s.current && Gone(Apply(t, Exit), c))
  {
    var c := s.nextPid;
    var a := Apply(s, Fork);
    ForkLaw(s);
    ForkKeeps(s);
    assert LiveChild(a, c);
    WaitLaw(a, c);
    WaitKeeps(a, c);
    var b := Apply(a, WaitFor(c));
    if Reaches(b, steps, t) && t.current == c {
      assert Awaits(b, s.current, c);
      RunWaits(b, steps, t, s.current, c);
      ChildExits(t, s.current, c);
    }
    hide Apply, Reaches, Safe;
    SafeKnown(b);
  }

  lemma ChildExits(t: Sched, p: nat, c: nat)
    requires Safe(t) && t.current == c && c != IDLE && (Gone(t, c) || Awaits(t, p, c))
    ensures Known(t) && Apply(t, Exit).current == p && Gone(Apply(t, Exit), c)
  {
    assert WaitsAsParent(t, p);
    ExitLaw(t);
  }
}
