// The scheduler on its intrusive lists: a process control block is a node of the run queue, of
// the list of all processes and of its parent's list of children, and heads a list of its own
// children. A process that is on no run queue is linked there only to itself.
module Scheduler {
  import opened ListSpec
  import opened IntrusiveList
  import opened SchedulerSpec

  const RUNQUEUE := 0

  predicate IsChild(procs: map<nat, Proc>, p: nat, c: nat) {
    p != IDLE && c in procs && c != IDLE && procs[c].parent == p
  }

  // Every list of children holds the children, and the list of all holds all, except idle.
  ghost predicate Enlisted(procs: map<nat, Proc>, kin: Lists, all: seq<nat>) {
    && (forall p, c: nat :: 0 <= p < |kin| ==> (c in kin[p] <==> IsChild(procs, p, c)))
    && (forall p: nat :: p in all <==> p in procs && p != IDLE)
  }

  ghost predicate SameFamily(procs: map<nat, Proc>, procs': map<nat, Proc>) {
    procs'.Keys == procs.Keys && forall p :: p in procs ==> procs'[p].parent == procs[p].parent
  }

  lemma StillEnlisted(procs: map<nat, Proc>, procs': map<nat, Proc>, kin: Lists, all: seq<nat>)
    requires Enlisted(procs, kin, all) && SameFamily(procs, procs')
    ensures Enlisted(procs', kin, all)
  {
    forall p: nat, c: nat | p < |kin|
      ensures c in kin[p] <==> IsChild(procs', p, c)
    {
      assert IsChild(procs', p, c) <==> IsChild(procs, p, c);
    }
  }

  // Only a fork makes a process or gives it a parent.
  lemma StepFamily(s: Sched, step: Step)
    requires Known(s) && Enabled(s, step) && !step.Fork?
    ensures SameFamily(s.procs, Apply(s, step).procs)
  {
    hide Without;
    match step
    case Tick => ScheduleFamily(s);
    case Sleep(b) => DescheduleFamily(if b then s.(waiters := s.waiters + {s.current}) else s);
    case Wake(p) =>
    case WaitFor(c) => if c in s.procs { DescheduleFamily(Waiting(s, c)); }
    case Exit => ScheduleFamily(Exiting(s));
  }

  lemma ScheduleFamily(s: Sched)
    requires Known(s)
    ensures SameFamily(s.procs, SchedulerSpec.Schedule(s).procs)
  {
    hide Without;
  }

  lemma DescheduleFamily(s: Sched)
    requires Known(s)
    ensures SameFamily(s.procs, SchedulerSpec.Deschedule(s).procs)
  {
    hide SchedulerSpec.Schedule, Without;
    if s.procs[s.current].state == Running {
      WithoutElements(s.queue, s.current);
      ScheduleFamily(SchedulerSpec.SetState(s, s.current, Blocked).(queue := Without(s.queue, s.current)));
    } else {
      ScheduleFamily(s);
    }
  }

  // The child's entries, at the front of both lists.
  lemma ForkEnlists(procs: map<nat, Proc>, kin: Lists, all: seq<nat>, child: nat, q: Proc)
    requires Enlisted(procs, kin, all) && child !in procs && child != IDLE && q.parent < |kin| && q.parent != IDLE
    ensures Enlisted(procs[child := q], Push(kin, q.parent, child), [child] + all)
  {
  }

  lemma BootEnlists(idleWaits: nat, kin: Lists)
    requires forall p :: 0 <= p < |kin| ==> kin[p] == []
    ensures Enlisted(Booted(0, idleWaits).procs, kin, [FIRST])
  {
  }

  lemma NotListed(procs: map<nat, Proc>, kin: Lists, all: seq<nat>, p: nat)
    requires Enlisted(procs, kin, all) && p !in procs
    ensures !OnList(kin, p) && p !in all
  {
    assert forall q: nat :: !IsChild(procs, q, p);
  }

  lemma NoChildrenListed(s: Sched, kin: Lists, all: seq<nat>)
    requires Enlisted(s.procs, kin, all) && s.current < |kin| && s.current != IDLE
    ensures kin[s.current] == [] <==> NoChildren(s)
  {
    if kin[s.current] != [] {
      assert kin[s.current][0] in kin[s.current];
    } else {
      forall p | p in s.procs && p != IDLE
        ensures s.procs[p].parent != s.current
      {
        assert !IsChild(s.procs, s.current, p);
      }
    }
  }

  lemma NotWaiting(s: Sched, c: nat)
    requires Known(s)
    ensures s.current != IDLE && (NoChildren(s) || !IsChild(s.procs, s.current, c)) ==> DoWait(s, c) == s
  {
  }

  class ProcessTable {
    var procs: map<nat, Proc>
    var current: nat
    ghost var waiters: set<nat>
    var nextPid: nat
    const idlePid: nat
    // The run queue; the children of p on list p of kin; all processes on list 0 of all.
    const links: ListHeap
    const kin: ListHeap
    const all: ListHeap

    ghost function Model(): (s: Sched)
      reads this, links
      requires |links.lists| == 1
    {
      Sched(procs, links.lists[RUNQUEUE], current, waiters, nextPid, idlePid)
    }

    // Every control block has a list node, and it is loose unless the block is queued.
    ghost predicate Linked()
      reads this, links, links.next, links.prev
    {
      && links.Valid() && |links.lists| == 1
      && (forall p :: p in procs ==> p < links.nodes)
      && (forall p: nat :: p < links.nodes && p !in links.lists[RUNQUEUE] ==> links.Loose(p))
    }

    // No list_head_t is in two places.
    ghost predicate Apart() {
      && links != kin && links != all && kin != all
      && {links.next, links.prev} !! {kin.next, kin.prev} !! {all.next, all.prev}
    }

    // Idle's own list heads are never used.
    ghost predicate Families()
      reads this, kin, kin.next, kin.prev, all, all.next, all.prev
    {
      && kin.Valid() && |kin.lists| == kin.nodes == links.nodes
      && all.Valid() && |all.lists| == 1 && all.nodes == links.nodes
      && Enlisted(procs, kin.lists, all.lists[0])
    }

    ghost predicate Valid()
      reads this, links, links.next, links.prev, kin, kin.next, kin.prev, all, all.next, all.prev
    {
      Apart() && Linked() && Families() && Safe(Model())
    }

    // scheduler_init, add_shell_to_scheduler and start_scheduler; maxProcs bounds the control
    // blocks there is memory for, idlePid and idleWaits are what the memory of idle's block held.
    constructor (maxProcs: nat, idlePid: nat, idleWaits: nat)
      requires maxProcs > 2
      ensures Apart() && Linked() && Families() && Model() == Booted(idlePid, idleWaits)
      ensures Valid() <==> CleanBlock(idlePid, idleWaits)
      ensures links.nodes == maxProcs && fresh(links) && fresh(links.next) && fresh(links.prev)
      ensures fresh(kin) && fresh(kin.next) && fresh(kin.prev) && fresh(all) && fresh(all.next) && fresh(all.prev)
    {
      procs := map[IDLE := Proc(Ready, idleWaits, IDLE), FIRST := Proc(Ready, WAITING_NONE, IDLE)];
      current := FIRST;
      waiters := {};
      nextPid := 3;
      this.idlePid := idlePid;
      links := new ListHeap(maxProcs, 1);
      kin := new ListHeap(maxProcs, maxProcs);
      all := new ListHeap(maxProcs, 1);
      new;
      BootSafe(idlePid, idleWaits);
      StartFirst(idleWaits);
      BootEnlists(idleWaits, kin.lists);
    }

    method StartFirst(idleWaits: nat)
      requires Apart() && Linked() && links.lists[RUNQUEUE] == [] && links.nodes > FIRST
      requires all.Valid() && all.lists == [[]] && all.nodes == links.nodes && waiters == {} && current == FIRST
      requires procs == map[IDLE := Proc(Ready, idleWaits, IDLE), FIRST := Proc(Ready, WAITING_NONE, IDLE)]
      requires nextPid == 3
      modifies `procs, links, links.next, links.prev, all, all.next, all.prev
      ensures Linked() && Model() == Booted(idlePid, idleWaits) && all.Valid() && all.lists == [[FIRST]]
    {
      hide ListHeap.Valid;
      AddToSchedule(FIRST);
      SetState(FIRST, Running);
      Dequeue(FIRST);
      assert [FIRST] + [] == [FIRST];
    }

    // scheduler.c:195-201
    method AddToSchedule(p: nat)
      requires Apart() && Linked() && p in procs && p !in links.lists[RUNQUEUE]
      requires all.Valid() && |all.lists| == 1 && all.nodes == links.nodes && p !in all.lists[0]
      modifies `procs, links, links.next, links.prev, all, all.next, all.prev
      ensures Linked() && links.lists == [[p] + old(links.lists)[RUNQUEUE]]
      ensures all.Valid() && all.lists == [[p] + old(all.lists)[0]]
      ensures procs == old(procs)[p := old(procs)[p].(state := Ready)]
    {
      SetState(p, Ready);
      assert !OnList(all.lists, p);
      all.Add(p, 0);
      Enqueue(p);
    }

    method SetState(p: nat, st: RunState)
      requires p in procs
      modifies `procs
      ensures procs == old(procs)[p := old(procs)[p].(state := st)]
    {
      procs := procs[p := procs[p].(state := st)];
    }

    // list_add and list_remove on a control block's run-queue node.
    method Enqueue(p: nat)
      requires Linked() && p < links.nodes && p !in links.lists[RUNQUEUE]
      modifies links, links.next, links.prev
      ensures Linked() && links.lists == [[p] + old(links.lists)[RUNQUEUE]]
    {
      assert !OnList(links.lists, p);
      links.Add(p, RUNQUEUE);
      assert links.lists[RUNQUEUE] == [p] + old(links.lists)[RUNQUEUE];
    }

    method Dequeue(p: nat)
      requires Linked() && p < links.nodes
      modifies links, links.next, links.prev
      ensures Linked() && links.lists == [Without(old(links.lists)[RUNQUEUE], p)]
    {
      ghost var q := links.lists[RUNQUEUE];
      assert p in q ==> OnList(links.lists, p);
      links.Remove(p);
      assert links.lists[RUNQUEUE] == Without(q, p);
      forall x: nat | x < links.nodes && x !in links.lists[RUNQUEUE]
        ensures links.Loose(x)
      {
        DisjointNoDup(old(links.lists), links.nodes, RUNQUEUE);
        WithoutMembers(q, p);
        assert x == p || old(links.Loose(x));
      }
    }

    // scheduler.c:46-64 and 109-159; the switch itself is the change of current.
    method Schedule()
      requires Linked() && Leaving(Model())
      modifies `procs, `current, links, links.next, links.prev
      ensures Linked() && Model() == SchedulerSpec.Schedule(old(Model()))
    {
      var empty := links.Empty(RUNQUEUE);
      if empty {
        if procs[current].state == Running {
          return;
        }
        SetState(IDLE, Running);
        current := IDLE;
        return;
      }
      var p := links.First(RUNQUEUE);
      assert p in links.lists[RUNQUEUE];
      if p == current {
        return;
      }
      if p != IDLE {
        Dequeue(p);
      }
      if procs[current].state == Running {
        SetState(current, Ready);
        if current != IDLE {
          Enqueue(current);
        }
      }
      SetState(p, Running);
      current := p;
    }

    // scheduler.c:176-187: the node of the running process is loose, so removing it is harmless.
    method Deschedule()
      requires Linked() && Known(Model()) && Leaving(SchedulerSpec.SetState(Model(), current, Blocked))
      requires procs[current].state == Running || procs[current].state == Blocked
      modifies `procs, `current, links, links.next, links.prev
      ensures Linked() && Model() == SchedulerSpec.Deschedule(old(Model()))
    {
      GuardUnreachable(SchedulerSpec.SetState(Model(), current, Blocked));
      if procs[current].state == Running {
        SetState(current, Blocked);
        WithoutAbsent(links.lists[RUNQUEUE], current);
        Dequeue(current);
      } else {
        assert procs[current := procs[current].(state := Blocked)] == procs;
      }
      Schedule();
    }

    // scheduler.c:189-193
    method Reschedule(p: nat)
      requires Linked() && p in procs && p !in links.lists[RUNQUEUE]
      modifies `procs, links, links.next, links.prev
      ensures Linked() && Model() == SchedulerSpec.Reschedule(old(Model()), p)
    {
      SetState(p, Ready);
      Enqueue(p);
    }

    // sys_fork; the caller has memory for the new control block.
    method Fork() returns (child: nat)
      requires Valid() && current != IDLE && nextPid < links.nodes && nextPid + 1 < WAITING_ALL
      modifies this, links, links.next, links.prev, kin, kin.next, kin.prev, all, all.next, all.prev
      ensures Valid() && Model() == DoFork(old(Model())) && child == old(nextPid)
    {
      hide Safe, Enlisted, SameFamily;
      ghost var s := Model();
      ForkKeeps(s);
      FreshPid(s);
      child := nextPid;
      procs := procs[child := procs[current].(parent := current)];
      nextPid := nextPid + 1;
      NotListed(s.procs, kin.lists, all.lists[0], child);
      AddToSchedule(child);
      kin.Add(child, current);
      assert procs == s.procs[child := procs[child]];
      ForkEnlists(s.procs, old(kin.lists), old(all.lists)[0], child, procs[child]);
    }

    // What the methods use of Safe.
    lemma RunsNow(s: Sched)
      requires Safe(s)
      ensures Known(s) && s.procs[s.current].state == Running
    {
    }

    // sys_nanosleep and the blocking path of pipe_read and mutex_acquire.
    method Sleep(registered: bool)
      requires Valid() && current != IDLE
      modifies this, links, links.next, links.prev
      ensures Valid() && Model() == DoSleep(old(Model()), registered)
    {
      hide Enlisted, SameFamily, Safe, Leaving, SchedulerSpec.Schedule;
      ghost var s := Model();
      RunsNow(s);
      StepFamily(s, Step.Sleep(registered));
      SleepKeeps(s, registered);
      SleepLeaves(s, registered);
      if registered {
        waiters := waiters + {current};
      }
      Deschedule();
      StillEnlisted(s.procs, procs, kin.lists, all.lists[0]);
    }

    // default_wake_fn, handle_virtual_timer
    method Wake(p: nat)
      requires Valid() && p in waiters
      modifies this, links, links.next, links.prev
      ensures p in old(procs) && Valid() && Model() == DoWake(old(Model()), p)
    {
      hide Enlisted, SameFamily;
      ghost var s := Model();
      StepFamily(s, Step.Wake(p));
      WakeKeeps(s, p);
      waiters := waiters - {p};
      Reschedule(p);
      StillEnlisted(s.procs, procs, kin.lists, all.lists[0]);
    }

    // The walk of sys_waitid over the caller's children.
    method FindChild(c: nat) returns (found: bool)
      requires Families() && current in procs && current < links.nodes
      ensures found <==> IsChild(procs, current, c)
    {
      ghost var i, l := 0, kin.lists[current];
      var p := kin.Front(current);
      while p != kin.nodes + current
        invariant 0 <= i <= |l| && p == NodeAt(kin.lists, kin.nodes, current, i) && c !in l[..i]
        decreases |l| - i
      {
        if p == c {
          assert c in l;
          return true;
        }
        p := kin.After(p, current, i);
        i := i + 1;
      }
      assert l[..i] == l;
      return false;
    }

    // Its last part, once the child is found.
    method AwaitChild(c: nat)
      requires Linked() && Safe(Model()) && IsChild(procs, current, c)
      modifies `procs, `current, links, links.next, links.prev
      ensures Linked() && Model() == DoWait(old(Model()), c)
    {
      hide Safe, Leaving, SchedulerSpec.Schedule;
      RunsNow(Model());
      WaitLeaves(Model(), c);
      procs := procs[current := procs[current].(waitingOn := c)];
      if procs[c].state != Terminated {
        Deschedule();
      }
    }

    // sys_waitid (syscalls.c:339-367) up to its first return or block; echild is that it
    // returns the error.
    method WaitFor(c: nat) returns (echild: bool)
      requires Valid() && current != IDLE
      modifies this, links, links.next, links.prev
      ensures Valid() && Model() == DoWait(old(Model()), c)
      ensures echild <==> NoChildren(old(Model()))
      ensures echild ==> Model() == old(Model())
    {
      hide Enlisted, SameFamily, Safe, Leaving, NoChildren, DoWait;
      ghost var s := Model();
      RunsNow(s);
      StepFamily(s, Step.WaitFor(c));
      WaitKeeps(s, c);
      NoChildrenListed(s, kin.lists, all.lists[0]);
      NotWaiting(s, c);
      echild := kin.Empty(current);
      if echild {
        return;
      }
      var found := FindChild(c);
      if found {
        AwaitChild(c);
      }
      StillEnlisted(s.procs, procs, kin.lists, all.lists[0]);
    }

    // The part of reap before it calls the scheduler.
    method Leave()
      requires Linked() && Safe(Model()) && current != IDLE
      modifies `procs, links, links.next, links.prev
      ensures Linked() && Model() == Exiting(old(Model()))
    {
      ExitLeaves(Model());
      hide Safe, Leaving;
      var p := procs[current].parent;
      SetState(current, Terminated);
      if p in procs && (procs[p].waitingOn == current || procs[p].waitingOn == WAITING_ALL) {
        Reschedule(p);
      }
    }

    // scheduler.c:203-226 reap, without the address space
    method Exit()
      requires Valid() && current != IDLE
      modifies this, links, links.next, links.prev
      ensures Valid() && Model() == DoExit(old(Model()))
    {
      hide Enlisted, SameFamily, Safe, Leaving, SchedulerSpec.Schedule, Exiting;
      ghost var s := Model();
      RunsNow(s);
      StepFamily(s, Step.Exit);
      ExitKeeps(s);
      ExitLeaves(s);
      Leave();
      Schedule();
      StillEnlisted(s.procs, procs, kin.lists, all.lists[0]);
    }
  }
}
