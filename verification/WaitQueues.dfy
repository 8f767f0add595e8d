// The scheduler together with everything that blocks and wakes processes: one mutex, the
// keyboard pipe and the sleep queue. SchedulerSpec takes it for granted that only a blocked,
// registered process is woken; here that is proved of the queues that do the waking.
module WaitQueues {
  import opened ListSpec
  import opened PriorityQueue
  import opened SchedulerLaws
  import opened SchedulerSpec
  import K = KeyboardRing
  import M = Mutex
  import T = SleepTimer

  datatype System = System(sched: Sched, lock: M.Lock, ring: K.Ring, timer: T.Timer)

  // System calls of the running process, except for the interrupts Tick, Key and Alarm.
  datatype Event =
    | Tick
    | Fork
    | WaitFor(pid: nat)
    | Exit
    | Acquire
    | Unlock
    | Read(count: nat)
    | NanoSleep(ns: nat, now: nat)
    | Key(c: bv8)
    | Alarm(node: Node)

  predicate CanHappen(y: System, ev: Event) {
    match ev
    case Tick => true
    case Key(_) => true
    case Alarm(_) => y.timer.alarm.At?
    case Fork => y.sched.current != IDLE && y.sched.nextPid + 1 < WAITING_ALL
    case Acquire => y.sched.current != IDLE && !M.PhaseOf(y.lock, y.sched.current).Holding?
    case Unlock => M.PhaseOf(y.lock, y.sched.current).Holding?
    case _ => y.sched.current != IDLE
  }

  // What each event asks of the scheduler, in order.
  function Steps(y: System, ev: Event): (steps: seq<Step>) {
    match ev
    case Tick => [SchedulerSpec.Step.Tick]
    case Fork => [SchedulerSpec.Step.Fork]
    case WaitFor(c) => [SchedulerSpec.Step.WaitFor(c)]
    case Exit => [SchedulerSpec.Step.Exit]
    case Acquire => if y.lock.owner == M.UNLOCKED then [] else [Sleep(true)]
    case Unlock => (if y.lock.waiters == [] then [] else [Wake(y.lock.waiters[0])]) + [SchedulerSpec.Step.Tick]
    case Read(_) => if y.ring.head == y.ring.tail then [Sleep(y.ring.readers == [])] else []
    case NanoSleep(_, _) => [Sleep(|y.timer.pending| < T.MAX_PROCESSES)]
    case Key(_) => if Full(y.ring) then [] else Wakes(y.ring.readers)
    case Alarm(n) => [Wake(n.element)]
  }

  predicate Full(r: K.Ring) {
    r.head < K.WORD && r.tail < K.WORD && K.Minus(r.head, r.tail) >= K.RING
  }

  function Wakes(ps: seq<nat>): (steps: seq<Step>) {
    if ps == [] then [] else [Wake(ps[0])] + Wakes(ps[1..])
  }

  // What it does to the queues. The alarm set after a timer event is whatever the heap gives.
  ghost predicate Queues(y: System, ev: Event, z: System)
    requires K.Shaped(y.ring)
  {
    var p := y.sched.current;
    match ev
    case Acquire => z.lock == M.DoAttempt(y.lock, p) && z.ring == y.ring && z.timer == y.timer
    case Unlock => z.lock == M.DoRelease(y.lock, p) && z.ring == y.ring && z.timer == y.timer
    case Read(k) => z.ring == K.Read(y.ring, p, k).ring && z.lock == y.lock && z.timer == y.timer
    case Key(c) => z.ring == K.KeyEvent(y.ring, c) && z.lock == y.lock && z.timer == y.timer
    case NanoSleep(ns, now) =>
      T.Asked(y.timer, Node(T.Deadline(ns, now), p), z.timer) && z.lock == y.lock && z.ring == y.ring
    case Alarm(n) => T.Fired(y.timer, n, z.timer) && z.lock == y.lock && z.ring == y.ring
    case _ => z.lock == y.lock && z.ring == y.ring && z.timer == y.timer
  }

  // ---- the invariant ----

  function Elements(s: seq<nat>): (e: set<nat>) {
    set x | x in s
  }

  ghost function Sleepers(p: multiset<Node>): (e: set<nat>) {
    set n | n in p :: n.element
  }

  // The processes a wake-up is owed are exactly those on the queues, each on one of them.
  ghost predicate Exact(y: System) {
    var a, b, c := Elements(y.lock.waiters), Elements(y.ring.readers), Sleepers(y.timer.pending);
    y.sched.waiters == a + b + c && a !! b && a !! c && b !! c
  }

  ghost predicate QueuesOk(y: System) {
    && M.LockOk(y.lock) && K.Shaped(y.ring) && |y.ring.readers| <= 1
    && T.AlarmOk(y.timer) && T.Distinct(y.timer.pending)
  }

  ghost predicate SystemOk(y: System) {
    Safe(y.sched) && QueuesOk(y) && Exact(y)
  }

  // ---- runs of the scheduler ----

  lemma StepWaiters(s: Sched, step: Step)
    requires Safe(s) && SchedulerSpec.Enabled(s, step) && (step.Fork? ==> s.nextPid + 1 < WAITING_ALL)
    ensures Known(s) && (step.Wake? ==> step.pid in s.procs) && Safe(Apply(s, step))
    ensures Apply(s, step).waiters ==
      match step
      case Sleep(registered) => if registered then s.waiters + {s.current} else s.waiters
      case Wake(p) => s.waiters - {p}
      case _ => s.waiters
  {
    hide QueueOk, WaitersOk, WaitOk, NoDup, Without;
    StepKeeps(s, step);
  }

  lemma NotWaiting(s: Sched)
    requires Safe(s)
    ensures s.current !in s.waiters
  {
  }

  lemma Single(s: Sched, step: Step)
    requires Safe(s) && SchedulerSpec.Enabled(s, step) && (step.Fork? ==> s.nextPid + 1 < WAITING_ALL)
    ensures Known(s) && (step.Wake? ==> step.pid in s.procs) && Safe(Apply(s, step))
    ensures Reaches(s, [step], Apply(s, step))
  {
    StepKeeps(s, step);
    assert [step][1..] == [];
  }

  // ---- every wake-up is owed ----

  // Nothing the queues do asks the scheduler for a step it does not allow.
  lemma StepsAllowed(y: System, ev: Event) returns (s: Sched)
    requires SystemOk(y) && CanHappen(y, ev) && (ev.Alarm? ==> exists t: T.Timer :: T.Fired(y.timer, ev.node, t))
    ensures Reaches(y.sched, Steps(y, ev), s)
    ensures Safe(s)
    ensures s.waiters ==
      match ev
      case Acquire => if y.lock.owner == M.UNLOCKED then y.sched.waiters else y.sched.waiters + {y.sched.current}
      case Unlock => if y.lock.waiters == [] then y.sched.waiters else y.sched.waiters - {y.lock.waiters[0]}
      case Read(_) =>
        if y.ring.head == y.ring.tail && y.ring.readers == [] then y.sched.waiters + {y.sched.current}
        else y.sched.waiters
      case NanoSleep(_, _) =>
        if |y.timer.pending| < T.MAX_PROCESSES then y.sched.waiters + {y.sched.current} else y.sched.waiters
      case Key(_) => if Full(y.ring) then y.sched.waiters else y.sched.waiters - Elements(y.ring.readers)
      case Alarm(n) => y.sched.waiters - {n.element}
      case _ => y.sched.waiters
  {
    hide Safe, M.LockOk, T.AlarmOk, T.Distinct, Apply;
    match ev
    case Unlock => s := UnlockSteps(y);
    case Key(_) => s := KeySteps(y, ev);
    case Alarm(n) => s := AlarmStep(y, n);
    case _ => s := CallSteps(y, ev);
  }

  lemma CallSteps(y: System, ev: Event) returns (s: Sched)
    requires SystemOk(y) && CanHappen(y, ev) && !ev.Unlock? && !ev.Key? && !ev.Alarm?
    ensures Reaches(y.sched, Steps(y, ev), s) && Safe(s)
    ensures s.waiters == if Steps(y, ev) == [Sleep(true)] then y.sched.waiters + {y.sched.current} else y.sched.waiters
  {
    hide Safe, QueuesOk, Exact, Apply;
    var steps := Steps(y, ev);
    if steps == [] {
      s := y.sched;
    } else {
      assert |steps| == 1 && steps == [steps[0]];
      Single(y.sched, steps[0]);
      StepWaiters(y.sched, steps[0]);
      s := Apply(y.sched, steps[0]);
    }
  }

  lemma UnlockSteps(y: System) returns (s: Sched)
    requires SystemOk(y) && CanHappen(y, Unlock)
    ensures Reaches(y.sched, Steps(y, Unlock), s) && Safe(s)
    ensures s.waiters == if y.lock.waiters == [] then y.sched.waiters else y.sched.waiters - {y.lock.waiters[0]}
  {
    hide Safe, QueuesOk, Apply;
    var tick := SchedulerSpec.Step.Tick;
    if y.lock.waiters == [] {
      Single(y.sched, tick);
      StepWaiters(y.sched, tick);
      s := Apply(y.sched, tick);
      assert [] + [tick] == [tick];
    } else {
      var w := Wake(y.lock.waiters[0]);
      assert y.lock.waiters[0] in Elements(y.lock.waiters);
      StepWaiters(y.sched, w);
      var m := Apply(y.sched, w);
      Single(m, tick);
      StepWaiters(m, tick);
      s := Apply(m, tick);
      assert ([w] + [tick])[1..] == [tick];
    }
  }

  lemma KeySteps(y: System, ev: Event) returns (s: Sched)
    requires SystemOk(y) && ev.Key?
    ensures Reaches(y.sched, Steps(y, ev), s) && Safe(s)
    ensures s.waiters == if Full(y.ring) then y.sched.waiters else y.sched.waiters - Elements(y.ring.readers)
  {
    hide Safe, M.LockOk, T.AlarmOk, T.Distinct, Apply, K.Minus;
    if Full(y.ring) || y.ring.readers == [] {
      s := y.sched;
      assert Elements([]) == {};
    } else {
      var r := y.ring.readers[0];
      assert y.ring.readers == [r] && Elements(y.ring.readers) == {r};
      Single(y.sched, Wake(r));
      StepWaiters(y.sched, Wake(r));
      s := Apply(y.sched, Wake(r));
      assert y.ring.readers[1..] == [];
      assert Wakes([r]) == [Wake(r)];
    }
  }

  lemma FiredSleeps(y: System, n: Node)
    requires QueuesOk(y) && y.timer.alarm.At? && exists t: T.Timer :: T.Fired(y.timer, n, t)
    ensures n in y.timer.pending && n.element in Sleepers(y.timer.pending)
  {
    hide M.LockOk, T.Distinct;
    var t: T.Timer :| T.Fired(y.timer, n, t);
    hide T.Fired, Least;
    assert n in y.timer.pending;
  }

  lemma AlarmStep(y: System, n: Node) returns (s: Sched)
    requires SystemOk(y) && CanHappen(y, Alarm(n)) && exists t: T.Timer :: T.Fired(y.timer, n, t)
    ensures Reaches(y.sched, Steps(y, Alarm(n)), s) && Safe(s) && s.waiters == y.sched.waiters - {n.element}
  {
    hide Safe, QueuesOk, Apply, T.Fired, Sleepers;
    FiredSleeps(y, n);
    Single(y.sched, Wake(n.element));
    StepWaiters(y.sched, Wake(n.element));
    s := Apply(y.sched, Wake(n.element));
  }

  // ---- the queues after an event ----

  // A process that runs is on no queue.
  lemma RunnerOnNoQueue(y: System)
    requires SystemOk(y)
    ensures y.sched.current !in y.lock.waiters && y.sched.current !in y.ring.readers
    ensures forall n :: n in y.timer.pending ==> n.element != y.sched.current
  {
    NotWaiting(y.sched);
    var p := y.sched.current;
    hide Safe, QueuesOk;
    assert p !in Elements(y.lock.waiters) && p !in Elements(y.ring.readers) && p !in Sleepers(y.timer.pending);
  }

  // So the guards of the three machines hold of whoever calls them.
  lemma GuardsHold(y: System, ev: Event)
    requires SystemOk(y) && CanHappen(y, ev)
    ensures ev.Acquire? ==> M.Enabled(y.lock, M.Attempt(y.sched.current))
    ensures ev.Unlock? ==> M.Enabled(y.lock, M.Release(y.sched.current))
    ensures ev.NanoSleep? ==> T.Enabled(y.timer, T.Sleep(Node(T.Deadline(ev.ns, ev.now), y.sched.current)))
    ensures ev.Alarm? ==> T.Enabled(y.timer, T.Fire(ev.node))
  {
    RunnerOnNoQueue(y);
    hide Safe, Exact, T.AlarmOk, T.Distinct;
  }

  lemma QueuesKeep(y: System, ev: Event, z: System)
    requires SystemOk(y) && CanHappen(y, ev) && Queues(y, ev, z)
    ensures QueuesOk(z)
  {
    GuardsHold(y, ev);
    hide Safe, Exact, M.LockOk, T.AlarmOk, T.Distinct, T.Asked, T.Fired, M.DoAttempt, M.DoRelease, K.Minus;
    match ev
    case Acquire => M.AttemptKeeps(y.lock, y.sched.current);
    case Unlock => M.ReleaseKeeps(y.lock, y.sched.current);
    case NanoSleep(ns, now) => T.StepKeeps(y.timer, T.Sleep(Node(T.Deadline(ns, now), y.sched.current)), z.timer);
    case Alarm(n) => T.StepKeeps(y.timer, T.Fire(n), z.timer);
    case _ =>
  }

  lemma AcquireExact(y: System, z: System, s: Sched)
    requires SystemOk(y) && CanHappen(y, Acquire) && Queues(y, Acquire, z) && z.sched == s
    requires s.waiters == if y.lock.owner == M.UNLOCKED then y.sched.waiters else y.sched.waiters + {y.sched.current}
    ensures Exact(z)
  {
    RunnerOnNoQueue(y);
    hide Safe, QueuesOk;
    var p := y.sched.current;
    assert p !in Elements(y.ring.readers) && p !in Sleepers(y.timer.pending);
    assert Elements([p] + y.lock.waiters) == Elements(y.lock.waiters) + {p};
  }

  lemma UnlockExact(y: System, z: System, s: Sched)
    requires SystemOk(y) && CanHappen(y, Unlock) && Queues(y, Unlock, z) && z.sched == s
    requires s.waiters == if y.lock.waiters == [] then y.sched.waiters else y.sched.waiters - {y.lock.waiters[0]}
    ensures Exact(z)
  {
    if y.lock.waiters != [] {
      var q := y.lock.waiters[0];
      WithoutMembers(y.lock.waiters, q);
      assert q in Elements(y.lock.waiters);
      hide Safe, QueuesOk, Sleepers;
      assert Elements(z.lock.waiters) == Elements(y.lock.waiters) - {q};
    }
  }

  lemma ReadExact(y: System, count: nat, z: System, s: Sched)
    requires SystemOk(y) && CanHappen(y, Read(count)) && Queues(y, Read(count), z) && z.sched == s
    requires s.waiters ==
      if y.ring.head == y.ring.tail && y.ring.readers == [] then y.sched.waiters + {y.sched.current}
        else y.sched.waiters
    ensures Exact(z)
  {
    RunnerOnNoQueue(y);
    hide Safe, M.LockOk, T.AlarmOk, T.Distinct, K.Minus;
    var p := y.sched.current;
    assert p !in Elements(y.lock.waiters) && p !in Sleepers(y.timer.pending);
    assert Elements([p]) == {p} && Elements([]) == {};
  }

  lemma KeyExact(y: System, c: bv8, z: System, s: Sched)
    requires SystemOk(y) && Queues(y, Key(c), z) && z.sched == s
    requires s.waiters == if Full(y.ring) then y.sched.waiters else y.sched.waiters - Elements(y.ring.readers)
    ensures Exact(z)
  {
    hide Safe, M.LockOk, T.AlarmOk, T.Distinct, K.Minus;
    assert Elements([]) == {};
  }

  lemma NanoSleepExact(y: System, ns: nat, now: nat, z: System, s: Sched)
    requires SystemOk(y) && CanHappen(y, NanoSleep(ns, now)) && Queues(y, NanoSleep(ns, now), z) && z.sched == s
    requires s.waiters ==
      if |y.timer.pending| < T.MAX_PROCESSES then y.sched.waiters + {y.sched.current} else y.sched.waiters
    ensures Exact(z)
  {
    hide Safe, QueuesOk, Least, T.Deadline;
    RunnerOnNoQueue(y);
    var p := y.sched.current;
    assert p !in Elements(y.lock.waiters) && p !in Elements(y.ring.readers);
    OneMoreSleeper(y.timer.pending, Node(T.Deadline(ns, now), p));
  }

  lemma OneMoreSleeper(p: multiset<Node>, n: Node)
    ensures Sleepers(p + multiset{n}) == Sleepers(p) + {n.element}
  {
    forall x
      ensures x in Sleepers(p + multiset{n}) <==> x in Sleepers(p) || x == n.element
    {
      if x == n.element {
        assert n in p + multiset{n};
      } else if x in Sleepers(p) {
        var k :| k in p && k.element == x;
        assert k in p + multiset{n};
      }
    }
  }

  lemma OneLessSleeper(p: multiset<Node>, n: Node)
    requires T.Distinct(p) && n in p
    ensures Sleepers(p - multiset{n}) == Sleepers(p) - {n.element}
  {
    forall x
      ensures x in Sleepers(p - multiset{n}) <==> x in Sleepers(p) && x != n.element
    {
      if x in Sleepers(p) && x != n.element {
        var k :| k in p && k.element == x;
        assert k in p - multiset{n};
      }
    }
  }

  lemma FiredLeaves(x: T.Timer, n: Node, r: T.Timer)
    requires T.AlarmOk(x) && T.Distinct(x.pending) && x.alarm.At? && T.Fired(x, n, r)
    ensures n.element in Sleepers(x.pending) && Sleepers(r.pending) == Sleepers(x.pending) - {n.element}
  {
    assert n in x.pending;
    OneLessSleeper(x.pending, n);
  }

  lemma AlarmExact(y: System, n: Node, z: System, s: Sched)
    requires SystemOk(y) && CanHappen(y, Alarm(n)) && Queues(y, Alarm(n), z) && z.sched == s
    requires s.waiters == y.sched.waiters - {n.element}
    ensures Exact(z)
  {
    hide Safe, M.LockOk, T.AlarmOk, T.Distinct, K.Shaped, K.Minus, Elements, Sleepers, T.Fired;
    FiredLeaves(y.timer, n, z.timer);
  }

  // ---- whole runs ----

  ghost predicate Next(y: System, ev: Event, z: System)
    requires SystemOk(y)
  {
    CanHappen(y, ev) && Queues(y, ev, z) && Reaches(y.sched, Steps(y, ev), z.sched)
  }

  lemma {:induction false} SameEnd(s: Sched, steps: seq<Step>, a: Sched, b: Sched)
    requires Safe(s) && Reaches(s, steps, a) && Reaches(s, steps, b)
    ensures a == b
    decreases |steps|
  {
    hide Safe, Apply, SchedulerSpec.Enabled;
    if steps != [] {
      StepWaiters(s, steps[0]);
      SameEnd(Apply(s, steps[0]), steps[1..], a, b);
    }
  }

  lemma NextKeeps(y: System, ev: Event, z: System)
    requires SystemOk(y) && Next(y, ev, z)
    ensures SystemOk(z)
  {
    hide Safe, QueuesOk, Exact, T.Asked, T.Fired, M.DoAttempt, M.DoRelease, Reaches;
    var s := StepsAllowed(y, ev);
    EndIs(y, ev, z, s);
    QueuesKeep(y, ev, z);
    match ev
    case Acquire => AcquireExact(y, z, s);
    case Unlock => UnlockExact(y, z, s);
    case Read(k) => ReadExact(y, k, z, s);
    case Key(c) => KeyExact(y, c, z, s);
    case NanoSleep(ns, now) => NanoSleepExact(y, ns, now, z, s);
    case Alarm(n) => AlarmExact(y, n, z, s);
    case _ => SameExact(y, z);
  }

  lemma EndIs(y: System, ev: Event, z: System, s: Sched)
    requires SystemOk(y) && Next(y, ev, z) && Reaches(y.sched, Steps(y, ev), s)
    ensures z.sched == s
  {
    SameEnd(y.sched, Steps(y, ev), s, z.sched);
  }

  lemma SameExact(y: System, z: System)
    requires Exact(y) && z.sched.waiters == y.sched.waiters
    requires z.lock == y.lock && z.ring == y.ring && z.timer == y.timer
    ensures Exact(z)
  {
  }

  ghost predicate Runs(y: System, evs: seq<Event>, z: System)
    requires SystemOk(y)
    decreases |evs|
  {
    if evs == [] then z == y
    else exists m :: Next(y, evs[0], m) && (NextKeeps(y, evs[0], m); Runs(m, evs[1..], z))
  }

  lemma {:induction false} RunsOk(y: System, evs: seq<Event>, z: System) returns (steps: seq<Step>)
    requires SystemOk(y) && Runs(y, evs, z)
    ensures SystemOk(z) && Reaches(y.sched, steps, z.sched)
    decreases |evs|
  {
    hide SystemOk, Next, Reaches;
    if evs == [] {
      steps := [];
      ReachesNone(y);
    } else {
      var m :| Next(y, evs[0], m) && (NextKeeps(y, evs[0], m); Runs(m, evs[1..], z));
      NextKeeps(y, evs[0], m);
      var rest := RunsOk(m, evs[1..], z);
      steps := Steps(y, evs[0]) + rest;
      NextReaches(y, evs[0], m, rest, z.sched);
    }
  }

  lemma ReachesNone(y: System)
    requires SystemOk(y)
    ensures Safe(y.sched) && Reaches(y.sched, [], y.sched)
  {
  }

  lemma NextReaches(y: System, ev: Event, m: System, rest: seq<Step>, s: Sched)
    requires SystemOk(y) && SystemOk(m) && Next(y, ev, m) && Reaches(m.sched, rest, s)
    ensures Safe(y.sched) && Reaches(y.sched, Steps(y, ev) + rest, s)
  {
    ReachesThen(y.sched, Steps(y, ev), m.sched, rest, s);
  }

  lemma {:induction false} ReachesThen(s: Sched, a: seq<Step>, m: Sched, b: seq<Step>, t: Sched)
    requires Safe(s) && Safe(m) && Reaches(s, a, m) && Reaches(m, b, t)
    ensures Reaches(s, a + b, t)
    decreases |a|
  {
    hide Safe, Apply, SchedulerSpec.Enabled;
    if a == [] {
      assert a + b == b;
    } else {
      StepWaiters(s, a[0]);
      ReachesThen(Apply(s, a[0]), a[1..], m, b, t);
      assert (a + b)[1..] == a[1..] + b;
    }
  }

  // At boot nobody waits, and the memory of idle's block was clean.
  function BootSystem(ring: K.Ring, idleWaits: nat): (y: System)
    requires K.Shaped(ring) && ring.readers == [] && CleanBlock(0, idleWaits)
    ensures SystemOk(y)
  {
    BootOk(ring, idleWaits);
    System(Booted(0, idleWaits), M.Lock(M.UNLOCKED, [], map[]), ring, T.Timer(multiset{}, T.Off))
  }

  lemma BootOk(ring: K.Ring, idleWaits: nat)
    requires K.Shaped(ring) && ring.readers == [] && CleanBlock(0, idleWaits)
    ensures SystemOk(System(Booted(0, idleWaits), M.Lock(M.UNLOCKED, [], map[]), ring, T.Timer(multiset{}, T.Off)))
  {
    hide Safe;
    var l := M.Lock(M.UNLOCKED, [], map[]);
    assert forall p: nat :: M.PhaseOf(l, p) == M.Outside;
    BootSafe(0, idleWaits);
  }

  // Over every run from boot the scheduler makes a run of its own, in which every process woken
  // is blocked and registered; and the registered processes are exactly those on the wait list
  // of the mutex, the reader list of the pipe or the sleep queue, each on exactly one of them.
  lemma WaitersAreTheQueues(ring: K.Ring, idleWaits: nat, evs: seq<Event>, y: System) returns (steps: seq<Step>)
    requires K.Shaped(ring) && ring.readers == [] && CleanBlock(0, idleWaits)
    requires Runs(BootSystem(ring, idleWaits), evs, y)
    ensures Reaches(Booted(0, idleWaits), steps, y.sched)
    ensures Exact(y) && Safe(y.sched)
    ensures forall p :: p in y.sched.waiters ==> p in y.sched.procs && y.sched.procs[p].state == Blocked
  {
    steps := RunsOk(BootSystem(ring, idleWaits), evs, y);
    hide QueuesOk, Exact, Reaches;
  }

  // ---- who is left blocked for ever ----

  // The calls that block a process and leave it on no queue: reading an empty pipe that has a
  // reader already, and sleeping when the sleep queue is full.
  predicate Forgets(y: System, ev: Event) {
    match ev
    case Read(_) => y.ring.head == y.ring.tail && y.ring.readers != []
    case NanoSleep(_, _) => |y.timer.pending| >= T.MAX_PROCESSES
    case _ => false
  }

  lemma StepsForget(y: System, ev: Event)
    requires SystemOk(y) && CanHappen(y, ev)
    ensures Known(y.sched)
    ensures Unregistered(y.sched, Steps(y, ev)) == if Forgets(y, ev) then {y.sched.current} else {}
  {
    SafeKnown(y.sched);
    hide Safe, Exact, M.LockOk, T.AlarmOk, T.Distinct, K.Shaped, K.Minus;
    var steps := Steps(y, ev);
    if ev.Key? && y.ring.readers != [] {
      assert y.ring.readers[1..] == [];
      assert Wakes(y.ring.readers) == [Wake(y.ring.readers[0])] + [];
    }
    if steps != [] && Enabled(y.sched, steps[0]) {
      assert steps[1..] == [] || steps[1..] == [SchedulerSpec.Step.Tick];
      StepKnown(y.sched, steps[0]);
      NoneForget(Apply(y.sched, steps[0]), steps[1..]);
    }
  }

  lemma NoneForget(s: Sched, steps: seq<Step>)
    requires Known(s) && (steps == [] || steps == [SchedulerSpec.Step.Tick])
    ensures Unregistered(s, steps) == {}
  {
    hide Apply;
    if steps != [] {
      StepKnown(s, steps[0]);
      assert steps[1..] == [];
    }
  }

  lemma NextForgets(y: System, ev: Event, z: System)
    requires SystemOk(y) && Next(y, ev, z)
    ensures Forgotten(z.sched) == Forgotten(y.sched) + (if Forgets(y, ev) then {y.sched.current} else {})
  {
    hide Safe, QueuesOk, Exact, Queues, Forgotten, Forgets, Unregistered, Steps;
    StepsForget(y, ev);
    RunForgets(y.sched, Steps(y, ev), z.sched);
  }

  lemma {:induction false} ForgottenOnce(y: System, evs: seq<Event>, z: System, p: nat) returns (k: nat, a: System)
    requires SystemOk(y) && Runs(y, evs, z) && p in Forgotten(z.sched) && p !in Forgotten(y.sched)
    ensures k < |evs| && SystemOk(a) && Runs(y, evs[..k], a) && Forgets(a, evs[k]) && a.sched.current == p
    decreases |evs|
  {
    hide SystemOk, Next, Forgotten, Forgets;
    var m :| Next(y, evs[0], m) && (NextKeeps(y, evs[0], m); Runs(m, evs[1..], z));
    NextKeeps(y, evs[0], m);
    NextForgets(y, evs[0], m);
    if p in Forgotten(m.sched) {
      k, a := 0, y;
      assert evs[..0] == [];
    } else {
      k, a := ForgottenOnce(m, evs[1..], z, p);
      k := k + 1;
      assert evs[..k][1..] == evs[1..][..k - 1] && evs[..k][0] == evs[0];
    }
  }

  // Over every run from boot, whoever is blocked is on the wait list of the mutex, the reader
  // list of the pipe or the sleep queue, or awaits a live child, or made one of the two calls
  // that forget the caller.
  lemma BlockedAreHeld(ring: K.Ring, idleWaits: nat, evs: seq<Event>, y: System, p: nat) returns (k: nat, a: System)
    requires K.Shaped(ring) && ring.readers == [] && CleanBlock(0, idleWaits)
    requires Runs(BootSystem(ring, idleWaits), evs, y)
    requires p in y.sched.procs && y.sched.procs[p].state == Blocked
    ensures p in y.lock.waiters || p in y.ring.readers || p in Sleepers(y.timer.pending) || AwaitsLive(y.sched, p)
      || (k < |evs| && Runs(BootSystem(ring, idleWaits), evs[..k], a) && Forgets(a, evs[k]) && a.sched.current == p)
  {
    var b := BootSystem(ring, idleWaits);
    var steps := RunsOk(b, evs, y);
    assert Forgotten(b.sched) == {};
    WaitersAwaitNobody(y.sched);
    assert p in y.sched.waiters ==>
      p in Elements(y.lock.waiters) || p in Elements(y.ring.readers) || p in Sleepers(y.timer.pending);
    k, a := 0, b;
    if p in Forgotten(y.sched) {
      k, a := ForgottenOnce(b, evs, y, p);
    }
  }
}
