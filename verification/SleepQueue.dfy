// pq.c: the binary heap of sleepers, least priority at the root.
module PriorityQueue {

  datatype Node = Node(priority: nat, element: nat)

  function Parent(i: nat): (p: nat)
    requires i > 0
  {
    (i - 1) / 2
  }

  predicate HeapOrdered(s: seq<Node>) {
    forall i: nat :: 0 < i < |s| ==> s[Parent(i)].priority <= s[i].priority
  }

  // Ordered but for slot k, which may be too small for its parent; its children are still
  // no smaller than its parent.
  predicate SwimOk(s: seq<Node>, k: nat) {
    && (forall i: nat :: 0 < i < |s| && i != k ==> s[Parent(i)].priority <= s[i].priority)
    && (forall i: nat :: 0 < i < |s| && Parent(i) == k && 0 < k < |s| ==> s[Parent(k)].priority <= s[i].priority)
  }

  // Ordered but for slot k, which may be too big for its children.
  predicate SinkOk(s: seq<Node>, k: nat) {
    && (forall i: nat :: 0 < i < |s| && Parent(i) != k ==> s[Parent(i)].priority <= s[i].priority)
    && (forall i: nat :: 0 < i < |s| && Parent(i) == k && 0 < k < |s| ==> s[Parent(k)].priority <= s[i].priority)
  }

  function Swapped(s: seq<Node>, i: nat, j: nat): (t: seq<Node>)
    requires i < |s| && j < |s|
    ensures |t| == |s| && multiset(t) == multiset(s)
  {
    s[i := s[j]][j := s[i]]
  }

  lemma SwappedPrefix(h: seq<Node>, n: nat, i: nat, j: nat)
    requires i < n <= |h| && j < n
    ensures Swapped(h, i, j)[..n] == Swapped(h[..n], i, j)
  {
  }

  lemma SwimStep(s: seq<Node>, k: nat)
    requires 0 < k < |s| && SwimOk(s, k) && s[Parent(k)].priority > s[k].priority
    ensures SwimOk(Swapped(s, Parent(k), k), Parent(k))
  {
    var p, t := Parent(k), Swapped(s, Parent(k), k);
    assert forall i: nat :: i < |s| && i != p && i != k ==> t[i] == s[i];
    assert t[p] == s[k] && t[k] == s[p];
    forall i: nat | 0 < i < |t| && i != p
      ensures t[Parent(i)].priority <= t[i].priority
    {
    }
    forall i: nat | 0 < i < |t| && Parent(i) == p && p > 0
      ensures t[Parent(p)].priority <= t[i].priority
    {
      assert s[Parent(p)].priority <= s[p].priority;
    }
    hide Swapped;
  }

  lemma SinkStep(s: seq<Node>, k: nat, c: nat)
    requires k < c < |s| && (c == 2 * k + 1 || c == 2 * k + 2) && SinkOk(s, k) && s[c].priority < s[k].priority
    requires 2 * k + 1 < |s| ==> s[c].priority <= s[2 * k + 1].priority
    requires 2 * k + 2 < |s| ==> s[c].priority <= s[2 * k + 2].priority
    ensures SinkOk(Swapped(s, k, c), c)
  {
    var t := Swapped(s, k, c);
    assert forall i: nat :: i < |s| && i != k && i != c ==> t[i] == s[i];
    assert t[k] == s[c] && t[c] == s[k];
    hide Swapped;
    forall i: nat | 0 < i < |t| && Parent(i) != c
      ensures t[Parent(i)].priority <= t[i].priority
    {
      SinkPair(s, k, c, i);
    }
    forall i: nat | 0 < i < |t| && Parent(i) == c
      ensures t[Parent(c)].priority <= t[i].priority
    {
      assert s[Parent(i)].priority <= s[i].priority;
    }
    hide Parent;
  }

  lemma SinkPair(s: seq<Node>, k: nat, c: nat, i: nat)
    requires k < c < |s| && (c == 2 * k + 1 || c == 2 * k + 2) && SinkOk(s, k) && s[c].priority < s[k].priority
    requires 2 * k + 1 < |s| ==> s[c].priority <= s[2 * k + 1].priority
    requires 2 * k + 2 < |s| ==> s[c].priority <= s[2 * k + 2].priority
    requires 0 < i < |s| && Parent(i) != c
    ensures Swapped(s, k, c)[Parent(i)].priority <= Swapped(s, k, c)[i].priority
  {
    if i == k {
      assert Parent(c) == k && s[Parent(k)].priority <= s[c].priority;
    } else if Parent(i) == k {
      assert i == 2 * k + 1 || i == 2 * k + 2;
    } else {
      assert s[Parent(i)].priority <= s[i].priority;
    }
  }

  lemma SinkDone(s: seq<Node>, k: nat)
    requires SinkOk(s, k)
    requires forall c :: (c == 2 * k + 1 || c == 2 * k + 2) && c < |s| ==> s[k].priority <= s[c].priority
    ensures HeapOrdered(s)
  {
    forall i: nat | 0 < i < |s| && Parent(i) == k
      ensures s[k].priority <= s[i].priority
    {
      assert i == 2 * k + 1 || i == 2 * k + 2;
    }
  }

  // The root of a heap is its minimum.
  lemma {:induction false} RootIsLeast(s: seq<Node>, i: nat)
    requires HeapOrdered(s) && i < |s|
    ensures s[0].priority <= s[i].priority
  {
    if i > 0 {
      RootIsLeast(s, Parent(i));
    }
  }

  ghost predicate Least(p: multiset<Node>, d: nat) {
    (exists n :: n in p && n.priority == d) && forall n :: n in p ==> d <= n.priority
  }

  lemma HeapLeast(s: seq<Node>)
    requires HeapOrdered(s) && s != []
    ensures Least(multiset(s), s[0].priority)
  {
    assert s[0] in multiset(s);
    forall n | n in multiset(s)
      ensures s[0].priority <= n.priority
    {
      var i: nat :| i < |s| && s[i] == n;
      RootIsLeast(s, i);
    }
  }

  // Dropping the last slot of a heap and putting its node at the root leaves only the root
  // out of place.
  lemma PopShape(s: seq<Node>)
    requires HeapOrdered(s) && s != []
    ensures var t := Swapped(s, 0, |s| - 1)[..|s| - 1];
      SinkOk(t, 0) && multiset(t) == multiset(s) - multiset{s[0]}
  {
    var t := Swapped(s, 0, |s| - 1);
    assert t == t[..|s| - 1] + [s[0]];
  }

  class Heap {
    const heap: array<Node>
    var items: nat

    ghost predicate Valid()
      reads this, heap
    {
      items <= heap.Length && HeapOrdered(heap[..items])
    }

    ghost function Contents(): (p: multiset<Node>)
      reads this, heap
      requires items <= heap.Length
      ensures |p| == items
    {
      multiset(heap[..items])
    }

    constructor (size: nat)
      ensures Valid() && Contents() == multiset{} && heap.Length == size && fresh(heap)
    {
      heap := new Node[size](i => Node(0, 0));
      items := 0;
    }

    // Only the first `items` slots are in use.
    method Swap(i: nat, j: nat)
      requires i < items <= heap.Length && j < items
      modifies heap
      ensures heap[..] == Swapped(old(heap[..]), i, j)
      ensures heap[..items] == Swapped(old(heap[..items]), i, j)
    {
      SwappedPrefix(heap[..], items, i, j);
      assert heap[..][..items] == heap[..items];
      var temp := heap[i];
      heap[i] := heap[j];
      heap[j] := temp;
    }

    method Swim(idx: nat)
      requires idx < items <= heap.Length && SwimOk(heap[..items], idx)
      modifies heap
      ensures HeapOrdered(heap[..items]) && Contents() == old(Contents())
    {
      var k := idx;
      while k > 0
        modifies heap
        invariant 0 <= k < items && SwimOk(heap[..items], k)
        invariant Contents() == old(Contents())
      {
        var p := Parent(k);
        if heap[p].priority <= heap[k].priority {
          break;
        }
        SwimStep(heap[..items], k);
        Swap(p, k);
        k := p;
      }
    }

    method Sink(idx: nat)
      requires items <= heap.Length && SinkOk(heap[..items], idx)
      modifies heap
      ensures HeapOrdered(heap[..items]) && Contents() == old(Contents())
    {
      hide SinkOk, HeapOrdered, Swapped, Parent;
      var n, k := items, idx;
      while true
        modifies heap
        invariant SinkOk(heap[..items], k)
        invariant Contents() == old(Contents())
        decreases n - k
      {
        var l, r, least := 2 * k + 1, 2 * k + 2, k;
        if l < n && heap[l].priority < heap[least].priority {
          least := l;
        }
        if r < n && heap[r].priority < heap[least].priority {
          least := r;
        }
        ghost var s := heap[..items];
        if least == k {
          SinkDone(s, k);
          return;
        }
        SinkStep(s, k, least);
        Swap(k, least);
        k := least;
      }
    }

    // A full queue drops the element silently.
    method Add(priority: nat, element: nat)
      requires Valid()
      modifies this, heap
      ensures Valid()
      ensures old(items) < heap.Length ==> Contents() == old(Contents()) + multiset{Node(priority, element)}
      ensures old(items) >= heap.Length ==> items == old(items) && heap[..] == old(heap[..])
    {
      if items >= heap.Length {
        return;
      }
      ghost var s := heap[..items];
      heap[items] := Node(priority, element);
      items := items + 1;
      assert heap[..items] == s + [Node(priority, element)];
      Swim(items - 1);
    }

    method Pop() returns (node: Node)
      requires Valid()
      modifies this, heap
      ensures Valid()
      ensures old(items) == 0 ==> node == Node(0, 0) && items == 0
      ensures old(items) > 0 ==>
        && node in old(Contents()) && Least(old(Contents()), node.priority)
        && Contents() == old(Contents()) - multiset{node}
    {
      hide HeapOrdered, SinkOk, Least, Swapped;
      node := Node(0, 0);
      if items == 0 {
        return;
      }
      node := heap[0];
      ghost var s := heap[..items];
      HeapLeast(s);
      PopShape(s);
      assert node in multiset(s);
      Swap(0, items - 1);
      ghost var t := heap[..items];
      items := items - 1;
      assert heap[..items] == t[..items];
      Sink(0);
    }

    method Peek() returns (node: Node)
      requires Valid() && heap.Length > 0
      ensures items > 0 ==> node in Contents() && Least(Contents(), node.priority)
    {
      node := heap[0];
      if items > 0 {
        assert node in heap[..items];
        HeapLeast(heap[..items]);
      }
    }
  }
}

// timer.c: the sleep queue and the one virtual timer that serves it.
module SleepTimer {
  import opened PriorityQueue

  const MAX_PROCESSES := 64
  const CLOCKHZ := 1000000
  const WORD := 0x1_0000_0000_0000_0000

  datatype Alarm = Off | At(deadline: nat)

  datatype Timer = Timer(pending: multiset<Node>, alarm: Alarm)

  // The deadline in u64 arithmetic.
  function Deadline(ns: nat, now: nat): (d: nat) {
    (ns * CLOCKHZ % WORD / 1000000000 + now) % WORD
  }

  // A request means ns / 1000 microseconds from now exactly when neither the product nor
  // the sum wraps.
  lemma DeadlineExactIff(ns: nat, now: nat)
    ensures Deadline(ns, now) == now + ns / 1000 <==> ns * CLOCKHZ < WORD && now + ns / 1000 < WORD
  {
    var x := ns * CLOCKHZ;
    assert x / 1000000000 == ns / 1000;
    if x >= WORD {
      assert x % WORD <= x - WORD;
    }
  }

  // A sleep of five hours and seven minutes is due at once, whenever it is asked for.
  lemma LongSleepEndsAtOnce(now: nat)
    requires now < WORD
    ensures Deadline(18446744073710, now) == now
  {
    assert 18446744073710 * CLOCKHZ % WORD == 448384;
  }

  ghost predicate AlarmOk(t: Timer) {
    if |t.pending| == 0 then t.alarm.Off? else t.alarm.At? && Least(t.pending, t.alarm.deadline)
  }

  // timer_nanosleep (timer.c:88-101).
  ghost predicate Asked(t: Timer, n: Node, t': Timer) {
    && t'.pending == (if |t.pending| < MAX_PROCESSES then t.pending + multiset{n} else t.pending)
    && t'.alarm.At? && Least(t'.pending, t'.alarm.deadline)
  }

  // handle_virtual_timer (timer.c:52-69); n is what is woken.
  ghost predicate Fired(t: Timer, n: Node, t': Timer) {
    && (if |t.pending| == 0 then n == Node(0, 0) && t'.pending == t.pending
        else n in t.pending && Least(t.pending, n.priority) && t'.pending == t.pending - multiset{n})
    && AlarmOk(t')
  }

  datatype Step = Sleep(node: Node) | Fire(node: Node)

  ghost predicate Next(t: Timer, s: Step, t': Timer) {
    match s
    case Sleep(n) => Asked(t, n, t')
    case Fire(n) => Fired(t, n, t')
  }

  // A process that sleeps is running, so it is not asleep already; only an armed timer fires.
  ghost predicate Enabled(t: Timer, s: Step) {
    match s
    case Sleep(n) => n.element != 0 && forall m :: m in t.pending ==> m.element != n.element
    case Fire(_) => t.alarm.At?
  }

  ghost predicate Runs(t: Timer, steps: seq<Step>, t': Timer)
    decreases |steps|
  {
    if steps == [] then t' == t
    else exists m :: Enabled(t, steps[0]) && Next(t, steps[0], m) && Runs(m, steps[1..], t')
  }

  function Requests(steps: seq<Step>): (r: seq<Node>) {
    if steps == [] then [] else (if steps[0].Sleep? then [steps[0].node] else []) + Requests(steps[1..])
  }

  function Wakes(steps: seq<Step>): (r: seq<Node>) {
    if steps == [] then [] else (if steps[0].Fire? then [steps[0].node] else []) + Wakes(steps[1..])
  }

  // How often n was asked for, and woken.
  function Asks(steps: seq<Step>, n: Node): (k: nat) {
    multiset(Requests(steps))[n]
  }

  function Answers(steps: seq<Step>, n: Node): (k: nat) {
    multiset(Wakes(steps))[n]
  }

  lemma LogsCons(steps: seq<Step>, n: Node)
    requires steps != []
    ensures Asks(steps, n) == Asks(steps[1..], n) + if steps[0] == Sleep(n) then 1 else 0
    ensures Answers(steps, n) == Answers(steps[1..], n) + if steps[0] == Fire(n) then 1 else 0
  {
  }

  // No process sleeps twice at once.
  ghost predicate Distinct(p: multiset<Node>) {
    && (forall n :: n in p ==> p[n] == 1 && n.element != 0)
    && (forall n, m :: n in p && m in p && n.element == m.element ==> n == m)
  }

  ghost predicate From(p: multiset<Node>, procs: set<nat>) {
    forall n :: n in p ==> n.element in procs
  }

  lemma {:induction false} AtMostOneEach(p: multiset<Node>, procs: set<nat>)
    requires Distinct(p) && From(p, procs)
    ensures |p| <= |procs|
    decreases |p|
  {
    if |p| > 0 {
      var n :| n in p;
      var q := p - multiset{n};
      assert n !in q;
      AtMostOneEach(q, procs - {n.element});
    }
  }

  lemma StepKeeps(t: Timer, s: Step, t': Timer)
    requires AlarmOk(t) && Distinct(t.pending) && Enabled(t, s) && Next(t, s, t')
    ensures AlarmOk(t') && Distinct(t'.pending)
    ensures s.Sleep? ==> t'.pending == if |t.pending| < MAX_PROCESSES then t.pending + multiset{s.node} else t.pending
    ensures s.Fire? ==> t.pending == t'.pending + multiset{s.node}
    ensures s.Fire? ==> Least(t.pending, s.node.priority)
    ensures s.Fire? ==> s.node in t.pending && s.node.element != 0 && s.node.priority == t.alarm.deadline
  {
    match s
    case Sleep(n) =>
      assert |t'.pending| > 0;
    case Fire(n) =>
  }

  lemma FirstStep(t: Timer, steps: seq<Step>, t': Timer) returns (m: Timer)
    requires steps != [] && Runs(t, steps, t')
    ensures Enabled(t, steps[0]) && Next(t, steps[0], m) && Runs(m, steps[1..], t')
  {
    hide Enabled, Next;
    m :| Enabled(t, steps[0]) && Next(t, steps[0], m) && Runs(m, steps[1..], t');
  }

  // Over every run: the timer is armed, at the least deadline, exactly when somebody sleeps;
  // each process sleeps at most once; and each wake-up answers a request of its own.
  lemma {:induction false} RunLaw(t: Timer, steps: seq<Step>, t': Timer, n: Node)
    requires AlarmOk(t) && Distinct(t.pending) && Runs(t, steps, t')
    ensures AlarmOk(t') && Distinct(t'.pending)
    ensures Answers(steps, n) + t'.pending[n] <= t.pending[n] + Asks(steps, n)
    decreases |steps|
  {
    hide AlarmOk, Distinct, Next, Enabled, Least, Asks, Answers;
    if steps == [] {
      NoLogs(n);
    } else {
      var m := FirstStep(t, steps, t');
      StepKeeps(t, steps[0], m);
      RunLaw(m, steps[1..], t', n);
      LogsCons(steps, n);
    }
  }

  lemma NoLogs(n: Node)
    ensures Asks([], n) == 0 && Answers([], n) == 0
  {
  }

  // With at most 64 processes nothing is lost: every request has been answered or is pending.
  lemma {:induction false} NothingLost(t: Timer, steps: seq<Step>, t': Timer, procs: set<nat>, n: Node)
    requires AlarmOk(t) && Distinct(t.pending) && Runs(t, steps, t')
    requires |procs| <= MAX_PROCESSES && From(t.pending, procs) && forall s ::
      s in steps && s.Sleep? ==> s.node.element in procs
    ensures Answers(steps, n) + t'.pending[n] == t.pending[n] + Asks(steps, n)
    decreases |steps|
  {
    hide AlarmOk, Distinct, Next, Enabled, Least, Asks, Answers;
    if steps == [] {
      NoLogs(n);
    } else {
      var s := steps[0];
      var m := FirstStep(t, steps, t');
      StepKeeps(t, s, m);
      if s.Sleep? {
        RoomForOneMore(t, s.node, procs);
      }
      NothingLost(m, steps[1..], t', procs, n);
      LogsCons(steps, n);
    }
  }

  lemma RoomForOneMore(t: Timer, n: Node, procs: set<nat>)
    requires Distinct(t.pending) && From(t.pending, procs) && n.element in procs && Enabled(t, Sleep(n))
    ensures |t.pending| < |procs|
  {
    AtMostOneEach(t.pending, procs - {n.element});
  }

  // Each request is kept exactly when fewer than 64 sleepers are pending.
  lemma RequestKeptIff(t: Timer, n: Node, t': Timer)
    requires Enabled(t, Sleep(n)) && Asked(t, n, t')
    ensures n in t'.pending <==> |t.pending| < MAX_PROCESSES
  {
  }

  lemma LeastOf(p: multiset<Node>, d: nat, n: Node)
    requires Least(p, d) && n in p
    ensures d <= n.priority
  {
  }

  lemma NoneAsleep(t: Timer)
    requires AlarmOk(t) && t.alarm.Off?
    ensures t.pending == multiset{}
  {
  }

  // Left alone, the timer wakes all sleepers in order of deadline.
  lemma {:induction false} DrainSorts(t: Timer, steps: seq<Step>, t': Timer)
    requires AlarmOk(t) && Distinct(t.pending) && Runs(t, steps, t')
    requires (forall i :: 0 <= i < |steps| ==> steps[i].Fire?) && t'.alarm.Off?
    ensures multiset(Wakes(steps)) == t.pending
    ensures forall i, j :: 0 <= i < j < |Wakes(steps)| ==> Wakes(steps)[i].priority <= Wakes(steps)[j].priority
    decreases |steps|
  {
    hide AlarmOk, Distinct, Next, Enabled, Least, Asked, Fired;
    if steps != [] {
      var s := steps[0];
      var m := FirstStep(t, steps, t');
      StepKeeps(t, s, m);
      DrainSorts(m, steps[1..], t');
      var w := Wakes(steps[1..]);
      assert Wakes(steps) == [s.node] + w;
      forall i | 0 <= i < |w|
        ensures s.node.priority <= w[i].priority
      {
        assert w[i] in multiset(w);
        LeastOf(t.pending, s.node.priority, w[i]);
      }
    } else {
      NoneAsleep(t);
    }
  }

  // n processes going to sleep one after the other.
  function Crowd(n: nat): (steps: seq<Step>) {
    if n == 0 then [] else Crowd(n - 1) + [Sleep(Node(n, n))]
  }

  function CrowdAsleep(n: nat): (p: multiset<Node>) {
    if n == 0 then multiset{} else CrowdAsleep(n - 1) + multiset{Node(n, n)}
  }

  function CrowdTimer(n: nat): (t: Timer) {
    Timer(CrowdAsleep(n), if n == 0 then Off else At(1))
  }

  lemma {:induction false} RunsSnoc(t: Timer, steps: seq<Step>, m: Timer, s: Step, t': Timer)
    requires Runs(t, steps, m) && Enabled(m, s) && Next(m, s, t')
    ensures Runs(t, steps + [s], t')
    decreases |steps|
  {
    hide Next, Enabled;
    if steps == [] {
      assert (steps + [s])[1..] == [];
      assert Runs(t', [], t');
    } else {
      var k := FirstStep(t, steps, m);
      RunsSnoc(k, steps[1..], m, s, t');
      assert (steps + [s])[1..] == steps[1..] + [s];
    }
  }

  lemma {:induction false} CrowdSize(n: nat)
    ensures |CrowdAsleep(n)| == n
    ensures forall k :: k in CrowdAsleep(n) ==> 1 <= k.priority <= n && k.element == k.priority
    ensures n > 0 ==> Node(1, 1) in CrowdAsleep(n)
  {
    if n > 0 {
      CrowdSize(n - 1);
    }
  }

  lemma {:induction false} CrowdRuns(n: nat)
    requires n <= MAX_PROCESSES
    ensures Runs(CrowdTimer(0), Crowd(n), CrowdTimer(n))
  {
    hide AlarmOk, Next, Enabled, Least;
    if n > 0 {
      CrowdRuns(n - 1);
      CrowdSize(n - 1);
      CrowdSize(n);
      CrowdStep(n);
      RunsSnoc(CrowdTimer(0), Crowd(n - 1), CrowdTimer(n - 1), Sleep(Node(n, n)), CrowdTimer(n));
    }
  }

  lemma CrowdStep(n: nat)
    requires 0 < n <= MAX_PROCESSES
    ensures Enabled(CrowdTimer(n - 1), Sleep(Node(n, n))) && Next(CrowdTimer(n - 1), Sleep(Node(n, n)), CrowdTimer(n))
  {
    hide CrowdAsleep, Least, Enabled, Asked;
    CrowdEnabled(n);
    CrowdAsked(n);
  }

  lemma CrowdEnabled(n: nat)
    requires n > 0
    ensures Enabled(CrowdTimer(n - 1), Sleep(Node(n, n)))
  {
    hide CrowdAsleep;
    CrowdSize(n - 1);
  }

  lemma CrowdAsked(n: nat)
    requires 0 < n <= MAX_PROCESSES
    ensures Asked(CrowdTimer(n - 1), Node(n, n), CrowdTimer(n))
  {
    hide CrowdAsleep, Least;
    CrowdSize(n - 1);
    CrowdLeast(n);
    CrowdGrows(n);
  }

  lemma CrowdLeast(n: nat)
    requires n > 0
    ensures Least(CrowdAsleep(n), 1)
  {
    hide CrowdAsleep, Least;
    CrowdSize(n);
    LeastOne(CrowdAsleep(n));
  }

  lemma CrowdGrows(n: nat)
    requires n > 0
    ensures CrowdAsleep(n) == CrowdAsleep(n - 1) + multiset{Node(n, n)}
  {
  }

  lemma LeastOne(p: multiset<Node>)
    requires Node(1, 1) in p && forall k :: k in p ==> 1 <= k.priority
    ensures Least(p, 1)
  {
  }

  // A 65th sleeper is forgotten: it is neither woken nor pending.
  lemma SixtyFifthLost()
    ensures exists steps: seq<Step>, t: Timer ::
      Runs(CrowdTimer(0), steps, t) && Node(65, 65) in Requests(steps) && Node(65, 65) !in Wakes(steps)
        && Node(65, 65) !in t.pending
  {
    hide Crowd, CrowdAsleep, Runs, Requests, Wakes;
    var t, s := CrowdTimer(64), Sleep(Node(65, 65));
    CrowdSize(64);
    CrowdRuns(64);
    assert Least(t.pending, 1);
    RunsSnoc(CrowdTimer(0), Crowd(64), t, s, t);
    SnocLogs(Crowd(64), s);
    CrowdQuiet(64);
  }

  lemma {:induction false} SnocLogs(steps: seq<Step>, s: Step)
    ensures s.Sleep? ==> Wakes(steps + [s]) == Wakes(steps) && s.node in Requests(steps + [s])
  {
    if steps == [] {
      assert (steps + [s])[1..] == [];
    } else {
      SnocLogs(steps[1..], s);
      assert (steps + [s])[1..] == steps[1..] + [s];
    }
  }

  lemma {:induction false} CrowdQuiet(n: nat)
    ensures Wakes(Crowd(n)) == []
  {
    if n > 0 {
      CrowdQuiet(n - 1);
      SnocLogs(Crowd(n - 1), Sleep(Node(n, n)));
    }
  }

  class VirtualTimer {
    const queue: Heap
    var alarm: Alarm

    ghost predicate Valid()
      reads this, queue, queue.heap
    {
      queue.Valid() && queue.heap.Length == MAX_PROCESSES && queue.items <= MAX_PROCESSES && AlarmOk(Model())
    }

    ghost function Model(): (t: Timer)
      reads this, queue, queue.heap
      requires queue.items <= queue.heap.Length
    {
      Timer(queue.Contents(), alarm)
    }

    constructor ()
      ensures Valid() && Model() == Timer(multiset{}, Off) && fresh(queue) && fresh(queue.heap)
    {
      queue := new Heap(MAX_PROCESSES);
      alarm := Off;
    }

    method NanoSleep(ns: nat, now: nat, current: nat)
      requires Valid()
      modifies this, queue, queue.heap
      ensures Valid() && Asked(old(Model()), Node(Deadline(ns, now), current), Model())
    {
      hide HeapOrdered, Least, Deadline;
      var request := Deadline(ns, now);
      queue.Add(request, current);
      var first := queue.Peek();
      alarm := At(first.priority);
    }

    // Returns the node whose process is rescheduled.
    method HandleVirtualTimer() returns (woken: Node)
      requires Valid()
      modifies this, queue, queue.heap
      ensures Valid() && Fired(old(Model()), woken, Model())
    {
      hide HeapOrdered, Least, Heap.Contents;
      woken := queue.Pop();
      Rearm();
    }

    // timer.c:60-68.
    method Rearm()
      requires queue.Valid() && queue.heap.Length == MAX_PROCESSES
      modifies this
      ensures queue.Valid() && AlarmOk(Model())
    {
      hide HeapOrdered, Least, Heap.Contents;
      if queue.items > 0 {
        var first := queue.Peek();
        alarm := At(first.priority);
      } else {
        alarm := Off;
      }
    }
  }
}
