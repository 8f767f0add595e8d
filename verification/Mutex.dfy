// mutex.c as steps of the processes using one mutex. Kernel code runs with interrupts
// masked on one core, so an attempt and a release are each one step.
module Mutex {
  import opened IntrusiveList
  import opened ListSpec

  const UNLOCKED := 0

  // Trying: inside the acquire loop and awake. Asleep: inside it and blocked.
  datatype Phase = Outside | Trying | Asleep | Holding

  // owner is the atomic word; waiters is the wait list, front first.
  datatype Lock = Lock(owner: nat, waiters: seq<nat>, phase: map<nat, Phase>)

  datatype Step = Attempt(pid: nat) | Release(pid: nat)

  function PhaseOf(l: Lock, p: nat): (f: Phase) {
    if p in l.phase then l.phase[p] else Outside
  }

  predicate Enabled(l: Lock, s: Step) {
    match s
    case Attempt(p) => p != UNLOCKED && (PhaseOf(l, p).Outside? || PhaseOf(l, p).Trying?)
    case Release(p) => PhaseOf(l, p).Holding?
  }

  // mutex.c:26-48: swap in the caller; if the old value was not UNLOCKED, the caller's wait
  // entry goes to the front of the list, unless it is linked already, and it blocks. The
  // failed swap has overwritten owner all the same.
  function DoAttempt(l: Lock, p: nat): (r: Lock) {
    if l.owner == UNLOCKED then l.(owner := p, phase := l.phase[p := Holding])
    else l.(owner := p, waiters := if p in l.waiters then l.waiters else [p] + l.waiters, phase := l.phase[p := Asleep])
  }

  // mutex.c:51-75: unlock, then wake and unlink the first waiter, if any.
  function DoRelease(l: Lock, p: nat): (r: Lock) {
    var a := l.(owner := UNLOCKED, phase := l.phase[p := Outside]);
    if l.waiters == [] then a
    else a.(waiters := Without(l.waiters, l.waiters[0]), phase := a.phase[l.waiters[0] := Trying])
  }

  function Apply(l: Lock, s: Step): (r: Lock) {
    match s
    case Attempt(p) => DoAttempt(l, p)
    case Release(p) => DoRelease(l, p)
  }

  // The word is unlocked exactly when nobody holds the mutex; otherwise it names the holder or
  // a process on the wait list, whoever tried last; the wait list is exactly the sleepers; and
  // a free mutex with sleepers has somebody awake who will try it.
  ghost predicate LockOk(l: Lock) {
    && NoDup(l.waiters)
    && (forall p: nat :: p in l.waiters <==> PhaseOf(l, p).Asleep?)
    && (forall p: nat, q: nat :: PhaseOf(l, p).Holding? && PhaseOf(l, q).Holding? ==> p == q)
    && (l.owner != UNLOCKED <==> exists p: nat :: PhaseOf(l, p).Holding?)
    && (l.owner != UNLOCKED ==> PhaseOf(l, l.owner).Holding? || l.owner in l.waiters)
    && (l.owner == UNLOCKED && l.waiters != [] ==> exists p: nat :: PhaseOf(l, p).Trying?)
  }

  lemma AttemptKeeps(l: Lock, p: nat)
    requires LockOk(l) && Enabled(l, Attempt(p))
    ensures LockOk(DoAttempt(l, p))
    ensures PhaseOf(DoAttempt(l, p), p).Holding? <==> forall q: nat :: !PhaseOf(l, q).Holding?
    ensures PhaseOf(DoAttempt(l, p), p).Holding? || PhaseOf(DoAttempt(l, p), p).Asleep?
    ensures DoAttempt(l, p).owner == p && forall q: nat :: q != p ==> PhaseOf(DoAttempt(l, p), q) == PhaseOf(l, q)
    ensures DoAttempt(l, p).waiters == if PhaseOf(DoAttempt(l, p), p).Asleep? then [p] + l.waiters else l.waiters
  {
    var r := DoAttempt(l, p);
    assert p !in l.waiters;
    assert PhaseOf(r, p) == if l.owner == UNLOCKED then Holding else Asleep;
    assert forall q: nat :: q != p ==> PhaseOf(r, q) == PhaseOf(l, q);
    if l.owner != UNLOCKED {
      NoDupCons(p, l.waiters);
      var h: nat :| PhaseOf(l, h).Holding?;
      assert PhaseOf(r, h).Holding?;
    }
  }

  lemma ReleaseKeeps(l: Lock, p: nat)
    requires LockOk(l) && Enabled(l, Release(p))
    ensures LockOk(DoRelease(l, p))
    ensures forall q: nat :: !PhaseOf(DoRelease(l, p), q).Holding?
    ensures l.waiters != [] ==> PhaseOf(l, l.waiters[0]).Asleep? && PhaseOf(DoRelease(l, p), l.waiters[0]).Trying?
    ensures DoRelease(l, p).waiters == if l.waiters == [] then [] else l.waiters[1..]
    ensures PhaseOf(DoRelease(l, p), p).Outside?
    ensures forall q: nat :: q != p && (l.waiters != [] ==> q != l.waiters[0]) ==>
      PhaseOf(DoRelease(l, p), q) == PhaseOf(l, q)
  {
    var r := DoRelease(l, p);
    if l.waiters != [] {
      var q := l.waiters[0];
      assert q in l.waiters;
      WithoutMembers(l.waiters, q);
      assert PhaseOf(r, q).Trying?;
      assert forall x: nat :: x != p && x != q ==> PhaseOf(r, x) == PhaseOf(l, x);
      assert PhaseOf(r, p).Outside?;
    } else {
      assert forall x: nat :: x != p ==> PhaseOf(r, x) == PhaseOf(l, x);
      assert PhaseOf(r, p).Outside?;
    }
  }

  ghost predicate Reaches(l: Lock, steps: seq<Step>, l': Lock)
    decreases |steps|
  {
    if steps == [] then l' == l
    else Enabled(l, steps[0]) && Reaches(Apply(l, steps[0]), steps[1..], l')
  }

  lemma {:induction false} RunsKeep(l: Lock, steps: seq<Step>, l': Lock)
    requires LockOk(l) && Reaches(l, steps, l')
    ensures LockOk(l')
    decreases |steps|
  {
    if steps != [] {
      match steps[0] {
        case Attempt(p) => AttemptKeeps(l, p);
        case Release(p) => ReleaseKeeps(l, p);
      }
      RunsKeep(Apply(l, steps[0]), steps[1..], l');
    }
  }

  // Mutual exclusion and no lost wake-up, over every run from an unlocked mutex.
  lemma MutexSafety(steps: seq<Step>, l: Lock)
    requires Reaches(Lock(UNLOCKED, [], map[]), steps, l)
    ensures forall p: nat, q: nat :: PhaseOf(l, p).Holding? && PhaseOf(l, q).Holding? ==> p == q
    ensures (forall p: nat :: !PhaseOf(l, p).Holding?) && (exists p: nat :: PhaseOf(l, p).Asleep?)
      ==> exists p: nat :: PhaseOf(l, p).Trying?
    ensures forall p: nat :: PhaseOf(l, p).Asleep? <==> p in l.waiters
  {
    var u := Lock(UNLOCKED, [], map[]);
    assert forall p: nat :: PhaseOf(u, p) == Outside;
    RunsKeep(u, steps, l);
  }

  // Over every run, a locked owner word names the holder exactly when the process it names is
  // not on the wait list: both are words a caller can read.
  lemma OwnerHoldsIff(steps: seq<Step>, l: Lock)
    requires Reaches(Lock(UNLOCKED, [], map[]), steps, l)
    ensures l.owner != UNLOCKED ==> (PhaseOf(l, l.owner).Holding? <==> l.owner !in l.waiters)
    ensures l.owner == UNLOCKED <==> forall p: nat :: !PhaseOf(l, p).Holding?
  {
    var u := Lock(UNLOCKED, [], map[]);
    assert forall p: nat :: PhaseOf(u, p) == Outside;
    RunsKeep(u, steps, l);
  }

  // owner alone is no record of the holder: a contender that lost the race has written itself there.
  lemma OwnerNeedNotHold()
    ensures exists l, steps ::
      Reaches(Lock(UNLOCKED, [], map[]), steps, l) && PhaseOf(l, 1).Holding? && l.owner == 2 && PhaseOf(l, 2).Asleep?
  {
    var a := Lock(UNLOCKED, [], map[]);
    var b := DoAttempt(a, 1);
    var c := DoAttempt(b, 2);
    assert Reaches(c, [], c);
    assert [Attempt(2)][1..] == [];
    assert Reaches(b, [Attempt(2)], c);
    assert [Attempt(1), Attempt(2)][1..] == [Attempt(2)];
    assert Reaches(a, [Attempt(1), Attempt(2)], c);
  }

  // ---- the mutex as it is updated ----

  class KernelMutex {
    var owner: nat
    // One node per process, its wait entry, and one head, the wait list.
    const links: ListHeap
    ghost var phase: map<nat, Phase>

    ghost function Model(): (l: Lock)
      requires |links.lists| == 1
      reads this, links
    {
      Lock(owner, links.lists[0], phase)
    }

    // A wait entry is on the wait list or linked to itself, as its owner left it.
    ghost predicate Valid()
      reads this, links, links.next, links.prev
    {
      && links.Valid() && |links.lists| == 1 && LockOk(Model())
      && forall x: nat :: x < links.nodes ==> x in links.lists[0] || links.Loose(x)
    }

    constructor (processes: nat)
      ensures Valid() && Model() == Lock(UNLOCKED, [], map[]) && links.nodes == processes
      ensures fresh(links) && fresh(links.next) && fresh(links.prev)
    {
      owner := UNLOCKED;
      links := new ListHeap(processes, 1);
      phase := map[];
    }

    // atomic.S
    method Swap(v: nat) returns (was: nat)
      modifies `owner
      ensures was == old(owner) && owner == v
    {
      was := owner;
      owner := v;
    }

    // mutex.c:26-48, once round the loop.
    method Acquire(p: nat) returns (got: bool)
      requires Valid() && Enabled(Model(), Attempt(p)) && p < links.nodes
      modifies this, links, links.next, links.prev
      ensures Valid() && Model() == DoAttempt(old(Model()), p)
      ensures got <==> forall q: nat :: !PhaseOf(old(Model()), q).Holding?
    {
      hide LockOk;
      AttemptKeeps(Model(), p);
      var was := Swap(p);
      if was == UNLOCKED {
        phase := phase[p := Holding];
        return true;
      }
      var unlinked := links.Unlinked(p);
      if unlinked {
        links.Add(p, 0);
      }
      phase := phase[p := Asleep];
      return false;
    }

    // mutex.c:51-70
    method Unlock(p: nat) returns (woken: seq<nat>)
      requires Valid() && Enabled(Model(), Release(p))
      modifies this, links, links.next, links.prev
      ensures Valid() && Model() == DoRelease(old(Model()), p)
      ensures woken == if old(Model()).waiters == [] then [] else [old(Model()).waiters[0]]
    {
      hide LockOk;
      ReleaseKeeps(Model(), p);
      owner := UNLOCKED;
      phase := phase[p := Outside];
      woken := [];
      var empty := links.Empty(0);
      if !empty {
        var q := links.First(0);
        FirstOnList(links.lists, q);
        phase := phase[q := Trying];
        links.Remove(q);
        StillListed(old(links.lists)[0], q);
        woken := [q];
      }
    }
  }

  lemma FirstOnList(lists: Lists, q: nat)
    requires |lists| == 1 && lists[0] != [] && q == lists[0][0]
    ensures OnList(lists, q)
  {
  }

  lemma StillListed(s: seq<nat>, q: nat)
    requires s != [] && s[0] == q
    ensures Without(s, q) == s[1..] && forall x :: x in s && x != q ==> x in Without(s, q)
  {
    assert s == [s[0]] + s[1..];
  }
}
