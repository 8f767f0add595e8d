// A reachable heap on which a 32-byte request fails although pages are free: the bitmap bytes
// a new slab does not clear were all ones.
module SlabWitness {
  import opened Bits
  import opened PagePool
  import opened BuddyLaws
  import opened BuddyInit
  import opened BuddyDrain
  import opened SlabSpec
  import opened SlabLaws
  import opened SlabRuns

  function Ones(): (junk: seq<bool>)
    ensures |junk| == BITS && forall i :: 0 <= i < BITS ==> junk[i]
  {
    seq(BITS, i => true)
  }

  // One slab of 32-byte objects with n of them out, its upper bits stale, and a page free.
  ghost predicate Filling(h: Heap, p: nat, n: nat) {
    && Good(h) && h.partial[0] == [p] && p in h.slabs && h.slabs[p].size == MIN_CLASS
    && h.slabs[p].inuse == n && h.slabs[p].lost == Range(64, 126) && FreePages(h.pool) != {}
  }

  lemma ClassOf32()
    ensures Class(32) == MIN_CLASS
  {
    ClassIsLeast(32);
    SmallPowers();
    if Class(32) > 5 {
      Pow2Monotone(5, Class(32) - 1);
    }
  }

  // Up to 64 objects the slab yields one more; then it is clogged.
  lemma FillingStep(h: Heap, p: nat, n: nat)
    requires Filling(h, p, n) && n <= 64
    ensures Listed(h)
    ensures var r := Kmalloc(h, 32, Ones());
      if n < 64 then r.Ok? && Filling(r.heap, p, n + 1) else r.Null?
  {
    hide Good, Pool.Valid, Coalesced, FreePages, Granted, Class, Kmalloc, Clogged, NoBlock;
    ClassOf32();
    KmallocFailsIff(h, 32, Ones());
    var g := KmallocLaw(h, 32, Ones());
    FillingFacts(h, p, n);
    if n < 64 {
      OneMore(h, p, n);
    }
  }

  lemma FillingFacts(h: Heap, p: nat, n: nat)
    requires Filling(h, p, n) && Listed(h)
    ensures h.pool.Valid() && Coalesced(h.pool) && h.slabs[p].total == 126 && (Clogged(h, MIN_CLASS) <==> n >= 64)
  {
    hide Pool.Valid, Coalesced, FreePages, ListsOk;
    RangeSize(64, 126);
    assert SlabOk(h.slabs[p]);
  }

  lemma OneMore(h: Heap, p: nat, n: nat)
    requires Listed(h) && h.pool.Valid() && Coalesced(h.pool) && Class(32) == MIN_CLASS && n < 64
    requires h.partial[0] == [p] && p in h.slabs && h.slabs[p].inuse == n && h.slabs[p].total == 126
    requires Kmalloc(h, 32, Ones()).Ok?
    ensures var r := Kmalloc(h, 32, Ones()).heap;
      && r.pool == h.pool && r.partial == h.partial && p in r.slabs && r.slabs[p].size == h.slabs[p].size
      && r.slabs[p].inuse == n + 1 && r.slabs[p].lost == h.slabs[p].lost
  {
    hide Pool.Valid, Coalesced, Class;
  }

  // The first request makes the slab.
  lemma FirstObject(maxOrder: nat, base: nat) returns (p: nat)
    requires maxOrder < base && base + 2 <= Pow2(maxOrder)
    ensures var h := EmptyHeap(Boot(maxOrder, base)); Good(h) && Listed(h) && h.pool.Valid() && Coalesced(h.pool)
    ensures var r := Kmalloc(EmptyHeap(Boot(maxOrder, base)), 32, Ones());
      r.Ok? && Good(r.heap) && Filling(r.heap, p, 1)
  {
    var h := EmptyHeap(Boot(maxOrder, base));
    EmptyGood(maxOrder, base);
    BootIsValid(maxOrder, base);
    RangeSize(base, Pow2(maxOrder));
    ClassOf32();
    p := FreshPage(h);
    KmallocFailsIff(h, 32, Ones());
    var g := KmallocLaw(h, 32, Ones());
    hide Boot, Pool.Valid, Coalesced, FreePages, Class, Good, Granted;
    FirstIs(h, p);
  }

  lemma FreshPage(h: Heap) returns (p: nat)
    requires Good(h) && |FreePages(h.pool)| >= 2
    ensures SlabPages(h.pool, MIN_CLASS).Alloc? && SlabPages(h.pool, MIN_CLASS).page == p
    ensures FreePages(SlabPages(h.pool, MIN_CLASS).pool) != {}
    ensures !NoBlock(h.pool, SlabOrder(MIN_CLASS))
  {
    hide Pool.Valid, Coalesced, FreePages, AllocOrder, SlabPages, Live, NoBlock, ListsOk, SlabsOk;
    var m := h.pool;
    assert m.Valid() && Coalesced(m);
    SomeBlock(m);
    SlabPagesFail(m, MIN_CLASS);
    p := SlabPages(m, MIN_CLASS).page;
    SlabPagesEffect(m, MIN_CLASS);
    var left := FreePages(SlabPages(m, MIN_CLASS).pool);
    assert Block(p, 0) == {p};
    assert left == FreePages(m) - {p} && |left| == |FreePages(m)| - 1;
  }

  lemma SomeBlock(m: Pool)
    requires m.Valid() && Coalesced(m) && FreePages(m) != {}
    ensures !NoBlock(m, 0)
  {
    hide Pool.Valid, Coalesced, AllocOrder;
    AllocPageLaw(m);
    AllocOrderLaw(m, 0);
  }

  lemma FirstIs(h: Heap, p: nat)
    requires Listed(h) && h.pool.Valid() && Coalesced(h.pool) && Class(32) == MIN_CLASS
    requires h.partial[0] == [] && SlabPages(h.pool, MIN_CLASS).Alloc? && SlabPages(h.pool, MIN_CLASS).page == p
    requires Kmalloc(h, 32, Ones()).Ok?
    ensures var r := Kmalloc(h, 32, Ones()).heap;
      && r.pool == SlabPages(h.pool, MIN_CLASS).pool && r.partial[0] == [p] && p in r.slabs
      && r.slabs[p].size == MIN_CLASS && r.slabs[p].inuse == 1 && r.slabs[p].lost == Range(64, 126)
  {
    hide Pool.Valid, Coalesced, Class, SlabPages;
    var s := NewSlab(MIN_CLASS, Ones());
    assert s.lost == Range(64, 126);
    assert s.inuse == 0 && s.total == 126;
  }

  // Freeing this bit breaks the slab layer or loses an object that is out.
  ghost predicate Unsafe(h: Heap, p: nat, i: nat)
    requires Good(h)
  {
    p in h.slabs && i < BITS &&
    (SlabFacts(h, p);
     && h.slabs[p].bits[i] && Freeable(h, Address(p, h.slabs[p].size, i))
     && !(Good(SlabFree(h, p, i)) && Objects(h) - {(p, i)} <= Objects(SlabFree(h, p, i))))
  }

  // On such a heap freeing the object of a stale bit is not safe, and kfree takes its address.
  lemma StaleFree(h: Heap, p: nat, n: nat)
    requires Filling(h, p, n)
    ensures Unsafe(h, p, 100)
  {
    hide Pool.Valid, Coalesced, FreePages, Good, SlabFree, Objects, Freeable, Used, SlabOk;
    StaleBit(h, p, n);
    SlabFacts(h, p);
    SlabFreeSafeIff(h, p, 100);
    StaleAddress(h, p, n);
  }

  lemma StaleBit(h: Heap, p: nat, n: nat)
    requires Filling(h, p, n)
    ensures |h.slabs[p].bits| == BITS && h.slabs[p].bits[100] && 100 !in Used(h.slabs[p])
  {
    hide Pool.Valid, Coalesced, FreePages, ListsOk, BlocksOk;
    assert SlabOk(h.slabs[p]);
  }

  lemma StaleAddress(h: Heap, p: nat, n: nat)
    requires Filling(h, p, n)
    ensures Freeable(h, Address(p, h.slabs[p].size, 100))
  {
    var a := Address(p, 5, 100);
    assert a == p * PAGE + 3264;
    assert a / PAGE == p;
    SlabFacts(h, p);
    assert HeadOf(h.pool, p) == p && p in Live(h.pool);
    FreeableIff(h, a);
  }

  // One request from boot is enough to reach it.
  lemma StaleFreeUnsafe(maxOrder: nat, base: nat)
    requires maxOrder < base && base + 2 <= Pow2(maxOrder)
    ensures exists ops: seq<Op>, h: Heap, p: nat :: FromBoot(maxOrder, base, ops, h) && Good(h) && Unsafe(h, p, 100)
  {
    hide Boot, Kmalloc, FreePages, Good, Listed, Pool.Valid, Coalesced, Filling, Class, Unsafe;
    var p := FirstObject(maxOrder, base);
    var b := EmptyHeap(Boot(maxOrder, base));
    var h := Kmalloc(b, 32, Ones()).heap;
    assert Reaches(h, [], h);
    RunFrom(b, [], h);
    StaleFree(h, p, 1);
    assert FromBoot(maxOrder, base, [DoMalloc(32, Ones())] + [], h);
  }

  // Sixty-four requests later nothing is left to give.
  lemma {:induction false} FillingRuns(h: Heap, p: nat, n: nat) returns (ops: seq<Op>, h': Heap)
    requires Filling(h, p, n) && n <= 64
    ensures Reaches(h, ops, h') && Filling(h', p, 64)
    decreases 64 - n
  {
    FillingStep(h, p, n);
    if n == 64 {
      ops, h' := [], h;
    } else {
      var op := DoMalloc(32, Ones());
      var rest, e := FillingRuns(Kmalloc(h, 32, Ones()).heap, p, n + 1);
      ops, h' := [op] + rest, e;
      assert ops[1..] == rest;
      assert Step(h, op) == Running(Kmalloc(h, 32, Ones()).heap);
    }
  }

  lemma NullWithFreePages(maxOrder: nat, base: nat)
    requires maxOrder < base && base + 2 <= Pow2(maxOrder)
    ensures exists ops: seq<Op>, h: Heap ::
      && FromBoot(maxOrder, base, ops, h) && Listed(h) && h.pool.Valid() && Coalesced(h.pool)
      && FreePages(h.pool) != {} && Kmalloc(h, 32, Ones()).Null?
  {
    hide Boot, Kmalloc, FreePages, Good, Listed, Pool.Valid, Coalesced, Reaches, Filling, Class;
    var p := FirstObject(maxOrder, base);
    var b := EmptyHeap(Boot(maxOrder, base));
    var rest, h := FillingRuns(Kmalloc(b, 32, Ones()).heap, p, 1);
    FillingStep(h, p, 64);
    FillingLeaves(h, p);
    RunFrom(b, rest, h);
    assert FromBoot(maxOrder, base, [DoMalloc(32, Ones())] + rest, h);
  }

  lemma FillingLeaves(h: Heap, p: nat)
    requires Filling(h, p, 64)
    ensures h.pool.Valid() && Coalesced(h.pool) && FreePages(h.pool) != {}
  {
  }

  lemma RunFrom(b: Heap, rest: seq<Op>, h: Heap)
    requires Good(b) && Listed(b) && Kmalloc(b, 32, Ones()).Ok? && Good(Kmalloc(b, 32, Ones()).heap)
    requires Reaches(Kmalloc(b, 32, Ones()).heap, rest, h)
    ensures Reaches(b, [DoMalloc(32, Ones())] + rest, h)
  {
    hide Good, Kmalloc, Listed, Pool.Valid, Coalesced;
    var ops := [DoMalloc(32, Ones())] + rest;
    assert ops[1..] == rest && ops[0] == DoMalloc(32, Ones());
    StepIs(b);
  }

  lemma StepIs(h: Heap)
    requires Good(h) && Listed(h) && Kmalloc(h, 32, Ones()).Ok?
    ensures Step(h, DoMalloc(32, Ones())) == Running(Kmalloc(h, 32, Ones()).heap)
  {
  }
}
