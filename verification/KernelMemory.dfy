// All users of physical memory over one frame array: processes, whose operations take the
// pages buddy_alloc returns, and the kernel, which between them calls kmalloc and kfree. A
// block the kernel takes straight from buddy_alloc is what kmalloc of its size returns.
module KernelMemory {
  import opened AllocatorCalls
  import opened Bits
  import opened BuddyInit
  import opened BuddyLaws
  import opened BuddyRuns
  import opened Cow
  import opened CowOnBuddy
  import opened CowOverBuddy
  import opened PageOwner
  import opened PagePool
  import opened SlabLaws
  import opened SlabSpec
  import R = CowRefinement
  import S = SlabRuns

  // h is the slab layer on its frame array, w the address spaces on the same frames.
  ghost predicate Joint(h: Heap, w: World) {
    Good(h) && Inv(w) && InRegion(w) && Backed(h.pool, w)
  }

  // ---- a process step and the slab layer ----

  lemma ProcessGood(h: Heap, r: Pool)
    requires Good(h) && r.Valid() && Coalesced(r) && SlabsSame(h.pool, r)
    ensures Good(h.(pool := r)) && Objects(h.(pool := r)) == Objects(h)
  {
    assert LabelsOk(h.pool);
    forall p: nat
      ensures p in h.slabs ==> p in Live(r) && Live(r)[p] == Live(h.pool)[p]
      ensures p in Live(r) && Live(r)[p].owner == Slab ==> p in h.slabs
    {
      assert SlabSame(h.pool, r, p);
    }
    hide Pool.Valid, Coalesced, LabelsOk, Live, SlabsOk, ListsOk;
    PoolSwap(h, r);
  }

  // ---- a kernel step and the address spaces ----

  // To the address spaces, a kernel allocation or free only moves pages between free and held.
  function KernelStep(w: World, r: Pool): (x: World) {
    w.(free := FreePages(r), kernel := w.managed - FreePages(r) - InUse(w))
  }

  // The kernel's step left every page of a process as it was.
  ghost predicate LeavesPages(m: Pool, r: Pool, w: World) {
    && r.Valid() && Coalesced(r) && r.base == m.base && r.maxOrder == m.maxOrder
    && forall f: nat :: f in InUse(w) ==> SameBlock(m, r, f)
  }

  ghost predicate SameBlock(m: Pool, r: Pool, f: nat) {
    f in Live(m) && f in Live(r) && Live(r)[f] == Live(m)[f]
  }

  lemma InUseIsUsed(w: World, f: nat)
    requires Inv(w) && f in InUse(w)
    ensures MapCount(w.spaces, f) + UseCount(w.spaces, f) > 0
  {
    assert PageOk(w, f);
  }

  lemma KernelAccounts(m: Pool, w: World, r: Pool)
    requires Inv(w) && Backed(m, w) && LeavesPages(m, r, w)
    ensures InUse(KernelStep(w, r)) == InUse(w) && FreePages(r) !! InUse(w) && FreePages(r) <= w.managed
  {
    forall f | f in InUse(w)
      ensures f !in FreePages(r)
    {
      assert SameBlock(m, r, f) && IsPage(m, f, w.refs(f));
      LiveBlockNotFree(r, f);
      BlockOfOne(f);
    }
    FreeInRange(r);
    hide Pool.Valid, Coalesced, FreePages, Live, Range, Inv;
  }

  lemma KernelKeepsInv(m: Pool, w: World, r: Pool)
    requires Inv(w) && InRegion(w) && Backed(m, w) && LeavesPages(m, r, w)
    ensures Inv(KernelStep(w, r)) && InRegion(KernelStep(w, r))
  {
    hide Backed, LeavesPages, FreePages;
    KernelAccounts(m, w, r);
    var x := KernelStep(w, r);
    forall f: nat
      ensures PageOk(x, f)
    {
      assert PageOk(w, f);
      if MapCount(w.spaces, f) + UseCount(w.spaces, f) > 0 {
        UsedPage(w, f);
      } else if f in InUse(w) {
        InUseIsUsed(w, f);
      }
    }
    forall i: nat, p: PageTree.Path
      ensures AloneOk(x, i, p)
    {
      assert AloneOk(w, i, p);
    }
  }

  lemma KernelKeepsBacked(m: Pool, w: World, r: Pool)
    requires Inv(w) && Backed(m, w) && LeavesPages(m, r, w)
    ensures Backed(r, KernelStep(w, r))
  {
    KernelAccounts(m, w, r);
    hide Inv, Pool.Valid, Coalesced, FreePages, Live, Range;
    forall f | f in InUse(w)
      ensures IsPage(r, f, w.refs(f))
    {
      assert SameBlock(m, r, f) && IsPage(m, f, w.refs(f));
    }
  }

  // No process can tell.
  lemma KernelUnseen(w: World, r: Pool, e: R.Eager)
    requires R.Agrees(w, e)
    ensures R.Agrees(KernelStep(w, r), e)
  {
    var x := KernelStep(w, r);
    forall i: nat, p: PageTree.Path | |p| == LEVELS
      ensures R.PageAgrees(x, e, i, p)
    {
      assert R.PageAgrees(w, e, i, p);
    }
  }

  // ---- what kmalloc and kfree do to the blocks of others ----

  // The kernel frees what it was given, never a page of a process.
  ghost predicate MayRun(h: Heap, w: World, op: S.Op) {
    S.Allowed(h, op) && (op.DoFree? && op.grant.Whole? ==> op.grant.page !in InUse(w))
  }

  lemma SlabStepLeaves(h: Heap, w: World, op: S.Op)
    requires Joint(h, w) && MayRun(h, w, op) && S.Step(h, op).Running?
    ensures LeavesPages(h.pool, S.Step(h, op).heap.pool, w)
  {
    hide Pool.Valid, Coalesced, Inv, InRegion, S.Allowed, S.Step, FreePages, Range, SlabsOk, ListsOk, NoneIdle,
      LabelsOk;
    var r := S.Step(h, op).heap;
    S.StepGood(h, op);
    StepKeepsRegion(h, op);
    forall f: nat | f in InUse(w)
      ensures SameBlock(h.pool, r.pool, f)
    {
      assert IsPage(h.pool, f, w.refs(f));
      OtherPage(h, op, f);
    }
    assert r.pool.Valid() && Coalesced(r.pool);
  }

  // A page block outside the slab layer that is not freed stays as it is.
  lemma OtherPage(h: Heap, op: S.Op, f: nat)
    requires Good(h) && S.Allowed(h, op) && S.Step(h, op).Running?
    requires f in Live(h.pool) && Live(h.pool)[f].owner == Buddy && (op.DoFree? ==> op.grant != Whole(f))
    ensures SameBlock(h.pool, S.Step(h, op).heap.pool, f)
  {
    hide Good, Live, Objects, Kmalloc, Kfree, Freeable, Class, Total, Item, FreePages, Block;
    PagesAre(h, f);
    PagesAre(S.Step(h, op).heap, f);
    match op
    case DoMalloc(b, junk) => var g := KmallocLaw(h, b, junk);
    case DoFree(Object(p, i)) => S.KfreeObject(h, p, i);
    case DoFree(Whole(p)) => S.KfreeWhole(h, p);
  }

  lemma PagesAre(h: Heap, f: nat)
    ensures f in Pages(h) <==> f in Live(h.pool) && Live(h.pool)[f].owner != Slab
    ensures f in Pages(h) ==> Pages(h)[f] == Live(h.pool)[f]
  {
  }

  lemma StepKeepsRegion(h: Heap, op: S.Op)
    requires Good(h) && S.Allowed(h, op) && S.Step(h, op).Running?
    ensures var r := S.Step(h, op).heap.pool; r.base == h.pool.base && r.maxOrder == h.pool.maxOrder
  {
    match op
    case DoMalloc(b, junk) => MallocRegion(h, b, junk);
    case DoFree(g) => FreeRegion(h, g);
  }

  lemma MallocRegion(h: Heap, bytes: nat, junk: seq<bool>)
    requires Good(h) && |junk| == BITS && S.Step(h, S.DoMalloc(bytes, junk)).Running?
    ensures var r := S.Step(h, S.DoMalloc(bytes, junk)).heap.pool;
      r.base == h.pool.base && r.maxOrder == h.pool.maxOrder
  {
    hide Pool.Valid, Coalesced, LabelsOk, AllocOrder, SetOwner, OrderFor, PagesFor, Class, SlabsOk, NoneIdle,
      SlabPages;
    GoodListed(h);
    ClassIsLeast(bytes);
    var c := Class(bytes);
    AllocOrderLaw(h.pool, OrderFor(PagesFor(Pow2(c))));
    if c <= MAX_CLASS {
      SlabPagesRegion(h.pool, c);
    }
  }

  lemma SlabPagesRegion(m: Pool, c: nat)
    requires m.Valid() && Coalesced(m)
    ensures SlabPages(m, c).Alloc?
      ==> SlabPages(m, c).pool.base == m.base && SlabPages(m, c).pool.maxOrder == m.maxOrder
  {
    hide Pool.Valid, Coalesced, AllocOrder, SetOwner, OrderFor, PagesFor;
    var o := OrderFor(PagesFor(PAGE * (SlabOrder(c) + 1)));
    AllocOrderLaw(m, o);
    if AllocOrder(m, o).Alloc? {
      SlabPagesLaw(m, c);
      SetOwnerLaw(AllocOrder(m, o).pool, AllocOrder(m, o).page, Slab);
    }
  }

  lemma FreeRegion(h: Heap, g: Grant)
    requires Good(h) && S.Outstanding(h, g)
    ensures S.Step(h, S.DoFree(g)).Running?
    ensures var r := S.Step(h, S.DoFree(g)).heap.pool; r.base == h.pool.base && r.maxOrder == h.pool.maxOrder
  {
    hide Good, Kfree, Freeable, Objects, Pages;
    GoodCaches(h);
    match g
    case Object(p, i) =>
      S.KfreeObject(h, p, i);
      KfreeRegion(h, Address(p, h.slabs[p].size, i));
    case Whole(p) =>
      S.KfreeWhole(h, p);
      KfreeRegion(h, p * PAGE);
  }

  lemma GoodCaches(h: Heap)
    requires Good(h)
    ensures h.pool.Valid() && Coalesced(h.pool) && Caches(h)
  {
  }

  lemma KfreeRegion(h: Heap, addr: nat)
    requires h.pool.Valid() && Coalesced(h.pool) && Caches(h) && Freeable(h, addr) && Kfree(h, addr).Freed?
    ensures var r := Kfree(h, addr).heap.pool; r.base == h.pool.base && r.maxOrder == h.pool.maxOrder
  {
    hide Pool.Valid, Coalesced, BuddyFree, SlabFree, OwnerOf, HeadFromPage, Index;
    if addr != 0 && OwnerOf(h.pool, addr / PAGE).Buddy? {
      BuddyFreeLaw(h.pool, addr / PAGE);
    } else if addr != 0 && OwnerOf(h.pool, addr / PAGE).Slab? {
      var p := HeadFromPage(h.pool, addr / PAGE).page;
      SlabFreeRegion(h, p, Index(h.slabs[p], p, addr));
    }
  }

  lemma SlabFreeRegion(h: Heap, p: nat, i: nat)
    requires h.pool.Valid() && Coalesced(h.pool) && Caches(h) && p in h.slabs && i < |h.slabs[p].bits|
    requires p < |h.pool.frames| && MIN_CLASS <= h.slabs[p].size <= MAX_CLASS
    ensures var r := SlabFree(h, p, i).pool; r.base == h.pool.base && r.maxOrder == h.pool.maxOrder
  {
    hide Pool.Valid, Coalesced, BuddyFree;
    BuddyFreeLaw(h.pool, p);
  }

  // A block of any order straight from buddy_alloc is a request of its size.
  lemma PagesByMalloc(h: Heap, o: nat, junk: seq<bool>)
    requires Good(h) && |junk| == BITS && o <= 18
    ensures Listed(h)
    ensures Kmalloc(h, PAGE * Pow2(o), junk) ==
      match AllocOrder(h.pool, o) case Alloc(r, p) => Ok(h.(pool := r), p * PAGE) case NoMemory => Null(h)
  {
    hide Good, Pool.Valid, Coalesced, Listed, AllocOrder, Class, OrderFor, PagesFor, Pow2, SlabPages, TakeObject;
    GoodListed(h);
    GoodCaches(h);
    var bytes := PAGE * Pow2(o);
    PowerClass(o);
    WholePagesFit(bytes);
  }

  lemma PowerClass(o: nat)
    requires o <= 18
    ensures Class(PAGE * Pow2(o)) == 12 + o && PAGE * Pow2(o) <= 0x4000_0000
  {
    var bytes, c := PAGE * Pow2(o), Class(PAGE * Pow2(o));
    SmallPowers();
    Pow2Add(12, o);
    assert Pow2(12) == PAGE;
    hide Pow2, Class;
    Pow30();
    Pow2Monotone(12 + o, 30);
    ClassIsLeast(bytes);
    if c > 12 + o {
      Pow2Monotone(12 + o, c - 1);
    }
    if c < 12 + o {
      Pow2Above(c);
      Pow2Doubles(c);
      Pow2Monotone(c + 1, 12 + o);
    }
  }

  lemma Pow2Doubles(c: nat)
    ensures Pow2(c + 1) == 2 * Pow2(c)
  {
  }

  // ---- whole runs ----

  datatype Event = Process(op: R.Op) | Kernel(call: S.Op)

  // Only a kernel allocation that finds no page for a slab ends a run, in panic().
  ghost predicate Enabled(h: Heap, w: World, ev: Event)
    requires Joint(h, w)
  {
    match ev
    case Process(op) => R.Legal(w, op) && Fits(w, op) && Follows(h.pool, Touches(w, op))
    case Kernel(op) => MayRun(h, w, op) && S.Step(h, op).Running?
  }

  ghost function HeapAfter(h: Heap, w: World, ev: Event): (r: Heap)
    requires Joint(h, w) && Enabled(h, w, ev)
  {
    match ev
    case Process(op) => h.(pool := PoolAfter(h.pool, Touches(w, op)))
    case Kernel(op) => S.Step(h, op).heap
  }

  ghost function WorldAfter(h: Heap, w: World, ev: Event): (x: World)
    requires Joint(h, w) && Enabled(h, w, ev)
  {
    match ev
    case Process(op) => R.Step(w, op)
    case Kernel(op) => KernelStep(w, S.Step(h, op).heap.pool)
  }

  function EagerAfter(w: World, e: R.Eager, ev: Event): (f: R.Eager) {
    match ev
    case Process(op) => R.EagerStep(e, op, R.Initial(w, op))
    case Kernel(_) => e
  }

  lemma EventKeeps(h: Heap, w: World, ev: Event)
    requires Joint(h, w) && Enabled(h, w, ev)
    ensures Joint(HeapAfter(h, w, ev), WorldAfter(h, w, ev))
  {
    hide Good, Inv, InRegion, Backed, Follows, PoolAfter, Touches, SlabsSame, S.Step, R.Step, MayRun, LeavesPages;
    match ev
    case Process(op) =>
      StepBacked(h.pool, w, op);
      ProcessKeepsInv(w, op);
      BackedPool(PoolAfter(h.pool, Touches(w, op)), R.Step(w, op));
      ProcessGood(h, PoolAfter(h.pool, Touches(w, op)));
    case Kernel(op) =>
      AllowedCall(h, w, op);
      S.StepGood(h, op);
      SlabStepLeaves(h, w, op);
      KernelKeepsInv(h.pool, w, S.Step(h, op).heap.pool);
      KernelKeepsBacked(h.pool, w, S.Step(h, op).heap.pool);
  }

  lemma AllowedCall(h: Heap, w: World, op: S.Op)
    requires MayRun(h, w, op)
    ensures S.Allowed(h, op)
  {
  }

  lemma BackedPool(m: Pool, w: World)
    requires Backed(m, w)
    ensures m.Valid() && Coalesced(m)
  {
  }

  lemma ProcessKeepsInv(w: World, op: R.Op)
    requires Inv(w) && R.Legal(w, op)
    ensures Inv(R.Step(w, op))
  {
    hide Inv;
    match op
    case OpSpawn(n) => SpawnKeepsInv(w, n);
    case OpFork(i, c) => ForkKeepsInv(w, i, c);
    case OpWrite(i, p, off, b, picks) => WriteLaw(w, i, p, off, b, picks);
    case OpMap(i, p, n, a, picks) => MapFaultKeepsInv(w, i, p, n, a, picks);
    case OpReap(i) => ReapKeepsInv(w, i);
  }

  lemma EventAgrees(h: Heap, w: World, e: R.Eager, ev: Event)
    requires Joint(h, w) && Enabled(h, w, ev) && R.Agrees(w, e)
    ensures R.Agrees(WorldAfter(h, w, ev), EagerAfter(w, e, ev))
  {
    hide Good, Inv, InRegion, Backed, R.Agrees, Follows, S.Step, R.Step, R.EagerStep;
    match ev
    case Process(op) => R.StepAgrees(w, e, op);
    case Kernel(op) => KernelUnseen(w, S.Step(h, op).heap.pool, e);
  }

  ghost predicate Runs(h: Heap, w: World, e: R.Eager, evs: seq<Event>, h': Heap, w': World, e': R.Eager)
    requires Joint(h, w)
    decreases |evs|
  {
    if evs == [] then h' == h && w' == w && e' == e
    else
      && Enabled(h, w, evs[0])
      && (EventKeeps(h, w, evs[0]);
          Runs(HeapAfter(h, w, evs[0]), WorldAfter(h, w, evs[0]), EagerAfter(w, e, evs[0]), evs[1..], h', w', e'))
  }

  lemma {:induction false} RunsKeep(h: Heap, w: World, e: R.Eager, evs: seq<Event>, h': Heap, w': World, e': R.Eager)
    requires Joint(h, w) && R.Agrees(w, e) && Runs(h, w, e, evs, h', w', e')
    ensures Joint(h', w') && R.Agrees(w', e')
    decreases |evs|
  {
    hide Joint, R.Agrees, Enabled, HeapAfter, WorldAfter, EagerAfter;
    if evs != [] {
      EventKeeps(h, w, evs[0]);
      EventAgrees(h, w, e, evs[0]);
      RunsKeep(HeapAfter(h, w, evs[0]), WorldAfter(h, w, evs[0]), EagerAfter(w, e, evs[0]), evs[1..], h', w', e');
    }
  }

  // No process yet; whatever pages are taken are the kernel's.
  function Before(h: Heap, refs: nat -> nat, data: nat -> PageData): (w: World) {
    var managed := Range(h.pool.base, Pow2(h.pool.maxOrder));
    R.NoProcesses(managed, managed - FreePages(h.pool), refs, data)
  }

  lemma BeforeJoint(h: Heap, refs: nat -> nat, data: nat -> PageData)
    requires Good(h)
    ensures Joint(h, Before(h, refs, data)) && R.Agrees(Before(h, refs, data), [])
  {
    var w := Before(h, refs, data);
    FreeInRange(h.pool);
    BootInv(w.managed, w.kernel, refs, data);
    assert h.pool.Valid() && Coalesced(h.pool);
    hide Good, Pool.Valid, Coalesced, FreePages, Live, Range, Inv;
    assert w.free == FreePages(h.pool) && InUse(w) == {};
    assert InRegion(w);
  }

  ghost predicate FromBoot(maxOrder: nat, base: nat, refs: nat -> nat, data: nat -> PageData, evs: seq<Event>,
          h: Heap, w: World, e: R.Eager)
    requires maxOrder < base <= Pow2(maxOrder)
  {
    S.EmptyGood(maxOrder, base);
    var h0 := S.EmptyHeap(Boot(maxOrder, base));
    BeforeJoint(h0, refs, data);
    Runs(h0, Before(h0, refs, data), [], evs, h, w, e)
  }

  // Over every run from boot, whatever processes and kernel do in whatever order: the pool is
  // valid with no free buddies apart, the slab layer exact; a page a process maps or uses as a
  // table is an allocated block of one page whose count is the number of its mappings and
  // tables; and every process reads what eager copying would give it.
  lemma MemoryRuns(maxOrder: nat, base: nat, refs: nat -> nat, data: nat -> PageData, evs: seq<Event>,
          h: Heap, w: World, e: R.Eager)
    requires maxOrder < base <= Pow2(maxOrder) && FromBoot(maxOrder, base, refs, data, evs, h, w, e)
    ensures Good(h) && h.pool.Valid() && Coalesced(h.pool) && w.free == FreePages(h.pool) && R.Agrees(w, e)
    ensures forall f: nat :: MapCount(w.spaces, f) + UseCount(w.spaces, f) > 0 ==>
      IsPage(h.pool, f, MapCount(w.spaces, f) + UseCount(w.spaces, f))
  {
    hide Good, Joint, Runs, R.Agrees, IsPage, Pool.Valid, Coalesced, FreePages, Before, MapCount, UseCount;
    S.EmptyGood(maxOrder, base);
    var h0 := S.EmptyHeap(Boot(maxOrder, base));
    BeforeJoint(h0, refs, data);
    RunsKeep(h0, Before(h0, refs, data), [], evs, h, w, e);
    JointPages(h, w);
  }

  lemma JointPages(h: Heap, w: World)
    requires Joint(h, w)
    ensures Good(h) && h.pool.Valid() && Coalesced(h.pool) && w.free == FreePages(h.pool)
    ensures forall f: nat :: MapCount(w.spaces, f) + UseCount(w.spaces, f) > 0 ==>
      IsPage(h.pool, f, MapCount(w.spaces, f) + UseCount(w.spaces, f))
  {
    GoodCaches(h);
    hide Good, Pool.Valid, Coalesced, FreePages, IsPage;
    forall f: nat | MapCount(w.spaces, f) + UseCount(w.spaces, f) > 0
      ensures IsPage(h.pool, f, MapCount(w.spaces, f) + UseCount(w.spaces, f))
    {
      UsedPage(w, f);
    }
  }

  // And kernel memory is never process memory: no byte of a kernel object or of a block the
  // kernel holds lies on a page that a process maps or uses as a table.
  lemma KernelApart(maxOrder: nat, base: nat, refs: nat -> nat, data: nat -> PageData, evs: seq<Event>,
          h: Heap, w: World, e: R.Eager, g: Grant, a: nat)
    requires maxOrder < base <= Pow2(maxOrder) && FromBoot(maxOrder, base, refs, data, evs, h, w, e)
    requires S.Outstanding(h, g) && (g.Object? ==> g.page in h.slabs) && (g.Whole? ==> g.page in Live(h.pool))
    requires g.Whole? ==> MapCount(w.spaces, g.page) + UseCount(w.spaces, g.page) == 0
    requires S.First(h, g) <= a < S.First(h, g) + S.Size(h, g)
    ensures MapCount(w.spaces, a / PAGE) + UseCount(w.spaces, a / PAGE) == 0
  {
    hide Good, Coalesced, IsPage, Pool.Valid, Live, FreePages, FromBoot, R.Agrees, S.First, S.Size;
    MemoryRuns(maxOrder, base, refs, data, evs, h, w, e);
    S.Placed(h, g);
    S.PagesHeld(h, g, a);
    SlabIsSlab(h, g);
    var f := a / PAGE;
    if MapCount(w.spaces, f) + UseCount(w.spaces, f) > 0 {
      PageIsHome(h, g, f, MapCount(w.spaces, f) + UseCount(w.spaces, f));
      assert false;
    }
  }

  lemma PageIsHome(h: Heap, g: Grant, f: nat, refs: nat)
    requires h.pool.Valid() && IsPage(h.pool, f, refs) && f < |h.pool.frames|
    requires HeadFromPage(h.pool, f) == Head(S.Home(g))
    ensures S.Home(g) == f && f in Live(h.pool) && Live(h.pool)[f].owner == Buddy
  {
    hide Pool.Valid, Live;
    BlockOfOne(f);
    LookupsFindBlock(h.pool, f, f);
  }

  lemma SlabIsSlab(h: Heap, g: Grant)
    requires Good(h) && S.Outstanding(h, g)
    ensures g.Object? ==> g.page in Live(h.pool) && Live(h.pool)[g.page].owner == Slab
  {
    S.Placed(h, g);
  }
}
