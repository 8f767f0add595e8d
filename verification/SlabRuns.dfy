// Whole runs of kmalloc and kfree: what is outstanding never overlaps, and giving
// everything back leaves no slab and no page behind.
module SlabRuns {
  import opened Bits
  import opened PagePool
  import opened BuddyLaws
  import opened BuddyInit
  import opened PageOwner
  import opened SlabSpec
  import opened SlabLaws

  // Everything handed out and not yet freed.
  ghost predicate Outstanding(h: Heap, g: Grant) {
    match g
    case Object(p, i) => (p, i) in Objects(h)
    case Whole(p) => p in Pages(h)
  }

  function First(h: Heap, g: Grant): (a: nat)
    requires match g case Object(p, _) => p in h.slabs case Whole(_) => true
  {
    match g
    case Object(p, i) => Address(p, h.slabs[p].size, i)
    case Whole(p) => p * PAGE
  }

  function Size(h: Heap, g: Grant): (n: nat)
    requires match g case Object(p, _) => p in h.slabs case Whole(p) => p in Live(h.pool)
  {
    match g
    case Object(p, _) => Item(h.slabs[p].size)
    case Whole(p) => PAGE * Pow2(Live(h.pool)[p].order)
  }

  // The block a grant lies in.
  function Home(g: Grant): (p: nat) {
    match g case Object(p, _) => p case Whole(p) => p
  }

  lemma Placed(h: Heap, g: Grant)
    requires Good(h) && Outstanding(h, g)
    ensures Home(g) in Live(h.pool)
    ensures match g case Object(p, i) => p in h.slabs && i < Total(h.slabs[p].size)
      && MIN_CLASS <= h.slabs[p].size <= MAX_CLASS && Live(h.pool)[p].order == SlabOrder(h.slabs[p].size)
        && i in Used(h.slabs[p]) case Whole(_) => true
  {
    hide Pool.Valid, Coalesced, LabelsOk;
    match g
    case Object(p, i) => ObjectsIn(h, p, i);
    case Whole(p) =>
  }

  // A slab object lies in its slab's block, past the header.
  lemma InsideBlock(h: Heap, g: Grant)
    requires Good(h) && Outstanding(h, g)
    ensures Home(g) in Live(h.pool) && (g.Object? ==> g.page in h.slabs)
    ensures Home(g) * PAGE + (if g.Object? then HEADER else 0) <= First(h, g)
    ensures First(h, g) + Size(h, g) <= (Home(g) + Pow2(Live(h.pool)[Home(g)].order)) * PAGE
  {
    Placed(h, g);
    hide Pool.Valid, Coalesced, LabelsOk, Live, Total, Item, FirstItem, SlabBytes, Good, Outstanding, SlabOrder;
    match g
    case Object(p, i) => ObjectInside(p, h.slabs[p].size, i);
    case Whole(p) => assert (p + Pow2(Live(h.pool)[p].order)) * PAGE == p * PAGE + PAGE * Pow2(Live(h.pool)[p].order);
  }

  lemma ObjectInside(p: nat, c: nat, i: nat)
    requires MIN_CLASS <= c <= MAX_CLASS && i < Total(c)
    ensures p * PAGE + HEADER <= Address(p, c, i) && Address(p, c, i) + Item(c) <= (p + Pow2(SlabOrder(c))) * PAGE
  {
    Geometry(c);
    hide Total, Item, FirstItem, SlabBytes, SlabOrder;
    Scaled(i + 1, Total(c), Item(c));
    assert (i + 1) * Item(c) == i * Item(c) + Item(c);
  }

  lemma Scaled(a: nat, b: nat, d: nat)
    requires a <= b
    ensures a * d <= b * d
  {
    ProductMonotone(a, b, d);
  }

  // Outstanding objects and pages never overlap.
  lemma NeverOverlap(h: Heap, g: Grant, k: Grant)
    requires Good(h) && Outstanding(h, g) && Outstanding(h, k) && g != k
    ensures (g.Object? ==> g.page in h.slabs) && (k.Object? ==> k.page in h.slabs) && Home(g) in Live(h.pool)
    ensures Home(k) in Live(h.pool)
    ensures First(h, g) + Size(h, g) <= First(h, k) || First(h, k) + Size(h, k) <= First(h, g)
  {
    InsideBlock(h, g);
    InsideBlock(h, k);
    Placed(h, g);
    Placed(h, k);
    if Home(g) == Home(k) {
      SameBlockApart(h, g, k);
    } else {
      BlocksApart(h, Home(g), Home(k));
    }
  }

  lemma BlocksApart(h: Heap, p: nat, q: nat)
    requires Good(h) && p in Live(h.pool) && q in Live(h.pool) && p != q
    ensures (p + Pow2(Live(h.pool)[p].order)) * PAGE <= q * PAGE || (q + Pow2(Live(h.pool)[q].order)) * PAGE <= p * PAGE
  {
    LiveBlocksApart(h.pool, p, q);
    hide Pool.Valid, Coalesced, LabelsOk, Good;
    var a, b := Block(p, Live(h.pool)[p].order), Block(q, Live(h.pool)[q].order);
    assert p in a && q in b;
    assert q !in a && p !in b;
  }

  lemma SameBlockApart(h: Heap, g: Grant, k: Grant)
    requires Good(h) && Outstanding(h, g) && Outstanding(h, k) && g != k && Home(g) == Home(k)
    ensures g.Object? && k.Object? && g.page in h.slabs
    ensures First(h, g) + Size(h, g) <= First(h, k) || First(h, k) + Size(h, k) <= First(h, g)
  {
    Placed(h, g);
    Placed(h, k);
    BothObjects(h, g, k);
    hide Pool.Valid, Coalesced, LabelsOk, Live, Total, FirstItem, Good;
    var c := h.slabs[g.page].size;
    if g.index < k.index {
      Scaled(g.index + 1, k.index, Item(c));
      assert (g.index + 1) * Item(c) == g.index * Item(c) + Item(c);
    } else {
      Scaled(k.index + 1, g.index, Item(c));
      assert (k.index + 1) * Item(c) == k.index * Item(c) + Item(c);
    }
  }

  lemma BothObjects(h: Heap, g: Grant, k: Grant)
    requires Good(h) && Outstanding(h, g) && Outstanding(h, k) && g != k && Home(g) == Home(k)
    ensures g.Object? && k.Object? && g.index != k.index
  {
    Placed(h, g);
    Placed(h, k);
    hide Pool.Valid, Coalesced, LabelsOk, Objects;
    assert g.Object? ==> Live(h.pool)[g.page].owner == Slab;
    assert k.Object? ==> Live(h.pool)[k.page].owner == Slab;
  }

  // No page of an outstanding grant is free or reserved.
  lemma PagesHeld(h: Heap, g: Grant, a: nat)
    requires Good(h) && Outstanding(h, g) && Home(g) in Live(h.pool) && (g.Object? ==> g.page in h.slabs)
    requires First(h, g) <= a < First(h, g) + Size(h, g)
    ensures a / PAGE !in FreePages(h.pool) && h.pool.base <= a / PAGE < Pow2(h.pool.maxOrder)
    ensures a / PAGE < |h.pool.frames| && HeadFromPage(h.pool, a / PAGE) == Head(Home(g))
    ensures OwnerOf(h.pool, a / PAGE) == Live(h.pool)[Home(g)].owner
  {
    InsideBlock(h, g);
    var p := Home(g);
    assert a / PAGE in Block(p, Live(h.pool)[p].order) by {
      hide Pool.Valid, Coalesced, LabelsOk, Live, Good, First, Size;
    }
    LiveBlockNotFree(h.pool, p);
    LookupsFindBlock(h.pool, p, a / PAGE);
  }

  // ---- freeing by address ----

  lemma IndexOf(c: nat, p: nat, i: nat)
    requires MIN_CLASS <= c <= MAX_CLASS
    ensures (Address(p, c, i) - p * PAGE) / Item(c) - FirstItem(c) / Item(c) == i
  {
    Geometry(c);
    hide FirstItem, Item;
    var d := Item(c);
    assert d > 0;
    DivShift(FirstItem(c), d, i);
  }

  // What kfree's callers owe it: not to pass an address inside the header of a slab.
  lemma FreeableIff(h: Heap, addr: nat)
    requires Good(h) && addr / PAGE < |h.pool.frames|
    ensures InSlab(h, addr) <==> HeadOf(h.pool, addr / PAGE) in h.slabs
    ensures Freeable(h, addr) <==>
      (addr != 0 && InSlab(h, addr)
       ==> addr >= HeadOf(h.pool, addr / PAGE) * PAGE + FirstItem(h.slabs[HeadOf(h.pool, addr / PAGE)].size))
  {
    SlabAddress(h, addr);
    var p := HeadOf(h.pool, addr / PAGE);
    hide Good, Pool.Valid, OwnerOf, HeadFromPage, HeadOf, FirstItem, Index, InSlab, Pow2;
    if InSlab(h, addr) {
      IndexInRange(h.slabs[p], p, addr);
    }
  }

  lemma SlabAddress(h: Heap, addr: nat)
    requires Good(h) && addr / PAGE < |h.pool.frames|
    ensures var p := HeadOf(h.pool, addr / PAGE);
      && h.pool.Valid() && Caches(h)
      && (InSlab(h, addr) <==> p in h.slabs)
      && (p in h.slabs ==>
            && HeadFromPage(h.pool, addr / PAGE) == Head(p) && p < |h.pool.frames|
            && MIN_CLASS <= h.slabs[p].size <= MAX_CLASS && |h.slabs[p].bits| == BITS
            && p <= addr / PAGE < p + Pow2(SlabOrder(h.slabs[p].size)))
  {
    var p := HeadOf(h.pool, addr / PAGE);
    SlabOwnerIff(h.pool, addr / PAGE);
    hide Pool.Valid, Coalesced, LabelsOk, Live, OwnerOf, HeadFromPage, HeadOf, ListsOk;
    if InSlab(h, addr) {
      SlabFacts(h, p);
      SlabOwnerMeansLive(h.pool, addr / PAGE);
    }
  }

  lemma IndexInRange(s: SlabInfo, p: nat, addr: nat)
    requires MIN_CLASS <= s.size <= MAX_CLASS && p <= addr / PAGE < p + Pow2(SlabOrder(s.size))
    ensures Index(s, p, addr) < BITS && (0 <= Index(s, p, addr) <==> addr >= p * PAGE + FirstItem(s.size))
  {
    var c := s.size;
    Geometry(c);
    hide FirstItem, Total, SlabBytes, SlabOrder, Pow2, Item;
    InsideBytes(p, Pow2(SlabOrder(c)), addr);
    DivisionsInRange(addr - p * PAGE, Item(c), FirstItem(c) / Item(c), Total(c));
  }

  lemma InsideBytes(p: nat, n: nat, addr: nat)
    requires p <= addr / PAGE < p + n
    ensures p * PAGE <= addr < (p + n) * PAGE
  {
  }

  lemma DivisionsInRange(x: nat, d: nat, f: nat, n: nat)
    requires d > 0 && x < f * d + n * d
    ensures x / d < f + n && (x / d >= f <==> x >= f * d)
  {
    DivAtLeast(x, d, f);
    DivAtLeast(x, d, f + n);
    assert (f + n) * d == f * d + n * d;
  }

  lemma DivAtLeast(x: nat, d: nat, f: nat)
    requires d > 0
    ensures x / d >= f <==> x >= f * d
  {
    assert x == x / d * d + x % d;
    if x / d >= f {
      ProductMonotone(f, x / d, d);
    } else {
      ProductMonotone(x / d + 1, f, d);
    }
  }

  lemma KfreeObject(h: Heap, p: nat, i: nat)
    requires Good(h) && (p, i) in Objects(h)
    ensures p in h.slabs && Freeable(h, Address(p, h.slabs[p].size, i))
    ensures var r := Kfree(h, Address(p, h.slabs[p].size, i));
      && r.Freed? && Good(r.heap) && Objects(r.heap) == Objects(h) - {(p, i)} && Pages(r.heap) == Pages(h)
  {
    var g := Object(p, i);
    Placed(h, g);
    InsideBlock(h, g);
    var c := h.slabs[p].size;
    var a := Address(p, c, i);
    PagesHeld(h, g, a);
    IndexOf(c, p, i);
    SlabFreeLaw(h, p, i);
    KfreeIsSlabFree(h, p, i, a);
  }

  lemma KfreeIsSlabFree(h: Heap, p: nat, i: nat, a: nat)
    requires Good(h) && p in h.slabs && i in Used(h.slabs[p]) && p < |h.pool.frames|
    requires a / PAGE < |h.pool.frames| && a > 0 && OwnerOf(h.pool, a / PAGE) == Slab
    requires HeadFromPage(h.pool, a / PAGE) == Head(p)
    requires Index(h.slabs[p], p, a) == i
    ensures Freeable(h, a) && Kfree(h, a) == Freed(SlabFree(h, p, i))
  {
    hide Coalesced, LabelsOk, SlabFree, OwnerOf, HeadFromPage, Index, Live;
  }

  lemma KfreeWhole(h: Heap, p: nat)
    requires Good(h) && p in Pages(h)
    ensures Freeable(h, p * PAGE)
    ensures var r := Kfree(h, p * PAGE);
      && r.Freed? && Good(r.heap) && Objects(r.heap) == Objects(h) && Pages(r.heap) == Pages(h) - {p}
      && FreePages(r.heap.pool) == FreePages(h.pool) + Block(p, Live(h.pool)[p].order)
  {
    hide Coalesced, LabelsOk, BuddyFree, Kfree, Freeable, Objects, Pages, FreePages, Live;
    WholeOwner(h, p);
    BuddyFreeLaw(h.pool, p);
    FreeKeepsLabels(h.pool, p);
    WholeSlabs(h, p);
    PoolSwap(h, BuddyFree(h.pool, p));
    LessPages(h, p);
    KfreeIsBuddyFree(h, p);
  }

  lemma WholeSlabs(h: Heap, p: nat)
    requires Good(h) && p in Pages(h) && Live(BuddyFree(h.pool, p)) == Live(h.pool) - {p}
    ensures var m := BuddyFree(h.pool, p);
      && (forall q :: q in h.slabs ==> q in Live(m) && Live(m)[q] == Live(h.pool)[q])
      && (forall q :: q in Live(m) && Live(m)[q].owner == Slab ==> q in h.slabs)
  {
    hide Pool.Valid, Coalesced, LabelsOk, Live, BuddyFree;
  }

  lemma KfreeIsBuddyFree(h: Heap, p: nat)
    requires Good(h) && p in Pages(h) && p > 0 && p < |h.pool.frames|
    ensures Freeable(h, p * PAGE) && Kfree(h, p * PAGE) == Freed(h.(pool := BuddyFree(h.pool, p)))
  {
    var g := Whole(p);
    InsideBlock(h, g);
    PagesHeld(h, g, p * PAGE);
    WholeOwner(h, p);
    hide Pool.Valid, Coalesced, LabelsOk, Live, BuddyFree, OwnerOf, HeadFromPage;
  }

  lemma WholeOwner(h: Heap, p: nat)
    requires Good(h) && p in Pages(h)
    ensures Live(h.pool)[p].owner == Buddy && p > 0 && p < |h.pool.frames|
  {
    assert h.pool.IsHead(p);
  }

  lemma LessPages(h: Heap, p: nat)
    requires Good(h) && p in Pages(h) && Live(BuddyFree(h.pool, p)) == Live(h.pool) - {p}
    ensures Pages(h.(pool := BuddyFree(h.pool, p))) == Pages(h) - {p}
  {
    hide Good, BuddyFree, Live;
  }

  // ---- runs ----

  datatype Op = DoMalloc(bytes: nat, junk: seq<bool>) | DoFree(grant: Grant)

  ghost predicate Allowed(h: Heap, op: Op) {
    match op
    case DoMalloc(_, junk) => |junk| == BITS
    case DoFree(g) => Outstanding(h, g)
  }

  // A run ends in panic() only when no page can be found for a new slab.
  datatype State = Running(heap: Heap) | Panicked

  ghost function Step(h: Heap, op: Op): (s: State)
    requires Good(h) && Allowed(h, op)
  {
    match op
    case DoMalloc(b, junk) =>
      GoodListed(h);
      (var r := Kmalloc(h, b, junk); if r.Panic? then Panicked else Running(r.heap))
    case DoFree(Object(p, i)) =>
      KfreeObject(h, p, i);
      Running(Kfree(h, Address(p, h.slabs[p].size, i)).heap)
    case DoFree(Whole(p)) =>
      KfreeWhole(h, p);
      Running(Kfree(h, p * PAGE).heap)
  }

  lemma StepGood(h: Heap, op: Op)
    requires Good(h) && Allowed(h, op)
    ensures Step(h, op).Running? ==> Good(Step(h, op).heap)
  {
    match op
    case DoMalloc(b, junk) => var g := KmallocLaw(h, b, junk);
    case DoFree(Object(p, i)) => KfreeObject(h, p, i);
    case DoFree(Whole(p)) => KfreeWhole(h, p);
  }

  // A free removes exactly the grant freed; an allocation removes none and adds at most one.
  lemma StepOutstanding(h: Heap, op: Op, g: Grant)
    requires Good(h) && Allowed(h, op) && Step(h, op).Running?
    ensures op.DoFree? ==> (Outstanding(Step(h, op).heap, g) <==> Outstanding(h, g) && g != op.grant)
    ensures op.DoMalloc? ==> (Outstanding(h, g) ==> Outstanding(Step(h, op).heap, g))
  {
    match op
    case DoMalloc(b, junk) => MallocOutstanding(h, b, junk, g);
    case DoFree(k) => FreeOutstanding(h, k, g);
  }

  lemma MallocOutstanding(h: Heap, bytes: nat, junk: seq<bool>, g: Grant)
    requires Good(h) && |junk| == BITS && Step(h, DoMalloc(bytes, junk)).Running?
    ensures Outstanding(h, g) ==> Outstanding(Step(h, DoMalloc(bytes, junk)).heap, g)
  {
    hide Good, Kmalloc, Objects, Pages, Class, Total, Item;
    var k := KmallocLaw(h, bytes, junk);
  }

  lemma FreeOutstanding(h: Heap, k: Grant, g: Grant)
    requires Good(h) && Outstanding(h, k)
    ensures Step(h, DoFree(k)).Running? && (Outstanding(Step(h, DoFree(k)).heap, g) <==> Outstanding(h, g) && g != k)
  {
    hide Good, Kfree, Objects, Pages;
    match k
    case Object(p, i) => KfreeObject(h, p, i);
    case Whole(p) => KfreeWhole(h, p);
  }

  ghost predicate Reaches(h: Heap, ops: seq<Op>, h': Heap)
    requires Good(h)
    decreases |ops|
  {
    if ops == [] then h' == h
    else
      && Allowed(h, ops[0]) && Step(h, ops[0]).Running?
      && (StepGood(h, ops[0]); Reaches(Step(h, ops[0]).heap, ops[1..], h'))
  }

  ghost predicate FromBoot(maxOrder: nat, base: nat, ops: seq<Op>, h: Heap)
    requires maxOrder < base <= Pow2(maxOrder)
  {
    EmptyGood(maxOrder, base);
    Reaches(EmptyHeap(Boot(maxOrder, base)), ops, h)
  }

  function EmptyHeap(pool: Pool): (h: Heap) {
    Heap(pool, map[], [[], [], [], [], [], [], []], [[], [], [], [], [], [], []])
  }

  lemma EmptyGood(maxOrder: nat, base: nat)
    requires maxOrder < base <= Pow2(maxOrder)
    ensures Good(EmptyHeap(Boot(maxOrder, base)))
  {
    BootIsValid(maxOrder, base);
    BootLabels(maxOrder, base);
    NoSlabs(Boot(maxOrder, base));
  }

  lemma NoSlabs(pool: Pool)
    requires pool.Valid() && Coalesced(pool) && LabelsOk(pool) && Live(pool) == map[]
    ensures Good(EmptyHeap(pool))
  {
    hide Pool.Valid, Coalesced, LabelsOk, Live;
  }

  lemma {:induction false} RunsGood(h: Heap, ops: seq<Op>, h': Heap)
    requires Good(h) && Reaches(h, ops, h')
    ensures Good(h')
    decreases |ops|
  {
    if ops != [] {
      StepGood(h, ops[0]);
      RunsGood(Step(h, ops[0]).heap, ops[1..], h');
    }
  }

  // The address is on a managed page that is not free.
  predicate OffFree(h: Heap, a: nat) {
    a / PAGE !in FreePages(h.pool) && h.pool.base <= a / PAGE < Pow2(h.pool.maxOrder)
  }

  // Over every run from boot: the slab lists are exact, and any two outstanding grants are
  // disjoint, inside their blocks and on no free page.
  lemma LiveObjectSafety(maxOrder: nat, base: nat, ops: seq<Op>, h: Heap, g: Grant, k: Grant)
    requires maxOrder < base <= Pow2(maxOrder) && FromBoot(maxOrder, base, ops, h)
    requires Outstanding(h, g) && Outstanding(h, k) && g != k
    ensures Good(h)
    ensures (g.Object? ==> g.page in h.slabs) && (k.Object? ==> k.page in h.slabs) && Home(g) in Live(h.pool)
    ensures Home(k) in Live(h.pool)
    ensures First(h, g) + Size(h, g) <= First(h, k) || First(h, k) + Size(h, k) <= First(h, g)
    ensures Home(g) * PAGE + (if g.Object? then HEADER else 0) <= First(h, g)
    ensures First(h, g) + Size(h, g) <= (Home(g) + Pow2(Live(h.pool)[Home(g)].order)) * PAGE
    ensures forall a: nat :: First(h, g) <= a < First(h, g) + Size(h, g) ==> OffFree(h, a)
  {
    EmptyGood(maxOrder, base);
    RunsGood(EmptyHeap(Boot(maxOrder, base)), ops, h);
    NeverOverlap(h, g, k);
    InsideBlock(h, g);
    forall a: nat | First(h, g) <= a < First(h, g) + Size(h, g)
      ensures OffFree(h, a)
    {
      PagesHeld(h, g, a);
    }
  }

  // When every object has been freed no slab is left on any list, and when the whole pages
  // are back too, every page of the region is free.
  lemma NothingLeaks(h: Heap)
    requires Good(h) && Objects(h) == {}
    ensures h.slabs == map[] && (forall k :: 0 <= k < CACHES ==> h.partial[k] == [] && h.full[k] == [])
    ensures Pages(h) == map[] ==> FreePages(h.pool) == Range(h.pool.base, Pow2(h.pool.maxOrder))
  {
    forall p | p in h.slabs
      ensures false
    {
      assert h.slabs[p].inuse == |Used(h.slabs[p])|;
      var i :| i in Used(h.slabs[p]);
      ObjectsIn(h, p, i);
    }
    forall k | 0 <= k < CACHES
      ensures h.partial[k] == [] && h.full[k] == []
    {
      HasElement(h.partial[k]);
      HasElement(h.full[k]);
    }
    if Pages(h) == map[] {
      assert forall p :: p in Live(h.pool) ==> p in h.slabs || p in Pages(h);
      AllFree(h.pool);
    }
  }

  lemma HasElement(s: seq<nat>)
    ensures s != [] ==> exists x: nat :: x in s
  {
    if s != [] {
      assert s[0] in s;
    }
  }

  lemma AllFree(m: Pool)
    requires m.Valid() && Live(m).Keys == {}
    ensures FreePages(m) == Range(m.base, Pow2(m.maxOrder))
  {
    forall q: nat
      ensures q in FreePages(m) <==> m.base <= q < Pow2(m.maxOrder)
    {
      if m.base <= q < Pow2(m.maxOrder) {
        PagesConserved(m, q);
      }
    }
  }
}
