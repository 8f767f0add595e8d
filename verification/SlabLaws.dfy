// What kmalloc and kfree keep: the slab state machine, and live objects that never overlap.
module SlabLaws {
  import opened Bits
  import opened ListSpec
  import opened PagePool
  import opened BuddyLaws
  import opened BuddyRuns
  import opened PageOwner
  import opened SlabSpec

  // Objects handed out from a slab.
  function Used(s: SlabInfo): (u: set<nat>) {
    set i: nat | i < s.total && i < |s.bits| && s.bits[i] && i !in s.lost
  }

  ghost predicate SlabOk(s: SlabInfo) {
    && MIN_CLASS <= s.size <= MAX_CLASS && s.total == Total(s.size) && |s.bits| == BITS
    && (forall i :: i in s.lost ==> 64 <= i < s.total && s.bits[i])
    && s.inuse == |Used(s)|
  }

  // A slab is on the full list of its class when every object is out, on the partial list
  // of its class otherwise, and on no other list; a slab with nothing out does not exist.
  ghost predicate OnPartial(h: Heap, k: nat, p: nat) {
    p in h.slabs && h.slabs[p].size == k + MIN_CLASS && h.slabs[p].inuse < h.slabs[p].total
  }

  ghost predicate OnFull(h: Heap, k: nat, p: nat) {
    p in h.slabs && h.slabs[p].size == k + MIN_CLASS && h.slabs[p].inuse == h.slabs[p].total
  }

  ghost predicate ListsOk(h: Heap) {
    && Caches(h)
    && (forall k, p: nat :: 0 <= k < CACHES ==> (p in h.partial[k] <==> OnPartial(h, k, p)))
    && (forall k, p: nat :: 0 <= k < CACHES ==> (p in h.full[k] <==> OnFull(h, k, p)))
    && (forall k :: 0 <= k < CACHES ==> NoDup(h.partial[k]) && NoDup(h.full[k]))
  }

  ghost predicate BlocksOk(h: Heap) {
    && h.pool.Valid() && Coalesced(h.pool) && LabelsOk(h.pool)
    && (forall p :: p in h.slabs <==> p in Live(h.pool) && Live(h.pool)[p].owner == Slab)
    && (forall p :: p in h.slabs ==> Live(h.pool)[p].order == SlabOrder(h.slabs[p].size))
  }

  ghost predicate SlabsOk(h: Heap) {
    forall p :: p in h.slabs ==> SlabOk(h.slabs[p])
  }

  ghost predicate NoneIdle(h: Heap) {
    forall p :: p in h.slabs ==> h.slabs[p].inuse > 0
  }

  ghost predicate Good(h: Heap) {
    BlocksOk(h) && SlabsOk(h) && ListsOk(h) && NoneIdle(h)
  }

  // An object is a slab page and an index in it.
  function Objects(h: Heap): (o: set<(nat, nat)>) {
    set p, i | p in h.slabs && i in Used(h.slabs[p]) :: (p, i)
  }

  lemma ObjectsIn(h: Heap, p: nat, i: nat)
    ensures (p, i) in Objects(h) <==> p in h.slabs && i in Used(h.slabs[p])
  {
  }

  // Blocks given out by the page path.
  function Pages(h: Heap): (l: map<nat, Frame>) {
    map p | p in Live(h.pool) && Live(h.pool)[p].owner != Slab :: Live(h.pool)[p]
  }

  // ---- counting ----

  lemma UsedBelow(s: SlabInfo)
    requires SlabOk(s)
    ensures Used(s) <= Range(0, s.total) && |Used(s)| <= s.total
    ensures s.inuse == s.total ==> Used(s) == Range(0, s.total)
  {
    RangeSize(0, s.total);
    SubsetSize(Used(s), Range(0, s.total));
  }

  lemma SubsetSize(a: set<nat>, b: set<nat>)
    requires a <= b
    ensures |a| <= |b| && (|a| == |b| ==> a == b)
  {
    assert b == a + (b - a);
    assert |b| == |a| + |b - a|;
  }

  // kmalloc takes an object from a slab exactly when some object of it is neither out nor
  // lost to a stale bit; on classes above 32 bytes a partial slab always yields one.
  lemma YieldIff(s: SlabInfo)
    requires SlabOk(s) && s.total <= |s.bits|
    ensures FirstClear(s.bits, 0, s.total) < s.total <==> s.inuse + |s.lost| < s.total
    ensures s.size > MIN_CLASS ==> s.lost == {}
  {
    BitsTaken(s);
    Geometry(s.size);
    hide SlabOk, FirstClear, Total, Used;
    forall i | i in s.lost
      ensures 64 <= i < s.total == Total(s.size)
    {
      LostIsHigh(s, i);
    }
  }

  lemma LostIsHigh(s: SlabInfo, i: nat)
    requires SlabOk(s) && i in s.lost
    ensures 64 <= i < s.total == Total(s.size)
  {
  }

  // The scan finds a clear bit exactly when the bits in use and the stale ones do not fill
  // the slab.
  lemma BitsTaken(s: SlabInfo)
    requires SlabOk(s) && s.total <= |s.bits|
    ensures FirstClear(s.bits, 0, s.total) < s.total <==> s.inuse + |s.lost| < s.total
    ensures MIN_CLASS <= s.size <= MAX_CLASS
  {
    hide Total;
    var r, taken := Range(0, s.total), Used(s) + s.lost;
    RangeSize(0, s.total);
    assert forall i: nat :: i in taken <==> i < s.total && s.bits[i];
    assert s.lost !! Used(s) && s.inuse == |Used(s)|;
    hide Used, SlabOk;
    assert |taken| == |Used(s)| + |s.lost|;
    SubsetSize(taken, r);
    var j := FirstClear(s.bits, 0, s.total);
    if j < s.total {
      assert j in r && j !in taken;
    } else {
      assert taken == r;
    }
  }

  lemma SetBit(s: SlabInfo, i: nat)
    requires SlabOk(s) && i < s.total && !s.bits[i]
    ensures var t := s.(bits := s.bits[i := true], inuse := s.inuse + 1);
      SlabOk(t) && Used(t) == Used(s) + {i} && i !in Used(s)
  {
    Geometry(s.size);
    var t := s.(bits := s.bits[i := true], inuse := s.inuse + 1);
    assert Used(t) == Used(s) + {i};
  }

  lemma ClearBit(s: SlabInfo, i: nat)
    requires SlabOk(s) && i in Used(s)
    ensures s.inuse > 0
    ensures var t := s.(bits := s.bits[i := false], inuse := s.inuse - 1);
      SlabOk(t) && Used(t) == Used(s) - {i}
  {
    var t := s.(bits := s.bits[i := false], inuse := s.inuse - 1);
    assert Used(t) == Used(s) - {i};
    assert |Used(s) - {i}| == |Used(s)| - 1;
  }

  lemma NewSlabOk(c: nat, junk: seq<bool>)
    requires MIN_CLASS <= c <= MAX_CLASS && |junk| == BITS
    ensures SlabOk(NewSlab(c, junk)) && Used(NewSlab(c, junk)) == {} && NewSlab(c, junk).inuse < NewSlab(c, junk).total
  {
    Geometry(c);
    assert Used(NewSlab(c, junk)) == {};
  }

  // ---- moving between lists ----

  lemma DeleteMembers(l: Lists, x: nat)
    requires forall k :: 0 <= k < |l| ==> NoDup(l[k])
    ensures |Delete(l, x)| == |l|
    ensures forall k, p: nat :: 0 <= k < |l| ==> (p in Delete(l, x)[k] <==> p in l[k] && p != x)
    ensures forall k :: 0 <= k < |l| ==> NoDup(Delete(l, x)[k])
  {
    forall k | 0 <= k < |l|
      ensures forall p: nat :: p in Delete(l, x)[k] <==> p in l[k] && p != x
      ensures NoDup(Delete(l, x)[k])
    {
      WithoutMembers(l[k], x);
    }
  }

  // Changing one slab and relinking it keeps the lists right when its new place is right.
  lemma RelinkPartialToFull(h: Heap, p: nat, s: SlabInfo)
    requires ListsOk(h) && p in h.slabs && s.size == h.slabs[p].size && MIN_CLASS <= s.size <= MAX_CLASS
    requires h.slabs[p].inuse < h.slabs[p].total && s.inuse == s.total
    ensures ListsOk(MoveToFull(h.(slabs := h.slabs[p := s]), p, s.size - MIN_CLASS))
  {
    DeleteMembers(h.partial, p);
    assert p !in h.full[s.size - MIN_CLASS];
    NoDupCons(p, h.full[s.size - MIN_CLASS]);
  }

  lemma RelinkFullToPartial(h: Heap, p: nat, s: SlabInfo)
    requires ListsOk(h) && p in h.slabs && s.size == h.slabs[p].size && MIN_CLASS <= s.size <= MAX_CLASS
    requires h.slabs[p].inuse == h.slabs[p].total && s.inuse < s.total
    ensures ListsOk(MoveToPartial(h, p, s.size - MIN_CLASS).(slabs := h.slabs[p := s]))
  {
    DeleteMembers(h.full, p);
    assert p !in h.partial[s.size - MIN_CLASS];
    NoDupCons(p, h.partial[s.size - MIN_CLASS]);
  }

  lemma StayPartial(h: Heap, p: nat, s: SlabInfo)
    requires ListsOk(h) && p in h.slabs && s.size == h.slabs[p].size
    requires h.slabs[p].inuse < h.slabs[p].total && s.inuse < s.total
    ensures ListsOk(h.(slabs := h.slabs[p := s]))
  {
    var r := h.(slabs := h.slabs[p := s]);
    forall k, q: nat | 0 <= k < CACHES
      ensures q in r.partial[k] <==> OnPartial(r, k, q)
      ensures q in r.full[k] <==> OnFull(r, k, q)
    {
      assert q in h.partial[k] <==> OnPartial(h, k, q);
      assert q in h.full[k] <==> OnFull(h, k, q);
    }
  }

  // ---- kmalloc ----

  ghost predicate TookObject(h: Heap, r: Heap, p: nat, i: nat) {
    && (p, i) !in Objects(h) && Objects(r) == Objects(h) + {(p, i)}
    && Good(r) && r.pool == h.pool
    && p in h.slabs && p in r.slabs && r.slabs[p].size == h.slabs[p].size
  }

  // Taking from the first partial slab; it may be one just made, with nothing out yet.
  lemma TakeObjectLaw(h: Heap, c: nat) returns (i: nat)
    requires BlocksOk(h) && SlabsOk(h) && ListsOk(h) && MIN_CLASS <= c <= MAX_CLASS && h.partial[c - MIN_CLASS] != []
    requires forall p :: p in h.slabs && p != h.partial[c - MIN_CLASS][0] ==> h.slabs[p].inuse > 0
    ensures h.partial[c - MIN_CLASS][0] in h.slabs
    ensures h.slabs[h.partial[c - MIN_CLASS][0]].total <= |h.slabs[h.partial[c - MIN_CLASS][0]].bits|
    ensures var p, r := h.partial[c - MIN_CLASS][0], TakeObject(h, c);
      && !r.Panic?
      && (r.Ok? <==> h.slabs[p].inuse + |h.slabs[p].lost| < h.slabs[p].total)
      && (r.Null? ==> r.heap == h)
      && (r.Ok? ==> i < Total(c) && r.addr == Address(p, c, i) && TookObject(h, r.heap, p, i))
  {
    hide Pool.Valid, Coalesced, LabelsOk, Live, FreePages, Used, Objects, TookObject, BlocksOk, SlabsOk, ListsOk,
      SlabOk, FirstClear, MoveToFull, Address, Total;
    PartialHead(h, c);
    var p := h.partial[c - MIN_CLASS][0];
    var s := h.slabs[p];
    YieldIff(s);
    i := FirstClear(s.bits, 0, s.total);
    if i < s.total {
      TakeFromSlab(h, p, i);
    }
  }

  lemma PartialHead(h: Heap, c: nat)
    requires SlabsOk(h) && ListsOk(h) && MIN_CLASS <= c <= MAX_CLASS && h.partial[c - MIN_CLASS] != []
    ensures Caches(h)
    ensures var p := h.partial[c - MIN_CLASS][0];
      && p in h.slabs && h.slabs[p].size == c && SlabOk(h.slabs[p])
      && h.slabs[p].inuse < h.slabs[p].total <= |h.slabs[p].bits| && h.slabs[p].total == Total(c)
  {
    var p := h.partial[c - MIN_CLASS][0];
    assert OnPartial(h, c - MIN_CLASS, p) by {
      assert p in h.partial[c - MIN_CLASS];
    }
    Geometry(h.slabs[p].size);
  }

  lemma TakeFromSlab(h: Heap, p: nat, i: nat)
    requires BlocksOk(h) && SlabsOk(h) && ListsOk(h) && p in h.slabs && h.slabs[p].inuse < h.slabs[p].total
    requires forall q :: q in h.slabs && q != p ==> h.slabs[q].inuse > 0
    requires i < h.slabs[p].total && i < |h.slabs[p].bits| && !h.slabs[p].bits[i]
    ensures var s := h.slabs[p];
      var t := s.(bits := s.bits[i := true], inuse := s.inuse + 1);
      var g := h.(slabs := h.slabs[p := t]);
      TookObject(h, if t.inuse == t.total then MoveToFull(g, p, s.size - MIN_CLASS) else g, p, i)
  {
    hide Pool.Valid, Coalesced, LabelsOk, Live, FreePages, Used, Objects;
    var s := h.slabs[p];
    var t := s.(bits := s.bits[i := true], inuse := s.inuse + 1);
    SetBit(s, i);
    OneMoreObject(h, p, t, i);
    OneSlabChanged(h, p, t, if t.inuse == t.total then MoveToFull(h.(slabs := h.slabs[p := t]), p, s.size - MIN_CLASS)
      else h.(slabs := h.slabs[p := t]));
    if t.inuse == t.total {
      RelinkPartialToFull(h, p, t);
      SameObjects(h.(slabs := h.slabs[p := t]), MoveToFull(h.(slabs := h.slabs[p := t]), p, s.size - MIN_CLASS));
    } else {
      UsedBelow(t);
      StayPartial(h, p, t);
    }
  }

  // Updating a slab without changing its class leaves the blocks and the other slabs alone.
  lemma OneSlabChanged(h: Heap, p: nat, t: SlabInfo, r: Heap)
    requires BlocksOk(h) && SlabsOk(h) && p in h.slabs && SlabOk(t) && t.size == h.slabs[p].size && t.inuse > 0
    requires forall q :: q in h.slabs && q != p ==> h.slabs[q].inuse > 0
    requires r.pool == h.pool && r.slabs == h.slabs[p := t]
    ensures BlocksOk(r) && SlabsOk(r) && NoneIdle(r)
  {
    hide Pool.Valid, Coalesced, LabelsOk, Live, Used;
  }

  lemma SameObjects(h: Heap, r: Heap)
    requires r.slabs == h.slabs
    ensures Objects(r) == Objects(h)
  {
  }

  lemma OneMoreObject(h: Heap, p: nat, t: SlabInfo, i: nat)
    requires p in h.slabs && Used(t) == Used(h.slabs[p]) + {i} && i !in Used(h.slabs[p])
    ensures Objects(h.(slabs := h.slabs[p := t])) == Objects(h) + {(p, i)} && (p, i) !in Objects(h)
  {
    var r := h.(slabs := h.slabs[p := t]);
    forall q: nat, j: nat
      ensures (q, j) in Objects(r) <==> (q, j) in Objects(h) || (q, j) == (p, i)
    {
      ObjectsIn(r, q, j);
      ObjectsIn(h, q, j);
    }
  }

  lemma OneLessObject(h: Heap, p: nat, t: SlabInfo, i: nat)
    requires p in h.slabs && Used(t) == Used(h.slabs[p]) - {i} && i in Used(h.slabs[p])
    ensures Objects(h.(slabs := h.slabs[p := t])) == Objects(h) - {(p, i)} && (p, i) in Objects(h)
  {
    var r := h.(slabs := h.slabs[p := t]);
    forall q: nat, j: nat
      ensures (q, j) in Objects(r) <==> (q, j) in Objects(h) && (q, j) != (p, i)
    {
      ObjectsIn(r, q, j);
      ObjectsIn(h, q, j);
    }
  }

  // ---- a new slab ----

  lemma SlabPagesEffect(m: Pool, c: nat)
    requires m.Valid() && Coalesced(m) && MIN_CLASS <= c <= MAX_CLASS && SlabPages(m, c).Alloc?
    ensures var Alloc(r, p) := SlabPages(m, c);
      && r.Valid() && Coalesced(r) && p !in Live(m)
      && Live(r) == Live(m)[p := Frame(SlabOrder(c), 1, Slab, true, false)]
      && Block(p, SlabOrder(c)) <= FreePages(m) && FreePages(r) == FreePages(m) - Block(p, SlabOrder(c))
  {
    hide Pool.Valid, Coalesced, LabelsOk, Live, FreePages, AllocOrder, SetOwner;
    SlabOrderFits(c);
    SlabPagesLaw(m, c);
    AllocOrderLaw(m, SlabOrder(c));
    var a := BuddyAlloc(m, PAGE * (SlabOrder(c) + 1));
    SetOwnerLaw(a.pool, a.page, Slab);
    assert Live(m)[a.page := Frame(SlabOrder(c), 1, Buddy, true, false)][a.page := Frame(SlabOrder(c), 1, Slab, true,
      false)]
        == Live(m)[a.page := Frame(SlabOrder(c), 1, Slab, true, false)];
  }

  lemma SlabPagesLabels(m: Pool, c: nat)
    requires m.Valid() && Coalesced(m) && LabelsOk(m) && SlabPages(m, c).Alloc?
    ensures LabelsOk(SlabPages(m, c).pool)
  {
    hide Pool.Valid, Coalesced, LabelsOk, AllocOrder, SetOwner, OrderFor, PagesFor;
    var o := OrderFor(PagesFor(PAGE * (SlabOrder(c) + 1)));
    SlabPagesLaw(m, c);
    AllocKeepsLabels(m, o);
    var a := AllocOrder(m, o);
    SetOwnerKeepsLabels(a.pool, a.page, Slab);
  }

  lemma AddSlabLaw(h: Heap, c: nat, junk: seq<bool>)
    requires Good(h) && MIN_CLASS <= c <= MAX_CLASS && |junk| == BITS && SlabPages(h.pool, c).Alloc?
    requires h.partial[c - MIN_CLASS] == []
    ensures var a := SlabPages(h.pool, c); var r := AddSlab(h, a.pool, a.page, c, junk);
      && BlocksOk(r) && SlabsOk(r) && ListsOk(r) && r.partial[c - MIN_CLASS] == [a.page]
      && Objects(r) == Objects(h) && Pages(r) == Pages(h)
      && (forall p :: p in r.slabs && p != a.page ==> r.slabs[p].inuse > 0)
  {
    hide Pool.Valid, Coalesced, LabelsOk, Live, FreePages, Used, Objects;
    var a := SlabPages(h.pool, c);
    SlabPagesEffect(h.pool, c);
    SlabPagesLabels(h.pool, c);
    NewSlabOk(c, junk);
    AddSlabLists(h, a.pool, a.page, c, junk);
    AddSlabObjects(h, a.pool, a.page, c, junk);
    var r := AddSlab(h, a.pool, a.page, c, junk);
    AddSlabBlocks(h, r, a.page);
  }

  lemma AddSlabBlocks(h: Heap, r: Heap, p: nat)
    requires Good(h) && p in r.slabs && SlabOk(r.slabs[p]) && r.pool.Valid() && Coalesced(r.pool)
    requires LabelsOk(r.pool) && p !in Live(h.pool)
    requires r.slabs == h.slabs[p := r.slabs[p]]
    requires Live(r.pool) == Live(h.pool)[p := Frame(SlabOrder(r.slabs[p].size), 1, Slab, true, false)]
    ensures BlocksOk(r) && SlabsOk(r) && Pages(r) == Pages(h)
    ensures forall q :: q in r.slabs && q != p ==> r.slabs[q].inuse > 0
  {
    hide Pool.Valid, Coalesced, LabelsOk, Live, Used, SlabOk, ListsOk;
    assert p !in h.slabs;
    assert forall q :: q in Pages(r) <==> q in Pages(h);
  }

  lemma AddSlabLists(h: Heap, pool: Pool, p: nat, c: nat, junk: seq<bool>)
    requires ListsOk(h) && MIN_CLASS <= c <= MAX_CLASS && |junk| == BITS && p !in h.slabs
    ensures ListsOk(AddSlab(h, pool, p, c, junk))
  {
    NewSlabOk(c, junk);
    var r := AddSlab(h, pool, p, c, junk);
    NoDupCons(p, h.partial[c - MIN_CLASS]);
    forall k, q: nat | 0 <= k < CACHES
      ensures q in r.partial[k] <==> OnPartial(r, k, q)
      ensures q in r.full[k] <==> OnFull(r, k, q)
    {
      assert q in h.partial[k] <==> OnPartial(h, k, q);
      assert q in h.full[k] <==> OnFull(h, k, q);
    }
  }

  lemma AddSlabObjects(h: Heap, pool: Pool, p: nat, c: nat, junk: seq<bool>)
    requires MIN_CLASS <= c <= MAX_CLASS && |junk| == BITS && p !in h.slabs && Caches(h)
    ensures Objects(AddSlab(h, pool, p, c, junk)) == Objects(h)
  {
    NewSlabOk(c, junk);
    forall q: nat, j: nat
      ensures (q, j) in Objects(AddSlab(h, pool, p, c, junk)) <==> (q, j) in Objects(h)
    {
      ObjectsIn(h, q, j);
      ObjectsIn(AddSlab(h, pool, p, c, junk), q, j);
    }
  }

  // ---- the whole of kmalloc ----

  datatype Grant = Object(page: nat, index: nat) | Whole(page: nat)

  lemma GoodListed(h: Heap)
    requires Good(h)
    ensures Listed(h)
  {
    forall c | 0 <= c < CACHES && h.partial[c] != []
      ensures h.partial[c][0] in h.slabs && h.slabs[h.partial[c][0]].total <= |h.slabs[h.partial[c][0]].bits|
    {
      assert OnPartial(h, c, h.partial[c][0]) by { assert h.partial[c][0] in h.partial[c]; }
      Geometry(h.slabs[h.partial[c][0]].size);
    }
  }

  // The grant is new and exactly one thing is added.
  ghost predicate Granted(h: Heap, bytes: nat, r: Heap, addr: nat, g: Grant) {
    match g
    case Object(p, i) =>
      && Class(bytes) <= MAX_CLASS && i < Total(Class(bytes)) && addr == Address(p, Class(bytes), i)
        && bytes <= Item(Class(bytes))
      && (p, i) !in Objects(h) && Objects(r) == Objects(h) + {(p, i)} && Pages(r) == Pages(h)
      && p in r.slabs && r.slabs[p].size == Class(bytes)
    case Whole(p) =>
      && Class(bytes) > MAX_CLASS && addr == p * PAGE && bytes <= PAGE * Pow2(Class(bytes) - 12)
      && p !in Pages(h) && Pages(r) == Pages(h)[p := Frame(Class(bytes) - 12, 1, Buddy, true, false)]
        && Objects(r) == Objects(h)
  }

  lemma WholePagesFit(bytes: nat)
    requires bytes <= 0x4000_0000 && Class(bytes) > MAX_CLASS
    ensures 12 <= Class(bytes) && OrderFor(PagesFor(Pow2(Class(bytes)))) == Class(bytes) - 12
    ensures bytes <= PAGE * Pow2(Class(bytes) - 12)
  {
    var c := Class(bytes);
    ClassIsLeast(bytes);
    SmallPowers();
    Pow2Add(12, c - 12);
    assert Pow2(12) == PAGE;
    ThirtyBits(c, bytes);
    var n := Pow2(c - 12);
    WholePages(Pow2(c), n);
    OrderFromIsLeast(0, n);
    hide PagesFor, OrderFrom;
    var o := OrderFor(n);
    if o < c - 12 {
      Pow2Monotone(o, c - 12);
    }
  }

  lemma WholePages(bytes: nat, n: nat)
    requires bytes == PAGE * n && bytes <= 0x4000_0000
    ensures PagesFor(bytes) == n
  {
  }

  lemma ThirtyBits(c: nat, bytes: nat)
    requires bytes <= 0x4000_0000 && c > 11 && Pow2(c - 1) < bytes
    ensures Pow2(c) <= 0x4000_0000
  {
    Pow30();
    if c > 30 {
      Pow2Monotone(30, c - 1);
    } else {
      Pow2Monotone(c, 30);
    }
  }

  lemma KmallocLaw(h: Heap, bytes: nat, junk: seq<bool>) returns (g: Grant)
    requires Good(h) && |junk| == BITS
    ensures Listed(h)
    ensures var r := Kmalloc(h, bytes, junk);
      && (r.Ok? ==> Good(r.heap) && Granted(h, bytes, r.heap, r.addr, g))
      && (r.Null? ==> r.heap == h)
  {
    hide Granted, Class, Pool.Valid, Coalesced, LabelsOk, Live, SlabsOk, TakeObject, SlabPages, AllocOrder;
    GoodListed(h);
    ClassIsLeast(bytes);
    var c := Class(bytes);
    g := Whole(0);
    if bytes <= 0x4000_0000 {
      if c > MAX_CLASS {
        g := KmallocPages(h, bytes, junk);
      } else if h.partial[c - MIN_CLASS] == [] {
        g := KmallocFresh(h, bytes, junk);
      } else {
        g := KmallocReuse(h, bytes, junk);
      }
    }
  }

  // ---- exactly when it fails ----

  ghost predicate NoBlock(m: Pool, o: nat) {
    forall p: nat :: m.IsHead(p) && o <= m.Order(p) ==> m.frames[p].owner != Free
  }

  // The slab tried first has nothing to give: the objects out and the stale bits fill it.
  ghost predicate Clogged(h: Heap, c: nat)
    requires Listed(h) && MIN_CLASS <= c <= MAX_CLASS
  {
    h.partial[c - MIN_CLASS] != [] &&
    var s := h.slabs[h.partial[c - MIN_CLASS][0]];
    s.inuse + |s.lost| >= s.total
  }

  lemma KmallocFailsIff(h: Heap, bytes: nat, junk: seq<bool>)
    requires Good(h) && |junk| == BITS
    ensures Listed(h) && Class(bytes) >= MIN_CLASS
    ensures Kmalloc(h, bytes, junk).Null? <==>
      || bytes > 0x4000_0000
      || (Class(bytes) > MAX_CLASS && NoBlock(h.pool, Class(bytes) - 12))
      || (Class(bytes) <= MAX_CLASS && Clogged(h, Class(bytes)))
    ensures Kmalloc(h, bytes, junk).Panic? <==>
      && Class(bytes) <= MAX_CLASS && h.partial[Class(bytes) - MIN_CLASS] == []
      && NoBlock(h.pool, SlabOrder(Class(bytes)))
    ensures MIN_CLASS < Class(bytes) <= MAX_CLASS ==> !Kmalloc(h, bytes, junk).Null?
  {
    GoodListed(h);
    ClassIsLeast(bytes);
    var c := Class(bytes);
    if bytes > 0x4000_0000 {
      BigClass(bytes);
      assert Kmalloc(h, bytes, junk) == Null(h);
    } else if c > MAX_CLASS {
      PagesFail(h, bytes, junk);
    } else {
      SmallFails(h, bytes, junk);
      SlabPagesFail(h.pool, c);
    }
    hide Good, Kmalloc, NoBlock, Clogged, Class, Pool.Valid, Coalesced, LabelsOk;
  }

  lemma PagesFail(h: Heap, bytes: nat, junk: seq<bool>)
    requires Good(h) && Listed(h) && |junk| == BITS && bytes <= 0x4000_0000 && Class(bytes) > MAX_CLASS
    ensures Kmalloc(h, bytes, junk).Null? <==> NoBlock(h.pool, Class(bytes) - 12)
    ensures !Kmalloc(h, bytes, junk).Panic?
  {
    hide Pool.Valid, Coalesced, LabelsOk, AllocOrder, Class, OrderFor, PagesFor;
    WholePagesFit(bytes);
    AllocOrderLaw(h.pool, Class(bytes) - 12);
  }

  lemma SlabPagesFail(m: Pool, c: nat)
    requires m.Valid() && Coalesced(m) && MIN_CLASS <= c <= MAX_CLASS
    ensures SlabPages(m, c).NoMemory? <==> NoBlock(m, SlabOrder(c))
  {
    hide Pool.Valid, Coalesced, LabelsOk, AllocOrder, SetOwner, OrderFor, PagesFor;
    SlabOrderFits(c);
    AllocOrderLaw(m, SlabOrder(c));
  }

  lemma BigClass(bytes: nat)
    requires bytes > 0x4000_0000
    ensures Class(bytes) > MAX_CLASS
  {
    ClassIsLeast(bytes);
    SmallPowers();
    if Class(bytes) <= MAX_CLASS {
      Pow2Monotone(Class(bytes), MAX_CLASS);
    }
  }

  lemma SmallFails(h: Heap, bytes: nat, junk: seq<bool>)
    requires Good(h) && Listed(h) && |junk| == BITS && bytes <= 0x4000_0000 && MIN_CLASS <= Class(bytes) <= MAX_CLASS
    ensures Kmalloc(h, bytes, junk).Null? <==> Clogged(h, Class(bytes))
    ensures Kmalloc(h, bytes, junk).Panic?
      <==> h.partial[Class(bytes) - MIN_CLASS] == [] && SlabPages(h.pool, Class(bytes)).NoMemory?
    ensures Class(bytes) > MIN_CLASS ==> !Clogged(h, Class(bytes))
  {
    hide Pool.Valid, Coalesced, LabelsOk, Live, FreePages, Used, Objects, TakeObject, Total, Item, Class, SlabPages,
      SlabOk;
    var c := Class(bytes);
    if h.partial[c - MIN_CLASS] == [] {
      var g := KmallocFresh(h, bytes, junk);
      FreshNotPanic(h, bytes, junk);
    } else {
      var i := TakeObjectLaw(h, c);
      PartialHead(h, c);
      YieldIff(h.slabs[h.partial[c - MIN_CLASS][0]]);
    }
  }

  lemma FreshNotPanic(h: Heap, bytes: nat, junk: seq<bool>)
    requires Good(h) && Listed(h) && |junk| == BITS && bytes <= 0x4000_0000 && MIN_CLASS <= Class(bytes) <= MAX_CLASS
    requires h.partial[Class(bytes) - MIN_CLASS] == []
    ensures Kmalloc(h, bytes, junk).Panic? <==> SlabPages(h.pool, Class(bytes)).NoMemory?
  {
    hide Pool.Valid, Coalesced, LabelsOk, Live, FreePages, Used, Objects, Total, Item, Class, SlabPages, Delete;
    ClassIsLeast(bytes);
  }

  lemma KmallocReuse(h: Heap, bytes: nat, junk: seq<bool>) returns (g: Grant)
    requires Good(h) && Listed(h) && |junk| == BITS && bytes <= 0x4000_0000 && MIN_CLASS <= Class(bytes) <= MAX_CLASS
    requires h.partial[Class(bytes) - MIN_CLASS] != []
    ensures var r := Kmalloc(h, bytes, junk);
      && !r.Panic? && (r.Null? ==> r.heap == h)
      && (r.Ok? ==> Good(r.heap) && Granted(h, bytes, r.heap, r.addr, g))
  {
    hide Pool.Valid, Coalesced, LabelsOk, Live, FreePages, Used, Objects, TakeObject, Total, Item, Class;
    var c := Class(bytes);
    var i := TakeObjectLaw(h, c);
    ClassIsLeast(bytes);
    Geometry(c);
    var p := h.partial[c - MIN_CLASS][0];
    assert OnPartial(h, c - MIN_CLASS, p) by {
      assert p in h.partial[c - MIN_CLASS];
    }
    g := Object(p, i);
  }

  lemma KmallocFresh(h: Heap, bytes: nat, junk: seq<bool>) returns (g: Grant)
    requires Good(h) && Listed(h) && |junk| == BITS && bytes <= 0x4000_0000 && MIN_CLASS <= Class(bytes) <= MAX_CLASS
    requires h.partial[Class(bytes) - MIN_CLASS] == []
    ensures var r := Kmalloc(h, bytes, junk);
      && !r.Null? && (r.Ok? ==> Good(r.heap) && Granted(h, bytes, r.heap, r.addr, g))
  {
    hide Pool.Valid, Coalesced, LabelsOk, Live, FreePages, Used, Objects, TakeObject, Total, Item, Class, SlabPages;
    var c := Class(bytes);
    ClassIsLeast(bytes);
    Geometry(c);
    g := Whole(0);
    var a := SlabPages(h.pool, c);
    if a.Alloc? {
      AddSlabLaw(h, c, junk);
      var b := AddSlab(h, a.pool, a.page, c, junk);
      FreshYields(c, junk);
      var i := TakeObjectLaw(b, c);
      g := Object(a.page, i);
    }
  }

  // A slab just made always yields: at most the bits from 64 up are lost.
  lemma FreshYields(c: nat, junk: seq<bool>)
    requires MIN_CLASS <= c <= MAX_CLASS && |junk| == BITS
    ensures |NewSlab(c, junk).lost| < NewSlab(c, junk).total && NewSlab(c, junk).inuse == 0
  {
    Geometry(c);
    var s := NewSlab(c, junk);
    var top := if s.total > 64 then s.total else 64;
    RangeSize(64, top);
    SubsetSize(s.lost, Range(64, top));
  }

  lemma KmallocPages(h: Heap, bytes: nat, junk: seq<bool>) returns (g: Grant)
    requires Good(h) && Listed(h) && |junk| == BITS && bytes <= 0x4000_0000 && Class(bytes) > MAX_CLASS
    ensures var r := Kmalloc(h, bytes, junk);
      && !r.Panic? && (r.Null? ==> r.heap == h)
      && (r.Ok? ==> Good(r.heap) && Granted(h, bytes, r.heap, r.addr, g))
  {
    hide Pool.Valid, Coalesced, LabelsOk, Live, FreePages, Used, Objects, AllocOrder, Class, OrderFor, PagesFor;
    WholePagesFit(bytes);
    var c := Class(bytes);
    AllocOrderLaw(h.pool, c - 12);
    var a := BuddyAlloc(h.pool, Pow2(c));
    g := Whole(0);
    if a.Alloc? {
      g := Whole(a.page);
      AllocKeepsLabels(h.pool, c - 12);
      PoolSwap(h, a.pool);
      assert Pages(h.(pool := a.pool)) == Pages(h)[a.page := Frame(c - 12, 1, Buddy, true, false)];
    }
  }

  // Replacing the pool by one with the same slab blocks.
  lemma PoolSwap(h: Heap, pool: Pool)
    requires Good(h) && pool.Valid() && Coalesced(pool) && LabelsOk(pool)
    requires forall p :: p in h.slabs ==> p in Live(pool) && Live(pool)[p] == Live(h.pool)[p]
    requires forall p :: p in Live(pool) && Live(pool)[p].owner == Slab ==> p in h.slabs
    ensures Good(h.(pool := pool)) && Objects(h.(pool := pool)) == Objects(h)
  {
    var r := h.(pool := pool);
    SameObjects(h, r);
    forall k, q: nat | 0 <= k < CACHES
      ensures q in r.partial[k] <==> OnPartial(r, k, q)
      ensures q in r.full[k] <==> OnFull(r, k, q)
    {
      assert q in h.partial[k] <==> OnPartial(h, k, q);
      assert q in h.full[k] <==> OnFull(h, k, q);
    }
  }

  // ---- kfree ----

  lemma SlabFreeLaw(h: Heap, p: nat, i: nat)
    requires Good(h) && p in h.slabs && i in Used(h.slabs[p])
    ensures p < |h.pool.frames|
    ensures var r := SlabFree(h, p, i);
      && Good(r) && Objects(r) == Objects(h) - {(p, i)} && (p, i) in Objects(h) && Pages(r) == Pages(h)
  {
    assert p in Live(h.pool);
    hide Pool.Valid, Coalesced, LabelsOk, FreePages, Objects, BuddyFree, Used, Live, SlabFree;
    var s := h.slabs[p];
    ClearBit(s, i);
    OneLessObject(h, p, s.(bits := s.bits[i := false], inuse := s.inuse - 1), i);
    if s.inuse == 1 {
      Geometry(s.size);
      LastObject(h, p, i);
    } else {
      NotLastObject(h, p, i);
    }
  }

  lemma NotLastObject(h: Heap, p: nat, i: nat)
    requires Good(h) && p in h.slabs && i in Used(h.slabs[p]) && h.slabs[p].inuse > 1
    requires p < |h.pool.frames|
    ensures var r := SlabFree(h, p, i);
      && Good(r) && Objects(r) == Objects(h) - {(p, i)} && r.pool == h.pool
  {
    assert i < |h.slabs[p].bits| && h.slabs[p].bits[i];
    hide Pool.Valid, Coalesced, LabelsOk, FreePages, Objects, BuddyFree, Used, Live;
    var s := h.slabs[p];
    ClearBit(s, i);
    UsedNotLost(s, i);
    var t := s.(bits := s.bits[i := false], inuse := s.inuse - 1);
    UsedBelow(s);
    OneLessObject(h, p, t, i);
    var r := SlabFree(h, p, i);
    assert r.slabs == h.slabs[p := t];
    OneSlabChanged(h, p, t, r);
    SameObjects(h.(slabs := h.slabs[p := t]), r);
    if s.inuse == s.total {
      RelinkFullToPartial(h, p, t);
    } else {
      StayPartial(h, p, t);
    }
  }

  lemma UsedNotLost(s: SlabInfo, i: nat)
    requires i in Used(s)
    ensures s.lost - {i} == s.lost
  {
  }

  // Freeing the last object unlinks the slab and gives its block back.
  lemma LastObject(h: Heap, p: nat, i: nat)
    requires Good(h) && p in h.slabs && i in Used(h.slabs[p]) && h.slabs[p].inuse == 1
    requires p < |h.pool.frames| && h.slabs[p].total >= 7
    ensures var r := SlabFree(h, p, i);
      && Good(r) && Objects(r) == Objects(h) - {(p, i)} && Pages(r) == Pages(h)
      && FreePages(r.pool) == FreePages(h.pool) + Block(p, SlabOrder(h.slabs[p].size))
  {
    hide Pool.Valid, Coalesced, LabelsOk, FreePages, BuddyFree;
    var r := SlabFree(h, p, i);
    BuddyFreeLaw(h.pool, p);
    FreeKeepsLabels(h.pool, p);
    DropSlabLists(h, p);
    assert r == Heap(BuddyFree(h.pool, p), h.slabs - {p}, Delete(h.partial, p), h.full);
    OnlyObject(h, p, i);
    DropSlabBlocks(h, r, p);
    forall q: nat, j: nat
      ensures (q, j) in Objects(r) <==> (q, j) in Objects(h) && (q, j) != (p, i)
    {
      ObjectsIn(r, q, j);
      ObjectsIn(h, q, j);
    }
  }

  lemma DropSlabBlocks(h: Heap, r: Heap, p: nat)
    requires Good(h) && p in h.slabs && r.pool.Valid() && Coalesced(r.pool) && LabelsOk(r.pool) && ListsOk(r)
    requires r.slabs == h.slabs - {p} && Live(r.pool) == Live(h.pool) - {p}
    ensures Good(r) && Pages(r) == Pages(h)
  {
    hide Pool.Valid, Coalesced, LabelsOk, Live, Used, ListsOk;
  }

  lemma OnlyObject(h: Heap, p: nat, i: nat)
    requires SlabsOk(h) && p in h.slabs && i in Used(h.slabs[p]) && h.slabs[p].inuse == 1
    ensures Used(h.slabs[p]) == {i}
  {
    SubsetSize({i}, Used(h.slabs[p]));
  }

  lemma DropSlabLists(h: Heap, p: nat)
    requires ListsOk(h) && p in h.slabs && h.slabs[p].inuse < h.slabs[p].total
    ensures forall pool :: ListsOk(Heap(pool, h.slabs - {p}, Delete(h.partial, p), h.full))
  {
    DeleteMembers(h.partial, p);
  }

  // kfree on a slab is safe exactly when the bit is clear, and nothing happens, or is that of
  // an object that is out. On a stale bit the counter drops although no object came back.
  lemma SlabFreeSafeIff(h: Heap, p: nat, i: nat)
    requires Good(h) && p in h.slabs && i < BITS
    ensures p < |h.pool.frames| && |h.slabs[p].bits| == BITS
    ensures Good(SlabFree(h, p, i)) && Objects(h) - {(p, i)} <= Objects(SlabFree(h, p, i))
      <==> (h.slabs[p].bits[i] ==> i in Used(h.slabs[p]))
  {
    SlabFacts(h, p);
    hide Pool.Valid, Coalesced, LabelsOk, BlocksOk, ListsOk, BuddyFree, Delete, Push, Used, SlabOk, Objects, OwnerOf,
      FirstClear;
    var s := h.slabs[p];
    if s.bits[i] {
      if i in Used(s) {
        SlabFreeLaw(h, p, i);
        assert Good(SlabFree(h, p, i));
        assert Objects(h) - {(p, i)} <= Objects(SlabFree(h, p, i));
      } else if s.inuse == 1 {
        StrayLastFree(h, p, i);
        assert !(Objects(h) - {(p, i)} <= Objects(SlabFree(h, p, i)));
      } else {
        StrayFree(h, p, i);
        assert !Good(SlabFree(h, p, i));
      }
    } else {
      assert SlabFree(h, p, i) == h;
    }
  }

  lemma SlabFacts(h: Heap, p: nat)
    requires Good(h) && p in h.slabs
    ensures p < |h.pool.frames| && Caches(h) && h.slabs[p].inuse > 0 && 7 <= h.slabs[p].total
    ensures SlabOk(h.slabs[p]) && |h.slabs[p].bits| == BITS && MIN_CLASS <= h.slabs[p].size <= MAX_CLASS
  {
    assert Caches(h);
    hide Pool.Valid, Coalesced, LabelsOk, ListsOk, Used;
    Geometry(h.slabs[p].size);
    assert p in Live(h.pool);
  }

  lemma StrayLastFree(h: Heap, p: nat, i: nat)
    requires Good(h) && p in h.slabs && i < |h.slabs[p].bits| && h.slabs[p].bits[i] && i !in Used(h.slabs[p])
    requires h.slabs[p].inuse == 1 && p < |h.pool.frames|
    ensures !(Objects(h) - {(p, i)} <= Objects(SlabFree(h, p, i)))
  {
    SlabFacts(h, p);
    SlabOkCounts(h.slabs[p]);
    hide Pool.Valid, Coalesced, LabelsOk, BlocksOk, ListsOk, BuddyFree, Delete, Used, SlabOk, Objects;
    assert |Used(h.slabs[p])| == 1;
    var j :| j in Used(h.slabs[p]);
    ObjectsIn(h, p, j);
    assert (p, j) in Objects(h) - {(p, i)};
    var r := SlabFree(h, p, i);
    assert r.slabs == h.slabs - {p};
    ObjectsIn(r, p, j);
    assert (p, j) !in Objects(r);
  }

  lemma SlabOkCounts(s: SlabInfo)
    requires SlabOk(s)
    ensures s.inuse == |Used(s)|
  {
  }

  lemma StrayFree(h: Heap, p: nat, i: nat)
    requires Good(h) && p in h.slabs && i < |h.slabs[p].bits| && h.slabs[p].bits[i] && i !in Used(h.slabs[p])
    requires h.slabs[p].inuse > 1 && p < |h.pool.frames|
    ensures !SlabsOk(SlabFree(h, p, i))
  {
    SlabFacts(h, p);
    var s, r := h.slabs[p], SlabFree(h, p, i);
    SlabOkCounts(s);
    var t := s.(bits := s.bits[i := false], inuse := Less16(s.inuse), lost := s.lost - {i});
    assert Used(t) == Used(s);
    hide Pool.Valid, Coalesced, LabelsOk, BlocksOk, ListsOk, BuddyFree, Delete, Push, Used, Good;
    assert r.slabs[p] == t && t.inuse == s.inuse - 1;
    if SlabOk(t) {
      SlabOkCounts(t);
      assert false;
    }
  }
}
