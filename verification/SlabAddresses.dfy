// kmalloc and kfree by address: which object a request gets, and what kfree does with any
// address at all, not only those that kmalloc returned.
module SlabAddresses {
  import opened Bits
  import opened ListSpec
  import opened PagePool
  import opened BuddyLaws
  import opened BuddyRuns
  import opened PageOwner
  import opened SlabSpec
  import opened SlabLaws
  import opened SlabRuns

  // ---- what kmalloc returns ----

  // Every object is aligned to its size.
  lemma ObjectAligned(h: Heap, g: Grant)
    requires Good(h) && Outstanding(h, g) && g.Object?
    ensures g.page in h.slabs && First(h, g) % Size(h, g) == 0
  {
    Placed(h, g);
    hide Good, Outstanding;
    AddressAligned(g.page, h.slabs[g.page].size, g.index);
  }

  lemma AddressAligned(p: nat, c: nat, i: nat)
    requires MIN_CLASS <= c <= MAX_CLASS
    ensures Address(p, c, i) % Item(c) == 0
  {
    match c
    case 5 => MultipleOf(p, PAGE / 32, 32, FirstItem(c) / 32, i);
    case 6 => MultipleOf(p, PAGE / 64, 64, FirstItem(c) / 64, i);
    case 7 => MultipleOf(p, PAGE / 128, 128, FirstItem(c) / 128, i);
    case 8 => MultipleOf(p, PAGE / 256, 256, FirstItem(c) / 256, i);
    case 9 => MultipleOf(p, PAGE / 512, 512, FirstItem(c) / 512, i);
    case 10 => MultipleOf(p, PAGE / 1024, 1024, FirstItem(c) / 1024, i);
    case 11 => MultipleOf(p, PAGE / 2048, 2048, FirstItem(c) / 2048, i);
  }

  lemma MultipleOf(p: nat, n: nat, d: nat, f: nat, i: nat)
    requires d > 0
    ensures (p * (n * d) + f * d + i * d) % d == 0
  {
    var q := p * n + f + i;
    assert p * (n * d) == (p * n) * d;
    assert q * d == (p * n) * d + f * d + i * d;
    DivUnique(q * d, d, q, 0);
  }

  // An object comes from the first partial slab of its class, at the lowest clear bit, and the
  // buddy allocator is not asked; with no partial slab it is the first object of a new slab.
  lemma KmallocPicks(h: Heap, bytes: nat, junk: seq<bool>) returns (p: nat, i: nat)
    requires Good(h) && |junk| == BITS && Class(bytes) <= MAX_CLASS && Listed(h) && Kmalloc(h, bytes, junk).Ok?
    ensures Class(bytes) >= MIN_CLASS && i < Total(Class(bytes))
    ensures var r, c := Kmalloc(h, bytes, junk), Class(bytes);
      && r.addr == p * PAGE + FirstItem(c) + i * Item(c)
      && (if h.partial[c - MIN_CLASS] != [] then
            && p == h.partial[c - MIN_CLASS][0] && p in h.slabs && r.heap.pool == h.pool
            && i < |h.slabs[p].bits| && !h.slabs[p].bits[i] && (forall j :: 0 <= j < i ==> h.slabs[p].bits[j])
          else
            && i == 0 && p !in Live(h.pool) && Block(p, SlabOrder(c)) <= FreePages(h.pool)
            && FreePages(r.heap.pool) == FreePages(h.pool) - Block(p, SlabOrder(c)))
  {
    hide Pool.Valid, Coalesced, LabelsOk, Live, FreePages, Used, Objects, SlabPages, BlocksOk, SlabOk, Class, Total,
      FirstItem, Item;
    ClassIsLeast(bytes);
    GoodPool(h);
    var c := Class(bytes);
    if h.partial[c - MIN_CLASS] != [] {
      PartialHead(h, c);
      p := h.partial[c - MIN_CLASS][0];
      i := FirstClear(h.slabs[p].bits, 0, h.slabs[p].total);
    } else {
      p := SlabPages(h.pool, c).page;
      i := 0;
      SlabPagesEffect(h.pool, c);
      FreshFirst(h, SlabPages(h.pool, c).pool, p, c, junk);
    }
  }

  lemma GoodPool(h: Heap)
    requires Good(h)
    ensures h.pool.Valid() && Coalesced(h.pool) && LabelsOk(h.pool) && Caches(h)
  {
  }

  lemma FreshFirst(h: Heap, pool: Pool, p: nat, c: nat, junk: seq<bool>)
    requires Caches(h) && MIN_CLASS <= c <= MAX_CLASS && |junk| == BITS && h.partial[c - MIN_CLASS] == []
    ensures 0 < Total(c) <= BITS
    ensures var b := AddSlab(h, pool, p, c, junk); var r := TakeObject(b, c);
      r.Ok? && r.addr == p * PAGE + FirstItem(c) && r.heap.pool == pool
  {
    Geometry(c);
    hide Total, FirstItem, Item;
    var s := AddSlab(h, pool, p, c, junk).slabs[p];
    assert !s.bits[0];
    assert FirstClear(s.bits, 0, s.total) == 0;
  }

  // ---- what kfree does with any address ----

  // The page of an address is reserved, free, or in exactly one block.
  lemma PageKinds(m: Pool, n: nat)
    requires m.Valid() && LabelsOk(m) && n < |m.frames|
    ensures OwnerOf(m, n) == Reserved <==> n < m.base
    ensures n >= m.base && n !in FreePages(m) ==>
      && HeadOf(m, n) in Live(m) && n in Block(HeadOf(m, n), Live(m)[HeadOf(m, n)].order)
      && OwnerOf(m, n) == Live(m)[HeadOf(m, n)].owner
    ensures n in FreePages(m) ==> n >= m.base && OwnerOf(m, n) != Slab
  {
    var p := HeadOf(m, n);
    if n >= m.base {
      assert LabelOk(m.frames[n], n < m.base);
      assert m.IsHead(p) && p <= n < m.End(p);
      if p in Live(m) {
        LookupsFindBlock(m, p, n);
      }
    }
  }

  lemma KfreeFree(h: Heap, addr: nat)
    requires Good(h) && addr / PAGE < |h.pool.frames| && addr != 0 && addr / PAGE in FreePages(h.pool)
    requires OwnerOf(h.pool, addr / PAGE) != Slab && OwnerOf(h.pool, addr / PAGE) != Reserved
    requires BuddyFree(h.pool, addr / PAGE) == h.pool
    ensures Freeable(h, addr) && Kfree(h, addr) == Freed(h)
  {
    hide Pool.Valid, Coalesced, LabelsOk, OwnerOf, BuddyFree, FreePages, HeadFromPage;
    assert h.(pool := h.pool) == h;
  }

  // A page of a block of whole pages.
  lemma KfreePage(h: Heap, addr: nat)
    requires Good(h) && addr / PAGE < |h.pool.frames| && addr != 0 && HeadOf(h.pool, addr / PAGE) in Pages(h)
    requires OwnerOf(h.pool, addr / PAGE) == Live(h.pool)[HeadOf(h.pool, addr / PAGE)].owner
    ensures Freeable(h, addr) && Kfree(h, addr) == Freed(h.(pool := BuddyFree(h.pool, addr / PAGE)))
    ensures addr / PAGE != HeadOf(h.pool, addr / PAGE) ==> Kfree(h, addr) == Freed(h)
    ensures addr / PAGE in Pages(h) ==> HeadOf(h.pool, addr / PAGE) == addr / PAGE
  {
    var n := addr / PAGE;
    WholeOwner(h, HeadOf(h.pool, n));
    HeadIsHead(h.pool, n);
    hide Pool.Valid, Coalesced, LabelsOk, OwnerOf, HeadFromPage, HeadOf;
    assert n != HeadOf(h.pool, n) ==> h.(pool := BuddyFree(h.pool, n)) == h;
  }

  lemma SamePage(h: Heap, addr: nat)
    requires Good(h) && addr / PAGE in Pages(h) && addr != 0
    requires addr / PAGE < |h.pool.frames| && Freeable(h, addr)
    requires Kfree(h, addr) == Freed(h.(pool := BuddyFree(h.pool, addr / PAGE)))
    ensures Freeable(h, addr / PAGE * PAGE) && Kfree(h, addr / PAGE * PAGE) == Kfree(h, addr)
  {
    WholeOwner(h, addr / PAGE);
    KfreeIsBuddyFree(h, addr / PAGE);
  }

  lemma HeadIsHead(m: Pool, n: nat)
    requires m.Valid() && n < |m.frames|
    ensures n != HeadOf(m, n) ==> !m.frames[n].head && BuddyFree(m, n) == m
    ensures n in Live(m) ==> HeadOf(m, n) == n
  {
  }

  lemma KfreeSlab(h: Heap, addr: nat)
    requires Good(h) && addr / PAGE < |h.pool.frames| && addr != 0 && OwnerOf(h.pool, addr / PAGE) == Slab
    requires Freeable(h, addr)
    ensures Kfree(h, addr).Freed?
  {
    hide Pool.Valid, Coalesced, LabelsOk, OwnerOf, HeadFromPage, HeadOf, SlabFree;
  }

  // kfree panics exactly on an address of reserved memory other than null. Null, an address on a
  // free page and one on a later page of a block of whole pages change nothing; one on the first
  // page frees that block.
  lemma KfreeLaw(h: Heap, addr: nat)
    requires Good(h) && addr / PAGE < |h.pool.frames| && Freeable(h, addr)
    ensures var r, n := Kfree(h, addr), addr / PAGE;
      && (r.FreePanic? <==> addr != 0 && n < h.pool.base)
      && (addr == 0 || n in FreePages(h.pool) ==> r == Freed(h))
      && (n >= h.pool.base && HeadOf(h.pool, n) in Pages(h) && n != HeadOf(h.pool, n) ==> r == Freed(h))
      && (n in Pages(h)
        ==> r.Freed? && Good(r.heap) && Objects(r.heap) == Objects(h) && Pages(r.heap) == Pages(h) - {n})
  {
    var n := addr / PAGE;
    GoodPool(h);
    PageKinds(h.pool, n);
    HeadIsHead(h.pool, n);
    if addr != 0 && n >= h.pool.base {
      if n in FreePages(h.pool) {
        FreeOfFreePage(h.pool, n);
        KfreeFree(h, addr);
      } else if HeadOf(h.pool, n) in Pages(h) {
        KfreePage(h, addr);
        if n in Pages(h) {
          SamePage(h, addr);
          KfreeWhole(h, n);
        }
      } else {
        KfreeSlab(h, addr);
      }
    }
    hide Good, Kfree, Freeable, FreePages, Pages, Objects, Live, OwnerOf;
  }

  // Any address inside an object frees it, and nothing happens if it is not out: freeing twice
  // is harmless while the slab exists.
  lemma KfreeInside(h: Heap, p: nat, i: nat, addr: nat)
    requires Good(h) && p in h.slabs && i < Total(h.slabs[p].size)
    requires Address(p, h.slabs[p].size, i) <= addr < Address(p, h.slabs[p].size, i) + Item(h.slabs[p].size)
    ensures addr / PAGE < |h.pool.frames| && i < |h.slabs[p].bits| && Freeable(h, addr)
    ensures var r := Kfree(h, addr);
      && ((p, i) in Objects(h) ==>
            r.Freed? && Good(r.heap) && Objects(r.heap) == Objects(h) - {(p, i)} && Pages(r.heap) == Pages(h))
      && (!h.slabs[p].bits[i] ==> r == Freed(h))
  {
    var c := h.slabs[p].size;
    SlabFacts(h, p);
    SlabBlock(h, p);
    TotalFits(c);
    ObjectInside(p, c, i);
    IndexInside(p, c, i, addr);
    hide Good, Total, Item, FirstItem, Address, Pow2, SlabOrder;
    PageInside(p, Pow2(SlabOrder(c)), addr);
    GoodPool(h);
    LookupsFindBlock(h.pool, p, addr / PAGE);
    FreeIndex(h, p, i, addr);
    if (p, i) in Objects(h) {
      ObjectsIn(h, p, i);
      SlabFreeLaw(h, p, i);
    }
  }

  lemma SlabBlock(h: Heap, p: nat)
    requires Good(h) && p in h.slabs
    ensures p in Live(h.pool) && Live(h.pool)[p].owner == Slab && Live(h.pool)[p].order == SlabOrder(h.slabs[p].size)
  {
  }

  lemma PageInside(p: nat, n: nat, addr: nat)
    requires p * PAGE <= addr < (p + n) * PAGE
    ensures p <= addr / PAGE < p + n
  {
  }

  lemma IndexInside(p: nat, c: nat, i: nat, addr: nat)
    requires MIN_CLASS <= c <= MAX_CLASS && Address(p, c, i) <= addr < Address(p, c, i) + Item(c)
    ensures (addr - p * PAGE) / Item(c) - FirstItem(c) / Item(c) == i && addr != 0
  {
    hide FirstItem, Item, Address;
    AddressParts(p, c, i);
    WithinItem(addr - p * PAGE, Item(c), FirstItem(c) / Item(c), i);
  }

  lemma AddressParts(p: nat, c: nat, i: nat)
    requires MIN_CLASS <= c <= MAX_CLASS
    ensures Item(c) > 0 && Address(p, c, i) - p * PAGE == FirstItem(c) / Item(c) * Item(c) + i * Item(c)
    ensures Address(p, c, i) > p * PAGE
  {
    Geometry(c);
    hide FirstItem, Item, SlabBytes, Total, Pow2, SlabOrder;
  }

  lemma WithinItem(x: nat, d: nat, f: nat, i: nat)
    requires d > 0 && f * d + i * d <= x < f * d + i * d + d
    ensures x / d - f == i
  {
    assert (f + i) * d == f * d + i * d;
    DivUnique(x, d, f + i, x - (f + i) * d);
  }

  lemma FreeIndex(h: Heap, p: nat, i: nat, addr: nat)
    requires Good(h) && p in h.slabs && p < |h.pool.frames| && addr != 0 && addr / PAGE < |h.pool.frames|
    requires MIN_CLASS <= h.slabs[p].size <= MAX_CLASS && i < |h.slabs[p].bits| && h.pool.Valid() && Caches(h)
    requires OwnerOf(h.pool, addr / PAGE) == Slab && HeadFromPage(h.pool, addr / PAGE) == Head(p)
    requires Index(h.slabs[p], p, addr) == i
    ensures Freeable(h, addr) && Kfree(h, addr) == Freed(SlabFree(h, p, i))
    ensures !h.slabs[p].bits[i] ==> Kfree(h, addr) == Freed(h)
  {
    hide Good, Pool.Valid, OwnerOf, HeadFromPage, Index;
  }

  // Freeing an object of a full slab and asking for one of its class gives the same address
  // back, with the same objects out as before.
  lemma FullSlabReturns(h: Heap, p: nat, i: nat, bytes: nat, junk: seq<bool>)
    requires Good(h) && (p, i) in Objects(h) && p in h.slabs && h.slabs[p].inuse == h.slabs[p].total
    requires bytes <= 0x4000_0000 && Class(bytes) == h.slabs[p].size && |junk| == BITS
    ensures Freeable(h, Address(p, h.slabs[p].size, i))
    ensures var a := Address(p, h.slabs[p].size, i); var f := Kfree(h, a);
      && f.Freed? && Good(f.heap) && Listed(f.heap)
      && var r := Kmalloc(f.heap, bytes, junk);
         r.Ok? && r.addr == a && Objects(r.heap) == Objects(h)
  {
    hide Good, Kfree, Kmalloc, Freeable, Objects, Listed, SlabFree, Address, Class;
    KfreeObject(h, p, i);
    FreedIs(h, p, i);
    GoodListed(SlabFree(h, p, i));
    SlabFreeFull(h, p, i);
    AgainTaken(SlabFree(h, p, i), p, i, bytes, junk);
    assert Objects(h) - {(p, i)} + {(p, i)} == Objects(h);
  }

  lemma FreedIs(h: Heap, p: nat, i: nat)
    requires Good(h) && (p, i) in Objects(h)
    ensures p in h.slabs && p < |h.pool.frames| && i in Used(h.slabs[p]) && Caches(h) && h.pool.Valid()
    ensures i < |h.slabs[p].bits| && MIN_CLASS <= h.slabs[p].size <= MAX_CLASS
    ensures Freeable(h, Address(p, h.slabs[p].size, i))
    ensures Kfree(h, Address(p, h.slabs[p].size, i)) == Freed(SlabFree(h, p, i))
  {
    var g := Object(p, i);
    Placed(h, g);
    InsideBlock(h, g);
    SlabFacts(h, p);
    var c := h.slabs[p].size;
    PagesHeld(h, g, Address(p, c, i));
    IndexOf(c, p, i);
    KfreeIsSlabFree(h, p, i, Address(p, c, i));
    hide Good, Kfree, Freeable, SlabFree, Address, Pool.Valid;
  }

  // The slab is first on its partial list, and its only clear bit is the one just cleared.
  lemma SlabFreeFull(h: Heap, p: nat, i: nat)
    requires Good(h) && p in h.slabs && p < |h.pool.frames| && i in Used(h.slabs[p]) && i < |h.slabs[p].bits|
    requires Caches(h) && h.pool.Valid() && MIN_CLASS <= h.slabs[p].size <= MAX_CLASS
    requires h.slabs[p].inuse == h.slabs[p].total
    ensures var r, s := SlabFree(h, p, i), h.slabs[p];
      && Caches(r) && p in r.slabs && |r.partial[s.size - MIN_CLASS]| > 0 && r.partial[s.size - MIN_CLASS][0] == p
      && r.slabs[p].size == s.size && r.slabs[p].total == s.total && i < s.total <= |r.slabs[p].bits|
      && r.slabs[p].inuse + 1 == s.total && FirstClear(r.slabs[p].bits, 0, s.total) == i
  {
    hide Good, Pool.Valid, BuddyFree, FirstClear, Total, Used;
    var s := h.slabs[p];
    FullBits(h, p, i);
    FirstIs(s.bits[i := false], s.total, i);
  }

  lemma FullBits(h: Heap, p: nat, i: nat)
    requires Good(h) && p in h.slabs && i in Used(h.slabs[p]) && h.slabs[p].inuse == h.slabs[p].total
    ensures 7 <= h.slabs[p].total <= |h.slabs[p].bits| == BITS && i < h.slabs[p].total
    ensures forall j :: 0 <= j < h.slabs[p].total ==> h.slabs[p].bits[j]
  {
    var s := h.slabs[p];
    SlabFacts(h, p);
    UsedBelow(s);
    TotalFits(s.size);
    hide Good, Total;
    forall j | 0 <= j < s.total
      ensures s.bits[j]
    {
      assert j in Range(0, s.total);
      assert j in Used(s);
    }
  }

  lemma FirstIs(bits: seq<bool>, total: nat, i: nat)
    requires i < total <= |bits| && !bits[i] && forall j :: 0 <= j < i ==> bits[j]
    ensures FirstClear(bits, 0, total) == i
  {
    hide FirstClear;
  }

  lemma AgainTaken(h: Heap, p: nat, i: nat, bytes: nat, junk: seq<bool>)
    requires Good(h) && Listed(h) && bytes <= 0x4000_0000 && MIN_CLASS <= Class(bytes) <= MAX_CLASS && |junk| == BITS
    requires var c := Class(bytes);
      && |h.partial[c - MIN_CLASS]| > 0 && h.partial[c - MIN_CLASS][0] == p && p in h.slabs && h.slabs[p].size == c
      && i < h.slabs[p].total <= |h.slabs[p].bits| && h.slabs[p].inuse < h.slabs[p].total
      && FirstClear(h.slabs[p].bits, 0, h.slabs[p].total) == i
    ensures var r := Kmalloc(h, bytes, junk);
      r.Ok? && r.addr == Address(p, Class(bytes), i) && Objects(r.heap) == Objects(h) + {(p, i)}
  {
    hide Good, Address, Class, FirstClear, Objects, Pool.Valid, Total, Used, Delete, BlocksOk, SlabsOk, ListsOk;
    GoodParts(h);
    TakeFromSlab(h, p, i);
  }

  lemma GoodParts(h: Heap)
    requires Good(h)
    ensures BlocksOk(h) && SlabsOk(h) && ListsOk(h) && h.pool.Valid() && Coalesced(h.pool) && Caches(h)
    ensures forall q :: q in h.slabs ==> h.slabs[q].inuse > 0
  {
  }
}
