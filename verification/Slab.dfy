// kmalloc and kfree as they run, on the linked buddy allocator, proved to compute the
// functions of SlabSpec.
module SlabAllocator {
  import opened Bits
  import opened ListSpec
  import opened PagePool
  import opened BuddyLaws
  import opened BuddyRuns
  import opened BuddyAllocator
  import opened IntrusiveList
  import opened PageOwner
  import opened SlabSpec
  import opened SlabLaws
  import opened SlabRuns

  datatype Status = Granted | Nothing | Panicking

  // The fourteen lists, partial ones first, as the two families of SlabSpec.
  function Halves(l: Lists): (r: (Lists, Lists))
    requires |l| == 2 * CACHES
  {
    (l[..CACHES], l[CACHES..])
  }

  class KernelHeap {
    const buddy: BuddyHeap
    // The slab headers, by first page, and their list nodes. Heads 0 to 6 are the partial
    // lists of the caches, heads 7 to 13 the full lists.
    var slabs: map<nat, SlabInfo>
    const links: ListHeap

    ghost function Model(): (h: Heap)
      requires |links.lists| == 2 * CACHES
      reads this, buddy, buddy.frames, buddy.links, links
    {
      Heap(buddy.Model(), slabs, Halves(links.lists).0, Halves(links.lists).1)
    }

    // The slab lists and the buddy's free lists share no memory.
    ghost predicate Linked()
      reads this, buddy, buddy.links, links, links.next, links.prev
    {
      && links.Valid() && |links.lists| == 2 * CACHES && links.nodes == buddy.frames.Length
      && links != buddy.links && {links.next, links.prev} !! {buddy.links.next, buddy.links.prev}
    }

    ghost predicate Valid()
      reads this, buddy, buddy.frames, buddy.links, buddy.links.next, buddy.links.prev, links, links.next, links.prev
    {
      buddy.Valid() && Linked() && Good(Model())
    }

    // kmalloc.c:30-38
    constructor (buddy: BuddyHeap)
      requires buddy.Valid() && Good(EmptyHeap(buddy.Model()))
      ensures Valid() && this.buddy == buddy && Model() == EmptyHeap(buddy.Model())
      ensures fresh(links) && fresh(links.next) && fresh(links.prev)
    {
      this.buddy := buddy;
      slabs := map[];
      links := new ListHeap(buddy.frames.Length, 2 * CACHES);
    }

    // kmalloc.c:40-57
    method AddrFromSlab(p: nat) returns (addr: nat, found: bool)
      requires p in slabs && slabs[p].total <= |slabs[p].bits|
      modifies `slabs
      ensures var s := old(slabs)[p]; var i := FirstClear(s.bits, 0, s.total);
        && (found <==> i < s.total)
        && (found ==>
              && addr == Address(p, s.size, i)
              && slabs == old(slabs)[p := s.(bits := s.bits[i := true], inuse := s.inuse + 1)])
        && (!found ==> slabs == old(slabs))
    {
      var s := slabs[p];
      var i := 0;
      while i < s.total
        invariant i <= s.total && slabs == old(slabs)
        invariant FirstClear(s.bits, 0, s.total) == FirstClear(s.bits, i, s.total)
      {
        if !s.bits[i] {
          slabs := slabs[p := s.(bits := s.bits[i := true], inuse := s.inuse + 1)];
          return Address(p, s.size, i), true;
        }
        i := i + 1;
      }
      return 0, false;
    }

    // kmalloc.c:95-106: one object from the first partial slab.
    method TakeFirst(c: nat) returns (addr: nat, status: Status)
      requires MIN_CLASS <= c <= MAX_CLASS && Linked() && Model().partial[c - MIN_CLASS] != []
      requires var p := Model().partial[c - MIN_CLASS][0];
        p in slabs && slabs[p].inuse < slabs[p].total <= |slabs[p].bits|
      modifies `slabs, links, links.next, links.prev
      ensures Linked()
      ensures match TakeObject(old(Model()), c)
        case Ok(h, a) => status == Granted && addr == a && Model() == h
        case Null(h) => status == Nothing && Model() == h
        case Panic => false
    {
      var p := links.First(c - MIN_CLASS);
      var found;
      addr, found := AddrFromSlab(p);
      if slabs[p].inuse == slabs[p].total {
        Relink(p, c - MIN_CLASS, c - MIN_CLASS + CACHES);
      }
      status := if found then Granted else Nothing;
    }

    // list_remove and list_add, from list j to the front of list k.
    method Relink(p: nat, ghost j: nat, k: nat)
      requires Linked() && j < 2 * CACHES && k < 2 * CACHES && p in links.lists[j]
      modifies links, links.next, links.prev
      ensures Linked()
      ensures j < CACHES <= k ==>
        Halves(links.lists) ==
          (Delete(Halves(old(links.lists)).0, p), Push(Halves(old(links.lists)).1, k - CACHES, p))
      ensures k < CACHES <= j ==>
        Halves(links.lists) == (Push(Halves(old(links.lists)).0, k, p), Delete(Halves(old(links.lists)).1, p))
    {
      ghost var l := links.lists;
      OnOneHalf(l, links.nodes, j, p);
      links.Remove(p);
      links.Add(p, k);
      HalvesAfter(l, p, k);
    }

    // kmalloc.c:13-29: the block is handed to the slab layer before the null check.
    method SlabAlloc(c: nat) returns (page: nat, ok: bool)
      requires buddy.Valid() && Coalesced(buddy.Model()) && MIN_CLASS <= c <= MAX_CLASS
      modifies buddy.frames, buddy.links, buddy.links.next, buddy.links.prev
      ensures buddy.Valid()
      ensures ok == SlabPages(old(buddy.Model()), c).Alloc?
      ensures ok ==> SlabPages(old(buddy.Model()), c) == Alloc(buddy.Model(), page)
    {
      ghost var m := buddy.Model();
      SlabOrderFits(c);
      page, ok := buddy.AllocBytes(PAGE * (SlabOrder(c) + 1));
      if ok {
        SlabPagesLaw(m, c);
        FreshlyLive(m, SlabOrder(c));
        buddy.SetPageOwner(page, Slab);
      }
    }

    // kmalloc.c:59-107
    method Kmalloc(bytes: nat, junk: seq<bool>) returns (addr: nat, status: Status)
      requires Valid() && |junk| == BITS && bytes < 0x1_0000_0000_0000_0000
      modifies this, links, links.next, links.prev, buddy.frames, buddy.links, buddy.links.next, buddy.links.prev
      ensures Listed(old(Model()))
      ensures status != Panicking ==> Valid()
      ensures match SlabSpec.Kmalloc(old(Model()), bytes, junk)
        case Ok(h, a) => status == Granted && addr == a && Model() == h
        case Null(h) => status == Nothing && Model() == h
        case Panic => status == Panicking
    {
      hide Good, Pool.Valid, Coalesced, Class, TakeObject, AddSlab, SlabPages, AllocOrder, SlabLaws.Granted;
      hide IntrusiveList.Linked, Halves;
      ghost var h := Model();
      GoodListed(h);
      ClassIsLeast(bytes);
      ghost var g := KmallocLaw(h, bytes, junk);
      if bytes > 0x4000_0000 {
        return 0, Nothing;
      }
      var c := Class(bytes);
      if c > MAX_CLASS {
        addr, status := KmallocPages(bytes, c);
      } else {
        addr, status := KmallocObject(bytes, c, junk);
      }
    }

    // kmalloc.c:79-106
    method KmallocObject(bytes: nat, c: nat, junk: seq<bool>) returns (addr: nat, status: Status)
      requires Valid() && |junk| == BITS && bytes <= 0x4000_0000 && MIN_CLASS <= c == Class(bytes) <= MAX_CLASS
      requires Listed(Model())
      modifies this, links, links.next, links.prev, buddy.frames, buddy.links, buddy.links.next, buddy.links.prev
      ensures status != Panicking ==> buddy.Valid() && Linked()
      ensures match SlabSpec.Kmalloc(old(Model()), bytes, junk)
        case Ok(h, a) => status == Granted && addr == a && Model() == h
        case Null(h) => status == Nothing && Model() == h
        case Panic => status == Panicking
    {
      hide Good, Pool.Valid, Coalesced, Class, TakeObject, AddSlab, SlabPages, AllocOrder, OrderFor, PagesFor;
      hide IntrusiveList.Linked;
      ghost var h := Model();
      var none := links.Empty(c - MIN_CLASS);
      if none {
        var ok := Grow(c, junk);
        if !ok {
          return 0, Panicking;
        }
      } else {
        GoodPartial(h, c);
      }
      addr, status := TakeFirst(c);
    }

    method KmallocPages(bytes: nat, c: nat) returns (addr: nat, status: Status)
      requires Valid() && bytes <= 0x4000_0000 && c == Class(bytes) > MAX_CLASS
      modifies buddy.frames, buddy.links, buddy.links.next, buddy.links.prev
      ensures buddy.Valid()
      ensures var a := BuddyAlloc(old(buddy.Model()), Pow2(c));
        && (a.Alloc? ==> status == Granted && addr == a.page * PAGE && buddy.Model() == a.pool)
        && (a.NoMemory? ==> status == Nothing && buddy.Model() == old(buddy.Model()))
    {
      ClassIsLeast(bytes);
      ThirtyBits(c, bytes);
      var page, ok := buddy.AllocBytes(Pow2(c));
      addr := page * PAGE;
      status := if ok then Granted else Nothing;
    }

    // kmalloc.c:79-93
    method Grow(c: nat, junk: seq<bool>) returns (ok: bool)
      requires Valid() && MIN_CLASS <= c <= MAX_CLASS && |junk| == BITS && Model().partial[c - MIN_CLASS] == []
      modifies this, links, links.next, links.prev, buddy.frames, buddy.links, buddy.links.next, buddy.links.prev
      ensures ok == SlabPages(old(buddy.Model()), c).Alloc?
      ensures ok ==> var a := SlabPages(old(buddy.Model()), c);
        && Linked() && Model() == AddSlab(old(Model()), a.pool, a.page, c, junk) && buddy.Valid()
        && Model().partial[c - MIN_CLASS] == [a.page]
        && a.page in slabs && slabs[a.page].inuse < slabs[a.page].total <= |slabs[a.page].bits|
    {
      hide Good, Pool.Valid, Coalesced, SlabPages, NewSlab, Push, Halves;
      ghost var h, l := Model(), links.lists;
      GoodBlocks(h);
      var page;
      page, ok := SlabAlloc(c);
      if ok {
        GrowLaw(h, l, c, junk);
        slabs := slabs[page := NewSlab(c, junk)];
        links.Add(page, c - MIN_CLASS);
      }
    }

    // kmalloc.c:145-149: an empty slab leaves its cache and goes back to the buddy.
    method Retire(p: nat, ghost j: nat)
      requires buddy.Valid() && Linked() && p < buddy.frames.Length && j < CACHES && p in links.lists[j]
      modifies this, links, links.next, links.prev, buddy.frames, buddy.links, buddy.links.next, buddy.links.prev
      ensures buddy.Valid() && Linked() && buddy.Model() == BuddyFree(old(buddy.Model()), p)
      ensures slabs == old(slabs) - {p}
      ensures Halves(links.lists) == (Delete(Halves(old(links.lists)).0, p), Halves(old(links.lists)).1)
    {
      hide Pool.Valid, BuddyFree, Delete;
      OnOneHalf(links.lists, links.nodes, j, p);
      links.Remove(p);
      slabs := slabs - {p};
      buddy.FreeBlock(p);
    }

    // kmalloc.c:109-150
    method SlabFree(addr: nat)
      requires Valid() && addr / PAGE < buddy.frames.Length && addr != 0 && InSlab(Model(), addr)
      requires Freeable(Model(), addr)
      modifies this, links, links.next, links.prev, buddy.frames, buddy.links, buddy.links.next, buddy.links.prev
      ensures buddy.Valid() && Linked()
      ensures var p := HeadFromPage(old(buddy.Model()), addr / PAGE).page;
        Model() == SlabSpec.SlabFree(old(Model()), p, Index(old(slabs)[p], p, addr))
    {
      hide Good, Pool.Valid, BuddyFree, SlabSpec.SlabFree, OwnerOf, HeadFromPage, Item;
      var head := buddy.FindHead(addr / PAGE);
      var p := head.page;
      var itemSize := Item(slabs[p].size);
      ItemPositive(slabs[p].size);
      var metadata := AlignUp(HEADER, itemSize) / itemSize;
      var offset := (addr - p * PAGE) / itemSize - metadata;
      FreeObject(p, offset);
    }

    // Lines 126-149.
    method FreeObject(p: nat, i: nat)
      requires Valid() && p in slabs && i < |slabs[p].bits| && p < buddy.frames.Length
      modifies this, links, links.next, links.prev, buddy.frames, buddy.links, buddy.links.next, buddy.links.prev
      ensures buddy.Valid() && Linked() && Model() == SlabSpec.SlabFree(old(Model()), p, i)
    {
      hide Good, Pool.Valid, BuddyFree, Delete;
      ghost var h := Model();
      GoodSlab(h, p);
      var s := slabs[p];
      if !s.bits[i] {
        return;
      }
      var k := s.size - MIN_CLASS;
      if s.inuse == s.total {
        Relink(p, k + CACHES, k);
      }
      s := s.(bits := s.bits[i := false], inuse := Less16(s.inuse), lost := s.lost - {i});
      if s.inuse == 0 {
        Retire(p, k);
      } else {
        slabs := slabs[p := s];
      }
    }

    // kmalloc.c:152-174; ok is false where the code panics.
    method Kfree(addr: nat) returns (ok: bool)
      requires Valid() && Freeable(Model(), addr)
      modifies this, links, links.next, links.prev, buddy.frames, buddy.links, buddy.links.next, buddy.links.prev
      ensures Linked()
      ensures match SlabSpec.Kfree(old(Model()), addr)
        case Freed(h) => ok && Model() == h
        case FreePanic => !ok
    {
      hide Good, Pool.Valid, BuddyFree, SlabSpec.SlabFree, OwnerOf, HeadFromPage, Index, BlocksOk, SlabsOk, ListsOk,
        NoneIdle;
      if addr == 0 {
        return true;
      }
      var page := addr / PAGE;
      var owner := buddy.GetPageOwner(page);
      match owner
      case Buddy => buddy.FreeBlock(page); ok := true;
      case Slab =>
        SlabFree(addr);
        ok := true;
      case Free => ok := true;
      case Reserved => ok := false;
    }
  }

  lemma FreshlyLive(m: Pool, o: nat)
    requires m.Valid() && Coalesced(m) && AllocOrder(m, o).Alloc?
    ensures var Alloc(r, p) := AllocOrder(m, o); p < |r.frames| && p in Live(r) && HeadOf(r, p) == p && Coalesced(r)
  {
    AllocOrderLaw(m, o);
    assert AllocOrder(m, o).page in Live(AllocOrder(m, o).pool);
  }

  lemma GoodPartial(h: Heap, c: nat)
    requires Good(h) && MIN_CLASS <= c <= MAX_CLASS && h.partial[c - MIN_CLASS] != []
    ensures var p := h.partial[c - MIN_CLASS][0];
      p in h.slabs && h.slabs[p].inuse < h.slabs[p].total <= |h.slabs[p].bits|
  {
    PartialHead(h, c);
  }

  lemma ItemPositive(c: nat)
    ensures Item(c) > 0
  {
  }

  lemma GoodSlab(h: Heap, p: nat)
    requires Good(h) && p in h.slabs
    ensures Caches(h) && MIN_CLASS <= h.slabs[p].size <= MAX_CLASS
    ensures var k := h.slabs[p].size - MIN_CLASS;
      if h.slabs[p].inuse == h.slabs[p].total then p in h.full[k] else p in h.partial[k]
  {
    SlabFacts(h, p);
    UsedBelow(h.slabs[p]);
    hide BlocksOk, SlabOk, Used;
    var k := h.slabs[p].size - MIN_CLASS;
    assert p in h.full[k] <==> OnFull(h, k, p);
    assert p in h.partial[k] <==> OnPartial(h, k, p);
  }

  // ---- the two families as halves of one ----

  lemma DeleteHalves(l: Lists, p: nat)
    requires |l| == 2 * CACHES
    ensures |Delete(l, p)| == |l| && Halves(Delete(l, p)) == (Delete(Halves(l).0, p), Delete(Halves(l).1, p))
  {
    var d := Delete(l, p);
    assert d[..CACHES] == Delete(l[..CACHES], p);
    assert d[CACHES..] == Delete(l[CACHES..], p);
  }

  lemma PushHalves(l: Lists, p: nat, k: nat)
    requires |l| == 2 * CACHES && k < 2 * CACHES
    ensures k < CACHES ==> Halves(Push(l, k, p)) == (Push(Halves(l).0, k, p), Halves(l).1)
    ensures k >= CACHES ==> Halves(Push(l, k, p)) == (Halves(l).0, Push(Halves(l).1, k - CACHES, p))
  {
  }

  // A node on a list of one half is on none of the other.
  lemma OnOneHalf(l: Lists, nodes: nat, j: nat, p: nat)
    requires Disjoint(l, nodes) && |l| == 2 * CACHES && j < |l| && p in l[j]
    ensures OnList(l, p) && p < nodes && Halves(Delete(l, p)).0 == Delete(Halves(l).0, p)
    ensures if j < CACHES then Delete(Halves(l).1, p) == Halves(l).1 else Delete(Halves(l).0, p) == Halves(l).0
    ensures Halves(Delete(l, p)).1 == Delete(Halves(l).1, p)
  {
    DeleteHalves(l, p);
    var i :| 0 <= i < |l[j]| && l[j][i] == p;
    var other := if j < CACHES then Halves(l).1 else Halves(l).0;
    forall k | 0 <= k < |other|
      ensures p !in other[k]
    {
      assert other[k] == l[if j < CACHES then k + CACHES else k];
    }
    DeleteAbsent(other, p);
  }

  lemma HalvesAfter(l: Lists, p: nat, k: nat)
    requires |l| == 2 * CACHES && k < |l|
    ensures |Delete(l, p)| == |l|
    ensures k < CACHES
      ==> Halves(Push(Delete(l, p), k, p)) == (Push(Delete(Halves(l).0, p), k, p), Delete(Halves(l).1, p))
    ensures k >= CACHES
      ==> Halves(Push(Delete(l, p), k, p)) == (Delete(Halves(l).0, p), Push(Delete(Halves(l).1, p), k - CACHES, p))
  {
    DeleteHalves(l, p);
    PushHalves(Delete(l, p), p, k);
  }

  lemma GoodBlocks(h: Heap)
    requires Good(h)
    ensures h.pool.Valid() && Coalesced(h.pool) && Caches(h)
  {
  }

  lemma GrowLaw(h: Heap, l: Lists, c: nat, junk: seq<bool>)
    requires Good(h) && MIN_CLASS <= c <= MAX_CLASS && |junk| == BITS && h.partial[c - MIN_CLASS] == []
    requires |l| == 2 * CACHES && Halves(l) == (h.partial, h.full)
    requires SlabPages(h.pool, c).Alloc?
    ensures var Alloc(m, p) := SlabPages(h.pool, c);
      && !OnList(l, p) && p < |m.frames| && |m.frames| == |h.pool.frames|
      && |Push(l, c - MIN_CLASS, p)| == |l|
      && Heap(m, h.slabs[p := NewSlab(c, junk)], Halves(Push(l, c - MIN_CLASS, p)).0,
        Halves(Push(l, c - MIN_CLASS, p)).1)
         == AddSlab(h, m, p, c, junk)
      && Halves(Push(l, c - MIN_CLASS, p)).0[c - MIN_CLASS] == [p]
      && NewSlab(c, junk).inuse < NewSlab(c, junk).total <= |NewSlab(c, junk).bits|
  {
    var Alloc(m, p) := SlabPages(h.pool, c);
    SlabPagesEffect(h.pool, c);
    SlabPagesSize(h.pool, c);
    NewSlabOk(c, junk);
    Geometry(c);
    assert p in Live(m);
    hide Pool.Valid, Coalesced, LabelsOk, SlabPages, Live, NewSlab, SlabOk, SlabsOk;
    NewNode(h, l, c, p);
  }

  lemma SlabPagesSize(m: Pool, c: nat)
    requires m.Valid() && Coalesced(m) && SlabPages(m, c).Alloc?
    ensures |SlabPages(m, c).pool.frames| == |m.frames|
  {
    hide Coalesced, AllocOrder, SetOwner, OrderFor, PagesFor;
    SlabPagesLaw(m, c);
    AllocOrderLaw(m, OrderFor(PagesFor(PAGE * (SlabOrder(c) + 1))));
    var a := BuddyAlloc(m, PAGE * (SlabOrder(c) + 1));
    SetOwnerLaw(a.pool, a.page, Slab);
  }

  lemma NewNode(h: Heap, l: Lists, c: nat, p: nat)
    requires ListsOk(h) && |l| == 2 * CACHES && Halves(l) == (h.partial, h.full) && p !in h.slabs
    requires c < CACHES + MIN_CLASS
    ensures !OnList(l, p)
    ensures c >= MIN_CLASS ==> Halves(Push(l, c - MIN_CLASS, p)) == (Push(h.partial, c - MIN_CLASS, p), h.full)
  {
    forall k | 0 <= k < |l|
      ensures p !in l[k]
    {
      if k < CACHES {
        assert l[k] == h.partial[k];
        assert p in h.partial[k] <==> OnPartial(h, k, p);
      } else {
        assert l[k] == h.full[k - CACHES];
        assert p in h.full[k - CACHES] <==> OnFull(h, k - CACHES, p);
      }
    }
    if c >= MIN_CLASS {
      PushHalves(l, p, c - MIN_CLASS);
    }
  }
}
