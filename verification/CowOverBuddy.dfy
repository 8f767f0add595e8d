// The allocator assumed by the address-space model is the buddy allocator: taking a page,
// sharing it and dropping a reference are its order-0 steps.
module CowOverBuddy {
  import opened Bits
  import opened PagePool
  import opened RefCount
  import opened BuddyLaws
  import opened BuddyRuns
  import opened BuddyDrain
  import opened Cow

  // f is an allocated block of one page, not the slab layer's, with this many references.
  ghost predicate IsPage(m: Pool, f: nat, refs: nat) {
    f in Live(m) && Live(m)[f].order == 0 && Live(m)[f].owner == Buddy && Live(m)[f].refcount == refs
  }

  // m is the frame array behind w: every page in `pages` is a live single-page block with
  // the reference count w gives it.
  ghost predicate Tracks(m: Pool, w: World, pages: set<nat>) {
    && m.Valid() && Coalesced(m)
    && w.managed == Range(m.base, Pow2(m.maxOrder)) && w.free == FreePages(m)
    && (forall f :: f in pages && f in w.managed ==> IsPage(m, f, w.refs(f)))
  }

  // buddy_alloc of one page: some free page, now with one reference.
  lemma AllocIsTake(m: Pool, w: World, pages: set<nat>)
    requires Tracks(m, w, pages)
    ensures AllocOrder(m, 0).Alloc? <==> w.free != {}
    ensures AllocOrder(m, 0).Alloc? ==>
      var Alloc(r, n) := AllocOrder(m, 0);
      n in w.free && Tracks(r, Cow.Take(w, n), pages + {n})
  {
    AllocPageLaw(m);
  }

  // decrement_ref: one reference fewer, and the page free at zero.
  lemma DropRefIsDrop(m: Pool, w: World, pages: set<nat>, f: nat)
    requires Tracks(m, w, pages) && f < |m.frames| && f in pages && (f in w.managed ==> w.refs(f) > 0)
    ensures Tracks(DropRef(m, f), Drop(w, f), if f in w.managed && w.refs(f) == 1 then pages - {f} else pages)
  {
    if f in w.managed {
      LiveDropIsDrop(m, w, pages, f);
    } else {
      assert f < m.base;
      DropRefIgnoresTails(m, f);
    }
  }

  lemma LiveDropIsDrop(m: Pool, w: World, pages: set<nat>, f: nat)
    requires Tracks(m, w, pages) && f in w.managed && f in pages && w.refs(f) > 0
    ensures f < |m.frames| && Tracks(DropRef(m, f), Drop(w, f), if w.refs(f) == 1 then pages - {f} else pages)
  {
    hide Pool.Valid, Coalesced, FreePages, DropRef, Live, Range, Block;
    LiveInside(m, f);
    DropRefLaw(m, f);
    DropKeepsShape(m, f);
    BlockOfOne(f);
    if w.refs(f) == 1 {
      assert Drop(w, f).free == w.free + {f};
    } else {
      assert Drop(w, f).free == w.free;
    }
  }

  lemma BlockOfOne(f: nat)
    ensures Block(f, 0) == {f}
  {
  }

  lemma LiveInside(m: Pool, f: nat)
    requires f in Live(m)
    ensures f < |m.frames|
  {
  }

  lemma DropKeepsShape(m: Pool, f: nat)
    requires m.Valid() && Coalesced(m) && f < |m.frames|
    ensures DropRef(m, f).base == m.base && DropRef(m, f).maxOrder == m.maxOrder
  {
    StepKeeps(m, OpDrop(f));
  }

  // pf->refcount++ of a clone.
  lemma ShareIsPlus(m: Pool, w: World, pages: set<nat>, f: nat)
    requires Tracks(m, w, pages) && f < |m.frames| && f in pages && w.refs(f) < 0xFFFF_FFFF
    ensures Tracks(ShareRef(m, f), w.(refs := Put(w.refs, f, w.refs(f) + 1)), pages)
  {
    hide Pool.Valid, Coalesced, FreePages;
    CountKeepsPool(m, f, Plus1(m.frames[f].refcount));
    assert f in w.managed ==> m.frames[f] == Live(m)[f];
  }
}
