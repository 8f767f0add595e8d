// memprofiler.c: the walk that counts free pages by stepping from block to block.
module Memprofiler {
  import opened Bits
  import opened PagePool
  import opened BuddyLaws
  import opened BuddyAllocator

  ghost function FreeBelow(m: Pool, p: nat): (s: set<nat>) {
    set q: nat | q < p && q < |m.frames| && PageFree(m, q)
  }

  // The walk is at the start of a block, in the reserved prefix, or at the end.
  ghost predicate Boundary(m: Pool, p: nat) {
    p <= |m.frames| && (p < m.base || m.IsHead(p) || p == |m.frames|)
  }

  lemma NextBoundary(m: Pool, p: nat)
    requires m.Valid() && Boundary(m, p) && p < |m.frames|
    ensures Boundary(m, m.End(p))
  {
    var e := m.End(p);
    assert p < m.base ==> e == p + 1 by {
      assert Pow2(0) == 1;
    }
    if m.IsHead(p) && e < |m.frames| {
      var o := HeadOf(m, e);
      assert m.IsHead(o) && o <= e < m.End(o);
      assert o != p && !(p < o < m.End(p));
    }
  }

  lemma BlockCounted(m: Pool, p: nat)
    requires m.Valid() && Boundary(m, p) && p < |m.frames|
    ensures |FreeBelow(m, m.End(p))| == |FreeBelow(m, p)| + if m.frames[p].owner == Free then Pow2(m.Order(p)) else 0
  {
    var e := m.End(p);
    assert e <= |m.frames| by { NextBoundary(m, p); }
    var b := Range(p, e);
    RangeSize(p, e);
    forall q: nat | p <= q < e
      ensures PageFree(m, q) <==> m.frames[p].owner == Free
    {
      assert p < m.base ==> Pow2(0) == 1 && q == p;
    }
    if m.frames[p].owner == Free {
      assert FreeBelow(m, e) == FreeBelow(m, p) + b;
    } else {
      assert FreeBelow(m, e) == FreeBelow(m, p);
    }
  }

  lemma WalkEnds(m: Pool)
    requires m.Valid()
    ensures Boundary(m, 0) && FreeBelow(m, 0) == {} && FreeBelow(m, |m.frames|) == FreePages(m)
    ensures |m.frames| == Pow2(m.maxOrder)
  {
  }

  ghost predicate WalkedTo(m: Pool, p: nat, free: nat) {
    Boundary(m, p) && free == |FreeBelow(m, p)|
  }

  lemma WalkStep(m: Pool, p: nat, free: nat)
    requires m.Valid() && WalkedTo(m, p, free) && p != |m.frames|
    ensures p < |m.frames| && m.End(p) <= |m.frames|
    ensures WalkedTo(m, m.End(p), free + if m.frames[p].owner == Free then Pow2(m.Order(p)) else 0)
  {
    NextBoundary(m, p);
    BlockCounted(m, p);
  }

  lemma WalkStarts(m: Pool)
    requires m.Valid()
    ensures WalkedTo(m, 0, 0) && |m.frames| == Pow2(m.maxOrder)
  {
    WalkEnds(m);
  }

  lemma WalkDone(m: Pool, free: nat)
    requires m.Valid() && WalkedTo(m, |m.frames|, free)
    ensures free == |FreePages(m)|
  {
    WalkEnds(m);
  }

  // get_percent_free: the walk lands exactly on the end of the array, counts every frame
  // once (reserved ones too) and counts as free exactly the pages on the free lists.
  method PercentFree(h: BuddyHeap) returns (free: nat, total: nat)
    requires h.Valid()
    ensures free == |FreePages(h.Model())|
    ensures total == Pow2(h.maxOrder)
  {
    hide WalkedTo, Boundary, FreeBelow, Pool.Valid, FreePages, Pow2;
    ghost var m := h.Model();
    WalkStarts(m);
    var curr := 0;
    free, total := 0, 0;
    while curr != h.frames.Length
      invariant WalkedTo(m, curr, free) && total == curr
      decreases h.frames.Length - curr
    {
      WalkStep(m, curr, free);
      var step := Pow2(h.frames[curr].order);
      free := free + if h.frames[curr].owner == Free then step else 0;
      total := total + step;
      curr := curr + step;
    }
    WalkDone(m, free);
  }
}
