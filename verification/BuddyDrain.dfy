// Exhausting the region page by page, and the one shape it returns to when every page
// is freed again.
module BuddyDrain {
  import opened Bits
  import opened PagePool
  import opened RefCount
  import opened BuddyLaws
  import opened BuddyInit
  import opened BuddyRuns

  // ---- single pages: every free page can be handed out, exactly once ----

  lemma AllocPageLaw(m: Pool)
    requires m.Valid() && Coalesced(m)
    ensures AllocOrder(m, 0).Alloc? <==> FreePages(m) != {}
    ensures AllocOrder(m, 0).Alloc? ==>
      var Alloc(r, p) := AllocOrder(m, 0);
      && r.Valid() && Coalesced(r) && r.maxOrder == m.maxOrder && r.base == m.base
      && p in FreePages(m) && p !in Live(m)
      && FreePages(r) == FreePages(m) - {p}
      && Live(r) == Live(m)[p := Frame(0, 1, Buddy, true, false)]
  {
    hide Pool.Valid, Coalesced, AllocOrder, FreePages, Live;
    AllocOrderLaw(m, 0);
    if AllocOrder(m, 0).Alloc? {
      assert Block(AllocOrder(m, 0).page, 0) == {AllocOrder(m, 0).page};
    } else {
      forall q | q in FreePages(m)
        ensures q < |m.frames| && m.IsHead(HeadOf(m, q)) && m.frames[HeadOf(m, q)].owner == Free
      {
        FreePageHead(m, q);
      }
    }
  }

  lemma FreePageHead(m: Pool, q: nat)
    requires m.Valid() && q in FreePages(m)
    ensures q < |m.frames| && m.IsHead(HeadOf(m, q)) && m.frames[HeadOf(m, q)].owner == Free
  {
    PagesConserved(m, q);
  }

  // The wrap of the page count at a request one can make: 2^44 bytes get a single page.
  lemma HugeRequestGetsOnePage(m: Pool)
    requires m.Valid() && Coalesced(m) && FreePages(m) != {}
    ensures var a := BuddyAlloc(m, 0x1000_0000_0000);
      a.Alloc? && a.page in Live(a.pool) && Live(a.pool)[a.page].order == 0
  {
    hide Pool.Valid, Coalesced, FreePages, AllocOrder, Live;
    assert OrderFor(PagesFor(0x1000_0000_0000)) == 0;
    AllocPageLaw(m);
  }

  ghost function Exhaust(m: Pool, n: nat): (r: Pool)
    requires m.Valid() && Coalesced(m) && n <= |FreePages(m)|
    decreases n
  {
    if n == 0 then m
    else
      AllocPageLaw(m);
      Exhaust(AllocOrder(m, 0).pool, n - 1)
  }

  lemma {:induction false} ExhaustLaw(m: Pool, n: nat)
    requires m.Valid() && Coalesced(m) && n <= |FreePages(m)|
    ensures var r := Exhaust(m, n);
      && r.Valid() && Coalesced(r) && r.maxOrder == m.maxOrder && r.base == m.base
      && |FreePages(r)| == |FreePages(m)| - n
      && (forall p :: p in Live(r) ==> Live(r)[p].order == 0 || (p in Live(m) && Live(r)[p] == Live(m)[p]))
    decreases n
  {
    hide Pool.Valid, Coalesced, AllocOrder, FreePages, Live;
    if n > 0 {
      AllocPageLaw(m);
      ExhaustLaw(AllocOrder(m, 0).pool, n - 1);
    }
  }

  // From boot exactly N - base single-page requests succeed, the next one fails, and the
  // region is then shattered into blocks of order 0.
  lemma ExhaustionIsExact(maxOrder: nat, base: nat)
    requires maxOrder < base <= Pow2(maxOrder)
    ensures var b := Boot(maxOrder, base); b.Valid() && Coalesced(b) && |FreePages(b)| == Pow2(maxOrder) - base
    ensures var r := Exhaust(Boot(maxOrder, base), Pow2(maxOrder) - base);
      && r.Valid() && Coalesced(r) && r.maxOrder == maxOrder && r.base == base
      && AllocOrder(r, 0).NoMemory?
      && (forall p :: r.IsHead(p) ==> r.Order(p) == 0)
  {
    BootIsValid(maxOrder, base);
    RangeSize(base, Pow2(maxOrder));
    var b, n := Boot(maxOrder, base), Pow2(maxOrder) - base;
    ExhaustLaw(b, n);
    var r := Exhaust(b, n);
    AllocPageLaw(r);
    forall p: nat | r.IsHead(p)
      ensures r.Order(p) == 0
    {
      assert p !in FreePages(r);
      PagesConserved(r, p);
    }
  }

  // ---- blocks aligned to their size stay so ----

  ghost predicate AllAligned(m: Pool) {
    forall p: nat :: m.IsHead(p) ==> Aligned(p, m.Order(p))
  }

  lemma SplitKeepsAligned(m: Pool, k: nat)
    requires m.Valid() && AllAligned(m) && 0 < k <= m.maxOrder && m.lists[k] != [] && CanSplit(m, k)
    ensures AllAligned(SplitOnce(m, k))
  {
    ListFrontIsFreeHead(m, k);
    var p := m.lists[k][0];
    AlignedDown(p, k, k - 1);
    AlignedMove(p, k - 1);
  }

  lemma {:induction false} SplitDownKeepsAligned(m: Pool, o: nat, k: nat)
    requires m.Valid() && AllAligned(m) && o <= k <= m.maxOrder && m.lists[k] != []
    ensures AllAligned(SplitDown(m, o, k))
    decreases k
  {
    if k != o {
      PagePool.SplitKeepsValid(m, k);
      SplitKeepsAligned(m, k);
      SplitDownKeepsAligned(SplitOnce(m, k), o, k - 1);
    }
  }

  lemma MergeKeepsAligned(m: Pool, lo: nat, k: nat)
    requires m.Valid() && AllAligned(m) && Mergeable(m, lo, k) && lo + 2 * Pow2(k) <= |m.frames|
    ensures AllAligned(Merged(m, lo, k))
  {
    AlignedUp(lo, k);
  }

  lemma {:induction false} CoalesceUpKeepsAligned(m: Pool, p: nat)
    requires m.Valid() && p < |m.frames| && m.FreeHead(p, m.Order(p)) && m.Order(p) < m.maxOrder
    requires AllAligned(m)
    ensures AllAligned(CoalesceUp(m, p))
    decreases m.maxOrder - m.Order(p)
  {
    var k := m.Order(p);
    MergeTestIsSound(m, p, k);
    if CanMerge(m, p) {
      var lo := Lower(p, k);
      MergeKeepsValid(m, lo, k);
      MergeKeepsAligned(m, lo, k);
      CoalesceUpKeepsAligned(Merged(m, lo, k), lo);
    }
  }

  // r has the same blocks as m.
  ghost predicate SameBlocks(m: Pool, r: Pool) {
    && r.base == m.base && |r.frames| == |m.frames|
    && forall p: nat :: p < |m.frames| ==>
         r.frames[p].head == m.frames[p].head && (m.frames[p].head ==> r.frames[p].order == m.frames[p].order)
  }

  lemma SameBlocksAligned(m: Pool, r: Pool)
    requires AllAligned(m) && SameBlocks(m, r)
    ensures AllAligned(r)
  {
    forall p: nat | r.IsHead(p)
      ensures Aligned(p, r.Order(p))
    {
      assert m.IsHead(p);
    }
  }

  lemma ReleaseKeepsAligned(m: Pool, p: nat)
    requires m.Shape() && m.IsHead(p) && m.Order(p) <= m.maxOrder && AllAligned(m)
    ensures AllAligned(Release(m, p))
  {
    SameBlocksAligned(m, Release(m, p));
  }

  lemma FreeKeepsAligned(m: Pool, p: nat)
    requires m.Valid() && AllAligned(m) && p < |m.frames|
    ensures AllAligned(BuddyFree(m, p))
  {
    hide Pool.ReservedOk, Pool.HeadsOk, Pool.InsideOk, Pool.CoverOk, Pool.ListsOk, Pool.TailsOk, Pow2, AllAligned;
    if m.frames[p].head && m.frames[p].owner != Free {
      HeadIsManaged(m, p);
      ReleaseKeepsValid(m, p);
      ReleaseKeepsAligned(m, p);
      if m.Order(p) < m.maxOrder {
        CoalesceUpKeepsAligned(Release(m, p), p);
      }
    }
  }

  lemma AllocKeepsAligned(m: Pool, o: nat)
    requires m.Valid() && AllAligned(m) && AllocOrder(m, o).Alloc?
    ensures AllAligned(AllocOrder(m, o).pool)
  {
    var k := FirstNonEmpty(m.lists, o);
    SplitDownKeepsAligned(m, o, k);
    SplitDownKeeps(m, o, k);
    TakeKeepsAligned(SplitDown(m, o, k), o);
  }

  lemma TakeKeepsAligned(s: Pool, o: nat)
    requires s.Valid() && AllAligned(s) && o <= s.maxOrder && s.lists[o] != []
    ensures s.lists[o][0] + Pow2(o) <= |s.frames| && AllAligned(Take(s, o))
  {
    ListFrontIsFreeHead(s, o);
    SameBlocksAligned(s, Take(s, o));
  }

  lemma StepKeepsAligned(m: Pool, op: Op)
    requires m.Valid() && AllAligned(m) && Allowed(m, op)
    ensures AllAligned(Step(m, op))
  {
    hide Pool.Valid, AllAligned, BuddyFree, AllocOrder, DropRef;
    match op
    case OpAlloc(b) => AllocBytesKeepsAligned(m, b);
    case OpFree(p) => FreeKeepsAligned(m, p);
    case OpShare(p) => SameBlocksAligned(m, Step(m, op));
    case OpDrop(p) => DropKeepsAligned(m, p);
    case OpOwner(p, o) => SameBlocksAligned(m, Step(m, op));
  }

  lemma AllocBytesKeepsAligned(m: Pool, b: nat)
    requires m.Valid() && AllAligned(m)
    ensures BuddyAlloc(m, b).Alloc? ==> AllAligned(BuddyAlloc(m, b).pool)
  {
    if BuddyAlloc(m, b).Alloc? {
      AllocKeepsAligned(m, OrderFor(PagesFor(b)));
    }
  }

  lemma DropKeepsAligned(m: Pool, p: nat)
    requires m.Valid() && AllAligned(m) && p < |m.frames|
    ensures AllAligned(DropRef(m, p))
  {
    hide Pool.Valid;
    var c := Minus1(m.frames[p].refcount);
    CountKeepsPool(m, p, c);
    var d := m.(frames := m.frames[p := m.frames[p].(refcount := c)]);
    SameBlocksAligned(m, d);
    FreeKeepsAligned(d, p);
  }

  lemma {:induction false} RunsKeepAligned(m: Pool, ops: seq<Op>, m': Pool)
    requires m.Valid() && Coalesced(m) && AllAligned(m) && Reaches(m, ops, m')
    ensures AllAligned(m')
    decreases |ops|
  {
    if ops != [] {
      StepKeeps(m, ops[0]);
      StepKeepsAligned(m, ops[0]);
      RunsKeepAligned(Step(m, ops[0]), ops[1..], m');
    }
  }

  // ---- the maximal aligned tiling is unique ----

  ghost predicate Drained(m: Pool) {
    m.Valid() && Coalesced(m) && AllAligned(m) && Live(m) == map[]
  }

  // Two aligned blocks where one starts inside the other.
  lemma AlignedNested(a: nat, j: nat, h: nat, k: nat)
    requires Aligned(a, j) && Aligned(h, k) && j <= k
    requires h < a + Pow2(j) && a < h + Pow2(k)
    ensures h <= a && a + Pow2(j) <= h + Pow2(k)
  {
    Pow2Add(j, k - j);
    AlignedDown(h, k, j);
    DividedNested(a, h, Pow2(j), Pow2(k - j));
  }

  lemma DividedNested(a: int, h: int, d: int, e: int)
    requires d > 0 && a % d == 0 && h % d == 0
    requires h < a + d && a < h + d * e
    ensures h <= a && a + d <= h + d * e
  {
    var x, y := a / d, h / d;
    assert a == x * d && h == y * d;
    MultiplesNested(x, y, e, d);
  }

  lemma MultiplesNested(x: int, y: int, e: int, d: int)
    requires d > 0 && y * d < x * d + d && x * d < y * d + d * e
    ensures y * d <= x * d && x * d + d <= y * d + d * e
  {
    assert y * d + d * e == (y + e) * d;
    BelowNextMultiple(y, x, d);
    assert (y + e - 1) * d == (y + e) * d - d;
    BelowNextMultiple(x, y + e - 1, d);
  }

  lemma BelowNextMultiple(x: int, y: int, d: int)
    requires d > 0 && x * d < y * d + d
    ensures x * d <= y * d
  {
    assert (y - x) * d == y * d - x * d;
    MultipleAbove(y - x, d);
  }

  lemma MultipleAbove(c: int, d: int)
    requires d > 0 && c * d > -d
    ensures c * d >= 0
  {
  }

  // In a drained pool every aligned interval of the region lies inside one block.
  lemma {:induction false} IntervalInBlock(m: Pool, a: nat, k: nat) returns (h: nat)
    requires Drained(m) && Aligned(a, k) && m.base <= a && a + Pow2(k) <= |m.frames|
    ensures m.IsHead(h) && h <= a && a + Pow2(k) <= m.End(h)
    decreases k
  {
    if k == 0 {
      h := HeadOf(m, a);
    } else {
      AlignedUp(a, k - 1);
      var b := a + Pow2(k - 1);
      AlignedMove(a, k - 1);
      h := IntervalInBlock(m, a, k - 1);
      var g := IntervalInBlock(m, b, k - 1);
      if h != g {
        HalvesMerge(m, a, k, h, g);
        assert false;
      }
    }
  }

  lemma HalvesMerge(m: Pool, a: nat, k: nat, h: nat, g: nat)
    requires Drained(m) && k > 0 && Aligned(a, k) && m.base <= a && a + Pow2(k) <= |m.frames|
    requires Aligned(a, k)
    requires m.IsHead(h) && h <= a && a + Pow2(k - 1) <= m.End(h)
    requires m.IsHead(g) && g <= a + Pow2(k - 1) && a + Pow2(k) <= m.End(g)
    ensures h == g
  {
    if m.Order(h) >= k {
      AlignedNested(a, k, h, m.Order(h));
      SameBlock(m, h, g, a + Pow2(k - 1));
    } else if m.Order(g) >= k {
      AlignedNested(a, k, g, m.Order(g));
      SameBlock(m, h, g, a);
    } else {
      SmallContainer(a, k - 1, h, m.Order(h));
      SmallContainer(a + Pow2(k - 1), k - 1, g, m.Order(g));
      NoFreePair(m, a, k - 1);
    }
  }

  lemma SmallContainer(a: nat, k: nat, h: nat, j: nat)
    requires j <= k && h <= a && a + Pow2(k) <= h + Pow2(j)
    ensures h == a && j == k
  {
    Pow2Monotone(j, k);
  }

  lemma NoFreePair(m: Pool, a: nat, k: nat)
    requires Drained(m) && Aligned(a, k + 1)
    ensures !(m.IsHead(a) && m.Order(a) == k && m.IsHead(a + Pow2(k)) && m.Order(a + Pow2(k)) == k)
  {
    hide Bit, Pow2;
    AlignedUp(a, k);
    if m.IsHead(a) && m.Order(a) == k {
      NoTopBlock(m, a);
      assert Apart(m, a, k);
      assert a !in Live(m) && a + Pow2(k) !in Live(m);
    }
  }

  lemma SameBlock(m: Pool, h: nat, g: nat, q: nat)
    requires m.Valid() && m.IsHead(h) && m.IsHead(g) && h <= q < m.End(h) && g <= q < m.End(g)
    ensures h == g
  {
    assert m.End(h) <= |m.frames|;
  }

  // [p, p + 2^k) is aligned, fits in [base, n), and the aligned interval of twice the size
  // around it does not.
  predicate MaximalAligned(base: nat, n: nat, p: nat, k: nat) {
    && Aligned(p, k) && base <= p && p + Pow2(k) <= n
    && !(base <= Lower(p, k) && Lower(p, k) + 2 * Pow2(k) <= n)
  }

  // The drained shape, explicitly: the blocks are exactly the maximal aligned intervals.
  lemma DrainedShape(m: Pool, p: nat, k: nat)
    requires Drained(m)
    ensures (m.IsHead(p) && m.Order(p) == k) <==> MaximalAligned(m.base, |m.frames|, p, k)
  {
    if m.IsHead(p) && m.Order(p) == k {
      BlocksAreMaximal(m, p, k);
    }
    if MaximalAligned(m.base, |m.frames|, p, k) {
      MaximalIsBlock(m, p, k);
    }
    hide Drained, MaximalAligned;
  }

  lemma BlocksAreMaximal(m: Pool, p: nat, k: nat)
    requires Drained(m) && m.IsHead(p) && m.Order(p) == k
    ensures MaximalAligned(m.base, |m.frames|, p, k)
  {
    var lo := Lower(p, k);
    assert m.End(p) <= |m.frames|;
    if m.base <= lo && lo + 2 * Pow2(k) <= |m.frames| {
      ParentAligned(p, k);
      var h := IntervalInBlock(m, lo, k + 1);
      SameBlock(m, h, p, p);
      assert false;
    }
  }

  lemma MaximalIsBlock(m: Pool, p: nat, k: nat)
    requires Drained(m) && MaximalAligned(m.base, |m.frames|, p, k)
    ensures m.IsHead(p) && m.Order(p) == k
  {
    var h := IntervalInBlock(m, p, k);
    var j := m.Order(h);
    if j > k {
      ParentAligned(p, k);
      assert m.End(h) <= |m.frames|;
      AlignedNested(Lower(p, k), k + 1, h, j);
      assert false;
    } else {
      SmallContainer(p, k, h, j);
    }
  }

  lemma ParentAligned(p: nat, k: nat)
    requires Aligned(p, k)
    ensures Aligned(Lower(p, k), k + 1) && Lower(p, k) <= p && p + Pow2(k) <= Lower(p, k) + 2 * Pow2(k)
  {
    FlipFlipsBit(p, k);
    if Bit(p, k) == 1 {
      AlignedMove(Flip(p, k), k);
    }
    AlignedUp(Lower(p, k), k);
  }

  // The largest block of a drained pool has order floor(log2(N - base)).
  lemma LargestDrainedBlock(m: Pool, j: nat)
    requires Drained(m) && Pow2(j) <= |m.frames| - m.base < Pow2(j + 1)
    ensures exists p: nat :: m.IsHead(p) && m.Order(p) == j
    ensures forall p: nat :: m.IsHead(p) ==> m.Order(p) <= j
  {
    forall p: nat | m.IsHead(p)
      ensures m.Order(p) <= j
    {
      assert m.End(p) <= |m.frames|;
      if m.Order(p) > j {
        Pow2Monotone(j + 1, m.Order(p));
      }
    }
    TopInterval(m.maxOrder, j, m.base);
    var a := |m.frames| - Pow2(j);
    var h := IntervalInBlock(m, a, j);
    SmallContainer(a, j, h, m.Order(h));
  }

  lemma TopInterval(maxOrder: nat, j: nat, base: nat)
    requires Pow2(j) <= Pow2(maxOrder) - base
    ensures j <= maxOrder && Aligned(Pow2(maxOrder) - Pow2(j), j)
  {
    if j > maxOrder {
      Pow2Monotone(maxOrder, j);
    } else {
      var d, e := Pow2(j), Pow2(maxOrder - j);
      Pow2Add(j, maxOrder - j);
      OneMultipleLess(e, d);
      assert Pow2(maxOrder) - d == d * e - d;
      hide Pow2;
    }
  }

  lemma OneMultipleLess(e: int, d: int)
    requires d > 0
    ensures (d * e - d) % d == 0
  {
    assert d * e - d == (e - 1) * d;
    DivUnique(d * e - d, d, e - 1, 0);
  }

  ghost predicate FromShattered(maxOrder: nat, base: nat, ops: seq<Op>, m: Pool)
    requires maxOrder < base <= Pow2(maxOrder)
  {
    ExhaustionIsExact(maxOrder, base);
    Reaches(Exhaust(Boot(maxOrder, base), Pow2(maxOrder) - base), ops, m)
  }

  // Shatter the region from boot, then run anything at all: whenever nothing is allocated,
  // the pool is back in the one maximal aligned tiling of the region.
  lemma FullDrain(maxOrder: nat, base: nat, ops: seq<Op>, m: Pool)
    requires maxOrder < base <= Pow2(maxOrder) && FromShattered(maxOrder, base, ops, m) && Live(m) == map[]
    ensures m.Valid() && Coalesced(m) && FreePages(m) == Range(base, Pow2(maxOrder))
    ensures forall p: nat, k: nat :: (m.IsHead(p) && m.Order(p) == k) <==> MaximalAligned(base, Pow2(maxOrder), p, k)
  {
    hide Pool.Valid, Coalesced, MaximalAligned, Live, Boot;
    ExhaustionIsExact(maxOrder, base);
    var s := Exhaust(Boot(maxOrder, base), Pow2(maxOrder) - base);
    assert AllAligned(s);
    RunsKeep(s, ops, m);
    RunsKeepAligned(s, ops, m);
    FramesCount(m);
    forall p: nat, k: nat
      ensures (m.IsHead(p) && m.Order(p) == k) <==> MaximalAligned(base, Pow2(maxOrder), p, k)
    {
      DrainedShape(m, p, k);
    }
    forall q: nat
      ensures q in FreePages(m) <==> base <= q < Pow2(maxOrder)
    {
      if base <= q < Pow2(maxOrder) {
        PagesConserved(m, q);
      }
    }
  }

  lemma FramesCount(m: Pool)
    requires m.Valid()
    ensures |m.frames| == Pow2(m.maxOrder)
  {
  }
}
