// What the buddy allocator's steps mean: which pages are free, which blocks are live,
// and that no two free buddies are ever left apart.
module BuddyLaws {
  import opened Bits
  import opened ListSpec
  import opened PagePool

  function HeadOf(m: Pool, p: nat): (h: nat)
    requires p < |m.frames|
  {
    if m.frames[p].head then p else m.frames[p].order
  }

  predicate PageFree(m: Pool, p: nat) {
    m.base <= p < |m.frames| && HeadOf(m, p) < |m.frames| && m.frames[HeadOf(m, p)].owner == Free
  }

  function FreePages(m: Pool): (s: set<nat>)
  {
    set p: nat | p < |m.frames| && PageFree(m, p)
  }

  // The allocated blocks, by first frame.
  function Live(m: Pool): (l: map<nat, Frame>)
  {
    map p: nat | p < |m.frames| && IsLive(m, p) :: m.frames[p]
  }

  predicate IsLive(m: Pool, p: nat) {
    m.IsHead(p) && m.frames[p].owner != Free
  }

  function Range(a: nat, b: nat): (s: set<nat>)
    ensures forall q: nat :: q in s <==> a <= q < b
  {
    set q: nat {:trigger q + 0} | a <= q < b
  }

  lemma {:induction false} RangeSize(a: nat, b: nat)
    requires a <= b
    ensures |Range(a, b)| == b - a
    decreases b
  {
    if a < b {
      RangeSize(a, b - 1);
      assert Range(a, b) == Range(a, b - 1) + {b - 1};
    } else {
      assert Range(a, b) == {};
    }
  }

  function Block(p: nat, k: nat): (s: set<nat>)
  {
    Range(p, p + Pow2(k))
  }

  ghost predicate SamePages(m: Pool, r: Pool) {
    r.maxOrder == m.maxOrder && r.base == m.base && FreePages(r) == FreePages(m) && Live(r) == Live(m)
  }

  // ---- live blocks are disjoint, inside the region and off the free lists ----

  lemma LiveBlocksApart(m: Pool, p: nat, p': nat)
    requires m.Valid() && p in Live(m) && p' in Live(m) && p != p'
    ensures Block(p, Live(m)[p].order) !! Block(p', Live(m)[p'].order)
  {
    forall q | q in Block(p, Live(m)[p].order)
      ensures q !in Block(p', Live(m)[p'].order)
    {
      assert q < m.End(p) <= |m.frames|;
    }
  }

  lemma LiveBlockNotFree(m: Pool, p: nat)
    requires m.Valid() && p in Live(m)
    ensures Block(p, Live(m)[p].order) !! FreePages(m)
    ensures forall q :: q in Block(p, Live(m)[p].order) ==> m.base <= q < Pow2(m.maxOrder) && HeadOf(m, q) == p
  {
    hide Pool.ListsOk, Pool.TailsOk, Pool.ReservedOk, Pool.CoverOk;
    forall q | q in Block(p, Live(m)[p].order)
      ensures m.base <= q < Pow2(m.maxOrder) && HeadOf(m, q) == p && q !in FreePages(m)
    {
      assert q < m.End(p) <= |m.frames|;
    }
  }

  // Every managed page is either free or in exactly one live block.
  lemma PagesConserved(m: Pool, q: nat)
    requires m.Valid() && m.base <= q < Pow2(m.maxOrder)
    ensures q in FreePages(m) <==> HeadOf(m, q) !in Live(m)
    ensures q !in FreePages(m) ==> q in Block(HeadOf(m, q), Live(m)[HeadOf(m, q)].order)
  {
    if m.frames[q].head {
    } else {
      assert m.IsHead(m.frames[q].order);
    }
  }

  // ---- effect of each step on pages ----

  // A page outside [lo, hi) keeps its free status when frames outside [lo, hi) are kept
  // and [lo, hi) is a union of blocks.
  lemma PageKept(m: Pool, frames: seq<Frame>, lo: nat, hi: nat, q: nat)
    requires m.Valid() && |frames| == |m.frames| && q < |frames| && !(lo <= q < hi)
    requires forall i: nat :: i < |frames| && !(lo <= i < hi) ==> frames[i] == m.frames[i]
    requires forall h: nat :: m.IsHead(h) && lo <= h < hi ==> m.End(h) <= hi
    ensures PageFree(m.(frames := frames), q) <==> PageFree(m, q)
  {
    if q >= m.base {
      var o := HeadOf(m, q);
      assert m.IsHead(o) && o <= q < m.End(o);
    }
  }

  // The head of a page outside a block is outside it too.
  lemma OutsideHead(m: Pool, p: nat, q: nat)
    requires m.Valid() && m.IsHead(p) && m.base <= q < |m.frames| && !(p <= q < m.End(p))
    ensures m.IsHead(HeadOf(m, q)) && !(p <= HeadOf(m, q) < m.End(p))
  {
    hide Pool.ListsOk, Pool.TailsOk, Pool.ReservedOk;
    var o := HeadOf(m, q);
    assert m.IsHead(o) && o <= q < m.End(o);
  }

  lemma SplitKeepsPage(m: Pool, k: nat, q: nat)
    requires m.Valid() && 0 < k <= m.maxOrder && m.lists[k] != [] && CanSplit(m, k) && q < |m.frames|
    ensures PageFree(SplitOnce(m, k), q) <==> PageFree(m, q)
  {
    var p, r := m.lists[k][0], SplitOnce(m, k);
    if p <= q < p + Pow2(k) {
      SplitPageIsFree(m, k, q);
    } else if q >= m.base {
      ListFrontIsFreeHead(m, k);
      OutsideHead(m, p, q);
      hide Pool.Valid, Delete, Push;
      assert r.frames[q] == m.frames[q] && r.frames[HeadOf(m, q)] == m.frames[HeadOf(m, q)];
    }
  }

  lemma SplitPageIsFree(m: Pool, k: nat, q: nat)
    requires m.Valid() && 0 < k <= m.maxOrder && m.lists[k] != [] && CanSplit(m, k)
    requires m.lists[k][0] <= q < m.lists[k][0] + Pow2(k)
    ensures PageFree(SplitOnce(m, k), q) && PageFree(m, q)
  {
    hide Pool.ListsOk, Pool.TailsOk, Pool.ReservedOk, Pool.CoverOk, Delete, Push;
    ListFrontIsFreeHead(m, k);
    var p, r := m.lists[k][0], SplitOnce(m, k);
    assert HeadOf(m, q) == p;
    assert HeadOf(r, q) == if q < p + Pow2(k - 1) then p else p + Pow2(k - 1);
  }

  lemma SplitKeepsLive(m: Pool, k: nat)
    requires m.Valid() && 0 < k <= m.maxOrder && m.lists[k] != [] && CanSplit(m, k)
    ensures Live(SplitOnce(m, k)) == Live(m)
  {
    ListFrontIsFreeHead(m, k);
    var r, p := SplitOnce(m, k), m.lists[k][0];
    forall q: nat | q < |m.frames|
      ensures LiveKept(m, r, q)
    {
      assert p < q < p + Pow2(k) ==> !m.frames[q].head;
    }
    SameLive(m, r);
  }

  ghost predicate LiveKept(m: Pool, r: Pool, q: nat) {
    (IsLive(m, q) <==> IsLive(r, q)) && (IsLive(m, q) ==> r.frames[q] == m.frames[q])
  }

  lemma SameLive(m: Pool, r: Pool)
    requires r.base == m.base && |r.frames| == |m.frames|
    requires forall q: nat :: q < |m.frames| ==> LiveKept(m, r, q)
    ensures Live(r) == Live(m)
  {
    forall q: nat
      ensures q in Live(r) <==> q in Live(m)
      ensures q in Live(m) ==> r.frames[q] == m.frames[q]
    {
      assert q < |m.frames| ==> LiveKept(m, r, q);
    }
  }

  lemma SplitKeepsPages(m: Pool, k: nat)
    requires m.Valid() && 0 < k <= m.maxOrder && m.lists[k] != []
    ensures CanSplit(m, k) && SamePages(m, SplitOnce(m, k))
  {
    SplitKeepsFrames(m, k);
    SplitKeepsLive(m, k);
    forall q: nat | q < |m.frames|
      ensures PageFree(SplitOnce(m, k), q) <==> PageFree(m, q)
    {
      SplitKeepsPage(m, k, q);
    }
  }

  lemma MergeKeepsPage(m: Pool, lo: nat, k: nat, q: nat)
    requires m.Valid() && Mergeable(m, lo, k) && lo + 2 * Pow2(k) <= |m.frames| && q < |m.frames|
    ensures PageFree(Merged(m, lo, k), q) <==> PageFree(m, q)
  {
    hide Pool.ReservedOk, Pool.HeadsOk, Pool.InsideOk, Pool.CoverOk, Pool.ListsOk, Pool.TailsOk, Delete, Push, Pow2,
      Flip;
    if lo <= q < lo + 2 * Pow2(k) {
      MergedPageIsFree(m, lo, k, q);
    } else if q >= m.base {
      OutsideHead(m, lo, q);
      OutsideHead(m, lo + Pow2(k), q);
      MergedOutside(m, lo, k, q);
      MergedOutside(m, lo, k, HeadOf(m, q));
    }
  }

  lemma MergedOutside(m: Pool, lo: nat, k: nat, q: nat)
    requires m.Shape() && lo + 2 * Pow2(k) <= |m.frames| && k < m.maxOrder && q < |m.frames|
    requires !(lo <= q < lo + 2 * Pow2(k))
    ensures Merged(m, lo, k).frames[q] == m.frames[q]
  {
  }

  lemma MergedPageIsFree(m: Pool, lo: nat, k: nat, q: nat)
    requires m.Valid() && Mergeable(m, lo, k) && lo + 2 * Pow2(k) <= |m.frames| && lo <= q < lo + 2 * Pow2(k)
    ensures PageFree(Merged(m, lo, k), q) && PageFree(m, q)
  {
    hide Pool.ListsOk, Pool.TailsOk, Pool.ReservedOk, Delete, Push;
    var hi := lo + Pow2(k);
    assert m.End(lo) == hi && m.End(hi) == hi + Pow2(k);
    if q < hi {
      assert q == lo || (!m.frames[q].head && m.frames[q].order == lo);
    } else {
      assert q == hi || (!m.frames[q].head && m.frames[q].order == hi);
    }
  }

  lemma MergeKeepsLive(m: Pool, lo: nat, k: nat)
    requires m.Valid() && Mergeable(m, lo, k) && lo + 2 * Pow2(k) <= |m.frames|
    ensures Live(Merged(m, lo, k)) == Live(m)
  {
    var r := Merged(m, lo, k);
    forall q: nat | q < |m.frames|
      ensures LiveKept(m, r, q)
    {
      MergeKeepsLiveAt(m, lo, k, q);
    }
    SameLive(m, r);
  }

  lemma MergeKeepsLiveAt(m: Pool, lo: nat, k: nat, q: nat)
    requires m.Valid() && Mergeable(m, lo, k) && lo + 2 * Pow2(k) <= |m.frames| && q < |m.frames|
    ensures LiveKept(m, Merged(m, lo, k), q)
  {
    if lo < q < lo + Pow2(k) {
      assert !m.frames[q].head;
    } else if lo + Pow2(k) < q < lo + 2 * Pow2(k) {
      assert !m.frames[q].head;
    }
  }

  lemma MergeKeepsPages(m: Pool, lo: nat, k: nat)
    requires m.Valid() && Mergeable(m, lo, k) && lo + 2 * Pow2(k) <= |m.frames|
    ensures SamePages(m, Merged(m, lo, k))
  {
    MergeKeepsLive(m, lo, k);
    forall q: nat | q < |m.frames|
      ensures PageFree(Merged(m, lo, k), q) <==> PageFree(m, q)
    {
      MergeKeepsPage(m, lo, k, q);
    }
  }

  lemma ReleasePage(m: Pool, p: nat, q: nat)
    requires m.Valid() && p in Live(m) && q < |m.frames| && m.Order(p) <= m.maxOrder
    ensures PageFree(Release(m, p), q) <==> PageFree(m, q) || q in Block(p, m.Order(p))
  {
    if q >= m.base {
      var o := HeadOf(m, q);
      assert m.IsHead(o) && o <= q < m.End(o);
      assert q in Block(p, m.Order(p)) <==> o == p;
    }
  }

  lemma ReleasePages(m: Pool, p: nat)
    requires m.Valid() && p in Live(m)
    ensures m.Order(p) <= m.maxOrder
    ensures var r := Release(m, p);
      FreePages(r) == FreePages(m) + Block(p, m.Order(p)) && Live(r) == Live(m) - {p}
  {
    assert m.End(p) <= |m.frames|;
    var r := Release(m, p);
    ReleaseLive(m, p);
    forall q: nat
      ensures q in FreePages(r) <==> q in FreePages(m) || q in Block(p, m.Order(p))
    {
      if q < |m.frames| {
        ReleasePage(m, p, q);
      }
    }
  }

  lemma ReleaseLive(m: Pool, p: nat)
    requires m.Shape() && p in Live(m) && m.Order(p) <= m.maxOrder
    ensures Live(Release(m, p)) == Live(m) - {p}
  {
    assert forall q: nat :: IsLive(Release(m, p), q) <==> IsLive(m, q) && q != p;
  }

  lemma TakePages(m: Pool, o: nat)
    requires m.Valid() && o <= m.maxOrder && m.lists[o] != [] && m.lists[o][0] + Pow2(o) <= |m.frames|
    ensures var r, p := Take(m, o), m.lists[o][0];
      && p !in Live(m) && Block(p, o) <= FreePages(m)
      && FreePages(r) == FreePages(m) - Block(p, o)
      && Live(r) == Live(m)[p := Frame(o, 1, Buddy, true, false)]
  {
    ListFrontIsFreeHead(m, o);
    var r, p := Take(m, o), m.lists[o][0];
    forall q: nat | q < |m.frames|
      ensures PageFree(r, q) <==> PageFree(m, q) && q !in Block(p, o)
      ensures q in Block(p, o) ==> PageFree(m, q)
    {
      TakePage(m, o, q);
    }
    TakeLive(m, o);
  }

  lemma TakePage(m: Pool, o: nat, q: nat)
    requires m.Valid() && o <= m.maxOrder && m.lists[o] != [] && m.lists[o][0] + Pow2(o) <= |m.frames| && q < |m.frames|
    ensures PageFree(Take(m, o), q) <==> PageFree(m, q) && q !in Block(m.lists[o][0], o)
    ensures q in Block(m.lists[o][0], o) ==> PageFree(m, q)
  {
    hide Pool.ListsOk, Pool.TailsOk, Pool.ReservedOk, Delete, Push;
    ListFrontIsFreeHead(m, o);
    var r, p := Take(m, o), m.lists[o][0];
    if q in Block(p, o) {
      assert HeadOf(m, q) == p == HeadOf(r, q);
    } else {
      PageKept(m, r.frames, p, p + Pow2(o), q);
    }
  }

  lemma TakenFrame(m: Pool, o: nat, q: nat)
    requires m.Valid() && o <= m.maxOrder && m.lists[o] != [] && m.lists[o][0] + Pow2(o) <= |m.frames| && q < |m.frames|
    ensures IsLive(Take(m, o), q) <==> IsLive(m, q) || q == m.lists[o][0]
    ensures IsLive(m, q) ==> Take(m, o).frames[q] == m.frames[q]
  {
    hide Pool.ListsOk, Pool.TailsOk, Pool.CoverOk;
    ListFrontIsFreeHead(m, o);
  }

  lemma TakeLive(m: Pool, o: nat)
    requires m.Valid() && o <= m.maxOrder && m.lists[o] != [] && m.lists[o][0] + Pow2(o) <= |m.frames|
    ensures m.lists[o][0] !in Live(m) && Live(Take(m, o)) == Live(m)[m.lists[o][0] := Frame(o, 1, Buddy, true, false)]
  {
    ListFrontIsFreeHead(m, o);
    var r, p := Take(m, o), m.lists[o][0];
    forall q: nat | q < |m.frames|
      ensures IsLive(r, q) <==> IsLive(m, q) || q == p
      ensures IsLive(m, q) ==> r.frames[q] == m.frames[q]
    {
      TakenFrame(m, o, q);
    }
    assert IsLive(r, p) && !IsLive(m, p) && r.frames[p] == Frame(o, 1, Buddy, true, false);
    hide Pool.Valid, Take, IsLive, Pow2;
  }

  // ---- no free buddies apart ----

  ghost predicate Apart(m: Pool, p: nat, k: nat) {
    k < m.maxOrder && m.FreeHead(p, k) ==> !m.FreeHead(Flip(p, k), k)
  }

  ghost predicate Coalesced(m: Pool) {
    forall p: nat, k: nat :: Apart(m, p, k)
  }

  ghost predicate CoalescedExcept(m: Pool, x: nat) {
    forall p: nat, k: nat :: p != x && Flip(p, k) != x ==> Apart(m, p, k)
  }

  lemma {:induction false} CoalesceUpLaw(m: Pool, p: nat)
    requires m.Valid() && p < |m.frames| && m.FreeHead(p, m.Order(p)) && m.Order(p) < m.maxOrder
    requires CoalescedExcept(m, p)
    ensures var r := CoalesceUp(m, p); r.Valid() && SamePages(m, r) && Coalesced(r)
    decreases m.maxOrder - m.Order(p)
  {
    var k := m.Order(p);
    MergeTestIsSound(m, p, k);
    if CanMerge(m, p) {
      var lo := Lower(p, k);
      MergeKeepsValid(m, lo, k);
      MergeKeepsPages(m, lo, k);
      MergeMovesException(m, p, k);
      CoalesceUpLaw(Merged(m, lo, k), lo);
    } else {
      forall q: nat, j: nat
        ensures Apart(m, q, j)
      {
        FlipFlipsBit(q, j);
        assert Apart(m, q, j) || q == p || Flip(q, j) == p;
      }
    }
  }

  lemma MergeMovesException(m: Pool, p: nat, k: nat)
    requires m.Valid() && m.FreeHead(p, k) && k < m.maxOrder && CoalescedExcept(m, p)
    requires Flip(p, k) < |m.frames| && Mergeable(m, Lower(p, k), k) && Lower(p, k) + 2 * Pow2(k) <= |m.frames|
    ensures CoalescedExcept(Merged(m, Lower(p, k), k), Lower(p, k))
  {
    var lo := Lower(p, k);
    var r := Merged(m, lo, k);
    forall q: nat, j: nat | q != lo && Flip(q, j) != lo
      ensures Apart(r, q, j)
    {
      assert Apart(m, q, j) || q == p || Flip(q, j) == p;
      if r.FreeHead(q, j) { MergedFreeHead(m, lo, k, q, j); }
      if r.FreeHead(Flip(q, j), j) { MergedFreeHead(m, lo, k, Flip(q, j), j); }
    }
  }

  // ---- buddy_free ----

  lemma BuddyFreeLaw(m: Pool, p: nat)
    requires m.Valid() && Coalesced(m) && p < |m.frames|
    ensures var r := BuddyFree(m, p);
      && r.Valid() && Coalesced(r) && r.maxOrder == m.maxOrder && r.base == m.base
      && (p !in Live(m) ==> r == m)
      && (p in Live(m) ==> FreePages(r) == FreePages(m) + Block(p, Live(m)[p].order) && Live(r) == Live(m) - {p})
  {
    hide Pool.ReservedOk, Pool.HeadsOk, Pool.InsideOk, Pool.CoverOk, Pool.ListsOk, Pool.TailsOk, Coalesced,
      CoalescedExcept, Pow2;
    hide FreePages, Block;
    if p in Live(m) {
      ReleaseKeepsValid(m, p);
      ReleasePages(m, p);
      ReleaseException(m, p);
      if m.Order(p) < m.maxOrder {
        CoalesceUpLaw(Release(m, p), p);
      } else {
        NoTopBlock(m, p);
      }
    } else {
      NotLive(m, p);
    }
  }

  // The block that holds a page just freed is the first of its list, so the first to be reused.
  lemma FreedFirst(m: Pool, p: nat, q: nat) returns (k: nat)
    requires m.Valid() && p in Live(m) && q in Block(p, Live(m)[p].order) && p < |m.frames|
    ensures var r := BuddyFree(m, p);
      && Live(m)[p].order <= k < |r.lists| && r.lists[k] != []
      && r.lists[k][0] <= q < r.lists[k][0] + Pow2(k)
  {
    hide Pool.ReservedOk, Pool.InsideOk, Pool.CoverOk, Pool.TailsOk, CoalesceUp, Pow2;
    ReleaseKeepsValid(m, p);
    k := m.Order(p);
    var r := Release(m, p);
    if k < m.maxOrder {
      k := MergedFirst(r, p, q);
    }
  }

  lemma PairHolds(p: nat, k: nat, q: nat)
    requires p <= q < p + Pow2(k) && Flip(Lower(p, k), k) == Lower(p, k) + Pow2(k)
    ensures Lower(p, k) <= q < Lower(p, k) + Pow2(k + 1)
  {
    FlipFlipsBit(p, k);
    hide Flip;
    assert Pow2(k + 1) == 2 * Pow2(k);
  }

  lemma {:induction false} MergedFirst(m: Pool, p: nat, q: nat) returns (k: nat)
    requires m.Valid() && p < |m.frames| && m.FreeHead(p, m.Order(p)) && m.Order(p) < m.maxOrder
    requires m.Order(p) < |m.lists| && m.lists[m.Order(p)] != [] && m.lists[m.Order(p)][0] == p
    requires p <= q < p + Pow2(m.Order(p))
    ensures var r := CoalesceUp(m, p);
      m.Order(p) <= k < |r.lists| && r.lists[k] != [] && r.lists[k][0] <= q < r.lists[k][0] + Pow2(k)
    decreases m.maxOrder - m.Order(p)
  {
    hide Pool.ReservedOk, Pool.HeadsOk, Pool.InsideOk, Pool.CoverOk, Pool.TailsOk, Pow2, MergeFrames, Flip;
    k := m.Order(p);
    MergeTestIsSound(m, p, k);
    if CanMerge(m, p) {
      var lo := Lower(p, k);
      MergeKeepsValid(m, lo, k);
      PairHolds(p, k, q);
      NoMergeToTop(m, lo, k);
      k := MergedFirst(Merged(m, lo, k), lo, q);
    }
  }

  lemma NotLive(m: Pool, p: nat)
    requires m.Valid() && p < |m.frames| && p !in Live(m)
    ensures !m.frames[p].head || m.frames[p].owner == Free
  {
  }

  lemma ReleaseException(m: Pool, p: nat)
    requires m.Shape() && Coalesced(m) && p < |m.frames| && m.Order(p) <= m.maxOrder
    ensures CoalescedExcept(Release(m, p), p)
  {
    var r := Release(m, p);
    forall q: nat, j: nat | q != p && Flip(q, j) != p
      ensures Apart(r, q, j)
    {
      assert Apart(m, q, j);
    }
  }

  // A block of order MAX_ORDER would cover the reserved prefix, so there is none.
  lemma NoTopBlock(m: Pool, p: nat)
    requires m.Valid() && m.IsHead(p)
    ensures m.Order(p) < m.maxOrder
  {
    assert m.End(p) <= |m.frames|;
  }

  // ---- buddy_alloc ----

  ghost predicate EmptyBetween(lists: Lists, o: nat, k: nat) {
    forall i :: o <= i < k && i < |lists| ==> lists[i] == []
  }

  lemma {:induction false} SplitDownLaw(m: Pool, o: nat, k: nat)
    requires m.Valid() && o <= k <= m.maxOrder && m.lists[k] != []
    requires EmptyBetween(m.lists, o, k) && CoalescedExcept(m, m.lists[k][0])
    ensures var r := SplitDown(m, o, k);
      && r.Valid() && SamePages(m, r) && |r.lists| == |m.lists|
      && r.lists[o] != [] && r.lists[o][0] == m.lists[k][0] && CoalescedExcept(r, m.lists[k][0])
    decreases k
  {
    if k != o {
      SplitKeepsValid(m, k);
      SplitKeepsPages(m, k);
      SplitKeepsException(m, o, k);
      SplitDownLaw(SplitOnce(m, k), o, k - 1);
    }
  }

  lemma SplitKeepsException(m: Pool, o: nat, k: nat)
    requires m.Valid() && o < k <= m.maxOrder && m.lists[k] != [] && CanSplit(m, k)
    requires EmptyBetween(m.lists, o, k) && CoalescedExcept(m, m.lists[k][0])
    ensures var r := SplitOnce(m, k);
      && |r.lists| == |m.lists| && EmptyBetween(r.lists, o, k - 1) && CoalescedExcept(r, m.lists[k][0])
      && r.lists[k - 1] != [] && r.lists[k - 1][0] == m.lists[k][0]
  {
    var r, p, h := SplitOnce(m, k), m.lists[k][0], Pow2(k - 1);
    ListFrontIsFreeHead(m, k);
    forall q: nat, j: nat | q != p && Flip(q, j) != p
      ensures Apart(r, q, j)
    {
      assert Apart(m, q, j);
      assert m.lists[k - 1] == [];
      assert r.FreeHead(q, j) ==> q == p + h || m.FreeHead(q, j);
      assert r.FreeHead(Flip(q, j), j) ==> Flip(q, j) == p + h || m.FreeHead(Flip(q, j), j);
    }
  }

  // The block handed out has the requested order and was free; nothing else changes, no
  // free buddies are left apart, and the request fails only when every block of that
  // order or more is taken.
  lemma AllocOrderLaw(m: Pool, o: nat)
    requires m.Valid() && Coalesced(m)
    ensures AllocOrder(m, o).NoMemory?
      <==> forall p: nat :: m.IsHead(p) && o <= m.Order(p) ==> m.frames[p].owner != Free
    ensures AllocOrder(m, o).Alloc? ==>
      var Alloc(r, p) := AllocOrder(m, o);
      && r.Valid() && Coalesced(r) && r.maxOrder == m.maxOrder && r.base == m.base && o < m.maxOrder
      && p !in Live(m) && Block(p, o) <= FreePages(m)
      && FreePages(r) == FreePages(m) - Block(p, o)
      && Live(r) == Live(m)[p := Frame(o, 1, Buddy, true, false)]
    ensures AllocOrder(m, o).Alloc? ==>
      exists k :: o <= k <= m.maxOrder && EmptyBetween(m.lists, o, k) && m.lists[k] != []
        && m.lists[k][0] == AllocOrder(m, o).page
  {
    var k := FirstNonEmpty(m.lists, o);
    if k <= m.maxOrder {
      ListFrontIsFreeHead(m, k);
      SplitDownLaw(m, o, k);
      SplitDownKeeps(m, o, k);
      var s := SplitDown(m, o, k);
      TakeKeepsValid(s, o);
      TakePages(s, o);
      TakeKeepsCoalesced(s, o);
      NoTopBlock(Take(s, o), s.lists[o][0]);
    } else {
      forall p: nat | m.IsHead(p) && o <= m.Order(p)
        ensures m.frames[p].owner != Free
      {
        assert p !in m.lists[m.Order(p)];
      }
    }
  }

  lemma TakeKeepsCoalesced(m: Pool, o: nat)
    requires m.Valid() && o <= m.maxOrder && m.lists[o] != [] && m.lists[o][0] + Pow2(o) <= |m.frames|
    requires CoalescedExcept(m, m.lists[o][0])
    ensures Coalesced(Take(m, o))
  {
    var r, p := Take(m, o), m.lists[o][0];
    forall q: nat, j: nat
      ensures Apart(r, q, j)
    {
      assert q != p && Flip(q, j) != p ==> Apart(m, q, j);
      assert r.FreeHead(q, j) ==> m.FreeHead(q, j) && q != p;
      assert r.FreeHead(Flip(q, j), j) ==> m.FreeHead(Flip(q, j), j) && Flip(q, j) != p;
    }
  }
}
