// The buddy allocator of paging.c as a function on values: the page-frame array
// and the per-order free lists, with every branch of the C code.
module PagePool {
  import opened Bits
  import opened ListSpec

  datatype Owner = Free | Buddy | Slab | Reserved

  // order is overloaded: on a head it is the block's order, on a tail the head's frame number.
  datatype Frame = Frame(order: nat, refcount: nat, owner: Owner, head: bool, tail: bool)

  // maxOrder is MAX_ORDER (18 in the code), base is the first unreserved frame.
  datatype Pool = Pool(maxOrder: nat, base: nat, frames: seq<Frame>, lists: Lists)
  {
    predicate Shape() {
      && |frames| == Pow2(maxOrder)
      && maxOrder < base <= |frames|
      && |lists| == maxOrder + 1
    }

    predicate IsHead(p: nat) {
      base <= p < |frames| && frames[p].head
    }

    function Order(p: nat): nat
      requires p < |frames|
    {
      frames[p].order
    }

    function End(p: nat): nat
      requires p < |frames|
    {
      p + Pow2(frames[p].order)
    }

    predicate FreeHead(p: nat, k: nat) {
      IsHead(p) && frames[p].order == k && frames[p].owner == Free
    }

    ghost predicate ReservedOk() {
      forall p: nat ::
        p < base && p < |frames| ==>
          frames[p].owner == Reserved && frames[p].order == 0 && !frames[p].head && !frames[p].tail
    }

    // Every head starts a block that fits, and every other frame of the block points back at it.
    ghost predicate HeadsOk() {
      forall p: nat ::
        IsHead(p) ==> Order(p) <= maxOrder && End(p) <= |frames| && frames[p].owner != Reserved && !frames[p].tail
    }

    ghost predicate InsideOk() {
      forall p: nat, q: nat :: IsHead(p) && p < q < End(p) && q < |frames| ==> !frames[q].head && frames[q].order == p
    }

    // Every frame that is not a head lies in the block of a head: the blocks cover the region.
    ghost predicate CoverOk() {
      forall q: nat ::
        base <= q < |frames| && !frames[q].head ==>
          IsHead(frames[q].order) && frames[q].order < q < End(frames[q].order)
    }

    ghost predicate ListsOk() {
      && |lists| == maxOrder + 1
      && (forall k, p: nat :: 0 <= k <= maxOrder ==> (p in lists[k] <==> FreeHead(p, k)))
      && (forall k :: 0 <= k <= maxOrder ==> NoDup(lists[k]))
    }

    // Frames inside an allocated block carry the tail flag and nothing else.
    ghost predicate TailsOk() {
      forall p: nat, q: nat ::
        IsHead(p) && frames[p].owner != Free && p < q < End(p) && q < |frames| ==>
          frames[q].tail && frames[q].owner == Buddy
    }

    ghost predicate Valid() {
      Shape() && ReservedOk() && HeadsOk() && InsideOk() && CoverOk() && ListsOk() && TailsOk()
    }
  }

  // ---- paging.c:19-53 _split_down ----

  function SplitFrames(frames: seq<Frame>, p: nat, h: nat, k: nat): (r: seq<Frame>)
    requires 0 < h && p + 2 * h <= |frames|
    ensures |r| == |frames|
  {
    seq(|frames|, i requires 0 <= i < |frames| =>
      if i == p then frames[i].(order := k)
      else if i == p + h then frames[i].(order := k, head := true, tail := false, owner := Free)
      else if p < i < p + h then frames[i].(order := p, head := false, tail := true)
      else if p + h < i < p + 2 * h then frames[i].(order := p + h, head := false, tail := true)
      else frames[i])
  }

  predicate CanSplit(m: Pool, k: nat) {
    m.Shape() && 0 < k <= m.maxOrder && m.lists[k] != [] && m.lists[k][0] + Pow2(k) <= |m.frames|
  }

  function SplitOnce(m: Pool, k: nat): (r: Pool)
    requires CanSplit(m, k)
  {
    var p, h := m.lists[k][0], Pow2(k - 1);
    m.(frames := SplitFrames(m.frames, p, h, k - 1),
       lists := Push(Push(Delete(m.lists, p), k - 1, p + h), k - 1, p))
  }

  // ---- paging.c:89-124 coalesce_up ----

  function Lower(p: nat, k: nat): nat {
    if Flip(p, k) < p then Flip(p, k) else p
  }

  function Upper(p: nat, k: nat): nat {
    if Flip(p, k) < p then p else Flip(p, k)
  }

  // The test made before two blocks are joined: equal order fields and FREE owners.
  // The head flag is never consulted.
  predicate CanMerge(m: Pool, p: nat)
    requires p < |m.frames| && Flip(p, m.Order(p)) < |m.frames|
  {
    var k := m.Order(p);
    m.frames[Lower(p, k)].order == m.frames[Upper(p, k)].order
    && m.frames[Lower(p, k)].owner == Free && m.frames[Upper(p, k)].owner == Free
  }

  function MergeFrames(frames: seq<Frame>, lo: nat, h: nat, k: nat): (r: seq<Frame>)
    requires 0 < h && lo + 2 * h <= |frames|
    ensures |r| == |frames|
  {
    seq(|frames|, i requires 0 <= i < |frames| =>
      if i == lo then frames[i].(order := k + 1)
      else if i == lo + h then frames[i].(order := lo, head := false, tail := true)
      else if lo + h < i < lo + 2 * h then frames[i].(order := lo)
      else frames[i])
  }

  // Joining the block of order k at lo with its buddy at lo + 2^k.
  function Merged(m: Pool, lo: nat, k: nat): (r: Pool)
    requires m.Shape() && lo + 2 * Pow2(k) <= |m.frames| && k < m.maxOrder
  {
    m.(frames := MergeFrames(m.frames, lo, Pow2(k), k),
       lists := Push(Delete(Delete(m.lists, lo), lo + Pow2(k)), k + 1, lo))
  }

  // ---- splitting keeps the pool valid ----

  lemma HeadIsManaged(m: Pool, p: nat)
    requires m.Valid() && p < |m.frames| && m.frames[p].head
    ensures m.IsHead(p) && m.Order(p) <= m.maxOrder
  {
  }

  lemma DeletePushMembers(m: Pool, x: nat, k: nat)
    requires m.ListsOk() && k <= m.maxOrder
    requires m.Shape()
    ensures var d := Delete(m.lists, x);
      |d| == |m.lists|
      && (forall j, q: nat :: 0 <= j <= m.maxOrder ==> (q in d[j] <==> m.FreeHead(q, j) && q != x))
      && (forall j :: 0 <= j <= m.maxOrder ==> NoDup(d[j]))
  {
    forall j | 0 <= j <= m.maxOrder
      ensures NoDup(Delete(m.lists, x)[j])
      ensures forall q: nat :: q in Delete(m.lists, x)[j] <==> m.FreeHead(q, j) && q != x
    {
      WithoutMembers(m.lists[j], x);
    }
  }

  lemma ListFrontIsFreeHead(m: Pool, k: nat)
    requires m.Valid() && k <= m.maxOrder && m.lists[k] != []
    ensures m.FreeHead(m.lists[k][0], k)
    ensures m.lists[k][0] + Pow2(k) <= |m.frames|
  {
    assert m.lists[k][0] in m.lists[k];
  }

  lemma SplitKeepsFrames(m: Pool, k: nat)
    requires m.Valid() && 0 < k <= m.maxOrder && m.lists[k] != []
    ensures CanSplit(m, k)
    ensures var r := SplitOnce(m, k); r.Shape() && r.ReservedOk() && r.HeadsOk()
  {
    ListFrontIsFreeHead(m, k);
  }

  lemma SplitKeepsInside(m: Pool, k: nat)
    requires m.Valid() && 0 < k <= m.maxOrder && m.lists[k] != [] && CanSplit(m, k)
    ensures SplitOnce(m, k).InsideOk()
  {
    hide Pool.ListsOk, Pool.TailsOk;
    ListFrontIsFreeHead(m, k);
  }

  lemma SplitKeepsCover(m: Pool, k: nat)
    requires m.Valid() && 0 < k <= m.maxOrder && m.lists[k] != [] && CanSplit(m, k)
    ensures SplitOnce(m, k).CoverOk()
  {
    hide Pool.ListsOk, Pool.TailsOk;
    ListFrontIsFreeHead(m, k);
    var r, p, h := SplitOnce(m, k), m.lists[k][0], Pow2(k - 1);
    forall q: nat | m.base <= q < |r.frames| && !r.frames[q].head
      ensures r.IsHead(r.frames[q].order) && r.frames[q].order < q < r.End(r.frames[q].order)
    {
      if p < q < p + 2 * h {
        assert r.frames[q].order == if q < p + h then p else p + h;
      } else {
        assert r.frames[q] == m.frames[q];
        var o := m.frames[q].order;
        assert m.IsHead(o) && o < q < m.End(o);
        assert o != p && o != p + h;
        assert r.frames[o] == m.frames[o];
      }
    }
  }

  lemma SplitKeepsTails(m: Pool, k: nat)
    requires m.Valid() && 0 < k <= m.maxOrder && m.lists[k] != [] && CanSplit(m, k)
    ensures SplitOnce(m, k).TailsOk()
  {
    ListFrontIsFreeHead(m, k);
  }

  lemma SplitKeepsLists(m: Pool, k: nat)
    requires m.Valid() && 0 < k <= m.maxOrder && m.lists[k] != [] && CanSplit(m, k)
    ensures SplitOnce(m, k).ListsOk()
  {
    ListFrontIsFreeHead(m, k);
    var p, h := m.lists[k][0], Pow2(k - 1);
    DeletePushMembers(m, p, k);
    SplitNodup(m, k);
    forall j, q: nat | 0 <= j <= m.maxOrder
      ensures q in SplitOnce(m, k).lists[j] <==> SplitOnce(m, k).FreeHead(q, j)
    {
      SplitMember(m, k, j, q);
    }
    hide Pool.Valid, Delete, Push, Pow2;
  }

  lemma SplitMember(m: Pool, k: nat, j: nat, q: nat)
    requires m.Valid() && 0 < k <= m.maxOrder && m.lists[k] != [] && CanSplit(m, k) && j <= m.maxOrder
    ensures |SplitOnce(m, k).lists| == |m.lists|
    ensures q in SplitOnce(m, k).lists[j] <==> SplitOnce(m, k).FreeHead(q, j)
  {
    ListFrontIsFreeHead(m, k);
    DeletePushMembers(m, m.lists[k][0], k);
    hide Pool.CoverOk, Pool.TailsOk, Pool.ListsOk, Delete;
  }

  lemma SplitNodup(m: Pool, k: nat)
    requires m.Valid() && 0 < k <= m.maxOrder && m.lists[k] != [] && CanSplit(m, k)
    ensures |SplitOnce(m, k).lists| == |m.lists| && forall j :: 0 <= j <= m.maxOrder ==> NoDup(SplitOnce(m, k).lists[j])
  {
    ListFrontIsFreeHead(m, k);
    var p, h := m.lists[k][0], Pow2(k - 1);
    DeletePushMembers(m, p, k);
    var d := Delete(m.lists, p);
    assert !m.IsHead(p + h);
    hide Pool.CoverOk, Pool.TailsOk, Pool.InsideOk, Pool.HeadsOk, Pool.ReservedOk, Delete;
    NoDupCons(p + h, d[k - 1]);
    NoDupCons(p, [p + h] + d[k - 1]);
  }

  lemma SplitKeepsValid(m: Pool, k: nat)
    requires m.Valid() && 0 < k <= m.maxOrder && m.lists[k] != []
    ensures CanSplit(m, k) && SplitOnce(m, k).Valid()
  {
    SplitKeepsFrames(m, k);
    SplitKeepsInside(m, k);
    SplitKeepsCover(m, k);
    SplitKeepsTails(m, k);
    SplitKeepsLists(m, k);
  }

  // The lower half is left in front of its list.
  lemma SplitFront(m: Pool, k: nat)
    requires CanSplit(m, k)
    ensures var r := SplitOnce(m, k);
      |r.lists| == |m.lists| && r.maxOrder == m.maxOrder && r.lists[k - 1] != [] && r.lists[k - 1][0] == m.lists[k][0]
  {
  }

  // ---- merging keeps the pool valid ----

  // Merge soundness: although only order and owner are compared, and although absorbed
  // heads keep a stale FREE owner, the test succeeds exactly when the buddy is a free
  // head of the same order.
  lemma MergeTestIsSound(m: Pool, p: nat, k: nat)
    requires m.Valid() && m.FreeHead(p, k) && k < m.maxOrder
    ensures Flip(p, k) < |m.frames|
    ensures CanMerge(m, p) <==> m.FreeHead(Flip(p, k), k)
    ensures CanMerge(m, p) ==> Mergeable(m, Lower(p, k), k) && Lower(p, k) + 2 * Pow2(k) <= |m.frames|
  {
    MergeTest(m, p, k);
    if CanMerge(m, p) {
      BuddiesMergeable(m, p, k);
    }
  }

  lemma MergeTest(m: Pool, p: nat, k: nat)
    requires m.Valid() && m.FreeHead(p, k) && k < m.maxOrder
    ensures Flip(p, k) < |m.frames|
    ensures CanMerge(m, p) <==> m.FreeHead(Flip(p, k), k)
  {
    FlipBelow(p, k, m.maxOrder);
    var b := Flip(p, k);
    assert CanMerge(m, p) <==> m.frames[b].owner == Free && m.frames[b].order == k;
    if m.frames[b].owner == Free && m.frames[b].order == k {
      EqualOrderIsHead(m, b, k);
    }
  }

  lemma BuddiesMergeable(m: Pool, p: nat, k: nat)
    requires m.Valid() && m.FreeHead(p, k) && m.FreeHead(Flip(p, k), k) && k < m.maxOrder
    ensures Mergeable(m, Lower(p, k), k) && Lower(p, k) + 2 * Pow2(k) <= |m.frames|
  {
    hide Lower, Upper, Flip, Pool.Valid, Pow2;
    BuddyPair(p, k);
    NoMergeToTop(m, Lower(p, k), k);
  }

  lemma BuddyPair(p: nat, k: nat)
    ensures Upper(p, k) == Lower(p, k) + Pow2(k) && Flip(Lower(p, k), k) == Upper(p, k)
    ensures (Lower(p, k) == p && Upper(p, k) == Flip(p, k)) || (Lower(p, k) == Flip(p, k) && Upper(p, k) == p)
  {
    FlipFlipsBit(p, k);
  }

  // A FREE frame whose order field is a block order is a head: a tail's order field is a
  // frame number at or above base, which is above every order.
  lemma EqualOrderIsHead(m: Pool, b: nat, k: nat)
    requires m.Valid() && b < |m.frames| && m.frames[b].owner == Free && m.frames[b].order == k <= m.maxOrder
    ensures m.FreeHead(b, k)
  {
    if b < m.base {
      assert false;
    } else if !m.frames[b].head {
      assert false;
    }
  }

  // The recursion never reaches order MAX_ORDER: such a block would start at frame 0.
  lemma NoMergeToTop(m: Pool, lo: nat, k: nat)
    requires m.Valid() && m.FreeHead(lo, k) && m.FreeHead(lo + Pow2(k), k) && k < m.maxOrder
    ensures k + 1 < m.maxOrder && lo + 2 * Pow2(k) <= |m.frames|
  {
    hide Pool.ListsOk, Pool.TailsOk, Pool.CoverOk, Pool.ReservedOk;
    assert m.End(lo + Pow2(k)) <= |m.frames|;
    if k + 1 == m.maxOrder {
      assert false;
    }
  }

  ghost predicate Mergeable(m: Pool, lo: nat, k: nat) {
    m.FreeHead(lo, k) && m.FreeHead(lo + Pow2(k), k) && k + 1 < m.maxOrder && Flip(lo, k) == lo + Pow2(k)
  }

  lemma MergeKeepsFrames(m: Pool, lo: nat, k: nat)
    requires m.Valid() && Mergeable(m, lo, k) && lo + 2 * Pow2(k) <= |m.frames|
    ensures var r := Merged(m, lo, k); r.Shape() && r.ReservedOk() && r.HeadsOk()
  {
    hide Pool.ListsOk, Pool.TailsOk, Pool.CoverOk;
  }

  lemma MergeKeepsInside(m: Pool, lo: nat, k: nat)
    requires m.Valid() && Mergeable(m, lo, k) && lo + 2 * Pow2(k) <= |m.frames|
    ensures Merged(m, lo, k).InsideOk()
  {
    hide Pool.ListsOk, Pool.TailsOk, Pool.CoverOk, Pool.ReservedOk, Delete, Push;
    var r := Merged(m, lo, k);
    forall p: nat, q: nat | r.IsHead(p) && p < q < r.End(p) && q < |r.frames|
      ensures !r.frames[q].head && r.frames[q].order == p
    {
      if p == lo {
      } else {
        assert m.IsHead(p) && m.End(p) == r.End(p);
      }
    }
  }

  lemma CoverOutside(m: Pool, lo: nat, k: nat, q: nat)
    requires m.Valid() && Mergeable(m, lo, k) && lo + 2 * Pow2(k) <= |m.frames|
    requires m.base <= q < |m.frames| && !(lo < q < lo + 2 * Pow2(k)) && !Merged(m, lo, k).frames[q].head
    ensures var r := Merged(m, lo, k);
      r.IsHead(r.frames[q].order) && r.frames[q].order < q < r.End(r.frames[q].order)
  {
    hide Pool.ListsOk, Pool.TailsOk;
    var r := Merged(m, lo, k);
    assert r.frames[q] == m.frames[q];
    var o := m.frames[q].order;
    assert m.IsHead(o) && o < q < m.End(o);
    assert o != lo && o != lo + Pow2(k);
    assert r.frames[o] == m.frames[o];
  }

  lemma MergeKeepsCover(m: Pool, lo: nat, k: nat)
    requires m.Valid() && Mergeable(m, lo, k) && lo + 2 * Pow2(k) <= |m.frames|
    ensures Merged(m, lo, k).CoverOk()
  {
    hide Pool.ListsOk, Pool.TailsOk;
    var r, h := Merged(m, lo, k), Pow2(k);
    forall q: nat | m.base <= q < |r.frames| && !r.frames[q].head
      ensures r.IsHead(r.frames[q].order) && r.frames[q].order < q < r.End(r.frames[q].order)
    {
      if !(lo < q < lo + 2 * h) {
        CoverOutside(m, lo, k, q);
      } else if q < lo + h {
        assert r.frames[q] == m.frames[q];
        assert m.frames[q].order == lo;
      }
    }
  }

  lemma MergeKeepsTails(m: Pool, lo: nat, k: nat)
    requires m.Valid() && Mergeable(m, lo, k) && lo + 2 * Pow2(k) <= |m.frames|
    ensures Merged(m, lo, k).TailsOk()
  {
    var r := Merged(m, lo, k);
    forall p: nat, q: nat | r.IsHead(p) && r.frames[p].owner != Free && p < q < r.End(p) && q < |r.frames|
      ensures r.frames[q].tail && r.frames[q].owner == Buddy
    {
      assert m.IsHead(p) && m.frames[p] == r.frames[p];
      assert m.frames[q].tail && m.frames[q].owner == Buddy;
    }
  }

  lemma MergeKeepsLists(m: Pool, lo: nat, k: nat)
    requires m.Valid() && Mergeable(m, lo, k) && lo + 2 * Pow2(k) <= |m.frames|
    ensures Merged(m, lo, k).ListsOk()
  {
    var e := Delete(Delete(m.lists, lo), lo + Pow2(k));
    DeleteTwoMembers(m, lo, lo + Pow2(k));
    NoDupCons(lo, e[k + 1]);
    MergedMembers(m, lo, k, e);
  }

  lemma DeleteTwoMembers(m: Pool, x: nat, y: nat)
    requires m.ListsOk() && m.Shape()
    ensures var e := Delete(Delete(m.lists, x), y);
      |e| == |m.lists|
      && (forall j, q: nat :: 0 <= j <= m.maxOrder ==> (q in e[j] <==> m.FreeHead(q, j) && q != x && q != y))
      && (forall j :: 0 <= j <= m.maxOrder ==> NoDup(e[j]))
  {
    hide Pool.FreeHead;
    DeletePushMembers(m, x, 0);
    var d := Delete(m.lists, x);
    forall j | 0 <= j <= m.maxOrder
      ensures NoDup(Delete(d, y)[j])
      ensures forall q: nat :: q in Delete(d, y)[j] <==> m.FreeHead(q, j) && q != x && q != y
    {
      WithoutMembers(d[j], y);
    }
  }

  lemma MergedFreeHead(m: Pool, lo: nat, k: nat, q: nat, j: nat)
    requires m.Shape() && m.InsideOk() && k < m.maxOrder && lo + 2 * Pow2(k) <= |m.frames| && Mergeable(m, lo, k)
    ensures Merged(m, lo, k).FreeHead(q, j) <==> if q == lo then j == k + 1 else m.FreeHead(q, j) && q != lo + Pow2(k)
  {
    var hi := lo + Pow2(k);
    if hi < q < hi + Pow2(k) {
      assert m.IsHead(hi) && q < m.End(hi);
    }
  }

  lemma MergedMembers(m: Pool, lo: nat, k: nat, e: Lists)
    requires m.Shape() && m.InsideOk() && k < m.maxOrder && lo + 2 * Pow2(k) <= |m.frames| && Mergeable(m, lo, k)
    requires |e| == |m.lists|
    requires forall j, q: nat ::
      0 <= j <= m.maxOrder ==> (q in e[j] <==> m.FreeHead(q, j) && q != lo && q != lo + Pow2(k))
    ensures var r := Push(e, k + 1, lo);
      forall j, q: nat :: 0 <= j <= m.maxOrder ==> (q in r[j] <==> Merged(m, lo, k).FreeHead(q, j))
  {
    var r, f := Push(e, k + 1, lo), Merged(m, lo, k);
    forall j, q: nat | 0 <= j <= m.maxOrder
      ensures q in r[j] <==> f.FreeHead(q, j)
    {
      assert q in e[j] <==> m.FreeHead(q, j) && q != lo && q != lo + Pow2(k);
      MergedFreeHead(m, lo, k, q, j);
    }
  }

  lemma MergeKeepsValid(m: Pool, lo: nat, k: nat)
    requires m.Valid() && Mergeable(m, lo, k)
    ensures lo + 2 * Pow2(k) <= |m.frames| && Merged(m, lo, k).Valid()
    ensures Merged(m, lo, k).FreeHead(lo, k + 1)
  {
    hide Pool.ReservedOk, Pool.HeadsOk, Pool.InsideOk, Pool.CoverOk, Pool.ListsOk, Pool.TailsOk, Pow2, Flip,
      MergeFrames, Delete, Push;
    NoMergeToTop(m, lo, k);
    MergeKeepsFrames(m, lo, k);
    MergeKeepsInside(m, lo, k);
    MergeKeepsCover(m, lo, k);
    MergeKeepsTails(m, lo, k);
    MergeKeepsLists(m, lo, k);
    MergedFreeHead(m, lo, k, lo, k + 1);
  }

  // The recursive call carries no order guard; that it stays below MAX_ORDER is part of
  // MergeTestIsSound, which is what makes this function total.
  function CoalesceUp(m: Pool, p: nat): (r: Pool)
    requires m.Valid() && p < |m.frames| && m.FreeHead(p, m.Order(p)) && m.Order(p) < m.maxOrder
    decreases m.maxOrder - m.Order(p)
  {
    var k := m.Order(p);
    MergeTestIsSound(m, p, k);
    if CanMerge(m, p) then
      MergeKeepsValid(m, Lower(p, k), k);
      CoalesceUp(Merged(m, Lower(p, k), k), Lower(p, k))
    else m
  }

  // ---- paging.c:130-160 buddy_free ----

  function Release(m: Pool, p: nat): (r: Pool)
    requires m.Shape() && p < |m.frames| && m.Order(p) <= m.maxOrder
  {
    m.(frames := m.frames[p := m.frames[p].(owner := Free)], lists := Push(m.lists, m.Order(p), p))
  }

  lemma ReleaseKeepsValid(m: Pool, p: nat)
    requires m.Valid() && m.IsHead(p) && m.frames[p].owner != Free
    ensures Release(m, p).Valid() && Release(m, p).FreeHead(p, m.Order(p))
  {
    ReleaseKeepsLists(m, p);
    ReleaseKeepsTails(m, p);
    ReleaseKeepsBlocks(m, p);
  }

  lemma ReleaseKeepsLists(m: Pool, p: nat)
    requires m.Valid() && m.IsHead(p) && m.frames[p].owner != Free && m.Order(p) <= m.maxOrder
    ensures Release(m, p).ListsOk()
  {
    hide Pool.TailsOk, Pool.CoverOk, Pool.InsideOk, Pool.ReservedOk, Pow2;
    assert p !in m.lists[m.Order(p)];
    NoDupCons(p, m.lists[m.Order(p)]);
  }

  lemma ReleaseKeepsTails(m: Pool, p: nat)
    requires m.Valid() && m.IsHead(p) && m.frames[p].owner != Free && m.Order(p) <= m.maxOrder
    ensures Release(m, p).TailsOk()
  {
    hide Pool.ListsOk, Pool.CoverOk, Pool.ReservedOk, Push;
    var r := Release(m, p);
    forall h: nat, q: nat | r.IsHead(h) && r.frames[h].owner != Free && h < q < r.End(h) && q < |r.frames|
      ensures r.frames[q].tail && r.frames[q].owner == Buddy
    {
      assert m.IsHead(h) && m.frames[h] == r.frames[h] && q < m.End(h);
    }
  }

  lemma ReleaseKeepsBlocks(m: Pool, p: nat)
    requires m.Valid() && m.IsHead(p) && m.frames[p].owner != Free && m.Order(p) <= m.maxOrder
    ensures var r := Release(m, p); r.Shape() && r.ReservedOk() && r.HeadsOk() && r.InsideOk() && r.CoverOk()
  {
    var r := Release(m, p);
    forall q: nat | m.base <= q < |r.frames| && !r.frames[q].head
      ensures r.IsHead(r.frames[q].order) && r.frames[q].order < q < r.End(r.frames[q].order)
    {
      assert m.IsHead(m.frames[q].order);
    }
  }

  function BuddyFree(m: Pool, p: nat): (r: Pool)
    requires m.Valid() && p < |m.frames|
  {
    if !m.frames[p].head || m.frames[p].owner == Free then m
    else
      ReleaseKeepsValid(m, p);
      var r := Release(m, p);
      if m.Order(p) < m.maxOrder then CoalesceUp(r, p) else r
  }

  // ---- paging.c:56-86 _alloc_and_return ----

  function TakeFrames(frames: seq<Frame>, p: nat, h: nat): (r: seq<Frame>)
    requires 0 < h && p + h <= |frames|
    ensures |r| == |frames|
  {
    seq(|frames|, i requires 0 <= i < |frames| =>
      if i == p then frames[i].(refcount := 1, owner := Buddy, head := true)
      else if p < i < p + h then Frame(p, 1, Buddy, false, true)
      else frames[i])
  }

  function Take(m: Pool, o: nat): (r: Pool)
    requires m.Shape() && o <= m.maxOrder && m.lists[o] != [] && m.lists[o][0] + Pow2(o) <= |m.frames|
  {
    var p := m.lists[o][0];
    m.(frames := TakeFrames(m.frames, p, Pow2(o)), lists := Delete(m.lists, p))
  }

  lemma TakeKeepsValid(m: Pool, o: nat)
    requires m.Valid() && o <= m.maxOrder && m.lists[o] != []
    ensures m.lists[o][0] + Pow2(o) <= |m.frames| && Take(m, o).Valid()
  {
    ListFrontIsFreeHead(m, o);
    TakeKeepsLists(m, o);
    TakeKeepsBlocks(m, o);
    TakeKeepsCover(m, o);
  }

  lemma TakeKeepsLists(m: Pool, o: nat)
    requires m.Valid() && o <= m.maxOrder && m.lists[o] != [] && m.lists[o][0] + Pow2(o) <= |m.frames|
    ensures Take(m, o).ListsOk()
  {
    ListFrontIsFreeHead(m, o);
    DeletePushMembers(m, m.lists[o][0], o);
  }

  lemma TakeKeepsBlocks(m: Pool, o: nat)
    requires m.Valid() && o <= m.maxOrder && m.lists[o] != [] && m.lists[o][0] + Pow2(o) <= |m.frames|
    ensures var r := Take(m, o); r.Shape() && r.ReservedOk() && r.HeadsOk() && r.InsideOk() && r.TailsOk()
  {
    hide Pool.ListsOk;
    ListFrontIsFreeHead(m, o);
    var r, p := Take(m, o), m.lists[o][0];
    forall q: nat | r.IsHead(q)
      ensures m.IsHead(q) && m.frames[q].order == r.frames[q].order && (q == p || r.frames[q] == m.frames[q])
    {
    }
  }

  lemma TakeKeepsCover(m: Pool, o: nat)
    requires m.Valid() && o <= m.maxOrder && m.lists[o] != [] && m.lists[o][0] + Pow2(o) <= |m.frames|
    ensures Take(m, o).CoverOk()
  {
    hide Pool.ListsOk, Pool.TailsOk;
    ListFrontIsFreeHead(m, o);
    var r, p := Take(m, o), m.lists[o][0];
    forall q: nat | m.base <= q < |r.frames| && !r.frames[q].head
      ensures r.IsHead(r.frames[q].order) && r.frames[q].order < q < r.End(r.frames[q].order)
    {
      assert !m.frames[q].head && r.frames[q].order == m.frames[q].order;
      assert m.IsHead(m.frames[q].order);
    }
  }

  // ---- paging.c:167-187 buddy_alloc ----

  function SplitDown(m: Pool, o: nat, k: nat): (r: Pool)
    requires m.Valid() && o <= k <= m.maxOrder && m.lists[k] != []
    decreases k
  {
    if k == o then m
    else
      SplitKeepsValid(m, k);
      SplitDown(SplitOnce(m, k), o, k - 1)
  }

  // The least order from k up whose list is not empty, or |lists|.
  function FirstNonEmpty(lists: Lists, k: nat): (j: nat)
    ensures k <= j && (j >= |lists| || lists[j] != [])
    ensures forall i :: k <= i < j && i < |lists| ==> lists[i] == []
    decreases |lists| - k
  {
    if k >= |lists| || lists[k] != [] then k else FirstNonEmpty(lists, k + 1)
  }

  datatype Alloc = Alloc(pool: Pool, page: nat) | NoMemory

  function AllocOrder(m: Pool, o: nat): (r: Alloc)
    requires m.Valid()
  {
    var k := FirstNonEmpty(m.lists, o);
    if o > m.maxOrder || k > m.maxOrder then NoMemory
    else
      var s := SplitDown(m, o, k);
      SplitDownKeeps(m, o, k);
      TakeKeepsValid(s, o);
      Alloc(Take(s, o), s.lists[o][0])
  }

  lemma {:induction false} SplitDownKeeps(m: Pool, o: nat, k: nat)
    requires m.Valid() && o <= k <= m.maxOrder && m.lists[k] != []
    ensures var s := SplitDown(m, o, k);
      s.Valid() && |s.lists| == |m.lists| && s.lists[o] != [] && s.lists[o][0] == m.lists[k][0]
        && s.maxOrder == m.maxOrder && s.base == m.base
    decreases k
  {
    if k != o {
      SplitKeepsValid(m, k);
      SplitDownKeeps(SplitOnce(m, k), o, k - 1);
    }
  }
}
