// paging.c:238-279: finding a block's owner and head from any of its pages.
module PageOwner {
  import opened Bits
  import opened ListSpec
  import opened PagePool
  import opened RefCount
  import opened BuddyInit
  import opened BuddyLaws
  import opened BuddyRuns

  function OwnerOf(m: Pool, p: nat): (o: Owner)
    requires m.Valid() && p < |m.frames|
  {
    if m.frames[p].tail && m.frames[p].order < |m.frames| then m.frames[m.frames[p].order].owner else m.frames[p].owner
  }

  datatype HeadPage = Head(page: nat) | NoHead

  function HeadFromPage(m: Pool, p: nat): (h: HeadPage)
    requires m.Valid() && p < |m.frames|
  {
    var q := if m.frames[p].tail && !m.frames[p].head then m.frames[p].order else p;
    if q < |m.frames| && m.frames[q].head then Head(q) else NoHead
  }

  // From any page of a live block the lookups find that block.
  lemma LookupsFindBlock(m: Pool, p: nat, q: nat)
    requires m.Valid() && p in Live(m) && q in Block(p, Live(m)[p].order)
    ensures q < |m.frames| && OwnerOf(m, q) == Live(m)[p].owner && HeadFromPage(m, q) == Head(p)
  {
    assert m.End(p) <= |m.frames|;
  }

  // Freeing a page that is on a free list does nothing, whatever stale owner its frame shows.
  lemma FreeOfFreePage(m: Pool, q: nat)
    requires m.Valid() && q in FreePages(m)
    ensures BuddyFree(m, q) == m
  {
  }

  // ---- the slab label is only ever on the first page of a block, the reserved one below the base ----

  ghost predicate LabelsOk(m: Pool) {
    forall p: nat :: p < |m.frames| ==> LabelOk(m.frames[p], p < m.base)
  }

  predicate LabelOk(f: Frame, reserved: bool) {
    (f.owner == Slab ==> f.head) && (f.owner == Reserved ==> reserved)
  }

  lemma SplitKeepsLabels(m: Pool, k: nat)
    requires m.Valid() && 0 < k <= m.maxOrder && m.lists[k] != [] && CanSplit(m, k) && LabelsOk(m)
    ensures LabelsOk(SplitOnce(m, k))
  {
    hide Pool.ListsOk, Pool.TailsOk, Pool.CoverOk, Pool.ReservedOk, Delete, Push;
    ListFrontIsFreeHead(m, k);
    var p, r := m.lists[k][0], SplitOnce(m, k);
    forall q: nat | q < |r.frames|
      ensures LabelOk(r.frames[q], q < r.base)
    {
      assert LabelOk(m.frames[q], q < m.base);
      assert p < q < p + Pow2(k) ==> !m.frames[q].head;
    }
  }

  lemma {:induction false} SplitDownKeepsLabels(m: Pool, o: nat, k: nat)
    requires m.Valid() && o <= k <= m.maxOrder && m.lists[k] != [] && LabelsOk(m)
    ensures LabelsOk(SplitDown(m, o, k))
    decreases k
  {
    hide Pool.Valid, LabelsOk, SplitOnce, CanSplit;
    if k != o {
      SplitKeepsValid(m, k);
      SplitFront(m, k);
      SplitKeepsLabels(m, k);
      SplitDownKeepsLabels(SplitOnce(m, k), o, k - 1);
    }
  }

  lemma AllocKeepsLabels(m: Pool, o: nat)
    requires m.Valid() && LabelsOk(m) && AllocOrder(m, o).Alloc?
    ensures LabelsOk(AllocOrder(m, o).pool)
  {
    hide Pool.ReservedOk, Pool.HeadsOk, Pool.InsideOk, Pool.CoverOk, Pool.ListsOk, Pool.TailsOk, Delete;
    var k := FirstNonEmpty(m.lists, o);
    var s := SplitDown(m, o, k);
    SplitDownKeeps(m, o, k);
    SplitDownKeepsLabels(m, o, k);
    TakeKeepsValid(s, o);
    hide SplitDown;
    var r := Take(s, o);
    forall q: nat | q < |r.frames|
      ensures LabelOk(r.frames[q], q < r.base)
    {
      assert LabelOk(s.frames[q], q < s.base);
    }
  }

  lemma MergeKeepsLabels(m: Pool, lo: nat, k: nat)
    requires m.Shape() && Mergeable(m, lo, k) && lo + 2 * Pow2(k) <= |m.frames| && LabelsOk(m)
    ensures LabelsOk(Merged(m, lo, k))
  {
    var r := Merged(m, lo, k);
    forall q: nat | q < |r.frames|
      ensures LabelOk(r.frames[q], q < r.base)
    {
      assert LabelOk(m.frames[q], q < m.base);
    }
  }

  lemma {:induction false} CoalesceUpKeepsLabels(m: Pool, p: nat)
    requires m.Valid() && p < |m.frames| && m.FreeHead(p, m.Order(p)) && m.Order(p) < m.maxOrder && LabelsOk(m)
    ensures LabelsOk(CoalesceUp(m, p))
    decreases m.maxOrder - m.Order(p)
  {
    hide Pool.ReservedOk, Pool.HeadsOk, Pool.InsideOk, Pool.CoverOk, Pool.ListsOk, Pool.TailsOk, LabelsOk;
    var k := m.Order(p);
    MergeTestIsSound(m, p, k);
    if CanMerge(m, p) {
      var lo := Lower(p, k);
      MergeKeepsValid(m, lo, k);
      MergeKeepsLabels(m, lo, k);
      CoalesceUpKeepsLabels(Merged(m, lo, k), lo);
    }
  }

  lemma FreeKeepsLabels(m: Pool, p: nat)
    requires m.Valid() && p < |m.frames| && LabelsOk(m)
    ensures LabelsOk(BuddyFree(m, p))
  {
    hide Pool.ReservedOk, Pool.HeadsOk, Pool.InsideOk, Pool.CoverOk, Pool.ListsOk, Pool.TailsOk;
    if m.frames[p].head && m.frames[p].owner != Free {
      HeadIsManaged(m, p);
      ReleaseKeepsValid(m, p);
      var r := Release(m, p);
      forall q: nat | q < |r.frames|
        ensures LabelOk(r.frames[q], q < r.base)
      {
        assert LabelOk(m.frames[q], q < m.base);
      }
      if m.Order(p) < m.maxOrder {
        CoalesceUpKeepsLabels(r, p);
      }
    }
  }

  // Counting references and handing a live block to the slab layer.
  lemma RelabelKeepsLabels(m: Pool, r: Pool)
    requires Relabel(m, r) && LabelsOk(m)
    ensures LabelsOk(r)
  {
    forall q: nat | q < |r.frames|
      ensures LabelOk(r.frames[q], q < r.base)
    {
      assert SameRole(m.frames[q], r.frames[q]) && LabelOk(m.frames[q], q < m.base);
    }
  }

  lemma CountKeepsLabels(m: Pool, p: nat, c: nat)
    requires p < |m.frames| && LabelsOk(m)
    ensures LabelsOk(m.(frames := m.frames[p := m.frames[p].(refcount := c)]))
  {
    RelabelKeepsLabels(m, m.(frames := m.frames[p := m.frames[p].(refcount := c)]));
  }

  lemma SetOwnerKeepsLabels(m: Pool, p: nat, o: Owner)
    requires m.Valid() && p < |m.frames| && HeadOf(m, p) in Live(m) && (o == Buddy || o == Slab) && LabelsOk(m)
    ensures LabelsOk(SetOwner(m, p, o))
  {
    hide Pool.Valid, Live, SetOwner;
    SetOwnerHead(m, p, o);
    RelabelKeepsLabels(m, SetOwner(m, p, o));
  }

  lemma {:induction false} LayKeepsLabels(m: Pool, avail: nat, p: nat, n: nat)
    requires n <= |m.lists| && LabelsOk(m)
    ensures LabelsOk(Lay(m, avail, p, n))
    decreases n
  {
    hide Bit, Pow2, LabelsOk, PlaceFrames;
    if n > 0 {
      PlaceKeepsLabels(m, p, n - 1);
      if Bit(avail, n - 1) == 1 {
        LayKeepsLabels(Place(m, p, n - 1), avail, p + Pow2(n - 1), n - 1);
      } else {
        LayKeepsLabels(m, avail, p, n - 1);
      }
    }
  }

  lemma PlaceKeepsLabels(m: Pool, p: nat, i: nat)
    requires i < |m.lists| && LabelsOk(m)
    ensures LabelsOk(Place(m, p, i))
  {
    var r := Place(m, p, i);
    forall q: nat | q < |r.frames|
      ensures LabelOk(r.frames[q], q < r.base)
    {
      assert LabelOk(m.frames[q], q < m.base);
    }
  }

  lemma BootLabels(maxOrder: nat, base: nat)
    requires maxOrder < base <= Pow2(maxOrder)
    ensures LabelsOk(Boot(maxOrder, base))
  {
    hide Pow2, Bit, Lay;
    var m := Blank(maxOrder, base);
    assert forall q: nat :: q < |m.frames| ==> LabelOk(m.frames[q], q < m.base);
    LayKeepsLabels(m, Pow2(maxOrder) - base, base, maxOrder + 1);
  }

  lemma StepKeepsLabels(m: Pool, op: Op)
    requires m.Valid() && Allowed(m, op) && LabelsOk(m)
    ensures LabelsOk(Step(m, op))
  {
    hide Pool.Valid, LabelsOk, SetOwner, AllocOrder, BuddyFree, OrderFor, PagesFor;
    match op
    case OpAlloc(b) =>
      if BuddyAlloc(m, b).Alloc? {
        AllocKeepsLabels(m, OrderFor(PagesFor(b)));
      }
    case OpFree(p) => FreeKeepsLabels(m, p);
    case OpShare(p) => CountKeepsLabels(m, p, Plus1(m.frames[p].refcount));
    case OpDrop(p) =>
      var c := Minus1(m.frames[p].refcount);
      CountKeepsPool(m, p, c);
      CountKeepsLabels(m, p, c);
      FreeKeepsLabels(m.(frames := m.frames[p := m.frames[p].(refcount := c)]), p);
    case OpOwner(p, o) =>
      LiveHead(m, p);
      SetOwnerKeepsLabels(m, p, o);
  }

  lemma LiveHead(m: Pool, p: nat)
    requires m.Valid() && p in Live(m)
    ensures p < |m.frames| && HeadOf(m, p) == p
  {
  }

  lemma {:induction false} RunsKeepLabels(m: Pool, ops: seq<Op>, m': Pool)
    requires m.Valid() && Coalesced(m) && Reaches(m, ops, m') && LabelsOk(m)
    ensures LabelsOk(m')
    decreases |ops|
  {
    hide Pool.Valid, Coalesced, LabelsOk, Step, Allowed;
    if ops != [] {
      StepKeeps(m, ops[0]);
      StepKeepsLabels(m, ops[0]);
      RunsKeepLabels(Step(m, ops[0]), ops[1..], m');
    }
  }

  // Whatever page carries the slab label, it lies in an allocated block of the slab layer.
  lemma SlabOwnerMeansLive(m: Pool, q: nat)
    requires m.Valid() && LabelsOk(m) && q < |m.frames| && OwnerOf(m, q) == Slab
    ensures HeadOf(m, q) in Live(m) && Live(m)[HeadOf(m, q)].owner == Slab
    ensures q in Block(HeadOf(m, q), Live(m)[HeadOf(m, q)].order)
  {
    var p := HeadOf(m, q);
    assert LabelOk(m.frames[q], q < m.base);
    if !m.frames[q].head {
      assert q >= m.base;
      assert m.IsHead(p) && p < q < m.End(p);
    }
  }

  // Over every run from boot a slab-owned page is found, by the lookups kfree makes, in a
  // live block of the slab layer.
  lemma SlabPagesAreLive(maxOrder: nat, base: nat, ops: seq<Op>, m: Pool, q: nat)
    requires maxOrder < base <= Pow2(maxOrder) && FromBoot(maxOrder, base, ops, m)
    requires q < |m.frames|
    ensures m.Valid()
    ensures OwnerOf(m, q) == Slab <==> HeadOf(m, q) in Live(m) && Live(m)[HeadOf(m, q)].owner == Slab
    ensures OwnerOf(m, q) == Slab ==> HeadFromPage(m, q) == Head(HeadOf(m, q)) && q !in FreePages(m)
  {
    BootIsValid(maxOrder, base);
    BootLabels(maxOrder, base);
    RunsFromBoot(maxOrder, base, ops, m);
    RunsKeepLabels(Boot(maxOrder, base), ops, m);
    SlabOwnerIff(m, q);
  }

  lemma SlabOwnerIff(m: Pool, q: nat)
    requires m.Valid() && LabelsOk(m) && q < |m.frames|
    ensures OwnerOf(m, q) == Slab <==> HeadOf(m, q) in Live(m) && Live(m)[HeadOf(m, q)].owner == Slab
    ensures OwnerOf(m, q) == Slab ==> HeadFromPage(m, q) == Head(HeadOf(m, q)) && q !in FreePages(m)
  {
    var p := HeadOf(m, q);
    if OwnerOf(m, q) == Slab {
      SlabOwnerMeansLive(m, q);
      LookupsFindBlock(m, p, q);
      LiveBlockNotFree(m, p);
    } else if p in Live(m) && Live(m)[p].owner == Slab {
      LiveCovers(m, q);
      LookupsFindBlock(m, p, q);
      assert false;
    }
  }

  lemma LiveCovers(m: Pool, q: nat)
    requires m.Valid() && q < |m.frames| && HeadOf(m, q) in Live(m)
    ensures q in Block(HeadOf(m, q), Live(m)[HeadOf(m, q)].order)
  {
    var p := HeadOf(m, q);
    assert q >= m.base;
    assert m.IsHead(p) && p <= q < m.End(p);
  }
}
