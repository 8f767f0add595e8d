// Whole runs of the allocator's entry points from boot.
module BuddyRuns {
  import opened Bits
  import opened PagePool
  import opened RefCount
  import opened BuddyLaws
  import opened BuddyInit

  // ---- paging.c:169-175: bytes to pages to order, with the C integer widths ----

  // u64 addition, then truncation to u32.
  function PagesFor(bytes: nat): (n: nat)
  {
    (bytes + 4095) % 0x1_0000_0000_0000_0000 / 4096 % 0x1_0000_0000
  }

  function OrderFrom(o: nat, n: nat): (r: nat)
    decreases n - o
  {
    if Pow2(o) >= n then o else Pow2Above(o); OrderFrom(o + 1, n)
  }

  function OrderFor(n: nat): (o: nat) {
    OrderFrom(0, n)
  }

  lemma {:induction false} OrderFromIsLeast(o: nat, n: nat)
    ensures o <= OrderFrom(o, n) && Pow2(OrderFrom(o, n)) >= n
    ensures forall j: nat :: o <= j < OrderFrom(o, n) ==> Pow2(j) < n
    decreases n - o
  {
    if Pow2(o) < n {
      Pow2Above(o);
      OrderFromIsLeast(o + 1, n);
    }
  }

  function BuddyAlloc(m: Pool, bytes: nat): (r: Alloc)
    requires m.Valid()
  {
    AllocOrder(m, OrderFor(PagesFor(bytes)))
  }

  // The block covers the request exactly when the page count was not truncated to 32 bits, and
  // then no smaller block would.
  lemma AllocCoversRequest(m: Pool, bytes: nat)
    requires m.Valid() && m.maxOrder <= 30 && bytes < 0x1_0000_0000_0000_0000
    requires BuddyAlloc(m, bytes).Alloc?
    ensures Pow2(OrderFor(PagesFor(bytes))) * 4096 >= bytes <==> bytes <= 0x1000_0000_0000 - 4096
    ensures bytes <= 0x1000_0000_0000 - 4096 ==> forall j: nat ::
      j < OrderFor(PagesFor(bytes)) ==> Pow2(j) * 4096 < bytes
  {
    var n := PagesFor(bytes);
    var o := OrderFor(n);
    OrderFromIsLeast(0, n);
    AllocatedOrderBound(m, o);
    SmallPow2(o);
    CoversIffNotTruncated(bytes, n, Pow2(o));
    if bytes <= 0x1000_0000_0000 - 4096 {
      forall j: nat | j < o
        ensures Pow2(j) * 4096 < bytes
      {
        LessIsShort(bytes, n, Pow2(j));
      }
    }
  }

  lemma LessIsShort(bytes: nat, n: nat, b: nat)
    requires bytes <= 0x1000_0000_0000 - 4096 && n == PagesFor(bytes) && b < n
    ensures b * 4096 < bytes
  {
  }

  lemma CoversIffNotTruncated(bytes: nat, n: nat, b: nat)
    requires bytes < 0x1_0000_0000_0000_0000 && n == PagesFor(bytes) && n <= b <= 0x4000_0000
    ensures b * 4096 >= bytes <==> bytes <= 0x1000_0000_0000 - 4096
  {
  }

  lemma AllocatedOrderBound(m: Pool, o: nat)
    requires m.Valid() && AllocOrder(m, o).Alloc?
    ensures o <= m.maxOrder
  {
  }

  lemma SmallPow2(o: nat)
    requires o <= 30
    ensures Pow2(o) <= 0x4000_0000
  {
    hide Pow2;
    Pow2Monotone(o, 30);
    Pow30();
  }

  lemma Pow30()
    ensures Pow2(30) == 0x4000_0000
  {
    hide Pow2;
    Pow5();
    Pow2Add(5, 5);
    Pow2Add(10, 10);
    Pow2Add(20, 10);
  }

  lemma Pow5()
    ensures Pow2(5) == 32
  {
  }

  // ---- paging.c:211-235 decrement_ref and the refcount increments of a clone ----

  function DropRef(m: Pool, p: nat): (r: Pool)
    requires m.Valid() && p < |m.frames|
  {
    if m.frames[p].owner == Reserved || !m.frames[p].head then m
    else
      var c := Minus1(m.frames[p].refcount);
      var d := m.(frames := m.frames[p := m.frames[p].(refcount := c)]);
      CountKeepsPool(m, p, c);
      if c == 0 then BuddyFree(d, p) else d
  }

  function ShareRef(m: Pool, p: nat): (r: Pool)
    requires m.Valid() && p < |m.frames|
  {
    m.(frames := m.frames[p := m.frames[p].(refcount := Plus1(m.frames[p].refcount))])
  }

  lemma CountKeepsPool(m: Pool, p: nat, c: nat)
    requires m.Valid() && p < |m.frames|
    ensures var r := m.(frames := m.frames[p := m.frames[p].(refcount := c)]);
      && r.Valid()
      && (Coalesced(m) ==> Coalesced(r))
      && FreePages(r) == FreePages(m)
      && Live(r) == if p in Live(m) then Live(m)[p := Live(m)[p].(refcount := c)] else Live(m)
  {
    RelabelKeeps(m, m.(frames := m.frames[p := m.frames[p].(refcount := c)]));
    LiveUpdate(m, p, m.frames[p].(refcount := c));
  }

  lemma LiveUpdate(m: Pool, p: nat, f: Frame)
    requires p < |m.frames| && SameRole(m.frames[p], f)
    ensures Live(m.(frames := m.frames[p := f])) == if p in Live(m) then Live(m)[p := f] else Live(m)
  {
    var r := m.(frames := m.frames[p := f]);
    forall q: nat
      ensures q in Live(r) <==> q in Live(m)
    {
    }
  }

  // r differs from m only in reference counts and in which allocator owns a live block.
  ghost predicate Relabel(m: Pool, r: Pool) {
    && r.maxOrder == m.maxOrder && r.base == m.base && r.lists == m.lists && |r.frames| == |m.frames|
    && forall i: nat :: i < |m.frames| ==> SameRole(m.frames[i], r.frames[i])
  }

  predicate SameRole(f: Frame, g: Frame) {
    && g.order == f.order && g.head == f.head && g.tail == f.tail
    && (g.owner == Free <==> f.owner == Free) && (g.owner == Reserved <==> f.owner == Reserved)
    && (!f.head ==> g.owner == f.owner)
  }

  lemma RelabelKeeps(m: Pool, r: Pool)
    requires m.Valid() && Relabel(m, r)
    ensures r.Valid() && (Coalesced(m) ==> Coalesced(r)) && FreePages(r) == FreePages(m)
    ensures Live(r).Keys == Live(m).Keys
  {
    RelabelBlocks(m, r);
    RelabelLists(m, r);
    RelabelTails(m, r);
    forall q: nat | q < |m.frames|
      ensures PageFree(r, q) <==> PageFree(m, q)
    {
      assert SameRole(m.frames[q], r.frames[q]);
      assert HeadOf(m, q) < |m.frames| ==> SameRole(m.frames[HeadOf(m, q)], r.frames[HeadOf(m, q)]);
    }
    if Coalesced(m) {
      RelabelCoalesced(m, r);
    }
    forall q: nat
      ensures q in Live(r) <==> q in Live(m)
    {
      assert q < |m.frames| ==> SameRole(m.frames[q], r.frames[q]);
    }
  }

  lemma RelabelBlocks(m: Pool, r: Pool)
    requires m.Valid() && Relabel(m, r)
    ensures r.Shape() && r.ReservedOk() && r.HeadsOk() && r.InsideOk() && r.CoverOk()
  {
    forall q: nat | m.base <= q < |m.frames| && !r.frames[q].head
      ensures r.IsHead(r.frames[q].order) && r.frames[q].order < q < r.End(r.frames[q].order)
    {
      assert SameRole(m.frames[q], r.frames[q]);
      assert m.IsHead(m.frames[q].order);
    }
  }

  lemma RelabelLists(m: Pool, r: Pool)
    requires m.Valid() && Relabel(m, r)
    ensures r.ListsOk()
  {
    forall k, p: nat | 0 <= k <= m.maxOrder
      ensures p in r.lists[k] <==> r.FreeHead(p, k)
    {
      assert p < |m.frames| ==> SameRole(m.frames[p], r.frames[p]);
      assert p in m.lists[k] <==> m.FreeHead(p, k);
    }
  }

  lemma RelabelTails(m: Pool, r: Pool)
    requires m.Valid() && Relabel(m, r)
    ensures r.TailsOk()
  {
    forall p: nat, q: nat | r.IsHead(p) && r.frames[p].owner != Free && p < q < r.End(p) && q < |r.frames|
      ensures r.frames[q].tail && r.frames[q].owner == Buddy
    {
      assert SameRole(m.frames[p], r.frames[p]) && SameRole(m.frames[q], r.frames[q]);
      assert m.IsHead(p) && q < m.End(p);
    }
  }

  lemma RelabelCoalesced(m: Pool, r: Pool)
    requires m.Valid() && Relabel(m, r) && Coalesced(m)
    ensures Coalesced(r)
  {
    forall q: nat, k: nat
      ensures Apart(r, q, k)
    {
      assert Apart(m, q, k);
      assert q < |m.frames| ==> SameRole(m.frames[q], r.frames[q]);
      assert Flip(q, k) < |m.frames| ==> SameRole(m.frames[Flip(q, k)], r.frames[Flip(q, k)]);
    }
  }

  // The reference counts of live blocks are exact: dropping the last reference frees the
  // block, any other drop only counts down; free, reserved and tail pages are untouched.
  lemma LiveFrame(m: Pool, p: nat)
    requires m.Valid() && p in Live(m)
    ensures p < |m.frames| && m.frames[p].head && m.frames[p].owner != Reserved && Live(m)[p] == m.frames[p]
  {
  }

  lemma DropRefLaw(m: Pool, p: nat)
    requires m.Valid() && Coalesced(m) && p in Live(m) && Live(m)[p].refcount > 0
    ensures var r, f := DropRef(m, p), Live(m)[p];
      && r.Valid() && Coalesced(r)
      && (f.refcount == 1 ==> Live(r) == Live(m) - {p} && FreePages(r) == FreePages(m) + Block(p, f.order))
      && (f.refcount > 1 ==> Live(r) == Live(m)[p := f.(refcount := f.refcount - 1)] && FreePages(r) == FreePages(m))
  {
    hide Pool.Valid, Coalesced, FreePages, BuddyFree, Block, Live, Pool.IsHead;
    LiveFrame(m, p);
    var c := Minus1(m.frames[p].refcount);
    CountKeepsPool(m, p, c);
    var d := m.(frames := m.frames[p := m.frames[p].(refcount := c)]);
    if c == 0 {
      BuddyFreeLaw(d, p);
      assert Live(d) - {p} == Live(m) - {p};
    }
  }

  // Past zero the 32-bit count wraps and nothing is freed.
  lemma DropRefWraps(m: Pool, p: nat)
    requires m.Valid() && Coalesced(m) && p in Live(m) && Live(m)[p].refcount == 0
    ensures var r := DropRef(m, p);
      r.Valid() && Live(r) == Live(m)[p := Live(m)[p].(refcount := 0xFFFF_FFFF)] && FreePages(r) == FreePages(m)
  {
    hide Pool.Valid, Coalesced, FreePages, BuddyFree, Block, Live, Pool.IsHead;
    LiveFrame(m, p);
    CountKeepsPool(m, p, Minus1(m.frames[p].refcount));
  }

  lemma DropRefIgnoresTails(m: Pool, p: nat)
    requires m.Valid() && p < |m.frames| && (!m.frames[p].head || p < m.base)
    ensures DropRef(m, p) == m
  {
  }

  // ---- paging.c:238-248 set_page_owner, called on a live block ----

  function SetOwner(m: Pool, p: nat, o: Owner): (r: Pool)
    requires m.Valid() && p < |m.frames|
  {
    var h := if m.frames[p].tail then m.frames[p].order else p;
    if h < |m.frames| then m.(frames := m.frames[h := m.frames[h].(owner := o)]) else m
  }

  // Any page of a live block finds its head.
  lemma SetOwnerLaw(m: Pool, p: nat, o: Owner)
    requires m.Valid() && Coalesced(m) && p < |m.frames| && HeadOf(m, p) in Live(m) && (o == Buddy || o == Slab)
    ensures var r, h := SetOwner(m, p, o), HeadOf(m, p);
      && r.Valid() && Coalesced(r) && r.base == m.base && r.maxOrder == m.maxOrder
      && FreePages(r) == FreePages(m)
      && Live(r) == Live(m)[h := Live(m)[h].(owner := o)]
  {
    SetOwnerHead(m, p, o);
    var h := HeadOf(m, p);
    hide Pool.Valid, Coalesced, FreePages, Live, SetOwner;
    RelabelKeeps(m, SetOwner(m, p, o));
    LiveUpdate(m, h, m.frames[h].(owner := o));
  }

  lemma SetOwnerHead(m: Pool, p: nat, o: Owner)
    requires m.Valid() && p < |m.frames| && HeadOf(m, p) in Live(m) && (o == Buddy || o == Slab)
    ensures var h := HeadOf(m, p);
      && h < |m.frames| && Live(m)[h] == m.frames[h]
      && SetOwner(m, p, o) == m.(frames := m.frames[h := m.frames[h].(owner := o)])
      && Relabel(m, SetOwner(m, p, o)) && SameRole(m.frames[h], m.frames[h].(owner := o))
  {
    hide Pool.Valid, Live, HeadOf, Relabel, SameRole;
    OwnerIsLive(m, p);
    RelabelOne(m, HeadOf(m, p), o);
  }

  lemma RelabelOne(m: Pool, h: nat, o: Owner)
    requires h < |m.frames| && m.frames[h].head && (o == Buddy || o == Slab)
    requires m.frames[h].owner != Free && m.frames[h].owner != Reserved
    ensures SameRole(m.frames[h], m.frames[h].(owner := o))
    ensures Relabel(m, m.(frames := m.frames[h := m.frames[h].(owner := o)]))
  {
  }

  lemma OwnerIsLive(m: Pool, p: nat)
    requires m.Valid() && p < |m.frames| && HeadOf(m, p) in Live(m)
    ensures var h := HeadOf(m, p);
      && h < |m.frames| && Live(m)[h] == m.frames[h] && m.frames[h].head
      && m.frames[h].owner != Free && m.frames[h].owner != Reserved
      && h == if m.frames[p].tail then m.frames[p].order else p
  {
    hide Pool.ListsOk;
    var h := HeadOf(m, p);
    assert p >= m.base;
    assert m.IsHead(h) && h <= p < m.End(h);
  }

  // ---- runs ----

  datatype Op = OpAlloc(bytes: nat) | OpFree(page: nat) | OpShare(page: nat) | OpDrop(page: nat)
    | OpOwner(page: nat, owner: Owner)

  // set_page_owner is only ever called on a block that is allocated, to hand it to the
  // slab layer; every other call is unrestricted.
  predicate Allowed(m: Pool, op: Op) {
    match op
    case OpAlloc(_) => true
    case OpOwner(p, o) => p in Live(m) && (o == Buddy || o == Slab)
    case _ => op.page < |m.frames|
  }

  function Step(m: Pool, op: Op): (r: Pool)
    requires m.Valid() && Allowed(m, op)
  {
    match op
    case OpAlloc(b) => (var a := BuddyAlloc(m, b); if a.Alloc? then a.pool else m)
    case OpFree(p) => BuddyFree(m, p)
    case OpShare(p) => ShareRef(m, p)
    case OpDrop(p) => DropRef(m, p)
    case OpOwner(p, o) => SetOwner(m, p, o)
  }

  lemma StepKeeps(m: Pool, op: Op)
    requires m.Valid() && Coalesced(m) && Allowed(m, op)
    ensures var r := Step(m, op); r.Valid() && Coalesced(r) && r.maxOrder == m.maxOrder && r.base == m.base
  {
    match op
    case OpAlloc(b) => AllocOrderLaw(m, OrderFor(PagesFor(b)));
    case OpFree(p) => BuddyFreeLaw(m, p);
    case OpShare(p) => CountKeepsPool(m, p, Plus1(m.frames[p].refcount));
    case OpDrop(p) =>
      var c := Minus1(m.frames[p].refcount);
      CountKeepsPool(m, p, c);
      BuddyFreeLaw(m.(frames := m.frames[p := m.frames[p].(refcount := c)]), p);
    case OpOwner(p, o) => SetOwnerLaw(m, p, o);
  }

  // m' is reachable from m by the calls ops.
  ghost predicate Reaches(m: Pool, ops: seq<Op>, m': Pool)
    requires m.Valid() && Coalesced(m)
    decreases |ops|
  {
    if ops == [] then m' == m
    else Allowed(m, ops[0]) && (StepKeeps(m, ops[0]); Reaches(Step(m, ops[0]), ops[1..], m'))
  }

  ghost predicate FromBoot(maxOrder: nat, base: nat, ops: seq<Op>, m: Pool)
    requires maxOrder < base <= Pow2(maxOrder)
  {
    BootIsValid(maxOrder, base);
    Reaches(Boot(maxOrder, base), ops, m)
  }

  // Over every run from boot the pool stays a tiling with exact lists, and no two free
  // buddies of one order are ever left unmerged.
  lemma {:induction false} RunsKeep(m: Pool, ops: seq<Op>, m': Pool)
    requires m.Valid() && Coalesced(m) && Reaches(m, ops, m')
    ensures m'.Valid() && Coalesced(m') && m'.maxOrder == m.maxOrder && m'.base == m.base
    decreases |ops|
  {
    if ops != [] {
      StepKeeps(m, ops[0]);
      RunsKeep(Step(m, ops[0]), ops[1..], m');
    }
  }

  lemma RunsFromBoot(maxOrder: nat, base: nat, ops: seq<Op>, m: Pool)
    requires maxOrder < base <= Pow2(maxOrder) && FromBoot(maxOrder, base, ops, m)
    ensures m.Valid() && Coalesced(m) && m.maxOrder == maxOrder && m.base == base
  {
    BootIsValid(maxOrder, base);
    RunsKeep(Boot(maxOrder, base), ops, m);
  }
}
