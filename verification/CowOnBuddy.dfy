// Operations on address spaces as the calls they make of the buddy allocator: when every page
// an operation takes is the one buddy_alloc returns, the frame array keeps count of all
// mappings and tables.
module CowOnBuddy {
  import opened AllocatorCalls
  import opened Bits
  import opened BuddyLaws
  import opened BuddyRuns
  import opened Cow
  import opened CowOverBuddy
  import opened PageOwner
  import opened PagePool
  import opened PageTree
  import opened RefCount
  import R = CowRefinement

  // ---- on the frame array ----

  ghost predicate CanTouch(m: Pool, t: Touch) {
    m.Valid() &&
    match t
    case Taken(n) => AllocOrder(m, 0).Alloc? && AllocOrder(m, 0).page == n
    case _ => t.page < |m.frames|
  }

  ghost function PoolTouch(m: Pool, t: Touch): (r: Pool)
    requires CanTouch(m, t)
  {
    match t
    case Taken(_) => AllocOrder(m, 0).pool
    case Shared(f) => ShareRef(m, f)
    case Dropped(f) => DropRef(m, f)
  }

  // The pages taken are those the allocator returns, in this order.
  ghost predicate Follows(m: Pool, ts: seq<Touch>)
    decreases |ts|
  {
    ts == [] || (CanTouch(m, ts[0]) && Follows(PoolTouch(m, ts[0]), ts[1..]))
  }

  ghost function PoolAfter(m: Pool, ts: seq<Touch>): (r: Pool)
    requires Follows(m, ts)
    decreases |ts|
  {
    if ts == [] then m else PoolAfter(PoolTouch(m, ts[0]), ts[1..])
  }

  // ---- on the model's accounts ----

  function Touched(w: World, t: Touch): (r: World) {
    match t
    case Taken(n) => Cow.Take(w, n)
    case Shared(f) => w.(refs := Put(w.refs, f, w.refs(f) + 1))
    case Dropped(f) => Drop(w, f)
  }

  function TouchedAll(w: World, ts: seq<Touch>): (r: World)
    decreases |ts|
  {
    if ts == [] then w else TouchedAll(Touched(w, ts[0]), ts[1..])
  }

  lemma {:induction false} TouchedConcat(w: World, a: seq<Touch>, b: seq<Touch>)
    ensures TouchedAll(w, a + b) == TouchedAll(TouchedAll(w, a), b)
    decreases |a|
  {
    if a == [] {
      assert a + b == b;
    } else {
      TouchedConcat(Touched(w, a[0]), a[1..], b);
      assert (a + b)[1..] == a[1..] + b;
    }
  }

  // The pages processes use, as contents or as tables.
  function InUse(w: World): (s: set<nat>) {
    w.managed - w.free - w.kernel
  }

  const MAX_REFS := 0xFFFF_FFFF

  // A reference is only shared or dropped on a page in use, and the count fits its field.
  ghost predicate Legit(w: World, t: Touch) {
    match t
    case Taken(_) => true
    case Shared(f) => f in InUse(w) && w.refs(f) < MAX_REFS
    case Dropped(f) => f in InUse(w) && w.refs(f) > 0
  }

  ghost predicate Sound(w: World, ts: seq<Touch>)
    decreases |ts|
  {
    ts == [] || (Legit(w, ts[0]) && Sound(Touched(w, ts[0]), ts[1..]))
  }

  // ---- one touch ----

  ghost predicate Backed(m: Pool, w: World) {
    Tracks(m, w, InUse(w))
  }

  lemma TracksFewer(m: Pool, w: World, pages: set<nat>)
    requires Tracks(m, w, pages) && InUse(w) <= pages
    ensures Backed(m, w)
  {
    hide Pool.Valid, Coalesced, FreePages, Live, Range;
  }

  lemma TouchBacked(m: Pool, w: World, t: Touch)
    requires Backed(m, w) && CanTouch(m, t) && Legit(w, t)
    ensures Backed(PoolTouch(m, t), Touched(w, t)) && SlabsSame(m, PoolTouch(m, t))
    ensures t.Taken? ==> t.page in w.free
  {
    hide Pool.Valid, Tracks, AllocOrder, DropRef, ShareRef, SlabsSame;
    TouchLeavesSlabs(m, w, t);
    match t
    case Taken(n) =>
      AllocIsTake(m, w, InUse(w));
      TracksFewer(PoolTouch(m, t), Touched(w, t), InUse(w) + {n});
    case Shared(f) => ShareIsPlus(m, w, InUse(w), f);
    case Dropped(f) =>
      LiveDropIsDrop(m, w, InUse(w), f);
      TracksFewer(PoolTouch(m, t), Touched(w, t), if w.refs(f) == 1 then InUse(w) - {f} else InUse(w));
  }

  // The slab layer's blocks are left alone.
  ghost predicate SlabsSame(m: Pool, r: Pool) {
    && r.base == m.base && r.maxOrder == m.maxOrder && (LabelsOk(m) ==> LabelsOk(r))
    && forall p: nat :: SlabSame(m, r, p)
  }

  ghost predicate SlabSame(m: Pool, r: Pool, p: nat) {
    && (p in Live(m) && Live(m)[p].owner == Slab <==> p in Live(r) && Live(r)[p].owner == Slab)
    && (p in Live(m) && Live(m)[p].owner == Slab ==> Live(r)[p] == Live(m)[p])
  }

  lemma SlabsSameThen(m: Pool, a: Pool, r: Pool)
    requires SlabsSame(m, a) && SlabsSame(a, r)
    ensures SlabsSame(m, r)
  {
    hide LabelsOk, Live;
    forall p: nat
      ensures SlabSame(m, r, p)
    {
      assert SlabSame(m, a, p) && SlabSame(a, r, p);
    }
  }

  lemma TouchLeavesSlabs(m: Pool, w: World, t: Touch)
    requires Backed(m, w) && CanTouch(m, t) && Legit(w, t)
    ensures SlabsSame(m, PoolTouch(m, t))
  {
    hide Pool.Valid, Coalesced, FreePages, Live, LabelsOk, AllocOrder, DropRef, Range;
    match t
    case Taken(n) =>
      AllocOrderLaw(m, 0);
      if LabelsOk(m) {
        AllocKeepsLabels(m, 0);
      }
    case Shared(f) =>
      CountKeepsPool(m, f, Plus1(m.frames[f].refcount));
      if LabelsOk(m) {
        CountKeepsLabels(m, f, Plus1(m.frames[f].refcount));
      }
    case Dropped(f) =>
      DropRefLaw(m, f);
      DropKeepsShape(m, f);
      if LabelsOk(m) {
        StepKeepsLabels(m, OpDrop(f));
      }
  }

  lemma {:induction false} TouchesBacked(m: Pool, w: World, ts: seq<Touch>)
    requires Backed(m, w) && Follows(m, ts) && Sound(w, ts)
    ensures Backed(PoolAfter(m, ts), TouchedAll(w, ts)) && SlabsSame(m, PoolAfter(m, ts))
    decreases |ts|
  {
    hide Backed, Touched, PoolTouch, CanTouch, Legit;
    if ts != [] {
      hide SlabsSame;
      TouchBacked(m, w, ts[0]);
      TouchesBacked(PoolTouch(m, ts[0]), Touched(w, ts[0]), ts[1..]);
      SlabsSameThen(m, PoolTouch(m, ts[0]), PoolAfter(m, ts));
    }
  }

  lemma FreeInRange(m: Pool)
    requires m.Valid()
    ensures FreePages(m) <= Range(m.base, Pow2(m.maxOrder))
  {
  }

  lemma {:induction false} TouchesKeepRegion(w: World, ts: seq<Touch>)
    ensures TouchedAll(w, ts).managed == w.managed && TouchedAll(w, ts).kernel == w.kernel
    ensures TouchedAll(w, ts).spaces == w.spaces
    decreases |ts|
  {
    if ts != [] {
      TouchesKeepRegion(Touched(w, ts[0]), ts[1..]);
    }
  }

  // Only these accounts matter.
  ghost predicate SameAccounts(a: World, b: World) {
    && a.managed == b.managed && a.kernel <= b.kernel && a.free == b.free
    && forall f: nat :: f in InUse(b) ==> a.refs(f) == b.refs(f)
  }

  lemma BackedSame(m: Pool, a: World, b: World)
    requires Backed(m, a) && SameAccounts(a, b)
    ensures Backed(m, b)
  {
    hide Pool.Valid, Coalesced, FreePages, Live, Range;
    assert InUse(b) <= InUse(a);
  }

  // ---- what a sequence of touches comes to, frame by frame ----

  // Takes and shares, on different pages.
  lemma {:induction false} GrowthAt(w: World, ts: seq<Touch>, f: nat)
    requires (forall t :: t in ts ==> !t.Dropped?) && (Taken(f) !in ts || Shared(f) !in ts)
    ensures var r := TouchedAll(w, ts);
      && r.managed == w.managed && r.kernel == w.kernel
      && (f in r.free <==> f in w.free && Taken(f) !in ts)
      && r.refs(f) == if Taken(f) in ts then 1 else w.refs(f) + multiset(ts)[Shared(f)]
    decreases |ts|
  {
    if ts != [] {
      assert ts == [ts[0]] + ts[1..];
      GrowthAt(Touched(w, ts[0]), ts[1..], f);
    }
  }

  ghost predicate ShareOk(w: World, ts: seq<Touch>, f: nat) {
    Shared(f) in ts ==> f in InUse(w) && Taken(f) !in ts && w.refs(f) + multiset(ts)[Shared(f)] <= MAX_REFS
  }

  lemma {:induction false} GrowthSound(w: World, ts: seq<Touch>)
    requires (forall t :: t in ts ==> !t.Dropped?) && forall f: nat :: ShareOk(w, ts, f)
    ensures Sound(w, ts)
    decreases |ts|
  {
    if ts != [] {
      assert ts == [ts[0]] + ts[1..];
      assert ShareOk(w, ts, ts[0].page);
      var r := Touched(w, ts[0]);
      forall f: nat
        ensures ShareOk(r, ts[1..], f)
      {
        assert ShareOk(w, ts, f);
        assert multiset(ts) == multiset{ts[0]} + multiset(ts[1..]);
      }
      GrowthSound(r, ts[1..]);
    }
  }

  ghost predicate DropOk(w: World, ts: seq<Touch>, f: nat) {
    Dropped(f) in ts ==> f in InUse(w) && multiset(ts)[Dropped(f)] <= w.refs(f)
  }

  lemma {:induction false} DropsSound(w: World, ts: seq<Touch>)
    requires (forall t :: t in ts ==> t.Dropped?) && forall f: nat :: DropOk(w, ts, f)
    ensures Sound(w, ts)
    decreases |ts|
  {
    if ts != [] {
      assert ts == [ts[0]] + ts[1..];
      assert multiset(ts) == multiset{ts[0]} + multiset(ts[1..]);
      assert ts[0] in ts && ts[0].Dropped? && DropOk(w, ts, ts[0].page);
      var r := Touched(w, ts[0]);
      forall f: nat
        ensures DropOk(r, ts[1..], f)
      {
        assert DropOk(w, ts, f);
      }
      DropsSound(r, ts[1..]);
    }
  }

  // ---- how often each frame is touched ----

  // Every table of a well-formed tree is taken once and every leaf counted once.
  lemma {:induction false} CloneCounts(c: Tree, d: nat, f: nat)
    requires Formed(c, d) && Occupied(c)
    ensures var b := multiset(CloneTouches(c));
      b[Taken(f)] == Uses(c, f) && b[Shared(f)] == Maps(c, f) && b[Dropped(f)] == 0
    decreases c, 1
  {
    CloneEntryCounts(c.page, c.entries, false, d, f);
  }

  lemma {:induction false} CloneEntryCounts(page: nat, es: seq<Entry>, made: bool, d: nat, f: nat)
    requires SubsFormed(es, d)
    ensures var b := multiset(CloneEntries(page, es, made));
      && b[Taken(f)] == EntryUses(es, f) + (if !made && page == f && AnyValid(es) then 1 else 0)
      && b[Shared(f)] == EntryMaps(es, f) && b[Dropped(f)] == 0
    decreases es, 0
  {
    hide BelowTouches, CloneTouches, CountLeaf, TakeUnless, Formed, Occupied, SubsFormed, OneUses, OneMaps, AnyValid;
    if es == [] {
      NoneValid(es);
    } else {
      SubsTail(es, d);
      SmallCounts(es[0], made, page, f);
      if es[0].Invalid? {
        CloneEntryCounts(page, es[1..], made, d, f);
      } else {
        BelowCounts(es[0], d, f);
        CloneEntryCounts(page, es[1..], true, d, f);
        Appended(BelowTouches(es[0]), TakeUnless(made, page), CountLeaf(es[0]), CloneEntries(page, es[1..], true));
      }
    }
  }

  lemma {:induction false} BelowCounts(e: Entry, d: nat, f: nat)
    requires e.Table? ==> d > 1 && Formed(e.sub, d - 1) && Occupied(e.sub)
    ensures var b := multiset(BelowTouches(e));
      && b[Taken(f)] == OneUses(e, f) && b[Dropped(f)] == 0
      && b[Shared(f)] + multiset(CountLeaf(e))[Shared(f)] == OneMaps(e, f)
    decreases e, 2
  {
    if e.Table? {
      CloneCounts(e.sub, d - 1, f);
    }
  }

  lemma SmallCounts(e: Entry, made: bool, page: nat, f: nat)
    ensures e.Invalid? ==> OneUses(e, f) == 0 && OneMaps(e, f) == 0
    ensures multiset(CountLeaf(e))[Taken(f)] == multiset(CountLeaf(e))[Dropped(f)] == 0
    ensures multiset(TakeUnless(made, page))[Shared(f)] == multiset(TakeUnless(made, page))[Dropped(f)] == 0
    ensures multiset(TakeUnless(made, page))[Taken(f)] == if !made && page == f then 1 else 0
  {
  }

  lemma NoneValid(es: seq<Entry>)
    ensures es == [] ==> !AnyValid(es)
  {
  }

  lemma Appended(a: seq<Touch>, b: seq<Touch>, c: seq<Touch>, d: seq<Touch>)
    ensures multiset(a + b + c + d) == multiset(a) + multiset(b) + multiset(c) + multiset(d)
  {
  }

  ghost predicate SubsFormed(es: seq<Entry>, d: nat) {
    forall i :: 0 <= i < |es| && es[i].Table? ==> d > 1 && Formed(es[i].sub, d - 1) && Occupied(es[i].sub)
  }

  lemma SubsTail(es: seq<Entry>, d: nat)
    requires SubsFormed(es, d) && es != []
    ensures SubsFormed(es[1..], d)
    ensures es[0].Table? ==> d > 1 && Formed(es[0].sub, d - 1) && Occupied(es[0].sub)
    ensures AnyValid(es) <==> !es[0].Invalid? || AnyValid(es[1..])
  {
    ValidTail(es);
  }

  lemma RootCounts(c: Tree, d: nat, f: nat)
    requires Formed(c, d)
    ensures var b := multiset(RootTouches(c));
      b[Taken(f)] == Uses(c, f) && b[Shared(f)] == Maps(c, f) && b[Dropped(f)] == 0
  {
    CloneEntryCounts(c.page, c.entries, true, d, f);
  }

  lemma {:induction false} ReapCounts(t: Tree, f: nat)
    ensures var b := multiset(ReapTouches(t));
      b[Dropped(f)] == Maps(t, f) + Uses(t, f) && b[Taken(f)] == 0 && b[Shared(f)] == 0
    decreases t, 1
  {
    ReapEntryCounts(t.entries, f);
  }

  lemma {:induction false} ReapEntryCounts(es: seq<Entry>, f: nat)
    ensures var b := multiset(ReapEntryTouches(es));
      b[Dropped(f)] == EntryMaps(es, f) + EntryUses(es, f) && b[Taken(f)] == 0 && b[Shared(f)] == 0
    decreases es, 0
  {
    if es != [] {
      ReapOneCounts(es[0], f);
      ReapEntryCounts(es[1..], f);
    }
  }

  lemma {:induction false} ReapOneCounts(e: Entry, f: nat)
    ensures var b := multiset(ReapOneTouches(e));
      b[Dropped(f)] == OneMaps(e, f) + OneUses(e, f) && b[Taken(f)] == 0 && b[Shared(f)] == 0
    decreases e, 2
  {
    if e.Table? {
      ReapCounts(e.sub, f);
    }
  }

  // Teardown is exactly its drops.
  lemma {:induction false} ReapIsDrops(w: World, t: Tree)
    ensures ReapTree(w, t) == TouchedAll(w, ReapTouches(t))
    decreases t, 1
  {
    ReapEntriesIsDrops(w, t.entries);
    TouchedConcat(w, ReapEntryTouches(t.entries), [Dropped(t.page)]);
    var x := TouchedAll(w, ReapEntryTouches(t.entries));
    assert [Dropped(t.page)][1..] == [];
    assert TouchedAll(x, [Dropped(t.page)]) == Touched(x, Dropped(t.page));
  }

  lemma {:induction false} ReapEntriesIsDrops(w: World, es: seq<Entry>)
    ensures ReapEntries(w, es) == TouchedAll(w, ReapEntryTouches(es))
    decreases es, 0
  {
    if es != [] {
      ReapOneIsDrops(w, es[0]);
      ReapEntriesIsDrops(ReapOne(w, es[0]), es[1..]);
      TouchedConcat(w, ReapOneTouches(es[0]), ReapEntryTouches(es[1..]));
    }
  }

  lemma {:induction false} ReapOneIsDrops(w: World, e: Entry)
    ensures ReapOne(w, e) == TouchedAll(w, ReapOneTouches(e))
    decreases e, 2
  {
    match e
    case Invalid =>
    case Page(l) => assert [Dropped(l.frame)][1..] == [];
    case Table(s) => ReapIsDrops(w, s);
  }

  // ---- each operation keeps the accounts ----

  // Processes map pages of the managed region only.
  ghost predicate InRegion(w: World) {
    forall f: nat :: MapCount(w.spaces, f) > 0 ==> f in w.managed
  }

  // No count overflows its 32 bits.
  ghost predicate Fits(w: World, op: R.Op) {
    op.OpFork? && Alive(w, op.parent) ==>
      forall f: nat :: w.refs(f) + Maps(w.spaces[op.parent].value, f) <= MAX_REFS
  }

  lemma UsedPage(w: World, f: nat)
    requires Inv(w) && InRegion(w) && MapCount(w.spaces, f) + UseCount(w.spaces, f) > 0
    ensures f in InUse(w) && w.refs(f) == MapCount(w.spaces, f) + UseCount(w.spaces, f)
  {
    assert PageOk(w, f);
  }

  lemma SpawnBacked(m: Pool, w: World, n: nat)
    requires Inv(w) && Backed(m, w) && n in w.free && Follows(m, [Taken(n)])
    ensures Backed(PoolAfter(m, [Taken(n)]), Spawn(w, n))
    ensures SlabsSame(m, PoolAfter(m, [Taken(n)]))
  {
    hide Backed, Inv, CanTouch, PoolTouch;
    var ts := [Taken(n)];
    assert ts[1..] == [];
    assert Sound(w, ts);
    TouchesBacked(m, w, ts);
    assert TouchedAll(w, ts) == Cow.Take(w, n);
    BackedSame(PoolAfter(m, ts), Cow.Take(w, n), Spawn(w, n));
  }

  lemma ForkedFormed(w: World, i: nat, c: Tree)
    requires Inv(w) && ForkLegal(w, i, c)
    ensures Formed(c, LEVELS)
  {
    MarkFormed(w.spaces[i].value, LEVELS);
    CopyFormed(c, Mark(w.spaces[i].value), LEVELS);
  }

  lemma ForkBacked(m: Pool, w: World, i: nat, c: Tree)
    requires Inv(w) && InRegion(w) && Backed(m, w) && ForkLegal(w, i, c) && Fits(w, R.OpFork(i, c))
    requires Follows(m, RootTouches(c))
    ensures Backed(PoolAfter(m, RootTouches(c)), Fork(w, i, c))
    ensures SlabsSame(m, PoolAfter(m, RootTouches(c)))
  {
    hide Backed, Follows, CanTouch, PoolTouch;
    var ts := RootTouches(c);
    ForkedFormed(w, i, c);
    forall t | t in ts
      ensures !t.Dropped?
    {
      RootCounts(c, LEVELS, t.page);
    }
    forall f: nat
      ensures ShareOk(w, ts, f)
    {
      ForkShareOk(w, i, c, f);
    }
    GrowthSound(w, ts);
    TouchesBacked(m, w, ts);
    ForkAccounts(w, i, c);
    BackedSame(PoolAfter(m, ts), TouchedAll(w, ts), Fork(w, i, c));
  }

  lemma ForkShareOk(w: World, i: nat, c: Tree, f: nat)
    requires Inv(w) && InRegion(w) && ForkLegal(w, i, c) && Fits(w, R.OpFork(i, c))
    ensures ShareOk(w, RootTouches(c), f)
    ensures Maps(c, f) > 0 ==> Uses(c, f) == 0
    ensures Maps(c, f) == Maps(w.spaces[i].value, f)
  {
    ForkedFormed(w, i, c);
    RootCounts(c, LEVELS, f);
    ForkCounts(w, i, c, f);
    if Maps(c, f) > 0 {
      UsedPage(w, f);
    }
  }

  lemma ForkAccounts(w: World, i: nat, c: Tree)
    requires Inv(w) && InRegion(w) && ForkLegal(w, i, c) && Fits(w, R.OpFork(i, c))
    requires forall t :: t in RootTouches(c) ==> !t.Dropped?
    ensures SameAccounts(TouchedAll(w, RootTouches(c)), Fork(w, i, c))
  {
    var ts, r := RootTouches(c), Fork(w, i, c);
    TouchesKeepRegion(w, ts);
    ForkedFormed(w, i, c);
    forall f: nat
      ensures f in TouchedAll(w, ts).free <==> f in r.free
      ensures TouchedAll(w, ts).refs(f) == r.refs(f)
    {
      ForkShareOk(w, i, c, f);
      RootCounts(c, LEVELS, f);
      GrowthAt(w, ts, f);
    }
    assert r.managed == w.managed && r.kernel == w.kernel;
    hide Inv, InRegion, ForkLegal, Fork, TouchedAll, RootTouches;
    assert TouchedAll(w, ts).free == r.free;
  }

  lemma MapBacked(m: Pool, w: World, i: nat, p: Path, n: nat, a: Access, picks: seq<nat>)
    requires Inv(w) && Backed(m, w) && MapLegal(w, i, p, n, picks) && Follows(m, TakeAll([n] + picks))
    ensures Backed(PoolAfter(m, TakeAll([n] + picks)), MapFault(w, i, p, n, a, picks))
    ensures SlabsSame(m, PoolAfter(m, TakeAll([n] + picks)))
  {
    hide Backed, Follows, CanTouch, PoolTouch;
    var ts, r := TakeAll([n] + picks), MapFault(w, i, p, n, a, picks);
    forall f: nat
      ensures ShareOk(w, ts, f)
    {
    }
    GrowthSound(w, ts);
    TouchesBacked(m, w, ts);
    TouchesKeepRegion(w, ts);
    assert r.managed == w.managed && w.kernel <= r.kernel;
    forall f: nat
      ensures f in TouchedAll(w, ts).free <==> f in r.free
      ensures TouchedAll(w, ts).refs(f) == r.refs(f)
    {
      TakeAllHas([n] + picks, f);
      GrowthAt(w, ts, f);
    }
    hide Inv, MapLegal, TouchedAll, TakeAll;
    assert TouchedAll(w, ts).free == r.free;
    BackedSame(PoolAfter(m, ts), TouchedAll(w, ts), r);
  }

  lemma TakeAllHas(picks: seq<nat>, f: nat)
    ensures (Taken(f) in TakeAll(picks) <==> f in picks) && Shared(f) !in TakeAll(picks)
    ensures multiset(TakeAll(picks))[Shared(f)] == 0
  {
    if f in picks {
      var k :| 0 <= k < |picks| && picks[k] == f;
      assert TakeAll(picks)[k] == Taken(f);
    }
  }

  lemma ReapBacked(m: Pool, w: World, i: nat)
    requires Inv(w) && InRegion(w) && Backed(m, w) && Alive(w, i) && Follows(m, ReapTouches(w.spaces[i].value))
    ensures Backed(PoolAfter(m, ReapTouches(w.spaces[i].value)), Reap(w, i))
    ensures SlabsSame(m, PoolAfter(m, ReapTouches(w.spaces[i].value)))
  {
    hide Backed, Follows, CanTouch, PoolTouch;
    var t := w.spaces[i].value;
    var ts := ReapTouches(t);
    forall x | x in ts
      ensures x.Dropped?
    {
      ReapCounts(t, x.page);
    }
    forall f: nat
      ensures DropOk(w, ts, f)
    {
      ReapCounts(t, f);
      CountsAt(w.spaces, i, None, f);
      if Dropped(f) in ts {
        UsedPage(w, f);
      }
    }
    DropsSound(w, ts);
    TouchesBacked(m, w, ts);
    ReapIsDrops(w, t);
    BackedSame(PoolAfter(m, ts), TouchedAll(w, ts), Reap(w, i));
  }

  lemma FaultBacked(m: Pool, w: World, i: nat, p: Path, n: nat, rest: seq<Touch>)
    requires Inv(w) && InRegion(w) && Backed(m, w) && CanFault(w, i, p) && n in w.free
    requires Follows(m, [Taken(n), Dropped(LeafAt(w, i, p).value.frame)] + rest)
    ensures var a := PoolTouch(m, Taken(n));
      && CanTouch(m, Taken(n)) && CanTouch(a, Dropped(LeafAt(w, i, p).value.frame))
      && var b := PoolTouch(a, Dropped(LeafAt(w, i, p).value.frame));
        && Follows(b, rest) && Backed(b, Fault(w, i, p, n)) && SlabsSame(m, b)
        && PoolAfter(m, [Taken(n), Dropped(LeafAt(w, i, p).value.frame)] + rest) == PoolAfter(b, rest)
  {
    hide Backed, CanTouch, PoolTouch, SlabsSame;
    var f := LeafAt(w, i, p).value.frame;
    var ts := [Taken(n), Dropped(f)] + rest;
    assert ts[1..][1..] == rest && ts[1..][0] == Dropped(f);
    LeafCounted(w, i, p);
    UsedPage(w, f);
    FreshNotMapped(w, n, i, p);
    TouchBacked(m, w, Taken(n));
    var a := PoolTouch(m, Taken(n));
    TouchBacked(a, Cow.Take(w, n), Dropped(f));
    SlabsSameThen(m, a, PoolTouch(a, Dropped(f)));
    BackedSame(PoolTouch(a, Dropped(f)), Drop(Cow.Take(w, n), f), Fault(w, i, p, n));
  }

  lemma {:induction false} WriteBacked(m: Pool, w: World, i: nat, p: Path, off: nat, b: bv8, picks: seq<nat>)
    requires Inv(w) && InRegion(w) && Backed(m, w) && |p| == LEVELS && off < 4096 && WriteLegal(w, i, p, picks)
    requires Follows(m, WriteTouches(w, i, p, picks))
    ensures Backed(PoolAfter(m, WriteTouches(w, i, p, picks)), Write(w, i, p, off, b, picks))
    ensures SlabsSame(m, PoolAfter(m, WriteTouches(w, i, p, picks)))
    ensures InRegion(Write(w, i, p, off, b, picks))
    decreases |picks|
  {
    hide Inv, Backed, CanTouch, PoolTouch, Follows, PoolAfter, InRegion, Fault, Store, SlabsSame;
    var l := LeafAt(w, i, p);
    if l.None? || l.value.access == ReadWrite || !l.value.cow {
      NoTouches(m);
      if l.Some? && l.value.access == ReadWrite {
        StoreBacked(m, w, i, p, off, b);
      }
    } else {
      var n, r := picks[0], Fault(w, i, p, picks[0]);
      var rest := WriteTouches(r, i, p, picks[1..]);
      FaultBacked(m, w, i, p, n, rest);
      FaultKeepsInv(w, i, p, n);
      FaultInRegion(w, i, p, n);
      var x := PoolTouch(PoolTouch(m, Taken(n)), Dropped(l.value.frame));
      WriteBacked(x, r, i, p, off, b, picks[1..]);
      SlabsSameThen(m, x, PoolAfter(x, rest));
    }
  }

  lemma NoTouches(m: Pool)
    ensures Follows(m, []) && PoolAfter(m, []) == m && SlabsSame(m, m)
  {
  }

  lemma StoreBacked(m: Pool, w: World, i: nat, p: Path, off: nat, b: bv8)
    requires Backed(m, w) && InRegion(w) && LeafAt(w, i, p).Some? && off < 4096
    ensures Backed(m, Store(w, i, p, off, b)) && InRegion(Store(w, i, p, off, b))
  {
    hide Backed;
    BackedSame(m, w, Store(w, i, p, off, b));
  }

  lemma FaultInRegion(w: World, i: nat, p: Path, n: nat)
    requires Inv(w) && InRegion(w) && CanFault(w, i, p) && n in w.free
    ensures InRegion(Fault(w, i, p, n))
  {
    assert PageOk(w, n);
    forall f: nat
      ensures MapCount(Fault(w, i, p, n).spaces, f) > 0 ==> f in w.managed
    {
      FaultCounts(w, i, p, n, f);
    }
  }

  lemma StepInRegion(w: World, op: R.Op)
    requires Inv(w) && InRegion(w) && R.Legal(w, op) && !op.OpWrite?
    ensures InRegion(R.Step(w, op))
  {
    var r := R.Step(w, op);
    forall f: nat
      ensures r.managed == w.managed && (MapCount(r.spaces, f) > 0 ==> f in r.managed)
    {
      assert PageOk(w, f);
      match op
      case OpSpawn(n) =>
        BlankCounts(ENTRIES, f);
        CountsAppend(w.spaces, Some(Tree(n, PageTree.Blank(ENTRIES))), f);
      case OpFork(i, c) => ForkCounts(w, i, c, f);
      case OpMap(i, p, n, a, picks) => LazyMapCounts(w, i, p, n, a, picks, f);
      case OpReap(i) =>
        ReapSpaces(w, i);
        CountsAt(w.spaces, i, None, f);
    }
  }

  lemma StepBacked(m: Pool, w: World, op: R.Op)
    requires Inv(w) && InRegion(w) && Backed(m, w) && R.Legal(w, op) && Fits(w, op) && Follows(m, Touches(w, op))
    ensures Backed(PoolAfter(m, Touches(w, op)), R.Step(w, op)) && InRegion(R.Step(w, op))
    ensures SlabsSame(m, PoolAfter(m, Touches(w, op)))
  {
    hide SlabsSame, Inv, InRegion, Backed, Follows, PoolAfter, Fits;
    match op
    case OpSpawn(n) =>
      SpawnBacked(m, w, n);
      StepInRegion(w, op);
    case OpFork(i, c) =>
      ForkBacked(m, w, i, c);
      StepInRegion(w, op);
    case OpWrite(i, p, off, b, picks) => WriteBacked(m, w, i, p, off, b, picks);
    case OpMap(i, p, n, a, picks) =>
      MapBacked(m, w, i, p, n, a, picks);
      StepInRegion(w, op);
    case OpReap(i) =>
      ReapBacked(m, w, i);
      StepInRegion(w, op);
  }
}
