// The page tables in memory as mmap.c, mmu.c, highhalf.c and paging.c change them: rows of
// descriptors overwritten in place, pages taken from the allocator, references counted.
module TableMemory {
  import opened AllocatorCalls
  import opened Bits
  import opened PageTree
  import opened RefCount
  import opened Mapping
  import opened MapRegions
  import opened PageMemory
  import opened TableSteps
  import opened CloneSteps
  import opened Cow
  import opened MapProgress

  lemma ReadySized(m: Memory, free: set<nat>, root: nat, v: nat, n: nat)
    requires Ready(m, free, root, v, n)
    ensures Sized(TreeOf(m, root, LEVELS)) && v + n <= SPAN
  {
  }

  // ---- the calls that cloning and teardown make ----

  lemma LogStarts(page: nat, es: seq<Entry>)
    ensures Logged([], page, false, es, 0, false)
  {
  }

  lemma RootLogStarts(page: nat, es: seq<Entry>)
    ensures Logged([], page, true, es, 0, true)
  {
    assert es[..0] == [];
  }

  lemma LogEnds(s0: Kern, s: Kern, t: Tree, d: nat, child: nat, made: bool, ts: seq<Touch>)
    requires Cloning(s0, s, t, d, child, made, ENTRIES) && Occupied(t)
    requires Logged(ts, child, made, TreeOf(s.m, child, d).entries, ENTRIES, false)
    ensures ts == CloneTouches(TreeOf(s.m, child, d))
  {
    hide TreeOf, CloneEntries;
    assert made;
    var es := TreeOf(s.m, child, d).entries;
    assert es[..ENTRIES] == es;
  }

  lemma RootLogEnds(s0: Kern, s: Kern, t: Tree, child: nat, ts: seq<Touch>)
    requires Cloning(s0, s, t, LEVELS, child, true, ENTRIES)
    requires Logged(ts, child, true, TreeOf(s.m, child, LEVELS).entries, ENTRIES, true)
    ensures [Taken(child)] + ts == RootTouches(TreeOf(s.m, child, LEVELS))
  {
    hide TreeOf, CloneEntries;
    var es := TreeOf(s.m, child, LEVELS).entries;
    assert es[..ENTRIES] == es;
  }

  // The copy's entries after entry i has been written.
  ghost predicate Entered(before: seq<Entry>, i: nat, e: Entry, es: seq<Entry>) {
    i < |before| && es == before[i := e]
  }

  lemma TurnSkips(made: bool, page: nat, es: seq<Entry>, i: nat)
    requires made ==> i < |es| && es[i] == Invalid
    ensures Turned([], made, es, made, page, es, i)
  {
  }

  lemma TurnEnters(turn: seq<Touch>, made0: bool, es0: seq<Entry>, page: nat, e: Entry, es: seq<Entry>, i: nat)
    requires !e.Invalid? && Entered(if made0 then es0 else Blank(ENTRIES), i, e, es)
    requires turn == BelowTouches(e) + TakeUnless(made0, page) + CountLeaf(e)
    ensures Turned(turn, made0, es0, true, page, es, i)
  {
    hide BelowTouches, TakeUnless, CountLeaf, Blank;
    if !made0 {
      assert forall k :: 0 <= k < i ==> es[..i][k] == Blank(ENTRIES)[k];
    }
  }

  lemma ReapStep(w: World, es: seq<Entry>, i: nat)
    requires i < |es|
    ensures ReapEntries(w, es[i..]) == ReapEntries(ReapOne(w, es[i]), es[i + 1..])
    ensures ReapEntryTouches(es[i..]) == ReapOneTouches(es[i]) + ReapEntryTouches(es[i + 1..])
    ensures ReapOneTouches(es[i]) ==
      match es[i] case Invalid => [] case Page(l) => [Dropped(l.frame)] case Table(s) => ReapTouches(s)
  {
    assert es[i..][0] == es[i] && es[i..][1..] == es[i + 1..];
  }

  lemma ReapTouchesAre(t: Tree, w: World, log: seq<Touch>)
    ensures ReapEntries(w, []) == w && log + ReapEntryTouches([]) == log
    ensures ReapTouches(t) == ReapEntryTouches(t.entries) + [Dropped(t.page)]
  {
  }

  // Two links followed or made one after the other.
  lemma StepsCompose(m0: Memory, m1: Memory, m2: Memory, n0: nat, n1: nat, n2: nat, p: Path, e: Pte, a: seq<nat>,
          b: seq<nat>)
    requires |p| > 2
    requires forall more: seq<nat> :: InsertMem(m0, n0, p, e, a + more) == InsertMem(m1, n1, p[1..], e, more)
    requires forall more: seq<nat> :: InsertMem(m1, n1, p[1..], e, b + more) == InsertMem(m2, n2, p[2..], e, more)
    ensures forall more: seq<nat> :: InsertMem(m0, n0, p, e, a + b + more) == InsertMem(m2, n2, p[2..], e, more)
  {
    hide InsertMem;
    forall more: seq<nat>
      ensures InsertMem(m0, n0, p, e, a + b + more) == InsertMem(m2, n2, p[2..], e, more)
    {
      assert a + b + more == a + (b + more);
      assert InsertMem(m0, n0, p, e, a + (b + more)) == InsertMem(m1, n1, p[1..], e, b + more);
    }
  }

  // The two upper links, the third, then the entry itself.
  lemma PageComposes(m: Memory, m2: Memory, m3: Memory, root: nat, l2: nat, l3: nat, p: Path, e: Pte, a: seq<nat>,
          c: seq<nat>)
    requires |p| == 4
    requires forall more: seq<nat> :: InsertMem(m, root, p, e, a + more) == InsertMem(m2, l2, p[2..], e, more)
    requires forall more: seq<nat> :: InsertMem(m2, l2, p[2..], e, c + more) == InsertMem(m3, l3, p[2..][1..], e, more)
    ensures InsertMem(m, root, p, e, a + c) == InsertMem(m3, l3, [p[3]], e, [])
  {
    hide InsertMem;
    assert InsertMem(m, root, p, e, a + c) == InsertMem(m2, l2, p[2..], e, c);
    assert c == c + [];
    assert p[2..][1..] == [p[3]];
    assert InsertMem(m2, l2, p[2..], e, c + []) == InsertMem(m3, l3, p[2..][1..], e, []);
  }

  class PageTables {
    // The pages the buddy allocator manages; every other frame is reserved.
    const managed: set<nat>
    var tables: Memory
    var free: set<nat>
    var refs: nat -> nat
    // The calls of the page allocator so far, in order.
    ghost var log: seq<Touch>

    constructor (managed: set<nat>, free: set<nat>, refs: nat -> nat)
      ensures this.managed == managed && this.free == free && this.refs == refs && tables == map[] && log == []
    {
      this.managed := managed;
      this.free := free;
      this.refs := refs;
      tables := map[];
      log := [];
    }

    ghost function K(): (k: Kern)
      reads this
    {
      Kern(tables, free, refs)
    }

    // buddy_alloc_pt (paging.c:194-204): some free page, cleared.
    method AllocTable() returns (n: nat)
      requires free != {}
      modifies this
      ensures n in old(free) && K() == WithTable(old(K()), n) && log == old(log) + [Taken(n)]
    {
      n :| n in free;
      free := free - {n};
      refs := Put(refs, n, 1);
      log := log + [Taken(n)];
      tables := tables[n := Cleared()];
    }

    // buddy_alloc of one page, for data.
    method AllocPage() returns (n: nat)
      requires free != {}
      modifies `free, `refs, `log
      ensures n in old(free) && free == old(free) - {n} && refs == Put(old(refs), n, 1)
      ensures log == old(log) + [Taken(n)]
    {
      n :| n in free;
      free := free - {n};
      refs := Put(refs, n, 1);
      log := log + [Taken(n)];
    }

    // ---- mmap.c:158-373 ----

    // One of the `if(!table[idx].td.valid)` steps.
    method NextTable(page: nat, idx: nat, ghost d: nat, ghost p: Path, ghost e: Pte) returns (next: nat,
            ghost took: seq<nat>)
      requires Walking(tables, free, page, d, p) && |p| > 1 && idx == p[0] && free != {}
      modifies this
      ensures Walking(tables, free, next, d - 1, p[1..])
      ensures Took(old(free), old(refs), free, refs, took) && |took| <= 1 && log == old(log) + TakeAll(took)
      ensures Missing(old(TreeOf(tables, page, d)), p) == |took| + Missing(TreeOf(tables, next, d - 1), p[1..])
      ensures forall more: seq<nat> ::
        InsertMem(old(tables), page, p, e, took + more) == InsertMem(tables, next, p[1..], e, more)
    {
      StepExisting(tables, free, page, d, p);
      if tables[page][idx].Zero? {
        ghost var m := tables;
        var n := AllocTable();
        tables := tables[page := tables[page][idx := TablePte(n)]];
        next, took := n, [n];
        assert TakeAll([n]) == [Taken(n)];
        assert n != page by {
          UsesRoot(TreeOf(m, page, d));
        }
        assert tables == LinkTable(m, page, idx, n);
        StepLinked(m, old(free), page, d, p, n);
        assert forall more: seq<nat> :: (took + more)[1..] == more;
      } else {
        next, took := tables[page][idx].address, [];
        assert TakeAll([]) == [];
        assert forall more: seq<nat> :: took + more == more;
      }
    }

    // The two upper levels of a walk.
    method Descend(root: nat, p: Path, ghost e: Pte) returns (l2: nat, ghost took: seq<nat>)
      requires Walking(tables, free, root, LEVELS, p) && |p| > 2 && |free| >= 2
      modifies this
      ensures Walking(tables, free, l2, 2, p[2..]) && Took(old(free), old(refs), free, refs, took) && |took| <= 2
      ensures log == old(log) + TakeAll(took)
      ensures Missing(old(TreeOf(tables, root, LEVELS)), p) == |took| + Missing(TreeOf(tables, l2, 2), p[2..])
      ensures forall more: seq<nat> ::
        InsertMem(old(tables), root, p, e, took + more) == InsertMem(tables, l2, p[2..], e, more)
    {
      hide Walking, InsertMem, Missing, Took, TreeOf, TakeAll;
      ghost var m, f0, r0 := tables, free, refs;
      var l1, a := NextTable(root, p[0], 4, p, e);
      TookCount(f0, r0, free, refs, a);
      ghost var f1, r1, m1 := free, refs, tables;
      assert p[1..][1..] == p[2..];
      ghost var b;
      l2, b := NextTable(l1, p[1], 3, p[1..], e);
      took := a + b;
      TakeAllParts(a, b);
      TookMore(f0, r0, f1, r1, free, refs, a, b);
      StepsCompose(m, m1, tables, root, l1, l2, p, e, a, b);
    }

    // The third level, on the way to a page.
    method DescendOnce(root: nat, p: Path, ghost e: Pte) returns (l3: nat, ghost took: seq<nat>)
      requires Walking(tables, free, root, LEVELS, p) && |p| == 4 && |free| >= 3
      modifies this
      ensures Walking(tables, free, l3, 1, [p[3]]) && Took(old(free), old(refs), free, refs, took)
      ensures log == old(log) + TakeAll(took)
      ensures Missing(old(TreeOf(tables, root, LEVELS)), p) == |took| + Missing(TreeOf(tables, l3, 1), [p[3]])
      ensures InsertMem(old(tables), root, p, e, took) == InsertMem(tables, l3, [p[3]], e, [])
    {
      hide Walking, InsertMem, Missing, Took, TreeOf, TakeAll;
      ghost var m, f0, r0 := tables, free, refs;
      var l2, a := Descend(root, p, e);
      TookCount(f0, r0, free, refs, a);
      ghost var f2, r2, m2 := free, refs, tables;
      ghost var c;
      l3, c := NextTable(l2, p[2], 2, p[2..], e);
      assert p[2..][1..] == [p[3]];
      took := a + c;
      TakeAllParts(a, c);
      TookMore(f0, r0, f2, r2, free, refs, a, c);
      PageComposes(m, m2, tables, root, l2, l3, p, e, a, c);
    }

    // Three tables, then the page.
    method EnterPage(root: nat, v: nat, e: Pte) returns (ghost picks: seq<nat>)
      requires Walking(tables, free, root, LEVELS, PathOf(v)) && e.Pte? && |free| >= 3
      modifies this
      ensures Took(old(free), old(refs), free, refs, picks)
      ensures |picks| == Missing(old(TreeOf(tables, root, LEVELS)), PathOf(v))
      ensures TreeOf(tables, root, LEVELS) == Insert(old(TreeOf(tables, root, LEVELS)), PathOf(v), LeafOf(e), picks)
      ensures log == old(log) + TakeAll(picks)
      ensures RowsKept(old(tables), tables, old(TreeOf(tables, root, LEVELS)), TreeOf(tables, root, LEVELS), old(free))
    {
      hide Walking, InsertMem, Insert, Took, TreeOf, TakeAll;
      ghost var m, f0, r0 := tables, free, refs;
      var p := PathOf(v);
      hide PathOf;
      var l3;
      l3, picks := DescendOnce(root, p, e);
      StoreLast(l3, p[3], e);
      InsertTook(m, root, LEVELS, p, e, f0, r0, free, refs, picks);
    }

    // Two tables, then the block.
    method EnterBlock(root: nat, v: nat, e: Pte) returns (ghost picks: seq<nat>)
      requires Walking(tables, free, root, LEVELS, BlockPath(v)) && e.Pte? && !e.table && |free| >= 3
      modifies this
      ensures Took(old(free), old(refs), free, refs, picks)
      ensures |picks| == Missing(old(TreeOf(tables, root, LEVELS)), BlockPath(v))
      ensures TreeOf(tables, root, LEVELS) == Insert(old(TreeOf(tables, root, LEVELS)), BlockPath(v), LeafOf(e), picks)
      ensures log == old(log) + TakeAll(picks)
      ensures RowsKept(old(tables), tables, old(TreeOf(tables, root, LEVELS)), TreeOf(tables, root, LEVELS), old(free))
    {
      hide Walking, InsertMem, Insert, Took, TreeOf, TakeAll;
      ghost var m, f0, r0 := tables, free, refs;
      var p := BlockPath(v);
      hide PathOf, BlockPath;
      var l2, a := Descend(root, p, e);
      ghost var m2 := tables;
      assert p[2..] == [p[2]];
      StoreLast(l2, p[2], e);
      picks := a;
      assert InsertMem(m, root, p, e, a + []) == InsertMem(m2, l2, p[2..], e, []);
      assert a + [] == a;
      InsertTook(m, root, LEVELS, p, e, f0, r0, free, refs, picks);
    }

    method StoreLast(page: nat, i: nat, e: Pte)
      requires exists d: nat :: Walking(tables, free, page, d, [i])
      modifies `tables
      ensures tables == InsertMem(old(tables), page, [i], e, [])
    {
      ghost var d: nat :| Walking(tables, free, page, d, [i]);
      assert [i][0] == i && |Row(tables, page)| == ENTRIES;
      if tables[page][i].Zero? {
        tables := tables[page := tables[page][i := e]];
      }
    }

    // One turn of map_pages's loop, with k pages to go.
    method MapPage(root: nat, v: nat, pfn: nat, k: nat, access: Access) returns (ghost c: seq<nat>)
      requires Ready(tables, free, root, v, k) && k > 0 && |free| >= 3
      modifies this
      ensures PagesTurned(old(K()), K(), root, v, pfn, k, access, c) && log == old(log) + TakeAll(c)
    {
      ghost var m, f0, r0 := tables, free, refs;
      ReadyWalks(m, f0, root, v, k);
      hide Ready, Walking, Missing, Insert, PathOf, TreeOf, NoBlockAbove, TakeAll;
      c := EnterPage(root, v, Pte(true, pfn, false, access));
      PagesStep(m, tables, root, v, pfn, k, access, c, f0, r0, free, refs);
      TookCount(f0, r0, free, refs, c);
    }

    method MapBlock(root: nat, v: nat, pfn: nat, k: nat, access: Access) returns (ghost c: seq<nat>)
      requires BlocksReady(tables, free, root, v, k) && k > 0 && |free| >= 3
      modifies this
      ensures BlocksTurned(old(K()), K(), root, v, pfn, k, access, c) && log == old(log) + TakeAll(c)
    {
      ghost var m, f0, r0 := tables, free, refs;
      BlocksReadyWalks(m, f0, root, v, k);
      hide BlocksReady, Walking, Missing, Insert, PathOf, BlockPath, TreeOf, NoBlockAbove, TakeAll;
      c := EnterBlock(root, v, Pte(false, pfn, false, access));
      BlocksStep(m, tables, root, v, pfn, k, access, c, f0, r0, free, refs);
      TookCount(f0, r0, free, refs, c);
    }

    // map_pages (mmap.c:158-223), and map_l3_range (highhalf.c:40-96).
    method MapPages(root: nat, v: nat, pfn: nat, n: nat, access: Access) returns (ghost picks: seq<nat>)
      requires Ready(tables, free, root, v, n) && |free| >= 3 * n
      modifies this
      ensures PagesDone(old(K()), K(), root, v, pfn, n, access, picks) && log == old(log) + TakeAll(picks)
    {
      hide Ready, PagesSoFar, PagesTurned, PagesDone, TakeAll;
      ghost var k0 := K();
      picks := [];
      PagesSoFarStart(k0, root, v, pfn, n, access);
      TakeAllParts([], []);
      var i := 0;
      while i < n
        invariant 0 <= i <= n && PagesSoFar(k0, K(), root, v, pfn, n, i, access, picks)
        invariant log == old(log) + TakeAll(picks)
      {
        ghost var k1 := K();
        PagesSoFarReady(k0, k1, root, v, pfn, n, i, access, picks);
        ghost var c := MapPage(root, v + i, pfn + i, n - i, access);
        PagesSoFarStep(k0, k1, K(), root, v, pfn, n, i, access, picks, c);
        TakeAllParts(picks, c);
        picks := picks + c;
        i := i + 1;
      }
      PagesSoFarEnd(k0, K(), root, v, pfn, n, access, picks);
    }

    // map_blocks (mmap.c:236-281), and map_l2_range (highhalf.c:98-151).
    method MapBlocks(root: nat, v: nat, pfn: nat, n: nat, access: Access) returns (ghost picks: seq<nat>)
      requires BlocksReady(tables, free, root, v, n) && |free| >= 3 * n
      modifies this
      ensures BlocksAllDone(old(K()), K(), root, v, pfn, n, access, picks) && log == old(log) + TakeAll(picks)
    {
      hide BlocksReady, BlocksSoFar, BlocksTurned, BlocksAllDone, TakeAll;
      ghost var k0 := K();
      picks := [];
      BlocksSoFarStart(k0, root, v, pfn, n, access);
      TakeAllParts([], []);
      var i := 0;
      while i < n
        invariant 0 <= i <= n && BlocksSoFar(k0, K(), root, v, pfn, n, i, access, picks)
        invariant log == old(log) + TakeAll(picks)
      {
        ghost var k1 := K();
        BlocksSoFarReady(k0, k1, root, v, pfn, n, i, access, picks);
        ghost var c := MapBlock(root, v + i * ENTRIES, pfn + i * ENTRIES, n - i, access);
        BlocksSoFarStep(k0, k1, K(), root, v, pfn, n, i, access, picks, c);
        TakeAllParts(picks, c);
        picks := picks + c;
        i := i + 1;
      }
      BlocksSoFarEnd(k0, K(), root, v, pfn, n, access, picks);
    }

    // map (mmap.c:294-314).
    method Map(root: nat, v: nat, pfn: nat, order: nat, access: Access) returns (ghost picks: seq<nat>)
      requires RegionReady(tables, free, root, v, order) && |free| >= 3 * Turns(v, order)
      modifies this
      ensures RegionMapped(old(TreeOf(tables, root, LEVELS)), TreeOf(tables, root, LEVELS), v, pfn, order, access,
        picks)
      ensures Took(old(free), old(refs), free, refs, picks) && log == old(log) + TakeAll(picks)
      ensures RowsKept(old(tables), tables, old(TreeOf(tables, root, LEVELS)), TreeOf(tables, root, LEVELS), old(free))
    {
      hide Took, RowsKept, BlocksMappedBy, PagesMapped, RegionMapped, BlockMappable, TreeOf, Proper, NoBlockAbove;
      hide TakeAll;
      ghost var k0 := K();
      ghost var t := TreeOf(tables, root, LEVELS);
      if order >= 9 && v % ENTRIES == 0 {
        picks := MapBlocks(root, v, pfn, Pow2(order - 9), access);
        RegionByBlocks(t, TreeOf(tables, root, LEVELS), v, pfn, order, access, picks);
      } else {
        picks := MapPages(root, v, pfn, Pow2(order), access);
        RegionByPages(t, TreeOf(tables, root, LEVELS), v, pfn, order, access, picks);
      }
    }

    // map_lo's guarded calls of map_l3_range and map_l2_range.
    method MapL3(root: nat, v: nat, pfn: nat, n: nat, access: Access) returns (ghost picks: seq<nat>)
      requires Ready(tables, free, root, v, n) && |free| >= 3 * n
      modifies this
      ensures Ready(tables, free, root, v + n, 0) && |free| >= old(|free|) - 3 * n
      ensures Took(old(free), old(refs), free, refs, picks)
      ensures PagesMapped(old(TreeOf(tables, root, LEVELS)), TreeOf(tables, root, LEVELS), v, pfn, n, access, picks)
    {
      hide Took, RowsKept, PagesMapped, TreeOf, Ready;
      if n > 0 {
        picks := MapPages(root, v, pfn, n, access);
      } else {
        picks := [];
        TookNone(free, refs);
        NothingMapped(TreeOf(tables, root, LEVELS), v, pfn, access);
      }
    }

    method MapL2(root: nat, v: nat, pfn: nat, n: nat, access: Access) returns (ghost picks: seq<nat>)
      requires (n > 0 ==> BlocksReady(tables, free, root, v, n)) && |free| >= 3 * n
      modifies this
      ensures |free| >= old(|free|) - 3 * n && Took(old(free), old(refs), free, refs, picks)
      ensures if n > 0 then BlocksReady(tables, free, root, v + n * ENTRIES, 0)
        else tables == old(tables) && free == old(free)
      ensures BlocksMappedBy(old(TreeOf(tables, root, LEVELS)), TreeOf(tables, root, LEVELS), v, pfn, n, access, picks)
    {
      hide Took, RowsKept, BlocksMappedBy, TreeOf, BlocksReady;
      if n > 0 {
        picks := MapBlocks(root, v, pfn, n, access);
      } else {
        picks := [];
        TookNone(free, refs);
        NothingMapped(TreeOf(tables, root, LEVELS), v, pfn, access);
      }
    }

    // map_lo (highhalf.c:153-175): pages up to a 2 MiB boundary, blocks, then the rest.
    method MapLo(root: nat, v: nat, pfn: nat, n: nat, access: Access) returns (ghost picks: seq<nat>)
      requires FreshRange(TreeOf(tables, root, LEVELS), v, n) && Ready(tables, free, root, v, n) && |free| >= 3 * n
      modifies this
      ensures RangeMapped(old(TreeOf(tables, root, LEVELS)), TreeOf(tables, root, LEVELS), v, pfn, n, access, picks)
      ensures Took(old(free), old(refs), free, refs, picks)
    {
      hide Took, BlocksMappedBy, PagesMapped, RangeMapped, TreeOf, FreshRange, Ready, BlocksReady, FrontPages, Blocks,
        TailStart;
      ghost var k0 := K();
      var up := (v + ENTRIES - 1) / ENTRIES * ENTRIES - v;
      var front := if up < n then up else n;
      RangeParts(v, n);
      ReadyFewer(tables, free, root, v, n, front);
      ghost var a := MapL3(root, v, pfn, front, access);
      ghost var k1 := K();
      FrontReady(k0.m, k1.m, free, root, v, pfn, n, access, a);
      var blocks, pages := (n - front) / ENTRIES, (n - front) % ENTRIES;
      ghost var b := MapL2(root, v + front, pfn + front, blocks, access);
      ghost var k2 := K();
      TailReady(k0, k1, k2, root, v, pfn, n, access, a, b);
      var done := front + blocks * ENTRIES;
      ghost var c := MapL3(root, v + done, pfn + done, pages, access);
      picks := a + b + c;
      RangeTook(k0, k1, k2, K(), root, v, pfn, n, access, a, b, c);
    }

    // The walk of update_mapping and check_cow, by the valid bits of the upper levels.
    method Walk(root: nat, v: nat) returns (l3: Option<nat>)
      requires exists f: set<nat> :: Walking(tables, f, root, LEVELS, PathOf(v))
      ensures l3 == WalkTo(tables, root, PathOf(v))
    {
      ghost var none: set<nat> :| Walking(tables, none, root, LEVELS, PathOf(v));
      var p := PathOf(v);
      hide Walking, PathOf, TreeOf;
      StepExisting(tables, none, root, 4, p);
      if tables[root][p[0]].Zero? {
        return None;
      }
      var l1 := tables[root][p[0]].address;
      assert WalkTo(tables, root, p) == WalkTo(tables, l1, p[1..]);
      StepExisting(tables, none, l1, 3, p[1..]);
      if tables[l1][p[1]].Zero? {
        return None;
      }
      var l2 := tables[l1][p[1]].address;
      assert p[1..][1..] == p[2..];
      assert WalkTo(tables, l1, p[1..]) == WalkTo(tables, l2, p[2..]);
      StepExisting(tables, none, l2, 2, p[2..]);
      if tables[l2][p[2]].Zero? {
        return None;
      }
      l3 := Some(tables[l2][p[2]].address);
      assert p[2..][1..] == [p[3]];
      LastRow(tables, none, l3.value, [p[3]]);
      assert WalkTo(tables, l2, p[2..]) == l3;
    }

    // translate_va (mmu.c:20-56), in pages: blocks are recognised at levels 1 and 2.
    method TranslateVa(root: nat, v: nat) returns (f: Option<nat>)
      requires Sized(TreeOf(tables, root, LEVELS)) && forall i ::
        0 <= i < ENTRIES ==> !TreeOf(tables, root, LEVELS).entries[i].Page?
      ensures f == Translate(TreeOf(tables, root, LEVELS), PathOf(v))
    {
      var p := PathOf(v);
      hide PathOf;
      EntryAt(tables, root, 4, p[0]);
      var d0 := tables[root][p[0]];
      if d0.Zero? {
        return None;
      }
      EntryAt(tables, d0.address, 3, p[1]);
      assert p[1..][1..] == p[2..];
      assert Translate(TreeOf(tables, root, 4), p) == Translate(TreeOf(tables, d0.address, 3), p[1..]);
      var d1 := tables[d0.address][p[1]];
      if d1.Zero? {
        return None;
      }
      if !d1.table {
        return Some(d1.address * 0x4_0000 + p[2] * ENTRIES + p[3]);
      }
      EntryAt(tables, d1.address, 2, p[2]);
      assert p[2..][1..] == p[3..];
      assert Translate(TreeOf(tables, d0.address, 3), p[1..]) == Translate(TreeOf(tables, d1.address, 2), p[2..]);
      var d2 := tables[d1.address][p[2]];
      if d2.Zero? {
        return None;
      }
      if !d2.table {
        return Some(d2.address + p[3]);
      }
      EntryAt(tables, d2.address, 1, p[3]);
      assert p[3..][1..] == [];
      assert Translate(TreeOf(tables, d1.address, 2), p[2..]) == Translate(TreeOf(tables, d2.address, 1), p[3..]);
      var d3 := tables[d2.address][p[3]];
      if d3.Zero? {
        return None;
      }
      return Some(d3.address % 0x100_0000);
    }

    // update_mapping (mmap.c:323-373), from byte address lo to byte address hi. Refused: the
    // code returns FALSE. When it does not, it runs off its end without a return value.
    method UpdateMapping(root: nat, lo: nat, hi: nat, access: Access) returns (refused: bool)
      requires lo <= hi && (lo % 4096 == 0 && hi % 4096 == 0 ==> Ready(tables, free, root, lo / 4096, (hi - lo) / 4096))
      modifies `tables
      ensures var t0, v, n := old(TreeOf(tables, root, LEVELS)), lo / 4096, (hi - lo) / 4096;
        if lo % 4096 != 0 || hi % 4096 != 0 then refused && tables == old(tables)
        else
          && TreeOf(tables, root, LEVELS) == Update(t0, v, n, access).0
          && (refused <==> !AllMapped(t0, v, n))
    {
      hide Ready, TreeOf, Update, AllMapped;
      if lo % 4096 != 0 || hi % 4096 != 0 {
        return true;
      }
      ghost var t0 := TreeOf(tables, root, LEVELS);
      var pages := (hi - lo) / 4096;
      ReadySized(tables, free, root, lo / 4096, pages);
      UpdateStopsIff(t0, lo / 4096, pages, access);
      var done := UpdatePages(root, lo / 4096, pages, access);
      return done < pages;
    }

    // Lines 329-372: the permissions of n mapped pages, up to the first unmapped one.
    method UpdatePages(root: nat, v: nat, n: nat, access: Access) returns (done: nat)
      requires Ready(tables, free, root, v, n)
      modifies `tables
      ensures (TreeOf(tables, root, LEVELS), done) == Update(old(TreeOf(tables, root, LEVELS)), v, n, access)
    {
      hide Ready, Walking, TreeOf, Update, UpdateLeft, PathOf, Lookup, SetLeaf, WalkTo;
      ghost var t0 := TreeOf(tables, root, LEVELS);
      UpdateStart(t0, v, n, access);
      var i := 0;
      while i < n
        invariant 0 <= i <= n && Ready(tables, free, root, v, n)
        invariant UpdateLeft(t0, TreeOf(tables, root, LEVELS), v, n, i, access)
      {
        ghost var t := TreeOf(tables, root, LEVELS);
        ReadyWalksAt(tables, free, root, v, n, v + i);
        WalkedLeaf(tables, free, root, PathOf(v + i));
        UpdateTurn(t0, t, v, n, i, access);
        var l3 := Walk(root, v + i);
        if l3.None? {
          return i;
        }
        var entry := tables[l3.value][(v + i) % ENTRIES];
        LastIndex(v + i);
        if entry.Zero? {
          return i;
        }
        StoredLeaf(tables, free, root, v, n, v + i, Pte(true, entry.address, false, access));
        tables := tables[l3.value := tables[l3.value][(v + i) % ENTRIES := Pte(true, entry.address, false, access)]];
        i := i + 1;
      }
      UpdateEnd(t0, TreeOf(tables, root, LEVELS), v, n, access);
      return n;
    }

    // ---- paging.c:342-396: cloning ----

    // clone_page_table, on a table at this level (0 is the top).
    method CloneTable(page: nat, level: nat) returns (child: nat)
      requires level <= 3 && Clonable(K(), TreeOf(tables, page, LEVELS - level), LEVELS - level)
      requires Occupied(TreeOf(tables, page, LEVELS - level))
      modifies this
      ensures Cloned(old(K()), K(), old(TreeOf(tables, page, LEVELS - level)), LEVELS - level, child)
      ensures log == old(log) + CloneTouches(TreeOf(tables, child, LEVELS - level))
      decreases LEVELS - level, 1
    {
      hide Clonable, Cloning, Cloned, TreeOf, Occupied, Logged, Turned;
      ghost var s0, d, t := K(), LEVELS - level, TreeOf(tables, page, LEVELS - level);
      var made := false;
      child := 0;
      CloneStarts(s0, t, d);
      ghost var ts := [];
      LogStarts(0, TreeOf(tables, 0, d).entries);
      var i := 0;
      while i < ENTRIES
        invariant 0 <= i <= ENTRIES && Cloning(s0, K(), t, d, child, made, i) && (made || child == 0)
        invariant log == old(log) + ts && Logged(ts, child, made, TreeOf(tables, child, d).entries, i, false)
      {
        ghost var es, c, b := TreeOf(tables, child, d).entries, child, made;
        ghost var turn;
        made, child, turn := CloneEntry(page, level, i, made, child, s0, t);
        LogTurn(ts, turn, c, b, es, child, made, TreeOf(tables, child, d).entries, i, false);
        ts := ts + turn;
        i := i + 1;
      }
      CloneEnds(s0, K(), t, d, child, made);
      LogEnds(s0, K(), t, d, child, made, ts);
    }

    // clone_virtual_memory: the same loop over the top-level table, whose copy comes first.
    method CloneVirtualMemory(root: nat) returns (child: nat)
      requires Clonable(K(), TreeOf(tables, root, LEVELS), LEVELS)
      modifies this
      ensures Cloned(old(K()), K(), old(TreeOf(tables, root, LEVELS)), LEVELS, child)
      ensures log == old(log) + RootTouches(TreeOf(tables, child, LEVELS))
    {
      hide Cloning, Cloned, TreeOf, Formed, Uses, Maps, Logged, Turned;
      ghost var s0, t := K(), TreeOf(tables, root, LEVELS);
      child := AllocTable();
      RootStarts(s0, t, LEVELS, child);
      hide Clonable;
      ghost var ts := [];
      RootLogStarts(child, TreeOf(tables, child, LEVELS).entries);
      var i := 0;
      while i < ENTRIES
        invariant 0 <= i <= ENTRIES && Cloning(s0, K(), t, LEVELS, child, true, i)
        invariant log == old(log) + [Taken(child)] + ts
        invariant Logged(ts, child, true, TreeOf(tables, child, LEVELS).entries, i, true)
      {
        ghost var es := TreeOf(tables, child, LEVELS).entries;
        var made, same;
        ghost var turn;
        made, same, turn := CloneEntry(root, 0, i, true, child, s0, t);
        LogTurn(ts, turn, child, true, es, child, true, TreeOf(tables, child, LEVELS).entries, i, true);
        ts := ts + turn;
        i := i + 1;
      }
      CloneEnds(s0, K(), t, LEVELS, child, true);
      RootLogEnds(s0, K(), t, child, ts);
    }

    // One turn of the loop; made says whether the child's table has been taken.
    method CloneEntry(page: nat, level: nat, i: nat, made0: bool, child0: nat, ghost s0: Kern, ghost t: Tree)
      returns (made: bool, child: nat, ghost turn: seq<Touch>)
      requires level <= 3 && t.page == page && i < ENTRIES && (made0 || child0 == 0)
      requires Clonable(s0, t, LEVELS - level) && Cloning(s0, K(), t, LEVELS - level, child0, made0, i)
      modifies this
      ensures Cloning(s0, K(), t, LEVELS - level, child, made, i + 1) && (made || child == 0)
      ensures (made0 ==> made && child == child0)
      ensures log == old(log) + turn
      ensures Turned(turn, made0, old(TreeOf(tables, child0, LEVELS - level)).entries, made, child,
        TreeOf(tables, child, LEVELS - level).entries, i)
      decreases LEVELS - level, 0
    {
      hide Clonable, Cloned, Midway, TreeOf, EntryOf, Occupied, Marked, ChildPart, PagesPart, RefsPart, RowsPart,
        EntryTables, Formed, Turned, CloneTouches;
      ghost var s, d := K(), LEVELS - level;
      ghost var es := TreeOf(tables, child0, d).entries;
      made, child := made0, child0;
      CloningEntry(s0, s, t, d, child, made, i);
      if made0 {
        BlankSoFar(s0, s, t, d, child, i);
      }
      hide Cloning;
      var e := tables[page][i];
      if e.Zero? {
        SkipEntry(s0, s, t, d, child, made, i);
        turn := [];
        TurnSkips(made0, child, es, i);
      } else if level < 3 && e.table {
        SubClonable(s0, s, t, d, child, made, i);
        var sub := CloneTable(e.address, level + 1);
        ghost var x := tables;
        CloneBelow(s0, s, K(), t, d, child, made, i, sub);
        child := EnterClone(i, made, child, e.(address := sub), s0, t, d);
        made := true;
        turn := CloneTouches(TreeOf(x, sub, d - 1)) + TakeUnless(made0, child);
        TurnEnters(turn, made0, es, child, Table(TreeOf(x, sub, d - 1)), TreeOf(tables, child, d).entries, i);
      } else {
        MarkPage(s0, s, t, d, child, made, i);
        ghost var leaf;
        child, leaf := ClonePage(page, i, made, child, s0, t, d);
        made := true;
        turn := TakeUnless(made0, child) + [Shared(leaf.frame)];
        TurnEnters(turn, made0, es, child, Page(leaf), TreeOf(tables, child, d).entries, i);
      }
    }

    // The child's side: its table, if not taken yet, and the descriptor.
    method EnterClone(i: nat, made: bool, child0: nat, c: Pte, ghost s0: Kern, ghost t: Tree,
            ghost d: nat) returns (child: nat)
      requires Clonable(s0, t, d) && i < |t.entries| && (made || child0 == 0)
      requires Midway(s0, K(), t, d, child0, made, i, c)
      modifies this
      ensures Cloning(s0, K(), t, d, child, true, i + 1) && (made ==> child == child0)
      ensures log == old(log) + TakeUnless(made, child)
      ensures Entered(if made then old(TreeOf(tables, child0, d)).entries else Blank(ENTRIES), i,
        old(EntryOf(tables, c, d)), TreeOf(tables, child, d).entries)
    {
      hide Clonable, Cloning, Midway, TreeOf, EntryOf;
      child := child0;
      ghost var x := K();
      if !made {
        RoomForTable(s0, x, t, d, i, c);
        child := AllocTable();
        TakeTable(s0, x, t, d, i, c, child);
      }
      StoreInChild(s0, K(), t, d, child, i, c);
      tables := tables[child := tables[child][i := c]];
    }

    // A page: the parent's entry, the child's, then the reference count.
    method ClonePage(page: nat, i: nat, made: bool, child0: nat, ghost s0: Kern, ghost t: Tree, ghost d: nat)
      returns (child: nat, ghost leaf: Leaf)
      requires Clonable(s0, t, d) && i < |t.entries| && (made || child0 == 0) && d == 1
      requires i < |Row(tables, page)| && Row(tables, page)[i].Pte? && Maps(t, Row(tables, page)[i].address) > 0
      requires Midway(s0, WithMark(K(), page, i), t, d, child0, made, i, Deferred(Row(tables, page)[i]))
      requires made ==> TreeOf(WithMark(K(), page, i).m, child0, d) == TreeOf(tables, child0, d)
      modifies this
      ensures Cloning(s0, K(), t, d, child, true, i + 1) && (made ==> child == child0)
      ensures log == old(log) + TakeUnless(made, child) + [Shared(leaf.frame)]
      ensures Entered(if made then old(TreeOf(tables, child0, d)).entries else Blank(ENTRIES), i, Page(leaf),
        TreeOf(tables, child, d).entries)
    {
      hide Clonable, Cloning, Midway, Maps, TreeOf;
      ghost var x := WithMark(K(), page, i);
      var c := Deferred(tables[page][i]);
      leaf := Leaf(c.address, c.cow, c.access);
      tables := tables[page := tables[page][i := c]];
      child := child0;
      ghost var y := x;
      if !made {
        RoomForTable(s0, x, t, d, i, c);
        child := AllocTable();
        TakeTable(s0, x, t, d, i, c, child);
        TakenApart(s0, x, t, d, i, c, child, c.address);
        y := WithTable(x, child);
      }
      StoreInChild(s0, y, t, d, child, i, c);
      tables := tables[child := tables[child][i := c]];
      refs := Put(refs, c.address, refs(c.address) + 1);
      log := log + [Shared(c.address)];
      SameRefs(s0, WithEntry(y, child, i, c), K(), t, d, child, true, i + 1);
    }

    // ---- paging.c:211-235, 396-411: dropping references ----

    // The counts and free pages are w's.
    ghost predicate Holds(w: World)
      reads this
    {
      w.managed == managed && w.free == free && w.refs == refs
    }

    // decrement_ref on a single page; a page that is not managed is reserved.
    method DecrementRef(f: nat, ghost w: World)
      requires Holds(w)
      modifies `free, `refs, `log
      ensures Holds(Drop(w, f)) && log == old(log) + [Dropped(f)]
    {
      log := log + [Dropped(f)];
      if f !in managed {
        return;
      }
      refs := Put(refs, f, Minus1(refs(f)));
      if refs(f) == 0 {
        free := free + {f};
      }
    }

    // reap_virtual_memory, on a table at this level: one reference per leaf, then the table.
    method ReapTable(page: nat, level: nat, ghost w: World)
      requires Holds(w) && level <= 3 && Formed(TreeOf(tables, page, LEVELS - level), LEVELS - level)
      modifies `free, `refs, `log
      ensures Holds(ReapTree(w, TreeOf(tables, page, LEVELS - level)))
      ensures log == old(log) + ReapTouches(TreeOf(tables, page, LEVELS - level))
      decreases LEVELS - level
    {
      hide ReapTree, ReapOne, Drop, TreeOf, EntryOf, Formed, ReapTouches, ReapOneTouches, ReapEntryTouches,
        ReapEntries;
      ghost var d, t := LEVELS - level, TreeOf(tables, page, LEVELS - level);
      ghost var es, cur := t.entries, w;
      EntryOfRow(tables, page, d, 0);
      assert es[0..] == es;
      var i := 0;
      while i < ENTRIES
        invariant 0 <= i <= ENTRIES && Holds(cur) && ReapEntries(cur, es[i..]) == ReapEntries(w, es)
        invariant log + ReapEntryTouches(es[i..]) == old(log) + ReapEntryTouches(es)
      {
        EntryOfRow(tables, page, d, i);
        ReapStep(cur, es, i);
        var e := tables[page][i];
        ReapOneIs(cur, es[i]);
        if e.Pte? {
          if level < 3 && e.table {
            ReapTreeLaw(cur, es[i].sub, 0);
            ReapTable(e.address, level + 1, cur);
          } else {
            DecrementRef(e.address, cur);
          }
        }
        cur := ReapOne(cur, es[i]);
        i := i + 1;
      }
      assert es[ENTRIES..] == [];
      ReapTreeIs(w, t);
      ReapTouchesAre(t, cur, log);
      DecrementRef(page, cur);
    }
  }

  lemma EntryOfRow(m: Memory, page: nat, d: nat, i: nat)
    requires Formed(TreeOf(m, page, d), d) && i < ENTRIES
    ensures |Row(m, page)| == ENTRIES && |TreeOf(m, page, d).entries| == ENTRIES
    ensures match Row(m, page)[i]
      case Zero => TreeOf(m, page, d).entries[i] == Invalid
      case Pte(table, a, cow, access) =>
        if d > 1 && table
          then Formed(TreeOf(m, a, d - 1), d - 1) && TreeOf(m, page, d).entries[i] == Table(TreeOf(m, a, d - 1))
        else TreeOf(m, page, d).entries[i] == Page(Leaf(a, cow, access))
  {
    assert TreeOf(m, page, d).entries[i] == EntryOf(m, Row(m, page)[i], d);
  }

  lemma ReapOneIs(w: World, e: Entry)
    ensures ReapOne(w, e) == match e case Invalid => w case Page(l) => Drop(w, l.frame) case Table(s) => ReapTree(w, s)
  {
  }

  lemma ReapTreeIs(w: World, t: Tree)
    ensures ReapTree(w, t) == Drop(ReapEntries(w, t.entries), t.page)
  {
  }
}
