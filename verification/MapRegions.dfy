// The callers of the mapping loops: map, map_lo and update_mapping.
module MapRegions {
  import opened Bits
  import opened PageTree
  import opened Mapping

  // ---- mmap.c:294-314 map ----

  // An order-9 or larger block at a 2 MiB boundary is mapped by blocks, anything else by pages.
  function Map(t: Tree, v: nat, pfn: nat, order: nat, access: Access, picks: seq<nat>): (r: (Tree, seq<nat>)) {
    if order >= 9 && v % ENTRIES == 0 then MapBlocks(t, v, pfn, Pow2(order - 9), access, picks)
    else MapPages(t, v, pfn, Pow2(order), access, picks)
  }

  // How many turns the loop chosen makes.
  function Turns(v: nat, order: nat): (n: nat) {
    if order >= 9 && v % ENTRIES == 0 then Pow2(order - 9) else Pow2(order)
  }

  // No block lies above where map writes. By blocks, one that is already in place is skipped.
  ghost predicate MapReady(t: Tree, v: nat, order: nat) {
    if order >= 9 && v % ENTRIES == 0 then BlockMappable(t, v, Turns(v, order)) else Mappable(t, v, Turns(v, order))
  }

  // Where map writes: the level-2 entry of the address, or its level-3 entry.
  function Slot(t: Tree, v: nat, order: nat, x: nat): (e: Entry) {
    if order >= 9 && v % ENTRIES == 0 then At(t, BlockPath(x)) else At(t, PathOf(x))
  }

  lemma NineBits(order: nat)
    requires order >= 9
    ensures Pow2(order) == Pow2(order - 9) * ENTRIES
  {
    Pow2Add(9, order - 9);
    assert Pow2(4) == 16;
    Pow2Add(4, 4);
    assert Pow2(9) == 512;
    assert 512 * Pow2(order - 9) == Pow2(order - 9) * 512;
  }

  lemma UpperClear(t: Tree, x: nat)
    requires NoBlockAbove(t, PathOf(x))
    ensures NoBlockAbove(t, BlockPath(x))
  {
    ShorterClear(t, PathOf(x), 3);
    assert PathOf(x)[..3] == BlockPath(x);
  }

  lemma {:induction false} ShorterClear(t: Tree, p: Path, k: nat)
    requires NoBlockAbove(t, p) && k <= |p|
    ensures NoBlockAbove(t, p[..k])
    decreases |p|
  {
    if k > 1 && p[0] < |t.entries| && t.entries[p[0]].Table? {
      ShorterClear(t.entries[p[0]].sub, p[1..], k - 1);
      assert p[..k][1..] == p[1..][..k - 1];
    }
  }

  lemma MappableBlocks(t: Tree, v: nat, n: nat)
    requires Mappable(t, v, n * ENTRIES) && v % ENTRIES == 0
    ensures BlockMappable(t, v, n)
  {
    forall k: nat | k < n
      ensures NoBlockAbove(t, BlockPath(v + k * ENTRIES))
    {
      assert NoBlockAbove(t, PathOf(v + k * ENTRIES));
      UpperClear(t, v + k * ENTRIES);
    }
  }

  // Round trip with frame: every address in the range whose slot was free translates to
  // phys + offset, and every other address translates as before.
  lemma MapTranslates(t: Tree, v: nat, pfn: nat, order: nat, access: Access, picks: seq<nat>, x: nat)
    requires MapReady(t, v, order) && |picks| >= 3 * Turns(v, order) && x < SPAN && pfn + Pow2(order) <= 0x100_0000
    ensures var r := Map(t, v, pfn, order, access, picks).0;
      && Sized(r)
      && Translate(r, PathOf(x)) ==
        if v <= x < v + Pow2(order) && Slot(t, v, order, x).Invalid? then Some(pfn + (x - v))
          else Translate(t, PathOf(x))
  {
    hide PathOf, BlockPath, Translate, At, NoBlockAbove, MapBlocks, MapPages;
    if order >= 9 && v % ENTRIES == 0 {
      NineBits(order);
      MapBlocksLaw(t, v, pfn, Pow2(order - 9), access, picks, x);
    } else {
      MapPagesLaw(t, v, pfn, Pow2(order), access, picks, x);
    }
  }

  // And it gets the permissions asked for, while every other address keeps its own.
  lemma MapRights(t: Tree, v: nat, pfn: nat, order: nat, access: Access, picks: seq<nat>, x: nat)
    requires MapReady(t, v, order) && |picks| >= 3 * Turns(v, order) && x < SPAN
    ensures Right(Map(t, v, pfn, order, access, picks).0, PathOf(x)) ==
      if v <= x < v + Pow2(order) && Slot(t, v, order, x).Invalid? then Some((access, false)) else Right(t, PathOf(x))
  {
    hide PathOf, BlockPath, Right, At, NoBlockAbove, MapBlocks, MapPages;
    if order >= 9 && v % ENTRIES == 0 {
      NineBits(order);
      MapBlocksRights(t, v, pfn, Pow2(order - 9), access, picks, x);
    } else {
      MapPagesRights(t, v, pfn, Pow2(order), access, picks, x);
    }
  }

  // By blocks it is a block that is entered, by pages a page.
  lemma MapShape(t: Tree, v: nat, pfn: nat, order: nat, access: Access, picks: seq<nat>, x: nat)
    requires MapReady(t, v, order) && |picks| >= 3 * Turns(v, order) && x < SPAN && v <= x < v + Pow2(order)
    requires Slot(t, v, order, x).Invalid?
    ensures var r := Map(t, v, pfn, order, access, picks).0;
      if order >= 9 && v % ENTRIES == 0 then Enters(At(r, BlockPath(x)), pfn + x / ENTRIES * ENTRIES - v, access)
      else Enters(At(r, PathOf(x)), pfn + x - v, access)
  {
    hide PathOf, BlockPath, At, NoBlockAbove, MapBlocks, MapPages;
    if order >= 9 && v % ENTRIES == 0 {
      NineBits(order);
      MapBlocksAt(t, v, pfn, Pow2(order - 9), access, picks, x);
    } else {
      MapPagesAt(t, v, pfn, Pow2(order), access, picks, x);
    }
  }

  // An unmapped address of the range becomes mapped exactly when its slot was free. By pages
  // it always was; by blocks, an address under a level-2 table stays unmapped.
  lemma UnmappedGetsMappedIff(t: Tree, v: nat, pfn: nat, order: nat, access: Access, picks: seq<nat>, x: nat)
    requires MapReady(t, v, order) && |picks| >= 3 * Turns(v, order) && v <= x < v + Pow2(order)
    requires pfn + Pow2(order) <= 0x100_0000
    requires Translate(t, PathOf(x)) == None && Leveled(t, 4)
    ensures Translate(Map(t, v, pfn, order, access, picks).0, PathOf(x)) == Some(pfn + (x - v))
      <==> Slot(t, v, order, x).Invalid?
    ensures !(order >= 9 && v % ENTRIES == 0) ==> Slot(t, v, order, x).Invalid?
  {
    if order >= 9 {
      NineBits(order);
    }
    MapTranslates(t, v, pfn, order, access, picks, x);
    UnmappedSlot(t, PathOf(x));
  }

  // A page mapped on its own leaves a table where a block would go.
  lemma {:induction false} InsertLeavesTable(t: Tree, p: Path, l: Leaf, picks: seq<nat>)
    requires Sized(t) && IsPath(p, |p|) && |p| > 1 && NoBlockAbove(t, p) && Missing(t, p) <= |picks|
    ensures At(Insert(t, p, l, picks), p[..|p| - 1]).Table?
    decreases |p|
  {
    if |p| > 2 {
      assert p[..|p| - 1][1..] == p[1..][..|p| - 2];
      match t.entries[p[0]]
      case Invalid =>
        BlankReads(picks[0], p[1..]);
        BlankNeeds(picks[0], p[1..]);
        InsertLeavesTable(Tree(picks[0], Blank(ENTRIES)), p[1..], l, picks[1..]);
      case Table(s) => InsertLeavesTable(s, p[1..], l, picks);
    }
  }

  // From an empty table, map page 1 and then the 2 MiB block at 0: the block is not entered,
  // and every other address of the range stays unmapped.
  lemma HolesUnderTable(page: nat, access: Access, x: nat, picks: seq<nat>, more: seq<nat>)
    requires |picks| >= 3 && |more| >= 3 * Pow2(9) && x < ENTRIES
    ensures var t := Map(Tree(page, Blank(ENTRIES)), 1, 7, 0, access, picks).0;
      Translate(Map(t, 0, ENTRIES, 9, access, more).0, PathOf(x)) == if x == 1 then Some(7) else None
  {
    hide PathOf, BlockPath, Translate, At, NoBlockAbove, Insert, Missing, Map, MapPages;
    var b := Tree(page, Blank(ENTRIES));
    assert Pow2(0) == 1;
    NineBits(9);
    BlankMappable(page);
    MapTranslates(b, 1, 7, 0, access, picks, x);
    BlankReads(page, PathOf(x));
    var t := Map(b, 1, 7, 0, access, picks).0;
    OnePageTable(page, access, picks, x);
    MappableBlocks(t, 0, 1);
    MapTranslates(t, 0, ENTRIES, 9, access, more, x);
    assert Slot(t, 0, 9, x) == At(t, BlockPath(x));
    assert Slot(b, 1, 0, x) == At(b, PathOf(x));
  }

  lemma BlankMappable(page: nat)
    ensures Mappable(Tree(page, Blank(ENTRIES)), 1, 1) && Mappable(Tree(page, Blank(ENTRIES)), 0, ENTRIES)
  {
    hide PathOf, NoBlockAbove;
    forall x: nat
      ensures NoBlockAbove(Tree(page, Blank(ENTRIES)), PathOf(x))
    {
      BlankReads(page, PathOf(x));
    }
    BlankReads(page, []);
  }

  lemma OnePageTable(page: nat, access: Access, picks: seq<nat>, x: nat)
    requires |picks| >= 3 && x < ENTRIES
    ensures var t := Map(Tree(page, Blank(ENTRIES)), 1, 7, 0, access, picks).0;
      Mappable(t, 0, ENTRIES) && At(t, BlockPath(x)).Table?
  {
    hide PathOf, BlockPath, Translate, At, NoBlockAbove, Insert, Missing;
    var b := Tree(page, Blank(ENTRIES));
    assert Pow2(0) == 1;
    BlankMappable(page);
    var t := Map(b, 1, 7, 0, access, picks).0;
    OneTurn(b, access, picks);
    MissingBound(b, PathOf(1));
    BlankReads(page, PathOf(1));
    InsertLeavesTable(b, PathOf(1), PageLeaf(7, access), picks);
    SameBlockPath(x);
    forall y: nat | 0 <= y < 0 + ENTRIES
      ensures NoBlockAbove(t, PathOf(y))
    {
      MapPagesLaw(b, 1, 7, 1, access, picks, y);
      BlankReads(page, PathOf(y));
    }
    MapPagesLaw(b, 1, 7, 1, access, picks, 0);
  }

  lemma OneTurn(b: Tree, access: Access, picks: seq<nat>)
    ensures Map(b, 1, 7, 0, access, picks).0 == MapPages(b, 1, 7, 1, access, picks).0
      == Insert(b, PathOf(1), PageLeaf(7, access), picks)
  {
    hide PathOf, Insert, Missing;
    assert Pow2(0) == 1;
  }

  lemma SameBlockPath(x: nat)
    requires x < ENTRIES
    ensures BlockPath(x) == PathOf(1)[..3]
  {
    assert PathOf(x) == [0, 0, 0, x] && PathOf(1) == [0, 0, 0, 1];
  }

  lemma {:induction false} UnmappedSlot(t: Tree, p: Path)
    requires Translate(t, p) == None && Sized(t) && IsPath(p, |p|) && p != [] && Leveled(t, |p|)
    ensures At(t, p).Invalid?
    decreases |p|
  {
    if t.entries[p[0]].Table? {
      UnmappedSlot(t.entries[p[0]].sub, p[1..]);
    }
  }

  // ---- highhalf.c:153-175 map_lo ----

  // Pages up to the next 2 MiB boundary, capped by the request.
  function FrontPages(v: nat, n: nat): (k: nat)
    ensures k <= n
  {
    var up := (v + ENTRIES - 1) / ENTRIES * ENTRIES - v;
    if up < n then up else n
  }

  function Blocks(v: nat, n: nat): (k: nat) {
    (n - FrontPages(v, n)) / ENTRIES
  }

  // The first page after the front pages and the blocks.
  function TailStart(v: nat, n: nat): (w: nat)
    ensures v <= w <= v + n
  {
    v + FrontPages(v, n) + Blocks(v, n) * ENTRIES
  }

  function FrontMapped(t: Tree, v: nat, pfn: nat, n: nat, access: Access, picks: seq<nat>): (r: (Tree, seq<nat>)) {
    MapPages(t, v, pfn, FrontPages(v, n), access, picks)
  }

  function BlocksMapped(t: Tree, v: nat, pfn: nat, n: nat, access: Access, picks: seq<nat>): (r: (Tree, seq<nat>)) {
    var f, a := FrontPages(v, n), FrontMapped(t, v, pfn, n, access, picks);
    MapBlocks(a.0, v + f, pfn + f, Blocks(v, n), access, a.1)
  }

  function MapLo(t: Tree, v: nat, pfn: nat, n: nat, access: Access, picks: seq<nat>): (r: Tree)
  {
    var b, w := BlocksMapped(t, v, pfn, n, access, picks), TailStart(v, n);
    MapPages(b.0, w, pfn + (w - v), n - (w - v), access, b.1).0
  }

  // Nothing is mapped in the range, and no table hangs where a whole block will go.
  ghost predicate FreshRange(t: Tree, v: nat, n: nat) {
    && Mappable(t, v, n)
    && (forall x: nat :: v <= x < v + n ==> At(t, PathOf(x)).Invalid?)
    && (forall x: nat :: InBlocks(v, n, x) ==> At(t, BlockPath(x)).Invalid?)
  }

  // x lies in one of the whole 2 MiB blocks of the range.
  predicate InBlocks(v: nat, n: nat, x: nat) {
    v + FrontPages(v, n) <= x < TailStart(v, n)
  }

  lemma Split(v: nat, n: nat)
    ensures var f := FrontPages(v, n);
      && (f < n ==> (v + f) % ENTRIES == 0)
      && (forall x: nat :: v + f <= x && f < n ==> !(f > 0 && v / ENTRIES <= x / ENTRIES <= (v + f - 1) / ENTRIES))
  {
    var f := FrontPages(v, n);
    if f < n {
      var u := (v + ENTRIES - 1) / ENTRIES;
      assert v + f == u * ENTRIES;
      assert f > 0 ==> (v + f - 1) / ENTRIES == u - 1;
    }
  }

  // map_pages below the 36-bit physical limit.
  lemma MapPagesExact(t: Tree, v: nat, pfn: nat, n: nat, access: Access, picks: seq<nat>, x: nat)
    requires Mappable(t, v, n) && |picks| >= 3 * n && x < SPAN && pfn + n <= 0x100_0000
    ensures var r := MapPages(t, v, pfn, n, access, picks).0;
      && Translate(r, PathOf(x))
        == (if v <= x < v + n && At(t, PathOf(x)).Invalid? then Some(pfn + (x - v)) else Translate(t, PathOf(x)))
      && (!(v <= x < v + n) ==> At(r, PathOf(x)) == At(t, PathOf(x)))
      && (!(v / ENTRIES <= x / ENTRIES <= (v + n - 1) / ENTRIES) ==> At(r, BlockPath(x)) == At(t, BlockPath(x)))
  {
    hide PathOf, BlockPath, Translate, At, NoBlockAbove, MapPages, Mappable;
    MapPagesLaw(t, v, pfn, n, access, picks, x);
  }

  // map_lo covers exactly the requested pages, each at its own offset.
  lemma MapLoLaw(t: Tree, v: nat, pfn: nat, n: nat, access: Access, picks: seq<nat>, x: nat)
    requires FreshRange(t, v, n) && |picks| >= 3 * n && x < SPAN && pfn + n <= 0x100_0000
    ensures Translate(MapLo(t, v, pfn, n, access, picks), PathOf(x)) ==
      if v <= x < v + n then Some(pfn + (x - v)) else Translate(t, PathOf(x))
  {
    hide PathOf, BlockPath, Translate, At, MapPages, FreshRange, Mappable, BlocksMapped, TailStart, InBlocks;
    BlocksDone(t, v, pfn, n, access, picks);
    MapLoMiddle(t, v, pfn, n, access, picks, x);
    var b, w := BlocksMapped(t, v, pfn, n, access, picks), TailStart(v, n);
    MapPagesExact(b.0, w, pfn + (w - v), n - (w - v), access, b.1, x);
  }

  // All of them with the permissions asked for.
  lemma MapLoRights(t: Tree, v: nat, pfn: nat, n: nat, access: Access, picks: seq<nat>, x: nat)
    requires FreshRange(t, v, n) && |picks| >= 3 * n && x < SPAN && pfn + n <= 0x100_0000
    ensures Right(MapLo(t, v, pfn, n, access, picks), PathOf(x)) ==
      if v <= x < v + n then Some((access, false)) else Right(t, PathOf(x))
  {
    hide PathOf, BlockPath, Right, Translate, At, MapPages, FreshRange, Mappable, BlocksMapped, TailStart, InBlocks;
    BlocksDone(t, v, pfn, n, access, picks);
    MapLoMiddle(t, v, pfn, n, access, picks, x);
    BlocksRights(t, v, pfn, n, access, picks, x);
    var b, w := BlocksMapped(t, v, pfn, n, access, picks), TailStart(v, n);
    MapPagesRights(b.0, w, pfn + (w - v), n - (w - v), access, b.1, x);
  }

  lemma BlocksRights(t: Tree, v: nat, pfn: nat, n: nat, access: Access, picks: seq<nat>, x: nat)
    requires FreshRange(t, v, n) && |picks| >= 3 * n && x < SPAN && pfn + n <= 0x100_0000
    ensures Right(BlocksMapped(t, v, pfn, n, access, picks).0, PathOf(x)) ==
      if v <= x < TailStart(v, n) then Some((access, false)) else Right(t, PathOf(x))
  {
    hide PathOf, BlockPath, Right, Translate, At, NoBlockAbove, MapPages, MapBlocks, FreshRange, Mappable,
      BlockMappable, FrontPages;
    FreshAt(t, v, n, x);
    Split(v, n);
    FrontDone(t, v, pfn, n, access, picks);
    MapLoFront(t, v, pfn, n, access, picks, x);
    var f, a := FrontPages(v, n), FrontMapped(t, v, pfn, n, access, picks);
    MapPagesRights(t, v, pfn, f, access, picks, x);
    if Blocks(v, n) > 0 {
      MapBlocksRights(a.0, v + f, pfn + f, Blocks(v, n), access, a.1, x);
    } else {
      NoBlocksEffect(t, v, pfn, n, access, picks);
    }
  }

  // And the shape: the whole 2 MiB blocks of the range are entered as blocks, the pages before
  // and behind them one by one.
  lemma MapLoShape(t: Tree, v: nat, pfn: nat, n: nat, access: Access, picks: seq<nat>, x: nat)
    requires FreshRange(t, v, n) && |picks| >= 3 * n && v <= x < v + n <= SPAN && pfn + n <= 0x100_0000
    ensures var r, b := MapLo(t, v, pfn, n, access, picks), x / ENTRIES * ENTRIES;
      if v <= b && b + ENTRIES <= v + n then Enters(At(r, BlockPath(x)), pfn + b - v, access)
      else Enters(At(r, PathOf(x)), pfn + x - v, access)
  {
    hide PathOf, BlockPath, Translate, At, MapPages, FreshRange, Mappable, BlocksMapped, TailStart, InBlocks,
      FrontPages;
    BlocksDone(t, v, pfn, n, access, picks);
    MapLoMiddle(t, v, pfn, n, access, picks, x);
    if x < TailStart(v, n) {
      BlocksShape(t, v, pfn, n, access, picks, x);
    }
    InBlocksWhole(v, n, x);
    InBlocksIff(v, n, x);
    var b, w := BlocksMapped(t, v, pfn, n, access, picks), TailStart(v, n);
    MapPagesAt(b.0, w, pfn + (w - v), n - (w - v), access, b.1, x);
    MapPagesLaw(b.0, w, pfn + (w - v), n - (w - v), access, b.1, x);
    if InBlocks(v, n, x) {
      TailAligned(v, n, x);
    }
  }

  lemma InBlocksWhole(v: nat, n: nat, x: nat)
    requires v <= x < v + n
    ensures InBlocks(v, n, x) <==> v <= x / ENTRIES * ENTRIES && x / ENTRIES * ENTRIES + ENTRIES <= v + n
  {
    Split(v, n);
    var up := (v + ENTRIES - 1) / ENTRIES;
    assert v <= up * ENTRIES < v + ENTRIES;
    if FrontPages(v, n) < n {
      assert v + FrontPages(v, n) == up * ENTRIES;
      assert TailStart(v, n) == (up + Blocks(v, n)) * ENTRIES;
    }
  }

  lemma TailAligned(v: nat, n: nat, x: nat)
    requires InBlocks(v, n, x)
    ensures x / ENTRIES < TailStart(v, n) / ENTRIES
  {
    Split(v, n);
    var f, k := FrontPages(v, n), Blocks(v, n);
    hide FrontPages, Blocks;
    assert k > 0 && (v + f) % ENTRIES == 0;
  }

  lemma BlocksShape(t: Tree, v: nat, pfn: nat, n: nat, access: Access, picks: seq<nat>, x: nat)
    requires FreshRange(t, v, n) && |picks| >= 3 * n && v <= x < TailStart(v, n) && x < SPAN && pfn + n <= 0x100_0000
    ensures var r := BlocksMapped(t, v, pfn, n, access, picks).0;
      if InBlocks(v, n, x) then Enters(At(r, BlockPath(x)), pfn + x / ENTRIES * ENTRIES - v, access)
      else Enters(At(r, PathOf(x)), pfn + x - v, access)
  {
    hide PathOf, BlockPath, Translate, At, NoBlockAbove, MapBlocks, FreshRange, Mappable, BlockMappable, FrontPages,
      FrontMapped, Blocks, BlocksMapped, InBlocks, TailStart;
    FrontDone(t, v, pfn, n, access, picks);
    MapLoFront(t, v, pfn, n, access, picks, x);
    FrontShape(t, v, pfn, n, access, picks, x);
    InBlocksIff(v, n, x);
    if Blocks(v, n) > 0 {
      BlocksEffect(t, v, pfn, n, access, picks, x);
      if InBlocks(v, n, x) {
        BlocksEntered(t, v, pfn, n, access, picks, x);
      }
    } else {
      NoBlocksEffect(t, v, pfn, n, access, picks);
    }
  }

  lemma BlocksEntered(t: Tree, v: nat, pfn: nat, n: nat, access: Access, picks: seq<nat>, x: nat)
    requires Blocks(v, n) > 0 && x < SPAN && InBlocks(v, n, x)
    requires var a := FrontMapped(t, v, pfn, n, access, picks);
      && BlockMappable(a.0, v + FrontPages(v, n), Blocks(v, n)) && |a.1| >= 3 * Blocks(v, n)
      && At(a.0, BlockPath(x)).Invalid?
    ensures Enters(At(BlocksMapped(t, v, pfn, n, access, picks).0, BlockPath(x)), pfn + x / ENTRIES * ENTRIES - v,
      access)
  {
    hide PathOf, BlockPath, At, NoBlockAbove, MapBlocks, FrontPages, FrontMapped, Blocks;
    var f, a := FrontPages(v, n), FrontMapped(t, v, pfn, n, access, picks);
    MapBlocksAt(a.0, v + f, pfn + f, Blocks(v, n), access, a.1, x);
    assert (v + f) % ENTRIES == 0 && v + f <= x / ENTRIES * ENTRIES;
  }

  lemma FrontShape(t: Tree, v: nat, pfn: nat, n: nat, access: Access, picks: seq<nat>, x: nat)
    requires FreshRange(t, v, n) && |picks| >= 3 * n && v <= x < v + n && x < SPAN
    ensures x < v + FrontPages(v, n) ==>
      Enters(At(FrontMapped(t, v, pfn, n, access, picks).0, PathOf(x)), pfn + x - v, access)
  {
    hide PathOf, BlockPath, At, MapPages, FreshRange, Mappable, FrontPages;
    FreshAt(t, v, n, x);
    MapPagesAt(t, v, pfn, FrontPages(v, n), access, picks, x);
  }

  // Front pages and blocks done.
  lemma MapLoMiddle(t: Tree, v: nat, pfn: nat, n: nat, access: Access, picks: seq<nat>, x: nat)
    requires FreshRange(t, v, n) && |picks| >= 3 * n && x < SPAN && pfn + n <= 0x100_0000
    ensures var b, w := BlocksMapped(t, v, pfn, n, access, picks), TailStart(v, n);
      && Translate(b.0, PathOf(x)) == (if v <= x < w then Some(pfn + (x - v)) else Translate(t, PathOf(x)))
      && (w <= x < v + n ==> At(b.0, PathOf(x)).Invalid?)
  {
    hide PathOf, BlockPath, Translate, At, FreshRange, FrontPages, FrontMapped, BlocksMapped, TailStart, Blocks,
      InBlocks;
    MapLoFront(t, v, pfn, n, access, picks, x);
    if Blocks(v, n) > 0 {
      BlocksEffect(t, v, pfn, n, access, picks, x);
    } else {
      NoBlocksEffect(t, v, pfn, n, access, picks);
    }
    InBlocksIff(v, n, x);
  }

  lemma InBlocksIff(v: nat, n: nat, x: nat)
    ensures InBlocks(v, n, x) <==> v + FrontPages(v, n) <= x < TailStart(v, n)
    ensures v + FrontPages(v, n) <= TailStart(v, n)
  {
  }

  lemma BlocksEffect(t: Tree, v: nat, pfn: nat, n: nat, access: Access, picks: seq<nat>, x: nat)
    requires FreshRange(t, v, n) && |picks| >= 3 * n && x < SPAN && Blocks(v, n) > 0
    ensures var a, b := FrontMapped(t, v, pfn, n, access, picks), BlocksMapped(t, v, pfn, n, access, picks);
      && Translate(b.0, PathOf(x))
        == (if InBlocks(v, n, x) && At(a.0, BlockPath(x)).Invalid? then Some(pfn + (x - v))
          else Translate(a.0, PathOf(x)))
      && (!InBlocks(v, n, x) ==> At(b.0, PathOf(x)) == At(a.0, PathOf(x)))
  {
    FrontDone(t, v, pfn, n, access, picks);
    hide PathOf, BlockPath, Translate, At, NoBlockAbove, MapBlocks, FreshRange, Mappable, BlockMappable, FrontPages,
      FrontMapped, Blocks;
    var a := FrontMapped(t, v, pfn, n, access, picks);
    BlocksAt(a.0, v, pfn, n, access, a.1, x);
  }

  lemma BlocksAt(u: Tree, v: nat, pfn: nat, n: nat, access: Access, picks: seq<nat>, x: nat)
    requires BlockMappable(u, v + FrontPages(v, n), Blocks(v, n)) && |picks| >= 3 * Blocks(v, n) && x < SPAN
    ensures var f, k := FrontPages(v, n), Blocks(v, n); var r := MapBlocks(u, v + f, pfn + f, k, access, picks).0;
      && Translate(r, PathOf(x))
        == (if InBlocks(v, n, x) && At(u, BlockPath(x)).Invalid? then Some(pfn + (x - v)) else Translate(u, PathOf(x)))
      && (!InBlocks(v, n, x) ==> At(r, PathOf(x)) == At(u, PathOf(x)))
      && (!InBlocks(v, n, x) && NoBlockAbove(u, PathOf(x)) ==> NoBlockAbove(r, PathOf(x)))
      && Sized(r) && |MapBlocks(u, v + f, pfn + f, k, access, picks).1| >= |picks| - 3 * k
  {
    hide PathOf, BlockPath, Translate, At, NoBlockAbove, MapBlocks, BlockMappable, FrontPages, Blocks;
    var f, k := FrontPages(v, n), Blocks(v, n);
    MapBlocksLaw(u, v + f, pfn + f, k, access, picks, x);
  }

  lemma NoBlocksEffect(t: Tree, v: nat, pfn: nat, n: nat, access: Access, picks: seq<nat>)
    requires Blocks(v, n) == 0
    ensures BlocksMapped(t, v, pfn, n, access, picks) == FrontMapped(t, v, pfn, n, access, picks)
    ensures TailStart(v, n) == v + FrontPages(v, n)
  {
    hide FrontMapped, FrontPages;
    NoBlocks(FrontMapped(t, v, pfn, n, access, picks), v + FrontPages(v, n), pfn + FrontPages(v, n), access);
  }

  lemma NoBlocks(a: (Tree, seq<nat>), v: nat, pfn: nat, access: Access)
    ensures MapBlocks(a.0, v, pfn, 0, access, a.1) == a
  {
  }

  lemma MapLoFront(t: Tree, v: nat, pfn: nat, n: nat, access: Access, picks: seq<nat>, x: nat)
    requires FreshRange(t, v, n) && |picks| >= 3 * n && x < SPAN && pfn + n <= 0x100_0000
    ensures var a, f := FrontMapped(t, v, pfn, n, access, picks), FrontPages(v, n);
      && Translate(a.0, PathOf(x)) == (if v <= x < v + f then Some(pfn + (x - v)) else Translate(t, PathOf(x)))
      && (v + f <= x < v + n ==> At(a.0, PathOf(x)).Invalid?)
      && (InBlocks(v, n, x) ==> At(a.0, BlockPath(x)).Invalid?)
  {
    FreshAt(t, v, n, x);
    Split(v, n);
    hide PathOf, BlockPath, Translate, At, MapPages, FreshRange, Mappable, FrontPages, TailStart;
    MapPagesExact(t, v, pfn, FrontPages(v, n), access, picks, x);
  }

  lemma FreshAt(t: Tree, v: nat, n: nat, x: nat)
    requires FreshRange(t, v, n)
    ensures v <= x < v + n ==> At(t, PathOf(x)).Invalid?
    ensures InBlocks(v, n, x) ==> At(t, BlockPath(x)).Invalid?
    ensures Mappable(t, v, FrontPages(v, n)) && Mappable(t, v, n)
  {
  }

  // After the front pages the blocks are still free to go in.
  lemma FrontDone(t: Tree, v: nat, pfn: nat, n: nat, access: Access, picks: seq<nat>)
    requires FreshRange(t, v, n) && |picks| >= 3 * n
    ensures var f := FrontPages(v, n); var a := FrontMapped(t, v, pfn, n, access, picks);
      && |a.1| >= |picks| - 3 * f && |a.1| >= 3 * Blocks(v, n)
      && (Blocks(v, n) > 0 ==> BlockMappable(a.0, v + f, Blocks(v, n)))
      && Mappable(a.0, v + f, n - f)
  {
    hide PathOf, BlockPath, NoBlockAbove, MapPages, At, Translate;
    var f := FrontPages(v, n);
    Split(v, n);
    var a := FrontMapped(t, v, pfn, n, access, picks);
    MapPagesLaw(t, v, pfn, f, access, picks, 0);
    forall x: nat | v + f <= x < v + n
      ensures NoBlockAbove(a.0, PathOf(x))
    {
      MapPagesLaw(t, v, pfn, f, access, picks, x);
      assert NoBlockAbove(t, PathOf(x));
    }
    if Blocks(v, n) > 0 {
      assert Mappable(a.0, v + f, Blocks(v, n) * ENTRIES);
      MappableBlocks(a.0, v + f, Blocks(v, n));
    }
  }

  // After the blocks the remaining pages are still free of blocks.
  lemma BlocksDone(t: Tree, v: nat, pfn: nat, n: nat, access: Access, picks: seq<nat>)
    requires FreshRange(t, v, n) && |picks| >= 3 * n
    ensures var b, w := BlocksMapped(t, v, pfn, n, access, picks), TailStart(v, n);
      Mappable(b.0, w, n - (w - v)) && |b.1| >= 3 * (n - (w - v))
  {
    hide PathOf, BlockPath, NoBlockAbove, FrontMapped, FreshRange, FrontPages, BlocksMapped, TailStart, Blocks;
    if Blocks(v, n) > 0 {
      BlocksDoneSome(t, v, pfn, n, access, picks);
    } else {
      FrontDone(t, v, pfn, n, access, picks);
      NoBlocksEffect(t, v, pfn, n, access, picks);
    }
  }

  lemma BlocksDoneSome(t: Tree, v: nat, pfn: nat, n: nat, access: Access, picks: seq<nat>)
    requires FreshRange(t, v, n) && |picks| >= 3 * n && Blocks(v, n) > 0
    ensures var b, w := BlocksMapped(t, v, pfn, n, access, picks), TailStart(v, n);
      Mappable(b.0, w, n - (w - v)) && |b.1| >= 3 * (n - (w - v))
  {
    FrontDone(t, v, pfn, n, access, picks);
    var a, b, w := FrontMapped(t, v, pfn, n, access, picks), BlocksMapped(t, v, pfn, n, access, picks), TailStart(v, n);
    hide PathOf, BlockPath, Translate, At, NoBlockAbove, FrontMapped, FreshRange, FrontPages, MapBlocks, BlockMappable;
    BlocksAt(a.0, v, pfn, n, access, a.1, 0);
    forall x: nat | w <= x < v + n
      ensures NoBlockAbove(b.0, PathOf(x))
    {
      assert NoBlockAbove(a.0, PathOf(x));
      BlocksAt(a.0, v, pfn, n, access, a.1, x);
    }
  }

  // Mapping by front pages, 2 MiB blocks and tail pages reads the same as mapping every
  // page by itself.
  lemma MapLoRefinesPages(t: Tree, v: nat, pfn: nat, n: nat, access: Access, picks: seq<nat>, x: nat)
    requires FreshRange(t, v, n) && |picks| >= 3 * n && x < SPAN && pfn + n <= 0x100_0000
    ensures Translate(MapLo(t, v, pfn, n, access, picks), PathOf(x))
      == Translate(MapPages(t, v, pfn, n, access, picks).0, PathOf(x))
  {
    hide PathOf, Translate, At, MapLo, MapPages, FreshRange;
    FreshAt(t, v, n, x);
    MapLoLaw(t, v, pfn, n, access, picks, x);
    MapPagesLaw(t, v, pfn, n, access, picks, x);
  }

  // The blocks are 2 MiB aligned on both sides exactly when the two addresses are congruent.
  lemma BlocksAlignedIff(v: nat, pfn: nat, n: nat)
    requires (n - FrontPages(v, n)) / ENTRIES > 0
    ensures (v + FrontPages(v, n)) % ENTRIES == 0
    ensures (pfn + FrontPages(v, n)) % ENTRIES == 0 <==> pfn % ENTRIES == v % ENTRIES
  {
    Split(v, n);
    var f := FrontPages(v, n);
    hide FrontPages;
    SameOffset(v, pfn, f);
  }

  // Digit by digit: both addresses as 512 times a quotient plus a remainder.
  lemma SameOffset(v: nat, pfn: nat, f: nat)
    requires (v + f) % ENTRIES == 0
    ensures (pfn + f) % ENTRIES == 0 <==> pfn % ENTRIES == v % ENTRIES
  {
    var a, b := v / ENTRIES, v % ENTRIES;
    var c, d := pfn / ENTRIES, pfn % ENTRIES;
    var e := (v + f) / ENTRIES;
    assert v == ENTRIES * a + b && pfn == ENTRIES * c + d && v + f == ENTRIES * e;
    assert pfn + f == ENTRIES * (c + e - a) + (d - b);
  }

  // ---- mmap.c:323-373 update_mapping ----

  // Replaces permissions page by page and stops at the first unmapped one; the result says
  // how many pages were done.
  function Update(t: Tree, v: nat, n: nat, access: Access): (r: (Tree, nat))
    ensures r.1 <= n
    decreases n
  {
    if n == 0 then (t, 0)
    else match Lookup(t, PathOf(v))
      case None => (t, 0)
      case Some(l) =>
        var r := Update(SetLeaf(t, PathOf(v), Leaf(l.frame, false, access)), v + 1, n - 1, access);
        (r.0, r.1 + 1)
  }

  // No translation changes, even when the walk stops part-way; the pages done have the new
  // permissions, every other page keeps its own.
  lemma {:induction false} UpdateLaw(t: Tree, v: nat, n: nat, access: Access, x: nat)
    requires Sized(t) && x < SPAN && v + n <= SPAN
    ensures var r := Update(t, v, n, access);
      && Translate(r.0, PathOf(x)) == Translate(t, PathOf(x))
      && (v <= x < v + r.1 ==> Lookup(t, PathOf(x)).Some?)
      && Lookup(r.0, PathOf(x)) ==
           (if v <= x < v + r.1 then Some(Leaf(Lookup(t, PathOf(x)).value.frame, false, access))
            else Lookup(t, PathOf(x)))
      && (r.1 < n ==> Lookup(t, PathOf(v + r.1)) == None)
    decreases n
  {
    hide PathOf, Translate, Lookup, SetLeaf, Sized;
    if n > 0 && Lookup(t, PathOf(v)).Some? {
      var l := Lookup(t, PathOf(v)).value;
      var t1 := SetLeaf(t, PathOf(v), Leaf(l.frame, false, access));
      UpdateOne(t, v, access, x);
      UpdateLaw(t1, v + 1, n - 1, access, x);
      var k := Update(t, v, n, access).1;
      if k < n {
        UpdateOne(t, v, access, v + k);
        UpdateLaw(t1, v + 1, n - 1, access, v + k);
      }
    }
  }

  // Every page is done exactly when every page was mapped.
  lemma UpdateStopsIff(t: Tree, v: nat, n: nat, access: Access)
    requires Sized(t) && v + n <= SPAN
    ensures Update(t, v, n, access).1 < n <==> !AllMapped(t, v, n)
  {
    hide PathOf, Lookup, Update, Sized;
    var k := Update(t, v, n, access).1;
    if k < n {
      UpdateLaw(t, v, n, access, v + k);
    } else {
      forall x: nat | v <= x < v + n
        ensures Lookup(t, PathOf(x)).Some?
      {
        UpdateLaw(t, v, n, access, x);
      }
    }
  }

  ghost predicate AllMapped(t: Tree, v: nat, n: nat) {
    forall x: nat :: v <= x < v + n ==> Lookup(t, PathOf(x)).Some?
  }

  lemma UpdateOne(t: Tree, v: nat, access: Access, x: nat)
    requires Sized(t) && x < SPAN && v < SPAN && Lookup(t, PathOf(v)).Some?
    ensures var l := Lookup(t, PathOf(v)).value; var r := SetLeaf(t, PathOf(v), Leaf(l.frame, false, access));
      && Sized(r) && Translate(r, PathOf(x)) == Translate(t, PathOf(x))
      && Lookup(r, PathOf(x)) == if x == v then Some(Leaf(l.frame, false, access)) else Lookup(t, PathOf(x))
  {
    hide PathOf, Translate, Lookup, SetLeaf, Sized;
    var m := Leaf(Lookup(t, PathOf(v)).value.frame, false, access);
    SetLeafTranslate(t, PathOf(v), m, PathOf(x));
    SetLeafLookup(t, PathOf(v), m, PathOf(x));
    SetLeafSized(t, PathOf(v), m);
    PathInjective(v, x);
  }

  lemma {:induction false} SetLeafTranslate(t: Tree, p: Path, l: Leaf, q: Path)
    requires Lookup(t, p).Some? && l.frame == Lookup(t, p).value.frame && |q| == |p|
    ensures Translate(SetLeaf(t, p, l), q) == Translate(t, q)
    decreases |p|
  {
    if q[0] == p[0] && t.entries[p[0]].Table? {
      SetLeafTranslate(t.entries[p[0]].sub, p[1..], l, q[1..]);
    }
  }

  lemma {:induction false} SetLeafSized(t: Tree, p: Path, l: Leaf)
    requires Sized(t)
    ensures Sized(SetLeaf(t, p, l))
    decreases |p|
  {
    if p != [] && p[0] < |t.entries| && t.entries[p[0]].Table? {
      SetLeafSized(t.entries[p[0]].sub, p[1..], l);
    }
  }
}
