// mmap.c, mmu.c and highhalf.c: building and reading page tables that may hold 2 MiB blocks.
module Mapping {
  import opened PageTree

  // The entry a path of table indices ends at; missing tables read as Invalid, and a block
  // on the way is found instead of what the path names.
  function At(t: Tree, p: Path): (e: Entry)
    decreases |p|
  {
    if p == [] || p[0] >= |t.entries| then Invalid
    else if |p| == 1 then t.entries[p[0]]
    else match t.entries[p[0]]
      case Table(s) => At(s, p[1..])
      case e => e
  }

  // mmap.c looks at the valid bit of a table entry and never at its type, so no block may
  // lie above the entry to be written.
  predicate NoBlockAbove(t: Tree, p: Path)
    decreases |p|
  {
    |p| > 1 && p[0] < |t.entries| ==>
      match t.entries[p[0]]
      case Invalid => true
      case Page(_) => false
      case Table(s) => NoBlockAbove(s, p[1..])
  }

  ghost predicate Sized(t: Tree)
    decreases t
  {
    |t.entries| == ENTRIES && forall i :: 0 <= i < ENTRIES && t.entries[i].Table? ==> Sized(t.entries[i].sub)
  }

  // Tables hang only where a level is left for them.
  ghost predicate Leveled(t: Tree, d: nat)
    decreases t
  {
    d > 0 && forall i :: 0 <= i < |t.entries| && t.entries[i].Table? ==> Leveled(t.entries[i].sub, d - 1)
  }

  // ---- mmu.c:20-56 translate_va, in pages ----

  // A level-3 page is masked to 36 bits of physical address; a 2 MiB block adds the page
  // index; a 1 GiB block shifts its address field by 30.
  function Phys(frame: nat, rest: Path): (f: nat) {
    if rest == [] then frame % 0x100_0000
    else if |rest| == 1 then frame + rest[0]
    else frame * 0x4_0000 + rest[0] * ENTRIES + rest[1]
  }

  function Translate(t: Tree, q: Path): (f: Option<nat>)
    decreases |q|
  {
    if q == [] || q[0] >= |t.entries| then None
    else match t.entries[q[0]]
      case Invalid => None
      case Page(l) => Some(Phys(l.frame, q[1..]))
      case Table(s) => Translate(s, q[1..])
  }

  // The permissions the walk ends at, and whether they are those of a copy-on-write page.
  function Right(t: Tree, q: Path): (a: Option<(Access, bool)>)
    decreases |q|
  {
    if q == [] || q[0] >= |t.entries| then None
    else match t.entries[q[0]]
      case Invalid => None
      case Page(l) => Some((l.access, l.cow))
      case Table(s) => Right(s, q[1..])
  }

  // ---- one entry of map_pages (|p| == 4) or map_blocks (|p| == 3) ----

  lemma {:induction false} BlankReads(page: nat, q: Path)
    ensures Translate(Tree(page, Blank(ENTRIES)), q) == None && Right(Tree(page, Blank(ENTRIES)), q) == None
    ensures At(Tree(page, Blank(ENTRIES)), q) == Invalid
    ensures NoBlockAbove(Tree(page, Blank(ENTRIES)), q)
    ensures Sized(Tree(page, Blank(ENTRIES)))
  {
  }

  lemma {:induction false} InsertTranslate(t: Tree, p: Path, l: Leaf, picks: seq<nat>, q: Path)
    requires Sized(t) && IsPath(p, |p|) && p != [] && |q| >= |p| && NoBlockAbove(t, p) && Missing(t, p) <= |picks|
    ensures Translate(Insert(t, p, l, picks), q) ==
      if p <= q && At(t, p).Invalid? then Some(Phys(l.frame, q[|p|..])) else Translate(t, q)
    decreases |p|
  {
    if q[0] == p[0] && |p| > 1 {
      assert p == [p[0]] + p[1..] && q == [q[0]] + q[1..];
      assert p <= q <==> p[1..] <= q[1..];
      assert q[1..][|p| - 1..] == q[|p|..];
      match t.entries[p[0]]
      case Invalid =>
        BlankReads(picks[0], p[1..]);
        BlankReads(picks[0], q[1..]);
        BlankNeeds(picks[0], p[1..]);
        InsertTranslate(Tree(picks[0], Blank(ENTRIES)), p[1..], l, picks[1..], q[1..]);
      case Table(s) => InsertTranslate(s, p[1..], l, picks, q[1..]);
    }
  }

  lemma {:induction false} InsertRight(t: Tree, p: Path, l: Leaf, picks: seq<nat>, q: Path)
    requires Sized(t) && IsPath(p, |p|) && p != [] && |q| >= |p| && NoBlockAbove(t, p) && Missing(t, p) <= |picks|
    ensures Right(Insert(t, p, l, picks), q) == if p <= q && At(t, p).Invalid? then Some((l.access, l.cow))
      else Right(t, q)
    decreases |p|
  {
    if q[0] == p[0] && |p| > 1 {
      assert p == [p[0]] + p[1..] && q == [q[0]] + q[1..];
      assert p <= q <==> p[1..] <= q[1..];
      match t.entries[p[0]]
      case Invalid =>
        BlankReads(picks[0], p[1..]);
        BlankReads(picks[0], q[1..]);
        BlankNeeds(picks[0], p[1..]);
        InsertRight(Tree(picks[0], Blank(ENTRIES)), p[1..], l, picks[1..], q[1..]);
      case Table(s) => InsertRight(s, p[1..], l, picks, q[1..]);
    }
  }

  lemma {:induction false} InsertAt(t: Tree, p: Path, l: Leaf, picks: seq<nat>)
    requires Sized(t) && IsPath(p, |p|) && p != [] && NoBlockAbove(t, p) && Missing(t, p) <= |picks|
    ensures At(Insert(t, p, l, picks), p) == if At(t, p).Invalid? then Page(l) else At(t, p)
    decreases |p|
  {
    if |p| > 1 {
      match t.entries[p[0]]
      case Invalid =>
        BlankReads(picks[0], p[1..]);
        BlankNeeds(picks[0], p[1..]);
        InsertAt(Tree(picks[0], Blank(ENTRIES)), p[1..], l, picks[1..]);
      case Table(s) => InsertAt(s, p[1..], l, picks);
    }
  }

  lemma BlankNeeds(page: nat, p: Path)
    requires IsPath(p, |p|) && p != []
    ensures Missing(Tree(page, Blank(ENTRIES)), p) == |p| - 1
  {
    BlankMissing(page, p);
  }

  // Entries neither above nor below the one written are unaffected.
  lemma {:induction false} InsertApart(t: Tree, p: Path, l: Leaf, picks: seq<nat>, q: Path)
    requires Sized(t) && IsPath(p, |p|) && p != [] && q != [] && !(p <= q) && !(q <= p) && NoBlockAbove(t, p)
    requires Missing(t, p) <= |picks|
    ensures At(Insert(t, p, l, picks), q) == At(t, q)
    ensures NoBlockAbove(t, q) ==> NoBlockAbove(Insert(t, p, l, picks), q)
    decreases |p|
  {
    assert p == [p[0]] + p[1..] && q == [q[0]] + q[1..];
    if q[0] == p[0] {
      match t.entries[p[0]]
      case Invalid =>
        BlankReads(picks[0], p[1..]);
        BlankReads(picks[0], q[1..]);
        BlankNeeds(picks[0], p[1..]);
        InsertApart(Tree(picks[0], Blank(ENTRIES)), p[1..], l, picks[1..], q[1..]);
      case Table(s) => InsertApart(s, p[1..], l, picks, q[1..]);
    }
  }

  lemma {:induction false} InsertSized(t: Tree, p: Path, l: Leaf, picks: seq<nat>)
    requires Sized(t)
    ensures Sized(Insert(t, p, l, picks))
    decreases |p|
  {
    if |p| > 1 && p[0] < |t.entries| {
      match t.entries[p[0]]
      case Invalid =>
        if picks != [] {
          BlankReads(picks[0], []);
          InsertSized(Tree(picks[0], Blank(ENTRIES)), p[1..], l, picks[1..]);
        }
      case Page(_) =>
      case Table(s) => InsertSized(s, p[1..], l, picks);
    }
  }

  // The tables stay a tree of distinct pages: exactly the picked pages are added.
  lemma {:induction false} InsertUses(t: Tree, p: Path, l: Leaf, picks: seq<nat>, f: nat)
    requires Sized(t) && IsPath(p, |p|) && p != [] && NoBlockAbove(t, p) && Missing(t, p) <= |picks|
    ensures Uses(Insert(t, p, l, picks), f) <= Uses(t, f) + multiset(picks[..Missing(t, p)])[f]
    decreases |p|
  {
    var n := Insert(t, p, l, picks).entries[p[0]];
    EntryUsesAt(t.entries, p[0], n, f);
    if |p| > 1 {
      match t.entries[p[0]]
      case Invalid =>
        NewTableCounts(p, l, picks, f);
        BlankReads(picks[0], p[1..]);
        InsertUses(Tree(picks[0], Blank(ENTRIES)), p[1..], l, picks[1..], f);
      case Table(s) => InsertUses(s, p[1..], l, picks, f);
    }
  }

  // ---- virtual page numbers ----

  const SPAN := 0x10_0000_0000

  // (va >> 39, 30, 21, 12) & 0x1FF for va = v << 12.
  function PathOf(v: nat): (p: Path)
    ensures IsPath(p, 4)
  {
    [v / ENTRIES / ENTRIES / ENTRIES % ENTRIES, v / ENTRIES / ENTRIES % ENTRIES, v / ENTRIES % ENTRIES, v % ENTRIES]
  }

  function BlockPath(v: nat): (p: Path)
    ensures IsPath(p, 3)
  {
    PathOf(v)[..3]
  }

  lemma PathInjective(v: nat, w: nat)
    requires v < SPAN && w < SPAN
    ensures PathOf(v) == PathOf(w) <==> v == w
    ensures BlockPath(v) <= PathOf(w) <==> v / ENTRIES == w / ENTRIES
  {
    PathDigits(v);
    PathDigits(w);
    var a, b := PathOf(v), PathOf(w);
    assert BlockPath(v) == [a[0], a[1], a[2]];
    assert b == [b[0], b[1], b[2]] + [b[3]];
    assert BlockPath(v) <= b <==> a[0] == b[0] && a[1] == b[1] && a[2] == b[2];
  }

  lemma PathDigits(v: nat)
    requires v < SPAN
    ensures var p := PathOf(v); v / ENTRIES == (p[0] * ENTRIES + p[1]) * ENTRIES + p[2] && v % ENTRIES == p[3]
  {
    var a := v / ENTRIES;
    var b := a / ENTRIES;
    assert b / ENTRIES < ENTRIES;
  }

  // ---- map_pages and map_l3_range ----

  function PageLeaf(pfn: nat, access: Access): (l: Leaf) {
    Leaf(pfn, false, access)
  }

  // n pages from virtual page v to frames from pfn; tables are taken from picks.
  function MapPages(t: Tree, v: nat, pfn: nat, n: nat, access: Access, picks: seq<nat>): (r: (Tree, seq<nat>))
    decreases n
  {
    if n == 0 then (t, picks)
    else
      var m := Missing(t, PathOf(v));
      MapPages(Insert(t, PathOf(v), PageLeaf(pfn, access), picks), v + 1, pfn + 1, n - 1, access, if m <= |picks|
        then picks[m..] else [])
  }

  // Enough pages for every table; no block in the way.
  ghost predicate Mappable(t: Tree, v: nat, n: nat) {
    Sized(t) && v + n <= SPAN && forall x: nat :: v <= x < v + n ==> NoBlockAbove(t, PathOf(x))
  }

  lemma {:induction false} MapPagesLaw(t: Tree, v: nat, pfn: nat, n: nat, access: Access, picks: seq<nat>, x: nat)
    requires Mappable(t, v, n) && |picks| >= 3 * n && x < SPAN
    ensures var r := MapPages(t, v, pfn, n, access, picks).0;
      && Sized(r)
      && Translate(r, PathOf(x)) ==
           (if v <= x < v + n && At(t, PathOf(x)).Invalid? then Some((pfn + x - v) % 0x100_0000)
             else Translate(t, PathOf(x)))
      && (!(v <= x < v + n) ==> At(r, PathOf(x)) == At(t, PathOf(x)))
      && (!(v / ENTRIES <= x / ENTRIES <= (v + n - 1) / ENTRIES) ==> At(r, BlockPath(x)) == At(t, BlockPath(x)))
      && (NoBlockAbove(t, PathOf(x)) ==> NoBlockAbove(r, PathOf(x)))
    ensures |MapPages(t, v, pfn, n, access, picks).1| >= |picks| - 3 * n
    decreases n
  {
    hide PathOf, Insert, Translate, At, NoBlockAbove, Missing;
    if n > 0 {
      OnePage(t, v, pfn, n, access, picks, x);
      assert v / ENTRIES <= (v + 1) / ENTRIES && v / ENTRIES <= (v + n - 1) / ENTRIES;
      var m := Missing(t, PathOf(v));
      MapPagesLaw(Insert(t, PathOf(v), PageLeaf(pfn, access), picks), v + 1, pfn + 1, n - 1, access, picks[m..], x);
    }
  }

  // Every page newly mapped gets the permissions asked for, every other page keeps its own.
  lemma {:induction false} MapPagesRights(t: Tree, v: nat, pfn: nat, n: nat, access: Access, picks: seq<nat>, x: nat)
    requires Mappable(t, v, n) && |picks| >= 3 * n && x < SPAN
    ensures Right(MapPages(t, v, pfn, n, access, picks).0, PathOf(x)) ==
      if v <= x < v + n && At(t, PathOf(x)).Invalid? then Some((access, false)) else Right(t, PathOf(x))
    decreases n
  {
    hide PathOf, Insert, Translate, Right, At, NoBlockAbove, Missing;
    if n > 0 {
      OnePage(t, v, pfn, n, access, picks, x);
      OnePageRight(t, v, pfn, n, access, picks, x);
      var m := Missing(t, PathOf(v));
      MapPagesRights(Insert(t, PathOf(v), PageLeaf(pfn, access), picks), v + 1, pfn + 1, n - 1, access, picks[m..], x);
    }
  }

  // A page or a block at this frame, with these permissions.
  predicate Enters(e: Entry, frame: int, access: Access) {
    e.Page? && e.leaf.frame == frame && e.leaf.access == access && !e.leaf.cow
  }

  // The entry written for each page.
  lemma {:induction false} MapPagesAt(t: Tree, v: nat, pfn: nat, n: nat, access: Access, picks: seq<nat>, x: nat)
    requires Mappable(t, v, n) && |picks| >= 3 * n && x < SPAN
    ensures At(MapPages(t, v, pfn, n, access, picks).0, PathOf(x)) ==
      if v <= x < v + n && At(t, PathOf(x)).Invalid? then Page(PageLeaf(pfn + (x - v), access)) else At(t, PathOf(x))
    decreases n
  {
    hide PathOf, Insert, Translate, At, NoBlockAbove, Missing;
    if n > 0 {
      assert NoBlockAbove(t, PathOf(v));
      OnePage(t, v, pfn, n, access, picks, x);
      InsertAt(t, PathOf(v), PageLeaf(pfn, access), picks);
      var m := Missing(t, PathOf(v));
      MapPagesAt(Insert(t, PathOf(v), PageLeaf(pfn, access), picks), v + 1, pfn + 1, n - 1, access, picks[m..], x);
    }
  }

  lemma OnePageRight(t: Tree, v: nat, pfn: nat, n: nat, access: Access, picks: seq<nat>, x: nat)
    requires Mappable(t, v, n) && n > 0 && |picks| >= 3 && x < SPAN
    ensures Right(Insert(t, PathOf(v), PageLeaf(pfn, access), picks), PathOf(x)) ==
      if x == v && At(t, PathOf(x)).Invalid? then Some((access, false)) else Right(t, PathOf(x))
  {
    hide PathOf, Insert, Right, At, NoBlockAbove, Missing;
    assert NoBlockAbove(t, PathOf(v));
    MissingBound(t, PathOf(v));
    InsertRight(t, PathOf(v), PageLeaf(pfn, access), picks, PathOf(x));
    PathInjective(v, x);
  }

  lemma OnePage(t: Tree, v: nat, pfn: nat, n: nat, access: Access, picks: seq<nat>, x: nat)
    requires Mappable(t, v, n) && n > 0 && |picks| >= 3 && x < SPAN
    ensures Missing(t, PathOf(v)) <= 3
    ensures var r := Insert(t, PathOf(v), PageLeaf(pfn, access), picks);
      && Mappable(r, v + 1, n - 1)
      && Translate(r, PathOf(x))
        == (if x == v && At(t, PathOf(x)).Invalid? then Some(pfn % 0x100_0000) else Translate(t, PathOf(x)))
      && (x != v ==> At(r, PathOf(x)) == At(t, PathOf(x)))
      && (x / ENTRIES != v / ENTRIES ==> At(r, BlockPath(x)) == At(t, BlockPath(x)))
      && (NoBlockAbove(t, PathOf(x)) ==> NoBlockAbove(r, PathOf(x)))
  {
    hide PathOf, Insert, Translate, At, NoBlockAbove, Missing;
    var p, l := PathOf(v), PageLeaf(pfn, access);
    assert NoBlockAbove(t, PathOf(v));
    MissingBound(t, p);
    InsertTranslate(t, p, l, picks, PathOf(x));
    StepMappable(t, v, n, l, picks);
    PathInjective(v, x);
    if x / ENTRIES != v / ENTRIES {
      PathInjective(x, v);
      InsertApart(t, p, l, picks, BlockPath(x));
    }
    if x != v {
      InsertApart(t, p, l, picks, PathOf(x));
    } else {
      InsertKeepsAbove(t, p, l, picks);
    }
  }

  lemma MissingBound(t: Tree, p: Path)
    requires p != []
    ensures Missing(t, p) <= |p| - 1
    decreases |p|
  {
    if |p| > 1 && p[0] < |t.entries| && t.entries[p[0]].Table? {
      MissingBound(t.entries[p[0]].sub, p[1..]);
    }
  }

  lemma StepMappable(t: Tree, v: nat, n: nat, l: Leaf, picks: seq<nat>)
    requires Mappable(t, v, n) && n > 0 && |picks| >= 3
    ensures Mappable(Insert(t, PathOf(v), l, picks), v + 1, n - 1)
  {
    var p := PathOf(v);
    assert NoBlockAbove(t, PathOf(v));
    MissingBound(t, p);
    InsertSized(t, p, l, picks);
    forall x: nat | v + 1 <= x < v + n
      ensures NoBlockAbove(Insert(t, p, l, picks), PathOf(x))
    {
      PathInjective(v, x);
      InsertApart(t, p, l, picks, PathOf(x));
    }
  }

  lemma {:induction false} InsertKeepsAbove(t: Tree, p: Path, l: Leaf, picks: seq<nat>)
    requires Sized(t) && IsPath(p, |p|) && p != [] && NoBlockAbove(t, p) && Missing(t, p) <= |picks|
    ensures NoBlockAbove(Insert(t, p, l, picks), p)
    decreases |p|
  {
    if |p| > 1 {
      match t.entries[p[0]]
      case Invalid =>
        BlankReads(picks[0], p[1..]);
        BlankNeeds(picks[0], p[1..]);
        InsertKeepsAbove(Tree(picks[0], Blank(ENTRIES)), p[1..], l, picks[1..]);
      case Table(s) => InsertKeepsAbove(s, p[1..], l, picks);
    }
  }

  // ---- map_blocks and map_l2_range ----

  function MapBlocks(t: Tree, v: nat, pfn: nat, n: nat, access: Access, picks: seq<nat>): (r: (Tree, seq<nat>))
    decreases n
  {
    if n == 0 then (t, picks)
    else
      var m := Missing(t, BlockPath(v));
      MapBlocks(Insert(t, BlockPath(v), PageLeaf(pfn, access), picks), v + ENTRIES, pfn + ENTRIES, n - 1, access,
        if m <= |picks| then picks[m..] else [])
  }

  ghost predicate BlockMappable(t: Tree, v: nat, n: nat) {
    && Sized(t) && v % ENTRIES == 0 && v + n * ENTRIES <= SPAN
    && forall k: nat :: k < n ==> NoBlockAbove(t, BlockPath(v + k * ENTRIES))
  }

  lemma BlockPathInjective(v: nat, w: nat)
    requires v < SPAN && w < SPAN && v / ENTRIES != w / ENTRIES
    ensures !(BlockPath(v) <= BlockPath(w)) && !(PathOf(w) <= BlockPath(v)) && !(BlockPath(v) <= PathOf(w))
  {
    PathInjective(v, w);
    assert BlockPath(w) <= PathOf(w);
  }

  lemma StepBlockMappable(t: Tree, v: nat, n: nat, l: Leaf, picks: seq<nat>)
    requires BlockMappable(t, v, n) && n > 0 && |picks| >= 3
    ensures BlockMappable(Insert(t, BlockPath(v), l, picks), v + ENTRIES, n - 1)
  {
    hide PathOf, BlockPath, Insert, NoBlockAbove, Missing;
    var p := BlockPath(v);
    assert NoBlockAbove(t, BlockPath(v + 0 * ENTRIES));
    MissingBound(t, p);
    InsertSized(t, p, l, picks);
    forall k: nat | k < n - 1
      ensures NoBlockAbove(Insert(t, p, l, picks), BlockPath(v + ENTRIES + k * ENTRIES))
    {
      OtherBlock(t, v, n, l, picks, k + 1);
    }
  }

  lemma OtherBlock(t: Tree, v: nat, n: nat, l: Leaf, picks: seq<nat>, k: nat)
    requires BlockMappable(t, v, n) && 0 < k < n && Missing(t, BlockPath(v)) <= |picks|
    ensures NoBlockAbove(Insert(t, BlockPath(v), l, picks), BlockPath(v + k * ENTRIES))
  {
    hide PathOf, BlockPath, Insert, NoBlockAbove;
    assert NoBlockAbove(t, BlockPath(v + 0 * ENTRIES)) && NoBlockAbove(t, BlockPath(v + k * ENTRIES));
    BlockPathInjective(v, v + k * ENTRIES);
    InsertApart(t, BlockPath(v), l, picks, BlockPath(v + k * ENTRIES));
  }

  // Each block maps its 512 pages in order, and only if its entry was free.
  lemma {:induction false} MapBlocksLaw(t: Tree, v: nat, pfn: nat, n: nat, access: Access, picks: seq<nat>, x: nat)
    requires BlockMappable(t, v, n) && |picks| >= 3 * n && x < SPAN
    ensures var r := MapBlocks(t, v, pfn, n, access, picks).0;
      && Sized(r)
      && Translate(r, PathOf(x)) ==
           (if v <= x < v + n * ENTRIES && At(t, BlockPath(x)).Invalid? then Some(pfn + x - v)
             else Translate(t, PathOf(x)))
      && (!(v <= x < v + n * ENTRIES) ==> At(r, PathOf(x)) == At(t, PathOf(x)))
      && (!(v <= x < v + n * ENTRIES) && NoBlockAbove(t, PathOf(x)) ==> NoBlockAbove(r, PathOf(x)))
    ensures |MapBlocks(t, v, pfn, n, access, picks).1| >= |picks| - 3 * n
    decreases n
  {
    hide PathOf, BlockPath, Insert, Translate, At, NoBlockAbove, Missing;
    if n > 0 {
      OneBlock(t, v, pfn, n, access, picks, x);
      var m := Missing(t, BlockPath(v));
      MapBlocksLaw(Insert(t, BlockPath(v), PageLeaf(pfn, access), picks), v + ENTRIES, pfn + ENTRIES, n - 1, access,
        picks[m..], x);
    }
  }

  lemma {:induction false} MapBlocksRights(t: Tree, v: nat, pfn: nat, n: nat, access: Access, picks: seq<nat>, x: nat)
    requires BlockMappable(t, v, n) && |picks| >= 3 * n && x < SPAN
    ensures Right(MapBlocks(t, v, pfn, n, access, picks).0, PathOf(x)) ==
      if v <= x < v + n * ENTRIES && At(t, BlockPath(x)).Invalid? then Some((access, false)) else Right(t, PathOf(x))
    decreases n
  {
    hide PathOf, BlockPath, Insert, Translate, Right, At, NoBlockAbove, Missing;
    if n > 0 {
      OneBlock(t, v, pfn, n, access, picks, x);
      OneBlockRight(t, v, pfn, n, access, picks, x);
      var m := Missing(t, BlockPath(v));
      MapBlocksRights(Insert(t, BlockPath(v), PageLeaf(pfn, access), picks), v + ENTRIES, pfn + ENTRIES, n - 1, access,
        picks[m..], x);
    }
  }

  // The entry written for each block.
  lemma {:induction false} MapBlocksAt(t: Tree, v: nat, pfn: nat, n: nat, access: Access, picks: seq<nat>, x: nat)
    requires BlockMappable(t, v, n) && |picks| >= 3 * n && x < SPAN
    ensures var e := At(MapBlocks(t, v, pfn, n, access, picks).0, BlockPath(x));
      if v <= x < v + n * ENTRIES && At(t, BlockPath(x)).Invalid?
      then Enters(e, pfn + x / ENTRIES * ENTRIES - v, access) else e == At(t, BlockPath(x))
    decreases n
  {
    hide PathOf, BlockPath, Insert, Translate, At, NoBlockAbove, Missing;
    if n > 0 {
      assert NoBlockAbove(t, BlockPath(v + 0 * ENTRIES));
      OneBlock(t, v, pfn, n, access, picks, x);
      InsertAt(t, BlockPath(v), PageLeaf(pfn, access), picks);
      if x / ENTRIES == v / ENTRIES {
        BlockOffset(v, x, pfn);
      }
      var m := Missing(t, BlockPath(v));
      MapBlocksAt(Insert(t, BlockPath(v), PageLeaf(pfn, access), picks), v + ENTRIES, pfn + ENTRIES, n - 1, access,
        picks[m..], x);
    }
  }

  lemma OneBlockRight(t: Tree, v: nat, pfn: nat, n: nat, access: Access, picks: seq<nat>, x: nat)
    requires BlockMappable(t, v, n) && n > 0 && |picks| >= 3 && x < SPAN
    ensures Right(Insert(t, BlockPath(v), PageLeaf(pfn, access), picks), PathOf(x)) ==
      if x / ENTRIES == v / ENTRIES && At(t, BlockPath(x)).Invalid? then Some((access, false)) else Right(t, PathOf(x))
  {
    hide PathOf, BlockPath, Insert, Right, At, NoBlockAbove, Missing, Phys;
    var p := BlockPath(v);
    assert NoBlockAbove(t, BlockPath(v + 0 * ENTRIES));
    MissingBound(t, p);
    InsertRight(t, p, PageLeaf(pfn, access), picks, PathOf(x));
    PathInjective(v, x);
    if x / ENTRIES == v / ENTRIES {
      BlockOffset(v, x, pfn);
    }
  }

  lemma OneBlock(t: Tree, v: nat, pfn: nat, n: nat, access: Access, picks: seq<nat>, x: nat)
    requires BlockMappable(t, v, n) && n > 0 && |picks| >= 3 && x < SPAN
    ensures Missing(t, BlockPath(v)) <= 3
    ensures var r := Insert(t, BlockPath(v), PageLeaf(pfn, access), picks);
      && BlockMappable(r, v + ENTRIES, n - 1)
      && Translate(r, PathOf(x))
        == (if x / ENTRIES == v / ENTRIES && At(t, BlockPath(x)).Invalid? then Some(pfn + x - v)
          else Translate(t, PathOf(x)))
      && (x / ENTRIES != v / ENTRIES
        ==> At(r, BlockPath(x)) == At(t, BlockPath(x)) && At(r, PathOf(x)) == At(t, PathOf(x)))
      && (x / ENTRIES != v / ENTRIES && NoBlockAbove(t, PathOf(x)) ==> NoBlockAbove(r, PathOf(x)))
  {
    hide PathOf, BlockPath, Insert, Translate, At, NoBlockAbove, Missing, Phys;
    var p, l := BlockPath(v), PageLeaf(pfn, access);
    assert NoBlockAbove(t, BlockPath(v + 0 * ENTRIES));
    MissingBound(t, p);
    StepBlockMappable(t, v, n, l, picks);
    InsertTranslate(t, p, l, picks, PathOf(x));
    PathInjective(v, x);
    if x / ENTRIES != v / ENTRIES {
      BlockPathInjective(v, x);
      InsertApart(t, p, l, picks, BlockPath(x));
      InsertApart(t, p, l, picks, PathOf(x));
    } else {
      BlockOffset(v, x, pfn);
    }
  }

  // A page below a 2 MiB block is the block's frame plus its number in the block, one below a
  // 1 GiB block likewise, the block's frame being counted in gigabytes.
  lemma PhysOf(x: nat, frame: nat)
    requires x < SPAN
    ensures Phys(frame, PathOf(x)[4..]) == frame % 0x100_0000
    ensures Phys(frame, PathOf(x)[3..]) == frame + x % ENTRIES
    ensures Phys(frame, PathOf(x)[2..]) == frame * 0x4_0000 + x % 0x4_0000
  {
    var q := PathOf(x);
    assert q[3..] == [q[3]] && q[2..] == [q[2], q[3]] && q[4..] == [];
    var a := x / ENTRIES;
    assert x == a * ENTRIES + q[3] && a == a / ENTRIES * ENTRIES + q[2];
    assert x == a / ENTRIES * 0x4_0000 + q[2] * ENTRIES + q[3];
  }

  lemma BlockOffset(v: nat, x: nat, pfn: nat)
    requires v < SPAN && x < SPAN && v % ENTRIES == 0 && x / ENTRIES == v / ENTRIES
    ensures BlockPath(x) == BlockPath(v) && v <= x && Phys(pfn, PathOf(x)[3..]) == pfn + (x - v)
  {
    var q := PathOf(x);
    assert q[3..] == [q[3]];
  }
}
