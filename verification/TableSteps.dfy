// Walks of map_pages, map_blocks and the fault handler through tables in memory, and the
// tree each leaves.
module TableSteps {
  import opened PageTree
  import opened Mapping
  import opened PageMemory

  // The leaf a page or block descriptor stands for.
  function LeafOf(e: Pte): (l: Leaf)
    requires e.Pte?
  {
    Leaf(e.address, e.cow, e.access)
  }

  // The table descriptor of mmap.c:61-84 around an address.
  function TablePte(page: nat): (e: Pte) {
    Pte(true, page, false, Hidden)
  }

  // One iteration of map_pages (|p| == 4) or map_blocks (|p| == 3): missing tables are
  // cleared and linked on the way down, only the valid bit of an entry is looked at, and an
  // entry in place is kept.
  function InsertMem(m: Memory, page: nat, p: Path, e: Pte, picks: seq<nat>): (n: Memory)
    decreases |p|
  {
    if p == [] || p[0] >= |Row(m, page)| then m
    else
      var x := Row(m, page)[p[0]];
      if |p| == 1 then (if x.Zero? then m[page := Row(m, page)[p[0] := e]] else m)
      else if x.Pte? then InsertMem(m, x.address, p[1..], e, picks)
      else if picks == [] then m
      else InsertMem(LinkTable(m, page, p[0], picks[0]), picks[0], p[1..], e, picks[1..])
  }

  function LinkTable(m: Memory, page: nat, i: nat, k: nat): (n: Memory)
    requires i < |Row(m, page)|
  {
    m[k := Cleared()][page := Row(m, page)[i := TablePte(k)]]
  }

  // Distinct pages that t does not use.
  ghost predicate Fresh(t: Tree, picks: seq<nat>) {
    && (forall k :: 0 <= k < |picks| ==> Uses(t, picks[k]) == 0)
    && (forall k, l :: 0 <= k < l < |picks| ==> picks[k] != picks[l])
  }

  ghost predicate Proper(t: Tree) {
    Sized(t) && forall f: nat :: Uses(t, f) <= 1
  }

  // A leaf descriptor at this depth: no type bit above the last level.
  predicate LeafAtDepth(e: Pte, d: nat, n: nat) {
    e.Pte? && n <= d && (d - n > 0 ==> !e.table)
  }

  lemma LinkedTree(m: Memory, page: nat, d: nat, i: nat, k: nat)
    requires Proper(TreeOf(m, page, d)) && i < ENTRIES && Row(m, page)[i].Zero?
    requires Uses(TreeOf(m, page, d), k) == 0 && d > 1
    ensures var n := LinkTable(m, page, i, k);
      && k != page && TreeOf(n, k, d - 1) == Tree(k, Blank(ENTRIES))
      && TreeOf(n, page, d) == Tree(page, TreeOf(m, page, d).entries[i := Table(Tree(k, Blank(ENTRIES)))])
  {
    var t, a := TreeOf(m, page, d), m[k := Cleared()];
    UsesRoot(t);
    SameTree(m, a, page, d);
    ClearedTree(a, k, d - 1);
    BlankCounts(ENTRIES, page);
    assert EntryOf(a, TablePte(k), d) == Table(Tree(k, Blank(ENTRIES)));
    assert Uses(t, page) <= 1;
    StoreEntry(a, page, d, i, TablePte(k));
    var n := LinkTable(m, page, i, k);
    assert n == a[page := Row(a, page)[i := TablePte(k)]];
    assert Row(n, k) == Cleared();
    ClearedTree(n, k, d - 1);
  }

  lemma {:induction false} InsertMemTree(m: Memory, page: nat, d: nat, p: Path, e: Pte, picks: seq<nat>)
    requires var t := TreeOf(m, page, d);
      Proper(t) && Fresh(t, picks) && IsPath(p, |p|) && p != [] && NoBlockAbove(t, p) && Missing(t, p) <= |picks|
        && LeafAtDepth(e, d, |p|)
    ensures TreeOf(InsertMem(m, page, p, e, picks), page, d) == Insert(TreeOf(m, page, d), p, LeafOf(e), picks)
    ensures forall f: nat ::
      Uses(TreeOf(m, page, d), f) == 0 && f !in picks ==> Row(InsertMem(m, page, p, e, picks), f) == Row(m, f)
    decreases |p|
  {
    var t, x := TreeOf(m, page, d), Row(m, page)[p[0]];
    assert t.entries[p[0]] == EntryOf(m, x, d);
    UsesRoot(t);
    if |p| == 1 {
      InsertLast(m, page, d, p, e, picks);
    } else if x.Pte? {
      InsertBelow(m, page, d, p, e, picks);
    } else {
      InsertLinked(m, page, d, p, e, picks);
    }
  }

  lemma InsertLast(m: Memory, page: nat, d: nat, p: Path, e: Pte, picks: seq<nat>)
    requires var t := TreeOf(m, page, d);
      Proper(t) && IsPath(p, 1) && LeafAtDepth(e, d, 1)
    ensures TreeOf(InsertMem(m, page, p, e, picks), page, d) == Insert(TreeOf(m, page, d), p, LeafOf(e), picks)
    ensures forall f: nat :: Uses(TreeOf(m, page, d), f) == 0 ==> Row(InsertMem(m, page, p, e, picks), f) == Row(m, f)
  {
    var t, x := TreeOf(m, page, d), Row(m, page)[p[0]];
    assert t.entries[p[0]] == EntryOf(m, x, d);
    UsesRoot(t);
    if x.Zero? {
      assert EntryOf(m, e, d) == Page(LeafOf(e));
      assert Uses(t, page) <= 1;
      StoreEntry(m, page, d, p[0], e);
    }
  }

  lemma {:induction false} InsertBelow(m: Memory, page: nat, d: nat, p: Path, e: Pte, picks: seq<nat>)
    requires var t := TreeOf(m, page, d);
      Proper(t) && Fresh(t, picks) && IsPath(p, |p|) && |p| > 1 && NoBlockAbove(t, p) && Missing(t, p) <= |picks|
        && LeafAtDepth(e, d, |p|)
    requires Row(m, page)[p[0]].Pte?
    ensures TreeOf(InsertMem(m, page, p, e, picks), page, d) == Insert(TreeOf(m, page, d), p, LeafOf(e), picks)
    ensures forall f: nat ::
      Uses(TreeOf(m, page, d), f) == 0 && f !in picks ==> Row(InsertMem(m, page, p, e, picks), f) == Row(m, f)
    decreases |p|, 0
  {
    var t, x := TreeOf(m, page, d), Row(m, page)[p[0]];
    assert t.entries[p[0]] == EntryOf(m, x, d);
    var s := t.entries[p[0]].sub;
    assert s == TreeOf(m, x.address, d - 1);
    SubProper(t, p[0], picks);
    InsertMemTree(m, x.address, d - 1, p[1..], e, picks);
    var n := InsertMem(m, x.address, p[1..], e, picks);
    assert n == InsertMem(m, page, p, e, picks);
    LiftInsert(m, n, page, d, p[0], picks);
  }

  lemma SubProper(t: Tree, i: nat, picks: seq<nat>)
    requires Proper(t) && Fresh(t, picks) && i < ENTRIES && t.entries[i].Table?
    ensures Proper(t.entries[i].sub) && Fresh(t.entries[i].sub, picks)
    ensures forall f: nat :: Uses(t.entries[i].sub, f) + (if f == t.page then 1 else 0) <= Uses(t, f)
  {
    forall f: nat
      ensures Uses(t.entries[i].sub, f) + (if f == t.page then 1 else 0) <= Uses(t, f)
    {
      UsesEntry(t, i, f);
    }
  }

  // Changes within entry i and the fresh pages lift to the whole tree.
  lemma LiftInsert(m: Memory, n: Memory, page: nat, d: nat, i: nat, picks: seq<nat>)
    requires var t := TreeOf(m, page, d);
      && Proper(t) && Fresh(t, picks) && i < ENTRIES && t.entries[i].Table?
      && forall f: nat :: Uses(t.entries[i].sub, f) == 0 && f !in picks ==> Row(n, f) == Row(m, f)
    ensures TreeOf(n, page, d) == Tree(page, TreeOf(m, page, d).entries[i := EntryOf(n, Row(m, page)[i], d)])
    ensures forall f: nat :: Uses(TreeOf(m, page, d), f) == 0 && f !in picks ==> Row(n, f) == Row(m, f)
  {
    var t := TreeOf(m, page, d);
    SubProper(t, i, picks);
    UsesRoot(t);
    assert page !in picks;
    assert Uses(t.entries[i].sub, page) == 0;
    BelowEntry(m, n, page, d, i);
  }

  lemma {:induction false} InsertLinked(m: Memory, page: nat, d: nat, p: Path, e: Pte, picks: seq<nat>)
    requires var t := TreeOf(m, page, d);
      Proper(t) && Fresh(t, picks) && IsPath(p, |p|) && |p| > 1 && NoBlockAbove(t, p) && Missing(t, p) <= |picks|
        && LeafAtDepth(e, d, |p|)
    requires Row(m, page)[p[0]].Zero?
    ensures TreeOf(InsertMem(m, page, p, e, picks), page, d) == Insert(TreeOf(m, page, d), p, LeafOf(e), picks)
    ensures forall f: nat ::
      Uses(TreeOf(m, page, d), f) == 0 && f !in picks ==> Row(InsertMem(m, page, p, e, picks), f) == Row(m, f)
    decreases |p|, 0
  {
    var t, k, i := TreeOf(m, page, d), picks[0], p[0];
    assert t.entries[i] == EntryOf(m, Row(m, page)[i], d);
    var l, b := LinkTable(m, page, i, k), Tree(k, Blank(ENTRIES));
    LinkedTree(m, page, d, i, k);
    LinkedProper(t, i, picks);
    BlankReads(k, p[1..]);
    BlankNeeds(k, p[1..]);
    InsertMemTree(l, k, d - 1, p[1..], e, picks[1..]);
    var n := InsertMem(l, k, p[1..], e, picks[1..]);
    assert n == InsertMem(m, page, p, e, picks);
    LiftInsert(l, n, page, d, i, picks[1..]);
    assert Row(l, page)[i] == TablePte(k);
    assert t.entries[i := Table(b)][i := EntryOf(n, TablePte(k), d)] == t.entries[i := EntryOf(n, TablePte(k), d)];
    UsesRoot(t);
  }

  lemma LinkedProper(t: Tree, i: nat, picks: seq<nat>)
    requires Proper(t) && picks != [] && Fresh(t, picks) && i < ENTRIES && t.entries[i].Invalid?
    ensures var b := Tree(picks[0], Blank(ENTRIES)); var u := Tree(t.page, t.entries[i := Table(b)]);
      && Proper(b) && Fresh(b, picks[1..]) && Proper(u) && Fresh(u, picks[1..])
      && forall f: nat :: Uses(u, f) == Uses(t, f) + if f == picks[0] then 1 else 0
  {
    var b := Tree(picks[0], Blank(ENTRIES));
    var u := Tree(t.page, t.entries[i := Table(b)]);
    forall f: nat
      ensures Uses(b, f) == if f == picks[0] then 1 else 0
      ensures Uses(u, f) == Uses(t, f) + if f == picks[0] then 1 else 0
    {
      BlankCounts(ENTRIES, f);
      EntryUsesAt(t.entries, i, Table(b), f);
    }
    BlankReads(picks[0], []);
  }

  // ---- the walk of check_cow and update_mapping, and a store where it ends ----

  // The last table on the path, if the tables above it are there.
  function WalkTo(m: Memory, page: nat, p: Path): (q: Option<nat>)
    decreases |p|
  {
    if p == [] || p[0] >= |Row(m, page)| then None
    else if |p| == 1 then Some(page)
    else if Row(m, page)[p[0]].Zero? then None
    else WalkTo(m, Row(m, page)[p[0]].address, p[1..])
  }

  function Last(p: Path): (i: nat)
    requires p != []
  {
    p[|p| - 1]
  }

  function StoreAt(m: Memory, q: nat, i: nat, e: Pte): (n: Memory)
    requires i < |Row(m, q)|
  {
    m[q := Row(m, q)[i := e]]
  }

  // Where no block is in the way, the walk finds what Lookup finds.
  lemma {:induction false} WalkFinds(m: Memory, page: nat, p: Path)
    requires Sized(TreeOf(m, page, |p|)) && IsPath(p, |p|) && p != [] && NoBlockAbove(TreeOf(m, page, |p|), p)
    ensures var q := WalkTo(m, page, p); var l := Lookup(TreeOf(m, page, |p|), p);
      && (q.Some? ==> |Row(m, q.value)| == ENTRIES && Uses(TreeOf(m, page, |p|), q.value) > 0)
      && (l.Some? <==> q.Some? && Row(m, q.value)[Last(p)].Pte?)
      && (l.Some? ==> l.value == LeafOf(Row(m, q.value)[Last(p)]))
    decreases |p|
  {
    var t, x := TreeOf(m, page, |p|), Row(m, page)[p[0]];
    assert t.entries[p[0]] == EntryOf(m, x, |p|);
    UsesRoot(t);
    if |p| > 1 && x.Pte? {
      WalkFinds(m, x.address, p[1..]);
      var q := WalkTo(m, x.address, p[1..]);
      if q.Some? {
        UsesEntry(t, p[0], q.value);
      }
    }
  }

  // Overwriting the entry found replaces that leaf of the tree.
  lemma {:induction false} StoreAtTree(m: Memory, page: nat, p: Path, e: Pte)
    requires var t := TreeOf(m, page, |p|);
      Proper(t) && IsPath(p, |p|) && p != [] && NoBlockAbove(t, p) && Lookup(t, p).Some? && e.Pte?
    ensures WalkTo(m, page, p).Some? && Last(p) < |Row(m, WalkTo(m, page, p).value)|
    ensures TreeOf(StoreAt(m, WalkTo(m, page, p).value, Last(p), e), page, |p|)
      == SetLeaf(TreeOf(m, page, |p|), p, LeafOf(e))
    decreases |p|
  {
    var t, x := TreeOf(m, page, |p|), Row(m, page)[p[0]];
    assert t.entries[p[0]] == EntryOf(m, x, |p|);
    UsesRoot(t);
    WalkFinds(m, page, p);
    if |p| == 1 {
      assert EntryOf(m, e, 1) == Page(LeafOf(e));
      assert Uses(t, page) <= 1;
      StoreEntry(m, page, 1, p[0], e);
    } else {
      var s, q := t.entries[p[0]].sub, WalkTo(m, page, p).value;
      SubProper(t, p[0], []);
      StoreAtTree(m, x.address, p[1..], e);
      WalkFinds(m, x.address, p[1..]);
      var n := StoreAt(m, q, Last(p), e);
      LiftInsert(m, n, page, |p|, p[0], []);
    }
  }
}
