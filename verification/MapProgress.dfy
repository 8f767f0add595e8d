// How far a mapping loop has come: the tables in memory after some of its turns, against
// MapPages and MapBlocks on trees.
module MapProgress {
  import opened Bits
  import opened PageTree
  import opened Mapping
  import opened MapRegions
  import opened PageMemory
  import opened TableSteps
  import opened CloneSteps
  import opened Cow

  // A path is being walked below `page`; no page that may still be taken is in use there.
  ghost predicate Walking(m: Memory, free: set<nat>, page: nat, d: nat, p: Path) {
    && Proper(TreeOf(m, page, d)) && IsPath(p, |p|) && 0 < |p| <= d && NoBlockAbove(TreeOf(m, page, d), p)
    && forall f: nat :: f in free ==> Uses(TreeOf(m, page, d), f) == 0
  }

  // The same for n pages from virtual page v.
  ghost predicate Ready(m: Memory, free: set<nat>, root: nat, v: nat, n: nat) {
    && Proper(TreeOf(m, root, LEVELS)) && Mappable(TreeOf(m, root, LEVELS), v, n)
    && forall f: nat :: f in free ==> Uses(TreeOf(m, root, LEVELS), f) == 0
  }

  ghost predicate Distinct(picks: seq<nat>) {
    forall k, l :: 0 <= k < l < |picks| ==> picks[k] != picks[l]
  }

  function PageSet(picks: seq<nat>): (s: set<nat>) {
    set x | x in picks
  }

  // What taking the pages in picks does to the free pages and the counts.
  ghost predicate Took(free: set<nat>, refs: nat -> nat, free': set<nat>, refs': nat -> nat, picks: seq<nat>) {
    && Distinct(picks) && (forall k :: 0 <= k < |picks| ==> picks[k] in free)
    && free' == free - PageSet(picks)
    && forall f: nat :: refs'(f) == if f in picks then 1 else refs(f)
  }

  lemma TookMore(f0: set<nat>, r0: nat -> nat, f1: set<nat>, r1: nat -> nat, f2: set<nat>, r2: nat -> nat,
          a: seq<nat>, b: seq<nat>)
    requires Took(f0, r0, f1, r1, a) && Took(f1, r1, f2, r2, b)
    ensures Took(f0, r0, f2, r2, a + b)
  {
    forall k | 0 <= k < |b|
      ensures b[k] !in a
    {
      assert b[k] in f1;
    }
    assert forall x: nat :: x in a + b <==> x in a || x in b;
  }

  lemma TookCount(f0: set<nat>, r0: nat -> nat, f1: set<nat>, r1: nat -> nat, a: seq<nat>)
    requires Took(f0, r0, f1, r1, a)
    ensures |f1| == |f0| - |a| && f1 <= f0
  {
    SetOfDistinct(a);
    assert PageSet(a) <= f0;
  }

  lemma {:induction false} SetOfDistinct(a: seq<nat>)
    requires Distinct(a)
    ensures |PageSet(a)| == |a|
    decreases |a|
  {
    if a != [] {
      var b := a[..|a| - 1];
      SetOfDistinct(b);
      assert a == b + [a[|a| - 1]];
      assert a[|a| - 1] !in b;
      assert PageSet(a) == PageSet(b) + {a[|a| - 1]};
    }
  }

  lemma {:induction false} InsertExact(t: Tree, p: Path, l: Leaf, picks: seq<nat>, more: seq<nat>)
    requires Missing(t, p) <= |picks| && Sized(t) && IsPath(p, |p|) && p != [] && NoBlockAbove(t, p)
    ensures Insert(t, p, l, picks + more) == Insert(t, p, l, picks)
    decreases |p|
  {
    if |p| > 1 {
      match t.entries[p[0]]
      case Invalid =>
        assert (picks + more)[1..] == picks[1..] + more;
        BlankReads(picks[0], p[1..]);
        BlankNeeds(picks[0], p[1..]);
        InsertExact(Tree(picks[0], Blank(ENTRIES)), p[1..], l, picks[1..], more);
      case Table(s) => InsertExact(s, p[1..], l, picks, more);
    }
  }

  // One level down, through a table that is there or one just linked.
  lemma StepExisting(m: Memory, free: set<nat>, page: nat, d: nat, p: Path)
    requires Walking(m, free, page, d, p) && |p| > 1
    ensures |Row(m, page)| == ENTRIES
    ensures Row(m, page)[p[0]].Pte? ==>
      var x := Row(m, page)[p[0]].address;
      Walking(m, free, x, d - 1, p[1..]) && Missing(TreeOf(m, page, d), p) == Missing(TreeOf(m, x, d - 1), p[1..])
    ensures Row(m, page)[p[0]].Zero? ==> Missing(TreeOf(m, page, d), p) == |p| - 1
  {
    var t := TreeOf(m, page, d);
    assert t.entries[p[0]] == EntryOf(m, Row(m, page)[p[0]], d);
    if Row(m, page)[p[0]].Pte? {
      SubProper(t, p[0], []);
    }
  }

  lemma StepLinked(m: Memory, free: set<nat>, page: nat, d: nat, p: Path, k: nat)
    requires Walking(m, free, page, d, p) && |p| > 1 && |Row(m, page)| == ENTRIES && Row(m, page)[p[0]].Zero?
    requires k in free
    ensures var n := LinkTable(m, page, p[0], k);
      Walking(n, free - {k}, k, d - 1, p[1..]) && Missing(TreeOf(n, k, d - 1), p[1..]) == |p| - 2
  {
    LinkedTree(m, page, d, p[0], k);
    BlankReads(k, p[1..]);
    BlankNeeds(k, p[1..]);
    var b := Tree(k, Blank(ENTRIES));
    forall f: nat
      ensures Uses(b, f) == if f == k then 1 else 0
    {
      BlankCounts(ENTRIES, f);
    }
  }

  // ---- one iteration keeps what the rest of the range needs ----

  ghost predicate BlocksReady(m: Memory, free: set<nat>, root: nat, v: nat, n: nat) {
    && Proper(TreeOf(m, root, LEVELS)) && BlockMappable(TreeOf(m, root, LEVELS), v, n)
    && forall f: nat :: f in free ==> Uses(TreeOf(m, root, LEVELS), f) == 0
  }

  // What map needs, by blocks or by pages.
  ghost predicate RegionReady(m: Memory, free: set<nat>, root: nat, v: nat, order: nat) {
    if order >= 9 && v % ENTRIES == 0 then BlocksReady(m, free, root, v, Turns(v, order))
    else Ready(m, free, root, v, Turns(v, order))
  }

  // t with a leaf added from exactly the pages needed is still proper, and uses no other page.
  lemma InsertProper(t: Tree, p: Path, l: Leaf, picks: seq<nat>, f0: set<nat>, r0: nat -> nat, f1: set<nat>,
          r1: nat -> nat)
    requires Proper(t) && IsPath(p, |p|) && p != [] && NoBlockAbove(t, p) && |picks| == Missing(t, p)
    requires Took(f0, r0, f1, r1, picks) && forall f: nat :: f in f0 ==> Uses(t, f) == 0
    ensures Proper(Insert(t, p, l, picks)) && forall f: nat :: f in f1 ==> Uses(Insert(t, p, l, picks), f) == 0
  {
    InsertSized(t, p, l, picks);
    assert picks[..|picks|] == picks;
    forall f: nat
      ensures Uses(Insert(t, p, l, picks), f) <= Uses(t, f) + if f in picks then 1 else 0
    {
      InsertUses(t, p, l, picks, f);
      PicksOnce(picks, f);
    }
    hide Insert, Uses, Missing, NoBlockAbove, Sized;
  }

  // One turn of the loop with the pages in c, whatever is mapped with later ones.
  ghost predicate PagesTurn(t: Tree, u: Tree, v: nat, pfn: nat, k: nat, access: Access, c: seq<nat>) {
    k > 0 && forall more: seq<nat> ::
      MapPages(t, v, pfn, k, access, c + more) == MapPages(u, v + 1, pfn + 1, k - 1, access, more)
  }

  ghost predicate BlocksTurn(t: Tree, u: Tree, v: nat, pfn: nat, k: nat, access: Access, c: seq<nat>) {
    k > 0 && forall more: seq<nat> ::
      MapBlocks(t, v, pfn, k, access, c + more) == MapBlocks(u, v + ENTRIES, pfn + ENTRIES, k - 1, access, more)
  }

  // u is t with the whole range mapped, and picks are exactly the pages that took.
  ghost predicate PagesMapped(t: Tree, u: Tree, v: nat, pfn: nat, n: nat, access: Access, picks: seq<nat>) {
    forall more: seq<nat> :: MapPages(t, v, pfn, n, access, picks + more) == (u, more)
  }

  ghost predicate BlocksMappedBy(t: Tree, u: Tree, v: nat, pfn: nat, n: nat, access: Access, picks: seq<nat>) {
    forall more: seq<nat> :: MapBlocks(t, v, pfn, n, access, picks + more) == (u, more)
  }

  lemma PagesStep(m: Memory, n: Memory, root: nat, v: nat, pfn: nat, k: nat, access: Access, picks: seq<nat>,
          f0: set<nat>, r0: nat -> nat, f1: set<nat>, r1: nat -> nat)
    requires Ready(m, f0, root, v, k) && k > 0 && Took(f0, r0, f1, r1, picks)
    requires |picks| == Missing(TreeOf(m, root, LEVELS), PathOf(v))
    requires TreeOf(n, root, LEVELS) == Insert(TreeOf(m, root, LEVELS), PathOf(v), PageLeaf(pfn, access), picks)
    ensures Ready(n, f1, root, v + 1, k - 1)
    ensures PagesTurn(TreeOf(m, root, LEVELS), TreeOf(n, root, LEVELS), v, pfn, k, access, picks)
  {
    var t, p, l := TreeOf(m, root, LEVELS), PathOf(v), PageLeaf(pfn, access);
    assert NoBlockAbove(t, PathOf(v));
    hide PathOf, Insert, Missing, NoBlockAbove, Uses, TreeOf, Sized;
    InsertProper(t, p, l, picks, f0, r0, f1, r1);
    InsertExact(t, p, l, picks, [0, 0, 0]);
    StepMappable(t, v, k, l, picks + [0, 0, 0]);
    forall more: seq<nat>
      ensures MapPages(t, v, pfn, k, access, picks + more)
        == MapPages(TreeOf(n, root, LEVELS), v + 1, pfn + 1, k - 1, access, more)
    {
      InsertExact(t, p, l, picks, more);
      assert (picks + more)[|picks|..] == more;
    }
  }

  lemma FirstBlock(t: Tree, v: nat, n: nat)
    requires BlockMappable(t, v, n) && n > 0
    ensures NoBlockAbove(t, BlockPath(v)) && Sized(t)
  {
    hide BlockPath, PathOf, NoBlockAbove, Sized;
    assert NoBlockAbove(t, BlockPath(v + 0 * ENTRIES));
  }

  lemma BlocksStep(m: Memory, n: Memory, root: nat, v: nat, pfn: nat, k: nat, access: Access, picks: seq<nat>,
          f0: set<nat>, r0: nat -> nat, f1: set<nat>, r1: nat -> nat)
    requires BlocksReady(m, f0, root, v, k) && k > 0 && Took(f0, r0, f1, r1, picks)
    requires |picks| == Missing(TreeOf(m, root, LEVELS), BlockPath(v))
    requires TreeOf(n, root, LEVELS) == Insert(TreeOf(m, root, LEVELS), BlockPath(v), PageLeaf(pfn, access), picks)
    ensures BlocksReady(n, f1, root, v + ENTRIES, k - 1)
    ensures BlocksTurn(TreeOf(m, root, LEVELS), TreeOf(n, root, LEVELS), v, pfn, k, access, picks)
  {
    hide BlockPath, PathOf, Insert, Missing, NoBlockAbove, Uses, TreeOf, Sized, BlockMappable;
    var t, p, l := TreeOf(m, root, LEVELS), BlockPath(v), PageLeaf(pfn, access);
    FirstBlock(t, v, k);
    InsertProper(t, p, l, picks, f0, r0, f1, r1);
    InsertExact(t, p, l, picks, [0, 0, 0]);
    StepBlockMappable(t, v, k, l, picks + [0, 0, 0]);
    forall more: seq<nat>
      ensures MapBlocks(t, v, pfn, k, access, picks + more)
        == MapBlocks(TreeOf(n, root, LEVELS), v + ENTRIES, pfn + ENTRIES, k - 1, access, more)
    {
      InsertExact(t, p, l, picks, more);
      assert (picks + more)[|picks|..] == more;
    }
  }

  // i of n entries are done with the pages in picks, and what is left to do is the rest.
  ghost predicate PagesLeft(t0: Tree, t: Tree, v: nat, pfn: nat, n: nat, i: nat, access: Access, picks: seq<nat>) {
    i <= n && forall more: seq<nat> ::
      MapPages(t0, v, pfn, n, access, picks + more) == MapPages(t, v + i, pfn + i, n - i, access, more)
  }

  lemma PagesLeftStep(t0: Tree, t: Tree, u: Tree, v: nat, pfn: nat, n: nat, i: nat, access: Access, picks: seq<nat>,
          c: seq<nat>)
    requires PagesLeft(t0, t, v, pfn, n, i, access, picks) && i < n
    requires PagesTurn(t, u, v + i, pfn + i, n - i, access, c)
    ensures PagesLeft(t0, u, v, pfn, n, i + 1, access, picks + c)
  {
    hide MapPages;
    forall more: seq<nat>
      ensures MapPages(t0, v, pfn, n, access, picks + c + more)
        == MapPages(u, v + (i + 1), pfn + (i + 1), n - (i + 1), access, more)
    {
      assert picks + c + more == picks + (c + more);
    }
  }

  ghost predicate BlocksLeft(t0: Tree, t: Tree, v: nat, pfn: nat, n: nat, i: nat, access: Access, picks: seq<nat>) {
    i <= n && forall more: seq<nat> ::
      MapBlocks(t0, v, pfn, n, access, picks + more)
        == MapBlocks(t, v + i * ENTRIES, pfn + i * ENTRIES, n - i, access, more)
  }

  lemma BlocksLeftStep(t0: Tree, t: Tree, u: Tree, v: nat, pfn: nat, n: nat, i: nat, access: Access, picks: seq<nat>,
          c: seq<nat>)
    requires BlocksLeft(t0, t, v, pfn, n, i, access, picks) && i < n
    requires BlocksTurn(t, u, v + i * ENTRIES, pfn + i * ENTRIES, n - i, access, c)
    ensures BlocksLeft(t0, u, v, pfn, n, i + 1, access, picks + c)
  {
    hide MapBlocks;
    forall more: seq<nat>
      ensures MapBlocks(t0, v, pfn, n, access, picks + c + more)
        == MapBlocks(u, v + (i + 1) * ENTRIES, pfn + (i + 1) * ENTRIES, n - (i + 1), access, more)
    {
      assert picks + c + more == picks + (c + more);
    }
  }

  lemma TookNone(f: set<nat>, r: nat -> nat)
    ensures Took(f, r, f, r, [])
  {
  }

  lemma PagesFinish(t0: Tree, t: Tree, v: nat, pfn: nat, n: nat, access: Access, picks: seq<nat>)
    requires PagesLeft(t0, t, v, pfn, n, n, access, picks)
    ensures PagesMapped(t0, t, v, pfn, n, access, picks)
  {
    forall more: seq<nat>
      ensures MapPages(t0, v, pfn, n, access, picks + more) == (t, more)
    {
      assert MapPages(t, v + n, pfn + n, 0, access, more) == (t, more);
    }
  }

  lemma BlocksFinish(t0: Tree, t: Tree, v: nat, pfn: nat, n: nat, access: Access, picks: seq<nat>)
    requires BlocksLeft(t0, t, v, pfn, n, n, access, picks)
    ensures BlocksMappedBy(t0, t, v, pfn, n, access, picks)
  {
    forall more: seq<nat>
      ensures MapBlocks(t0, v, pfn, n, access, picks + more) == (t, more)
    {
      assert MapBlocks(t, v + n * ENTRIES, pfn + n * ENTRIES, 0, access, more) == (t, more);
    }
  }

  lemma PagesStart(t0: Tree, v: nat, pfn: nat, n: nat, access: Access)
    ensures PagesLeft(t0, t0, v, pfn, n, 0, access, [])
  {
    assert forall more: seq<nat> :: [] + more == more;
  }

  lemma BlocksStart(t0: Tree, v: nat, pfn: nat, n: nat, access: Access)
    ensures BlocksLeft(t0, t0, v, pfn, n, 0, access, [])
  {
    assert forall more: seq<nat> :: [] + more == more;
  }

  lemma ReadyWalks(m: Memory, free: set<nat>, root: nat, v: nat, n: nat)
    requires Ready(m, free, root, v, n) && n > 0
    ensures Walking(m, free, root, LEVELS, PathOf(v)) && Missing(TreeOf(m, root, LEVELS), PathOf(v)) <= 3
  {
    assert NoBlockAbove(TreeOf(m, root, LEVELS), PathOf(v));
    MissingBound(TreeOf(m, root, LEVELS), PathOf(v));
  }

  lemma BlocksReadyWalks(m: Memory, free: set<nat>, root: nat, v: nat, n: nat)
    requires BlocksReady(m, free, root, v, n) && n > 0
    ensures Walking(m, free, root, LEVELS, BlockPath(v)) && Missing(TreeOf(m, root, LEVELS), BlockPath(v)) <= 3
  {
    FirstBlock(TreeOf(m, root, LEVELS), v, n);
    MissingBound(TreeOf(m, root, LEVELS), BlockPath(v));
  }

  // Pages that neither belonged to the tree t nor were free are left alone, and none of them
  // joins the new tree u.
  ghost predicate RowsKept(m: Memory, n: Memory, t: Tree, u: Tree, free: set<nat>) {
    forall f: nat :: Uses(t, f) == 0 && f !in free ==> Row(n, f) == Row(m, f) && Uses(u, f) == 0
  }

  lemma RowsKeptOn(m0: Memory, m: Memory, n: Memory, t0: Tree, t: Tree, u: Tree, f0: set<nat>, f1: set<nat>)
    requires RowsKept(m0, m, t0, t, f0) && RowsKept(m, n, t, u, f1) && f1 <= f0
    ensures RowsKept(m0, n, t0, u, f0)
  {
  }

  // a before, b after a page at v with k to go; c are the pages taken.
  ghost predicate PagesTurned(a: Kern, b: Kern, root: nat, v: nat, pfn: nat, k: nat, access: Access, c: seq<nat>) {
    && k > 0 && Ready(b.m, b.free, root, v + 1, k - 1)
    && Took(a.free, a.refs, b.free, b.refs, c) && |b.free| >= |a.free| - 3 && b.free <= a.free
    && PagesTurn(TreeOf(a.m, root, LEVELS), TreeOf(b.m, root, LEVELS), v, pfn, k, access, c)
    && RowsKept(a.m, b.m, TreeOf(a.m, root, LEVELS), TreeOf(b.m, root, LEVELS), a.free)
  }

  // a before, b after i of n.
  ghost predicate PagesSoFar(a: Kern, b: Kern, root: nat, v: nat, pfn: nat, n: nat, i: nat, access: Access,
          picks: seq<nat>) {
    && i <= n && Ready(b.m, b.free, root, v + i, n - i)
    && Took(a.free, a.refs, b.free, b.refs, picks) && |b.free| >= |a.free| - 3 * i && b.free <= a.free
    && PagesLeft(TreeOf(a.m, root, LEVELS), TreeOf(b.m, root, LEVELS), v, pfn, n, i, access, picks)
    && RowsKept(a.m, b.m, TreeOf(a.m, root, LEVELS), TreeOf(b.m, root, LEVELS), a.free)
  }

  lemma PagesSoFarStart(a: Kern, root: nat, v: nat, pfn: nat, n: nat, access: Access)
    requires Ready(a.m, a.free, root, v, n)
    ensures PagesSoFar(a, a, root, v, pfn, n, 0, access, [])
  {
    TookNone(a.free, a.refs);
    PagesStart(TreeOf(a.m, root, LEVELS), v, pfn, n, access);
  }

  lemma PagesSoFarStep(a: Kern, b: Kern, e: Kern, root: nat, v: nat, pfn: nat, n: nat, i: nat, access: Access,
          picks: seq<nat>, c: seq<nat>)
    requires PagesSoFar(a, b, root, v, pfn, n, i, access, picks)
    requires PagesTurned(b, e, root, v + i, pfn + i, n - i, access, c)
    ensures PagesSoFar(a, e, root, v, pfn, n, i + 1, access, picks + c)
  {
    hide Ready, Took, RowsKept, PagesLeft, PagesTurn, TreeOf;
    TookMore(a.free, a.refs, b.free, b.refs, e.free, e.refs, picks, c);
    PagesLeftStep(TreeOf(a.m, root, LEVELS), TreeOf(b.m, root, LEVELS), TreeOf(e.m, root, LEVELS), v, pfn, n, i,
      access, picks, c);
    RowsKeptOn(a.m, b.m, e.m, TreeOf(a.m, root, LEVELS), TreeOf(b.m, root, LEVELS), TreeOf(e.m, root, LEVELS), a.free,
      b.free);
  }

  lemma PagesSoFarReady(a: Kern, b: Kern, root: nat, v: nat, pfn: nat, n: nat, i: nat, access: Access, picks: seq<nat>)
    requires PagesSoFar(a, b, root, v, pfn, n, i, access, picks) && i < n && |a.free| >= 3 * n
    ensures Ready(b.m, b.free, root, v + i, n - i) && |b.free| >= 3
  {
  }

  lemma BlocksSoFarReady(a: Kern, b: Kern, root: nat, v: nat, pfn: nat, n: nat, i: nat, access: Access, picks: seq<nat>)
    requires BlocksSoFar(a, b, root, v, pfn, n, i, access, picks) && i < n && |a.free| >= 3 * n
    ensures BlocksReady(b.m, b.free, root, v + i * ENTRIES, n - i) && |b.free| >= 3
  {
  }

  // a before, b after the whole range.
  ghost predicate PagesDone(a: Kern, b: Kern, root: nat, v: nat, pfn: nat, n: nat, access: Access, picks: seq<nat>) {
    && Ready(b.m, b.free, root, v + n, 0)
    && Took(a.free, a.refs, b.free, b.refs, picks) && |b.free| >= |a.free| - 3 * n && b.free <= a.free
    && PagesMapped(TreeOf(a.m, root, LEVELS), TreeOf(b.m, root, LEVELS), v, pfn, n, access, picks)
    && RowsKept(a.m, b.m, TreeOf(a.m, root, LEVELS), TreeOf(b.m, root, LEVELS), a.free)
  }

  lemma PagesSoFarEnd(a: Kern, b: Kern, root: nat, v: nat, pfn: nat, n: nat, access: Access, picks: seq<nat>)
    requires PagesSoFar(a, b, root, v, pfn, n, n, access, picks)
    ensures PagesDone(a, b, root, v, pfn, n, access, picks)
  {
    PagesFinish(TreeOf(a.m, root, LEVELS), TreeOf(b.m, root, LEVELS), v, pfn, n, access, picks);
  }

  // a before, b after a block at v with k to go; c are the pages taken.
  ghost predicate BlocksTurned(a: Kern, b: Kern, root: nat, v: nat, pfn: nat, k: nat, access: Access, c: seq<nat>) {
    && k > 0 && BlocksReady(b.m, b.free, root, v + ENTRIES, k - 1)
    && Took(a.free, a.refs, b.free, b.refs, c) && |b.free| >= |a.free| - 3 && b.free <= a.free
    && BlocksTurn(TreeOf(a.m, root, LEVELS), TreeOf(b.m, root, LEVELS), v, pfn, k, access, c)
    && RowsKept(a.m, b.m, TreeOf(a.m, root, LEVELS), TreeOf(b.m, root, LEVELS), a.free)
  }

  // a before, b after i of n.
  ghost predicate BlocksSoFar(a: Kern, b: Kern, root: nat, v: nat, pfn: nat, n: nat, i: nat, access: Access,
          picks: seq<nat>) {
    && i <= n && BlocksReady(b.m, b.free, root, v + i * ENTRIES, n - i)
    && Took(a.free, a.refs, b.free, b.refs, picks) && |b.free| >= |a.free| - 3 * i && b.free <= a.free
    && BlocksLeft(TreeOf(a.m, root, LEVELS), TreeOf(b.m, root, LEVELS), v, pfn, n, i, access, picks)
    && RowsKept(a.m, b.m, TreeOf(a.m, root, LEVELS), TreeOf(b.m, root, LEVELS), a.free)
  }

  lemma BlocksSoFarStart(a: Kern, root: nat, v: nat, pfn: nat, n: nat, access: Access)
    requires BlocksReady(a.m, a.free, root, v, n)
    ensures BlocksSoFar(a, a, root, v, pfn, n, 0, access, [])
  {
    TookNone(a.free, a.refs);
    BlocksStart(TreeOf(a.m, root, LEVELS), v, pfn, n, access);
  }

  lemma BlocksSoFarStep(a: Kern, b: Kern, e: Kern, root: nat, v: nat, pfn: nat, n: nat, i: nat, access: Access,
          picks: seq<nat>, c: seq<nat>)
    requires BlocksSoFar(a, b, root, v, pfn, n, i, access, picks)
    requires BlocksTurned(b, e, root, v + i * ENTRIES, pfn + i * ENTRIES, n - i, access, c)
    ensures BlocksSoFar(a, e, root, v, pfn, n, i + 1, access, picks + c)
  {
    hide BlocksReady, Took, RowsKept, BlocksLeft, BlocksTurn, TreeOf;
    TookMore(a.free, a.refs, b.free, b.refs, e.free, e.refs, picks, c);
    BlocksLeftStep(TreeOf(a.m, root, LEVELS), TreeOf(b.m, root, LEVELS), TreeOf(e.m, root, LEVELS), v, pfn, n, i,
      access, picks, c);
    RowsKeptOn(a.m, b.m, e.m, TreeOf(a.m, root, LEVELS), TreeOf(b.m, root, LEVELS), TreeOf(e.m, root, LEVELS), a.free,
      b.free);
  }

  // a before, b after the whole range.
  ghost predicate BlocksAllDone(a: Kern, b: Kern, root: nat, v: nat, pfn: nat, n: nat, access: Access,
          picks: seq<nat>) {
    && BlocksReady(b.m, b.free, root, v + n * ENTRIES, 0)
    && Took(a.free, a.refs, b.free, b.refs, picks) && |b.free| >= |a.free| - 3 * n && b.free <= a.free
    && BlocksMappedBy(TreeOf(a.m, root, LEVELS), TreeOf(b.m, root, LEVELS), v, pfn, n, access, picks)
    && RowsKept(a.m, b.m, TreeOf(a.m, root, LEVELS), TreeOf(b.m, root, LEVELS), a.free)
  }

  lemma BlocksSoFarEnd(a: Kern, b: Kern, root: nat, v: nat, pfn: nat, n: nat, access: Access, picks: seq<nat>)
    requires BlocksSoFar(a, b, root, v, pfn, n, n, access, picks)
    ensures BlocksAllDone(a, b, root, v, pfn, n, access, picks)
  {
    BlocksFinish(TreeOf(a.m, root, LEVELS), TreeOf(b.m, root, LEVELS), v, pfn, n, access, picks);
  }

  // The memory an iteration leaves stands for the tree Insert gives.
  lemma InsertTook(m: Memory, root: nat, d: nat, p: Path, e: Pte, f0: set<nat>, r0: nat -> nat, f1: set<nat>,
          r1: nat -> nat, picks: seq<nat>)
    requires Walking(m, f0, root, d, p) && LeafAtDepth(e, d, |p|) && Took(f0, r0, f1, r1, picks)
    requires |picks| == Missing(TreeOf(m, root, d), p)
    ensures var n := InsertMem(m, root, p, e, picks);
      && TreeOf(n, root, d) == Insert(TreeOf(m, root, d), p, LeafOf(e), picks)
      && RowsKept(m, n, TreeOf(m, root, d), TreeOf(n, root, d), f0)
  {
    var t, n := TreeOf(m, root, d), InsertMem(m, root, p, e, picks);
    InsertMemTree(m, root, d, p, e, picks);
    assert picks[..|picks|] == picks;
    forall f: nat | Uses(t, f) == 0 && f !in f0
      ensures Uses(TreeOf(n, root, d), f) == 0
    {
      InsertUses(t, p, LeafOf(e), picks, f);
      assert f !in picks;
    }
  }

  // ---- map and map_lo ----

  // u is t after map of 2^order pages, whatever pages come after picks.
  ghost predicate RegionMapped(t: Tree, u: Tree, v: nat, pfn: nat, order: nat, access: Access, picks: seq<nat>) {
    forall more: seq<nat> :: Map(t, v, pfn, order, access, picks + more) == (u, more)
  }

  lemma RegionByBlocks(t: Tree, u: Tree, v: nat, pfn: nat, order: nat, access: Access, picks: seq<nat>)
    requires order >= 9 && v % ENTRIES == 0 && BlocksMappedBy(t, u, v, pfn, Pow2(order - 9), access, picks)
    ensures RegionMapped(t, u, v, pfn, order, access, picks)
  {
    hide MapBlocks, Pow2;
  }

  lemma RegionByPages(t: Tree, u: Tree, v: nat, pfn: nat, order: nat, access: Access, picks: seq<nat>)
    requires !(order >= 9 && v % ENTRIES == 0) && PagesMapped(t, u, v, pfn, Pow2(order), access, picks)
    ensures RegionMapped(t, u, v, pfn, order, access, picks)
  {
    hide MapPages, Pow2;
  }

  function Zeros(n: nat): (s: seq<nat>)
    ensures |s| == n
  {
    seq(n, i => 0)
  }

  // What the software walker then reads, for every address.
  lemma RegionReads(t: Tree, u: Tree, v: nat, pfn: nat, order: nat, access: Access, picks: seq<nat>, x: nat)
    requires RegionMapped(t, u, v, pfn, order, access, picks) && MapReady(t, v, order) && x < SPAN
    requires pfn + Pow2(order) <= 0x100_0000
    ensures Translate(u, PathOf(x)) ==
      if v <= x < v + Pow2(order) && Slot(t, v, order, x).Invalid? then Some(pfn + (x - v)) else Translate(t, PathOf(x))
    ensures Right(u, PathOf(x)) ==
      if v <= x < v + Pow2(order) && Slot(t, v, order, x).Invalid? then Some((access, false)) else Right(t, PathOf(x))
  {
    hide MapReady, Turns, Map, Translate, Right, PathOf, Slot, Pow2;
    var more := Zeros(3 * Turns(v, order));
    assert Map(t, v, pfn, order, access, picks + more) == (u, more);
    MapTranslates(t, v, pfn, order, access, picks + more, x);
    MapRights(t, v, pfn, order, access, picks + more, x);
  }

  // u is t after map_lo, likewise.
  ghost predicate RangeMapped(t: Tree, u: Tree, v: nat, pfn: nat, n: nat, access: Access, picks: seq<nat>) {
    forall more: seq<nat> :: MapLo(t, v, pfn, n, access, picks + more) == u
  }

  lemma RangeReads(t: Tree, u: Tree, v: nat, pfn: nat, n: nat, access: Access, picks: seq<nat>, x: nat)
    requires RangeMapped(t, u, v, pfn, n, access, picks) && FreshRange(t, v, n) && x < SPAN && pfn + n <= 0x100_0000
    ensures Translate(u, PathOf(x)) == if v <= x < v + n then Some(pfn + (x - v)) else Translate(t, PathOf(x))
    ensures Right(u, PathOf(x)) == if v <= x < v + n then Some((access, false)) else Right(t, PathOf(x))
  {
    hide FreshRange, MapLo, Translate, Right, PathOf;
    var more := Zeros(3 * n);
    assert MapLo(t, v, pfn, n, access, picks + more) == u;
    MapLoLaw(t, v, pfn, n, access, picks + more, x);
    MapLoRights(t, v, pfn, n, access, picks + more, x);
  }

  // The front pages done, the blocks and the tail can follow.
  lemma FrontReady(m: Memory, n: Memory, free: set<nat>, root: nat, v: nat, pfn: nat, k: nat, access: Access,
          picks: seq<nat>)
    requires FreshRange(TreeOf(m, root, LEVELS), v, k)
    requires PagesMapped(TreeOf(m, root, LEVELS), TreeOf(n, root, LEVELS), v, pfn, FrontPages(v, k), access, picks)
    requires Ready(n, free, root, v + FrontPages(v, k), 0)
    ensures Blocks(v, k) > 0 ==> BlocksReady(n, free, root, v + FrontPages(v, k), Blocks(v, k))
    ensures Blocks(v, k) == 0 ==> Ready(n, free, root, TailStart(v, k), k - (TailStart(v, k) - v))
  {
    hide FreshRange, MapPages, NoBlockAbove, TreeOf, BlockMappable, Blocks, Proper;
    var t, f, more := TreeOf(m, root, LEVELS), FrontPages(v, k), Zeros(3 * k);
    assert MapPages(t, v, pfn, f, access, picks + more) == (TreeOf(n, root, LEVELS), more);
    FrontDone(t, v, pfn, k, access, picks + more);
    hide FrontPages;
  }

  lemma BlocksReadyTail(m: Memory, n: Memory, e: Memory, free: set<nat>, root: nat, v: nat, pfn: nat, k: nat,
          access: Access, p: seq<nat>, q: seq<nat>)
    requires FreshRange(TreeOf(m, root, LEVELS), v, k) && Blocks(v, k) > 0
    requires PagesMapped(TreeOf(m, root, LEVELS), TreeOf(n, root, LEVELS), v, pfn, FrontPages(v, k), access, p)
    requires BlocksMappedBy(TreeOf(n, root, LEVELS), TreeOf(e, root, LEVELS), v + FrontPages(v, k),
      pfn + FrontPages(v, k), Blocks(v, k), access, q)
    requires BlocksReady(e, free, root, v + FrontPages(v, k) + Blocks(v, k) * ENTRIES, 0)
    ensures Ready(e, free, root, TailStart(v, k), k - (TailStart(v, k) - v))
  {
    hide FreshRange, MapPages, MapBlocks, NoBlockAbove, TreeOf, BlockMappable, Blocks, FrontPages, Proper;
    var t, f, more := TreeOf(m, root, LEVELS), FrontPages(v, k), Zeros(3 * k);
    assert MapPages(t, v, pfn, f, access, p + (q + more)) == (TreeOf(n, root, LEVELS), q + more);
    assert MapBlocks(TreeOf(n, root, LEVELS), v + f, pfn + f, Blocks(v, k), access, q + more)
      == (TreeOf(e, root, LEVELS), more);
    BlocksDoneSome(t, v, pfn, k, access, p + (q + more));
  }

  // The parts of a range, as map_lo computes them.
  lemma RangeParts(v: nat, n: nat)
    ensures var up := (v + ENTRIES - 1) / ENTRIES * ENTRIES - v; var f := if up < n then up else n;
      && 0 <= up && f == FrontPages(v, n) && (n - f) / ENTRIES == Blocks(v, n)
      && v + f + (n - f) / ENTRIES * ENTRIES == TailStart(v, n) && (n - f) % ENTRIES == n - (TailStart(v, n) - v)
  {
  }

  lemma RangeDone(t: Tree, a: Tree, b: Tree, u: Tree, v: nat, pfn: nat, k: nat, access: Access, p: seq<nat>,
          q: seq<nat>, r: seq<nat>)
    requires PagesMapped(t, a, v, pfn, FrontPages(v, k), access, p)
    requires BlocksMappedBy(a, b, v + FrontPages(v, k), pfn + FrontPages(v, k), Blocks(v, k), access, q)
    requires PagesMapped(b, u, TailStart(v, k), pfn + (TailStart(v, k) - v), k - (TailStart(v, k) - v), access, r)
    ensures RangeMapped(t, u, v, pfn, k, access, p + q + r)
  {
    hide MapPages, MapBlocks, Blocks, FrontPages, TailStart;
    forall more: seq<nat>
      ensures MapLo(t, v, pfn, k, access, p + q + r + more) == u
    {
      assert p + q + r + more == p + (q + (r + more));
      assert FrontMapped(t, v, pfn, k, access, p + (q + (r + more))) == (a, q + (r + more));
      assert BlocksMapped(t, v, pfn, k, access, p + (q + (r + more))) == (b, r + more);
    }
  }

  lemma NothingMapped(t: Tree, v: nat, pfn: nat, access: Access)
    ensures PagesMapped(t, t, v, pfn, 0, access, []) && BlocksMappedBy(t, t, v, pfn, 0, access, [])
  {
    assert forall more: seq<nat> :: [] + more == more;
  }

  lemma ReadyFewer(m: Memory, free: set<nat>, root: nat, v: nat, n: nat, k: nat)
    requires Ready(m, free, root, v, n) && k <= n
    ensures Ready(m, free, root, v, k) && (k == 0 ==> Ready(m, free, root, v, 0))
  {
  }

  lemma LastRow(m: Memory, free: set<nat>, page: nat, p: Path)
    requires Walking(m, free, page, 1, p) && |p| == 1
    ensures |Row(m, page)| == ENTRIES
  {
  }

  // A descriptor against the entry it stands for.
  lemma EntryAt(m: Memory, page: nat, d: nat, i: nat)
    requires Sized(TreeOf(m, page, d)) && i < ENTRIES
    ensures |Row(m, page)| == ENTRIES && TreeOf(m, page, d).entries[i] == EntryOf(m, Row(m, page)[i], d)
  {
  }

  lemma TailReady(k0: Kern, k1: Kern, k2: Kern, root: nat, v: nat, pfn: nat, n: nat, access: Access, a: seq<nat>,
          b: seq<nat>)
    requires FreshRange(TreeOf(k0.m, root, LEVELS), v, n)
    requires PagesMapped(TreeOf(k0.m, root, LEVELS), TreeOf(k1.m, root, LEVELS), v, pfn, FrontPages(v, n), access, a)
    requires Blocks(v, n) == 0 ==> Ready(k1.m, k1.free, root, TailStart(v, n), n - (TailStart(v, n) - v))
    requires BlocksMappedBy(TreeOf(k1.m, root, LEVELS), TreeOf(k2.m, root, LEVELS), v + FrontPages(v, n),
      pfn + FrontPages(v, n), Blocks(v, n), access, b)
    requires if Blocks(v, n) > 0
      then BlocksReady(k2.m, k2.free, root, v + FrontPages(v, n) + Blocks(v, n) * ENTRIES, 0)
        else k2.m == k1.m && k2.free == k1.free
    ensures Ready(k2.m, k2.free, root, TailStart(v, n), n - (TailStart(v, n) - v))
  {
    hide FreshRange, PagesMapped, BlocksMappedBy, FrontPages, Blocks, TailStart, Ready, BlocksReady;
    if Blocks(v, n) > 0 {
      BlocksReadyTail(k0.m, k1.m, k2.m, k2.free, root, v, pfn, n, access, a, b);
    }
  }

  lemma RangeTook(k0: Kern, k1: Kern, k2: Kern, k3: Kern, root: nat, v: nat, pfn: nat, n: nat, access: Access,
          a: seq<nat>, b: seq<nat>, c: seq<nat>)
    requires Took(k0.free, k0.refs, k1.free, k1.refs, a) && Took(k1.free, k1.refs, k2.free, k2.refs, b)
    requires Took(k2.free, k2.refs, k3.free, k3.refs, c)
    requires PagesMapped(TreeOf(k0.m, root, LEVELS), TreeOf(k1.m, root, LEVELS), v, pfn, FrontPages(v, n), access, a)
    requires BlocksMappedBy(TreeOf(k1.m, root, LEVELS), TreeOf(k2.m, root, LEVELS), v + FrontPages(v, n),
      pfn + FrontPages(v, n), Blocks(v, n), access, b)
    requires PagesMapped(TreeOf(k2.m, root, LEVELS), TreeOf(k3.m, root, LEVELS), TailStart(v, n),
      pfn + (TailStart(v, n) - v), n - (TailStart(v, n) - v), access, c)
    ensures Took(k0.free, k0.refs, k3.free, k3.refs, a + b + c)
    ensures RangeMapped(TreeOf(k0.m, root, LEVELS), TreeOf(k3.m, root, LEVELS), v, pfn, n, access, a + b + c)
  {
    hide Took, PagesMapped, BlocksMappedBy, RangeMapped, TreeOf, FrontPages, Blocks, TailStart;
    TookMore(k0.free, k0.refs, k1.free, k1.refs, k2.free, k2.refs, a, b);
    TookMore(k0.free, k0.refs, k2.free, k2.refs, k3.free, k3.refs, a + b, c);
    RangeDone(TreeOf(k0.m, root, LEVELS), TreeOf(k1.m, root, LEVELS), TreeOf(k2.m, root, LEVELS),
      TreeOf(k3.m, root, LEVELS), v, pfn, n, access, a, b, c);
  }

  // ---- replacing a leaf found by the walk ----

  lemma {:induction false} SetLeafAbove(t: Tree, p: Path, l: Leaf, q: Path)
    requires Lookup(t, p).Some? && |q| == |p| && NoBlockAbove(t, q)
    ensures NoBlockAbove(SetLeaf(t, p, l), q)
    decreases |p|
  {
    if |p| > 1 && q[0] == p[0] {
      SetLeafAbove(t.entries[p[0]].sub, p[1..], l, q[1..]);
    }
  }

  lemma SetLeafProper(t: Tree, p: Path, l: Leaf)
    requires Proper(t) && Lookup(t, p).Some?
    ensures Proper(SetLeaf(t, p, l)) && forall f: nat :: Uses(SetLeaf(t, p, l), f) == Uses(t, f)
  {
    SetLeafSized(t, p, l);
    forall f: nat
      ensures Uses(SetLeaf(t, p, l), f) == Uses(t, f)
    {
      SetLeafCounts(t, p, l, f);
    }
  }

  // The entry the walk ends at, and the tables after it is overwritten.
  lemma WalkedLeaf(m: Memory, free: set<nat>, root: nat, p: Path)
    requires Walking(m, free, root, |p|, p)
    ensures var q := WalkTo(m, root, p); var l := Lookup(TreeOf(m, root, |p|), p);
      && (q.Some? ==> |Row(m, q.value)| == ENTRIES)
      && (l.Some? <==> q.Some? && Row(m, q.value)[Last(p)].Pte?)
      && (l.Some? ==> l.value == LeafOf(Row(m, q.value)[Last(p)]))
  {
    WalkFinds(m, root, p);
  }

  lemma StoredLeaf(m: Memory, free: set<nat>, root: nat, v: nat, n: nat, x: nat, e: Pte)
    requires Ready(m, free, root, v, n) && v <= x < v + n && Lookup(TreeOf(m, root, LEVELS), PathOf(x)).Some? && e.Pte?
    ensures var q := WalkTo(m, root, PathOf(x));
      && q.Some? && Last(PathOf(x)) < |Row(m, q.value)|
      && TreeOf(StoreAt(m, q.value, Last(PathOf(x)), e), root, LEVELS)
        == SetLeaf(TreeOf(m, root, LEVELS), PathOf(x), LeafOf(e))
      && Ready(StoreAt(m, q.value, Last(PathOf(x)), e), free, root, v, n)
  {
    hide PathOf, TreeOf, SetLeaf, NoBlockAbove, Sized, Uses;
    var t, p := TreeOf(m, root, LEVELS), PathOf(x);
    assert NoBlockAbove(t, PathOf(x));
    StoreAtTree(m, root, p, e);
    SetLeafProper(t, p, LeafOf(e));
    forall y: nat | v <= y < v + n
      ensures NoBlockAbove(SetLeaf(t, p, LeafOf(e)), PathOf(y))
    {
      SetLeafAbove(t, p, LeafOf(e), PathOf(y));
    }
  }

  lemma ReadyWalksAt(m: Memory, free: set<nat>, root: nat, v: nat, n: nat, x: nat)
    requires Ready(m, free, root, v, n) && v <= x < v + n
    ensures Walking(m, free, root, LEVELS, PathOf(x))
  {
    assert NoBlockAbove(TreeOf(m, root, LEVELS), PathOf(x));
  }

  // What update_mapping has left to do after i pages.
  ghost predicate UpdateLeft(t0: Tree, t: Tree, v: nat, n: nat, i: nat, access: Access) {
    i <= n && Update(t0, v, n, access) == (Update(t, v + i, n - i, access).0, Update(t, v + i, n - i, access).1 + i)
  }

  lemma UpdateTurn(t0: Tree, t: Tree, v: nat, n: nat, i: nat, access: Access)
    requires UpdateLeft(t0, t, v, n, i, access) && i < n
    ensures var l := Lookup(t, PathOf(v + i));
      if l.None? then Update(t0, v, n, access) == (t, i)
      else UpdateLeft(t0, SetLeaf(t, PathOf(v + i), Leaf(l.value.frame, false, access)), v, n, i + 1, access)
  {
    hide PathOf, SetLeaf, Lookup;
  }

  lemma UpdateEnd(t0: Tree, t: Tree, v: nat, n: nat, access: Access)
    requires UpdateLeft(t0, t, v, n, n, access)
    ensures Update(t0, v, n, access) == (t, n)
  {
  }

  lemma UpdateStart(t0: Tree, v: nat, n: nat, access: Access)
    ensures UpdateLeft(t0, t0, v, n, 0, access)
  {
  }

  lemma LastIndex(v: nat)
    ensures Last(PathOf(v)) == v % ENTRIES
  {
  }
}
