// What the steps of AddressSpaces do to the machine of Cow: the tables of one process change
// in memory, those of every other process stay.
module SpaceSteps {
  import opened PageTree
  import opened Mapping
  import opened MapRegions
  import opened PageMemory
  import opened TableSteps
  import opened CloneSteps
  import opened MapProgress
  import opened Cow

  ghost function SpaceOf(m: Memory, r: Option<nat>): (s: Option<Tree>) {
    if r.Some? then Some(TreeOf(m, r.value, LEVELS)) else None
  }

  ghost function Spaces(m: Memory, roots: seq<Option<nat>>): (s: seq<Option<Tree>>)
    ensures |s| == |roots| && forall i :: 0 <= i < |s| ==> s[i] == SpaceOf(m, roots[i])
  {
    seq(|roots|, i requires 0 <= i < |roots| => SpaceOf(m, roots[i]))
  }

  // Equal, function fields by their values.
  ghost predicate Same(w: World, r: World) {
    && r.managed == w.managed && r.kernel == w.kernel && r.free == w.free && r.spaces == w.spaces
    && (forall f: nat :: r.refs(f) == w.refs(f)) && (forall f: nat :: r.data(f) == w.data(f))
  }

  lemma SameInv(w: World, r: World)
    requires Same(w, r) && Inv(w)
    ensures Inv(r)
  {
    hide Formed, MapCount, UseCount;
    forall f: nat
      ensures PageOk(r, f)
    {
      assert PageOk(w, f);
    }
    forall i: nat, p: Path
      ensures AloneOk(r, i, p)
    {
      assert AloneOk(w, i, p);
    }
  }

  // ---- one tree of a valid machine ----

  lemma {:induction false} FormedProper(t: Tree, d: nat)
    requires Formed(t, d)
    ensures Sized(t)
    decreases d
  {
    forall i | 0 <= i < ENTRIES && t.entries[i].Table?
      ensures Sized(t.entries[i].sub)
    {
      FormedProper(t.entries[i].sub, d - 1);
    }
  }

  lemma {:induction false} FormedClear(t: Tree, p: Path)
    requires Formed(t, |p|) && IsPath(p, |p|)
    ensures NoBlockAbove(t, p)
    decreases |p|
  {
    if |p| > 1 && t.entries[p[0]].Table? {
      FormedClear(t.entries[p[0]].sub, p[1..]);
    }
  }

  lemma SpaceProper(w: World, i: nat)
    requires Inv(w) && Alive(w, i)
    ensures Proper(w.spaces[i].value)
    ensures forall f: nat :: f in w.free ==> Uses(w.spaces[i].value, f) == 0 && Maps(w.spaces[i].value, f) == 0
  {
    FormedProper(w.spaces[i].value, LEVELS);
    forall f: nat
      ensures Uses(w.spaces[i].value, f) <= 1
      ensures f in w.free ==> Uses(w.spaces[i].value, f) == 0 && Maps(w.spaces[i].value, f) == 0
    {
      assert PageOk(w, f);
      CountsAt(w.spaces, i, None, f);
    }
  }

  lemma {:induction false} UsesTwo(ss: seq<Option<Tree>>, i: nat, j: nat, f: nat)
    requires i < |ss| && j < |ss| && i != j
    ensures SpaceUses(ss[i], f) + SpaceUses(ss[j], f) <= UseCount(ss, f)
    decreases |ss|
  {
    if i == 0 {
      CountsAt(ss[1..], j - 1, None, f);
    } else if j == 0 {
      CountsAt(ss[1..], i - 1, None, f);
    } else {
      UsesTwo(ss[1..], i - 1, j - 1, f);
    }
  }

  // Rows may change only where space i or a free page is.
  ghost predicate OnlySpace(w: World, i: nat, m: Memory, n: Memory)
    requires Alive(w, i)
  {
    forall f: nat :: Uses(w.spaces[i].value, f) == 0 && f !in w.free ==> Row(n, f) == Row(m, f)
  }

  lemma OtherSpace(w: World, m: Memory, n: Memory, roots: seq<Option<nat>>, i: nat, j: nat)
    requires Inv(w) && w.spaces == Spaces(m, roots) && Alive(w, i) && OnlySpace(w, i, m, n)
    requires j < |roots| && j != i
    ensures SpaceOf(n, roots[j]) == w.spaces[j]
  {
    if roots[j].Some? {
      assert w.spaces[j] == Some(TreeOf(m, roots[j].value, LEVELS));
      forall f: nat | Uses(w.spaces[j].value, f) > 0
        ensures Row(n, f) == Row(m, f)
      {
        assert PageOk(w, f);
        UsesTwo(w.spaces, i, j, f);
      }
      SameTree(m, n, roots[j].value, LEVELS);
    }
  }

  lemma SpacesAfter(w: World, m: Memory, n: Memory, roots: seq<Option<nat>>, i: nat)
    requires Inv(w) && w.spaces == Spaces(m, roots) && Alive(w, i) && OnlySpace(w, i, m, n)
    ensures Spaces(n, roots) == w.spaces[i := SpaceOf(n, roots[i])]
  {
    forall j: nat | j < |roots| && j != i
      ensures SpaceOf(n, roots[j]) == w.spaces[j]
    {
      OtherSpace(w, m, n, roots, i, j);
    }
  }

  // ---- fork ----

  lemma SpaceClonable(w: World, m: Memory, i: nat)
    requires Inv(w) && Alive(w, i) && |w.free| >= Tables(w.spaces[i].value)
    ensures Clonable(Kern(m, w.free, w.refs), w.spaces[i].value, LEVELS)
  {
    SpaceProper(w, i);
  }

  lemma ForkDone(w: World, k0: Kern, k1: Kern, roots: seq<Option<nat>>, i: nat, child: nat)
    requires Inv(w) && w.spaces == Spaces(k0.m, roots) && Alive(w, i) && k0.free == w.free && k0.refs == w.refs
    requires Cloned(k0, k1, w.spaces[i].value, LEVELS, child)
    ensures var c := TreeOf(k1.m, child, LEVELS);
      && ForkLegal(w, i, c)
      && Same(Fork(w, i, c), World(w.managed, w.kernel, k1.free, k1.refs, w.data, Spaces(k1.m, roots + [Some(child)])))
  {
    hide TreeOf, Spaces, SpaceOf, Uses, Maps, CopyOf, Mark, Inv, Cloned, OnlySpace;
    ForkPages(w, k0, k1, i, child);
    ForkRows(w, k0, k1, roots, i, child);
    SpacesAfter(w, k0.m, k1.m, roots, i);
    SpacesMore(k1.m, roots, child);
  }

  lemma SpacesMore(m: Memory, roots: seq<Option<nat>>, child: nat)
    ensures Spaces(m, roots + [Some(child)]) == Spaces(m, roots) + [Some(TreeOf(m, child, LEVELS))]
  {
  }

  lemma ForkRows(w: World, k0: Kern, k1: Kern, roots: seq<Option<nat>>, i: nat, child: nat)
    requires w.spaces == Spaces(k0.m, roots) && Alive(w, i) && k0.free == w.free
    requires Cloned(k0, k1, w.spaces[i].value, LEVELS, child)
    ensures OnlySpace(w, i, k0.m, k1.m) && SpaceOf(k1.m, roots[i]) == Some(Mark(w.spaces[i].value))
    ensures CopyOf(TreeOf(k1.m, child, LEVELS), Mark(w.spaces[i].value))
  {
    hide TreeOf, Uses, Maps, CopyOf, Mark;
    assert SpaceOf(k0.m, roots[i]) == w.spaces[i];
  }

  lemma ForkPages(w: World, k0: Kern, k1: Kern, i: nat, child: nat)
    requires Alive(w, i) && k0.free == w.free && k0.refs == w.refs && Cloned(k0, k1, w.spaces[i].value, LEVELS, child)
    ensures var c := TreeOf(k1.m, child, LEVELS);
      && (forall f: nat :: Uses(c, f) <= 1 && (Uses(c, f) == 1 ==> f in w.free))
      && k1.free == Fork(w, i, c).free && forall f: nat :: k1.refs(f) == Fork(w, i, c).refs(f)
  {
    var c := TreeOf(k1.m, child, LEVELS);
    assert forall f: nat :: Own(k1.m, child, true, LEVELS, f) == Uses(c, f);
    hide TreeOf, Uses, Maps, CopyOf, Mark, Tables;
  }

  // ---- a new process ----

  lemma SpawnDone(w: World, k0: Kern, roots: seq<Option<nat>>, n: nat)
    requires Inv(w) && w.spaces == Spaces(k0.m, roots) && k0.free == w.free && k0.refs == w.refs && n in w.free
    ensures var k1 := WithTable(k0, n);
      World(w.managed, w.kernel, k1.free, k1.refs, w.data, Spaces(k1.m, roots + [Some(n)])) == Spawn(w, n)
  {
    var k1 := WithTable(k0, n);
    ClearedTree(k1.m, n, LEVELS);
    forall j: nat | j < |roots| && roots[j].Some?
      ensures SpaceOf(k1.m, roots[j]) == w.spaces[j]
    {
      SpaceProper(w, j);
      assert w.spaces[j] == Some(TreeOf(k0.m, roots[j].value, LEVELS));
      SameTree(k0.m, k1.m, roots[j].value, LEVELS);
    }
    assert Spaces(k1.m, roots + [Some(n)]) == w.spaces + [Some(Tree(n, Blank(ENTRIES)))];
  }

  // ---- exit ----

  lemma ExitDone(w: World, m: Memory, roots: seq<Option<nat>>, i: nat, r: World)
    requires w.spaces == Spaces(m, roots) && Alive(w, i) && r == ReapTree(w, w.spaces[i].value)
    ensures World(w.managed, w.kernel, r.free, r.refs, w.data, Spaces(m, roots[i := None])) == Reap(w, i)
  {
    ReapTreeLaw(w, w.spaces[i].value, 0);
    hide ReapTree;
    assert Spaces(m, roots[i := None]) == w.spaces[i := None];
  }

  // ---- the copy-on-write fault ----

  // The walk reaches the leaf of the faulting page.
  lemma FaultWalk(w: World, m: Memory, root: nat, i: nat, v: nat)
    requires Inv(w) && Alive(w, i) && w.spaces[i].value == TreeOf(m, root, LEVELS)
    ensures Walking(m, w.free, root, LEVELS, PathOf(v))
    ensures var q := WalkTo(m, root, PathOf(v)); var l := LeafAt(w, i, PathOf(v));
      && (q.Some? ==> |Row(m, q.value)| == ENTRIES)
      && (l.Some? <==> q.Some? && Row(m, q.value)[v % ENTRIES].Pte?)
      && (l.Some? ==> l.value == LeafOf(Row(m, q.value)[v % ENTRIES]))
  {
    hide PathOf;
    SpaceProper(w, i);
    FormedClear(w.spaces[i].value, PathOf(v));
    WalkedLeaf(m, w.free, root, PathOf(v));
    LastIndex(v);
  }

  lemma FaultDone(w: World, m: Memory, roots: seq<Option<nat>>, i: nat, v: nat, n: nat, e: Pte)
    requires Inv(w) && w.spaces == Spaces(m, roots) && Alive(w, i) && CanFault(w, i, PathOf(v)) && n in w.free
    requires e.Pte? && LeafOf(e) == FaultLeaf(Cow.Take(w, n), LeafAt(w, i, PathOf(v)).value, n)
    ensures var q := WalkTo(m, roots[i].value, PathOf(v));
      && q.Some? && v % ENTRIES < |Row(m, q.value)|
      && Spaces(StoreAt(m, q.value, v % ENTRIES, e), roots) == Fault(w, i, PathOf(v), n).spaces
  {
    hide PathOf, TreeOf, SetLeaf, WalkTo, Fault, Drop, Inv, Uses, Formed, FaultLeaf;
    var root, p := roots[i].value, PathOf(v);
    assert SpaceOf(m, roots[i]) == w.spaces[i];
    FaultWalk(w, m, root, i, v);
    StoreAtTree(m, root, p, e);
    LastIndex(v);
    var q := WalkTo(m, root, p).value;
    var a := StoreAt(m, q, v % ENTRIES, e);
    WalkFinds(m, root, p);
    SpacesAfter(w, m, a, roots, i);
    FaultSpaces(w, i, p, n);
  }

  lemma FaultSpaces(w: World, i: nat, p: Path, n: nat)
    requires CanFault(w, i, p)
    ensures Fault(w, i, p, n).spaces
      == w.spaces[i := Some(SetLeaf(w.spaces[i].value, p, FaultLeaf(Cow.Take(w, n), LeafAt(w, i, p).value, n)))]
  {
  }

  // ---- lazy mapping ----

  // Mapping a single page is one Insert, with exactly the pages it needs.
  lemma OnePageMapped(t: Tree, u: Tree, v: nat, n: nat, access: Access, picks: seq<nat>)
    requires RegionMapped(t, u, v, n, 0, access, picks)
    ensures |picks| == Missing(t, PathOf(v)) && u == Insert(t, PathOf(v), Leaf(n, false, access), picks)
  {
    hide PathOf, Insert, Missing;
    var k := Missing(t, PathOf(v));
    var more := Zeros(4);
    assert Map(t, v, n, 0, access, picks + more) == (u, more);
    assert MapPages(t, v, n, 1, access, picks + more).1 == if k <= |picks + more| then (picks + more)[k..] else [];
    assert Map(t, v, n, 0, access, picks + []) == (u, []);
    assert picks + [] == picks;
  }

  lemma LazyReady(w: World, m: Memory, root: nat, i: nat, v: nat, n: nat)
    requires Inv(w) && Alive(w, i) && w.spaces[i].value == TreeOf(m, root, LEVELS) && v < SPAN
    ensures Ready(m, w.free - {n}, root, v, 1)
  {
    hide PathOf;
    SpaceProper(w, i);
    forall x: nat | v <= x < v + 1
      ensures NoBlockAbove(w.spaces[i].value, PathOf(x))
    {
      FormedClear(w.spaces[i].value, PathOf(x));
    }
  }

  lemma LazyDone(w: World, k0: Kern, k1: Kern, roots: seq<Option<nat>>, i: nat, v: nat, n: nat, access: Access,
          picks: seq<nat>)
    requires Inv(w) && w.spaces == Spaces(k0.m, roots) && Alive(w, i) && n in w.free
    requires k0.free == w.free - {n} && k0.refs == Put(w.refs, n, 1)
    requires Took(k0.free, k0.refs, k1.free, k1.refs, picks)
    requires RegionMapped(TreeOf(k0.m, roots[i].value, LEVELS), TreeOf(k1.m, roots[i].value, LEVELS), v, n, 0, access,
      picks)
    requires RowsKept(k0.m, k1.m, TreeOf(k0.m, roots[i].value, LEVELS), TreeOf(k1.m, roots[i].value, LEVELS), k0.free)
    ensures MapLegal(w, i, PathOf(v), n, picks)
    ensures Same(LazyMap(w, i, PathOf(v), n, access, picks),
      World(w.managed, w.kernel, k1.free, k1.refs, w.data, Spaces(k1.m, roots)))
  {
    hide PathOf, TreeOf, Insert, Inv, Uses, RegionMapped, Missing;
    assert SpaceOf(k0.m, roots[i]) == w.spaces[i];
    OnePageMapped(w.spaces[i].value, TreeOf(k1.m, roots[i].value, LEVELS), v, n, access, picks);
    SpacesAfter(w, k0.m, k1.m, roots, i);
    assert forall x: nat :: x in PageSet(picks) <==> x in picks;
  }
}
