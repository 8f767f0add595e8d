// The calls of the page allocator that an operation on address spaces makes, in the order in
// which the code makes them.
module AllocatorCalls {
  import opened Cow
  import opened PageTree
  import R = CowRefinement

  // buddy_alloc of one page, pf->refcount++, decrement_ref.
  datatype Touch = Taken(page: nat) | Shared(page: nat) | Dropped(page: nat)

  // ---- the touches of each operation, in the code's order ----

  // clone_page_table takes no page for the copy until its first valid entry has been dealt
  // with: an entry that is a table is cloned before that, one that is a page is counted after.
  function CloneTouches(c: Tree): (ts: seq<Touch>)
    decreases c, 1
  {
    CloneEntries(c.page, c.entries, false)
  }

  // made: the copy's page has been taken.
  function CloneEntries(page: nat, es: seq<Entry>, made: bool): (ts: seq<Touch>)
    decreases es, 0
  {
    if es == [] then []
    else if es[0].Invalid? then CloneEntries(page, es[1..], made)
    else BelowTouches(es[0]) + TakeUnless(made, page) + CountLeaf(es[0]) + CloneEntries(page, es[1..], true)
  }

  function BelowTouches(e: Entry): (ts: seq<Touch>)
    decreases e, 2
  {
    if e.Table? then CloneTouches(e.sub) else []
  }

  function CountLeaf(e: Entry): (ts: seq<Touch>) {
    if e.Page? then [Shared(e.leaf.frame)] else []
  }

  function TakeUnless(made: bool, page: nat): (ts: seq<Touch>) {
    if made then [] else [Taken(page)]
  }

  // clone_virtual_memory takes the page of the top-level copy first.
  function RootTouches(c: Tree): (ts: seq<Touch>) {
    [Taken(c.page)] + CloneEntries(c.page, c.entries, true)
  }

  function ReapTouches(t: Tree): (ts: seq<Touch>)
    decreases t, 1
  {
    ReapEntryTouches(t.entries) + [Dropped(t.page)]
  }

  function ReapEntryTouches(es: seq<Entry>): (ts: seq<Touch>)
    decreases es, 0
  {
    if es == [] then [] else ReapOneTouches(es[0]) + ReapEntryTouches(es[1..])
  }

  function ReapOneTouches(e: Entry): (ts: seq<Touch>)
    decreases e, 2
  {
    match e
    case Invalid => []
    case Page(l) => [Dropped(l.frame)]
    case Table(s) => ReapTouches(s)
  }

  function TakeAll(picks: seq<nat>): (ts: seq<Touch>)
  {
    seq(|picks|, k requires 0 <= k < |picks| => Taken(picks[k]))
  }

  // A copy-on-write fault takes a page and gives up the one it replaces.
  function FaultTouches(w: World, i: nat, p: Path, n: nat): (ts: seq<Touch>)
    requires CanFault(w, i, p)
  {
    [Taken(n), Dropped(LeafAt(w, i, p).value.frame)]
  }

  function WriteTouches(w: World, i: nat, p: Path, picks: seq<nat>): (ts: seq<Touch>)
    requires |p| == LEVELS
    decreases |picks|
  {
    var l := LeafAt(w, i, p);
    if l.None? || l.value.access == ReadWrite || !l.value.cow || picks == [] then []
    else FaultTouches(w, i, p, picks[0]) + WriteTouches(Fault(w, i, p, picks[0]), i, p, picks[1..])
  }

  ghost function Touches(w: World, op: R.Op): (ts: seq<Touch>)
    requires R.Legal(w, op)
  {
    match op
    case OpSpawn(n) => [Taken(n)]
    case OpFork(_, c) => RootTouches(c)
    case OpWrite(i, p, _, _, picks) => WriteTouches(w, i, p, picks)
    case OpMap(_, _, n, _, picks) => TakeAll([n] + picks)
    case OpReap(i) => ReapTouches(w.spaces[i].value)
  }

  // ---- the order, on a copy with one page ----

  lemma {:induction false} NoneValid(page: nat, n: nat, made: bool)
    ensures CloneEntries(page, Blank(n), made) == []
  {
    if n > 0 {
      assert Blank(n)[1..] == Blank(n - 1);
      NoneValid(page, n - 1, made);
    }
  }

  lemma {:induction false} OneValid(page: nat, n: nat, i: nat, e: Entry, made: bool)
    requires i < n && !e.Invalid?
    ensures CloneEntries(page, Blank(n)[i := e], made) == BelowTouches(e) + TakeUnless(made, page) + CountLeaf(e)
  {
    hide BelowTouches, CountLeaf, TakeUnless;
    var es := Blank(n)[i := e];
    if i == 0 {
      assert es[1..] == Blank(n - 1);
      NoneValid(page, n - 1, true);
    } else {
      assert es[1..] == Blank(n - 1)[i - 1 := e];
      OneValid(page, n - 1, i - 1, e, made);
    }
  }

  function Only(page: nat, i: nat, e: Entry): (t: Tree)
    requires i < ENTRIES
  {
    Tree(page, Blank(ENTRIES)[i := e])
  }

  // The top table is taken first; then the tables from the lowest to the highest, each just
  // after what lies below its first entry; the page is counted as soon as its table is there.
  lemma OnePageFork(r: nat, l1: nat, l2: nat, l3: nat, a: nat, b: nat, c: nat, d: nat, leaf: Leaf)
    requires a < ENTRIES && b < ENTRIES && c < ENTRIES && d < ENTRIES
    ensures RootTouches(Only(r, a, Table(Only(l1, b, Table(Only(l2, c, Table(Only(l3, d, Page(leaf)))))))))
      == [Taken(r), Taken(l3), Shared(leaf.frame), Taken(l2), Taken(l1)]
  {
    var t3 := Only(l3, d, Page(leaf));
    var t2 := Only(l2, c, Table(t3));
    var t1 := Only(l1, b, Table(t2));
    OneValid(l3, ENTRIES, d, Page(leaf), false);
    OneValid(l2, ENTRIES, c, Table(t3), false);
    OneValid(l1, ENTRIES, b, Table(t2), false);
    OneValid(r, ENTRIES, a, Table(t1), true);
    hide CloneEntries, Blank;
    assert CloneTouches(t3) == [Taken(l3), Shared(leaf.frame)];
    assert CloneTouches(t2) == CloneTouches(t3) + [Taken(l2)];
    assert CloneTouches(t1) == CloneTouches(t2) + [Taken(l1)];
  }

  // ---- the calls made turn by turn ----

  lemma TakeAllParts(a: seq<nat>, b: seq<nat>)
    ensures TakeAll(a + b) == TakeAll(a) + TakeAll(b) && TakeAll([]) == []
  {
  }

  predicate AnyValid(es: seq<Entry>) {
    exists i :: 0 <= i < |es| && !es[i].Invalid?
  }

  // One turn of the cloning loop, on the entry that is entered in the copy.
  function TurnTouches(made: bool, page: nat, e: Entry): (ts: seq<Touch>) {
    if e.Invalid? then [] else BelowTouches(e) + TakeUnless(made, page) + CountLeaf(e)
  }

  lemma {:induction false} CloneSnoc(page: nat, es: seq<Entry>, e: Entry, made: bool)
    ensures CloneEntries(page, es + [e], made)
      == CloneEntries(page, es, made) + TurnTouches(made || AnyValid(es), page, e)
    decreases |es|
  {
    hide BelowTouches, CountLeaf, TakeUnless;
    if es == [] {
      assert (es + [e])[1..] == [];
    } else {
      assert (es + [e])[1..] == es[1..] + [e] && (es + [e])[0] == es[0];
      ValidTail(es);
      CloneSnoc(page, es[1..], e, made || !es[0].Invalid?);
    }
  }

  lemma ValidTail(es: seq<Entry>)
    requires es != []
    ensures AnyValid(es) <==> !es[0].Invalid? || AnyValid(es[1..])
  {
    if i :| 0 <= i < |es| && !es[i].Invalid? {
      assert i > 0 ==> es[1..][i - 1] == es[i];
    }
    if i :| 0 <= i < |es[1..]| && !es[1..][i].Invalid? {
      assert es[i + 1] == es[1..][i];
    }
  }

  lemma {:induction false} NothingValid(page: nat, es: seq<Entry>, made: bool)
    requires !AnyValid(es)
    ensures CloneEntries(page, es, made) == []
    decreases |es|
  {
    if es != [] {
      ValidTail(es);
      NothingValid(page, es[1..], made);
    }
  }

  // The calls made in the first i turns; rooted says that the copy's page came first.
  ghost predicate Logged(ts: seq<Touch>, page: nat, made: bool, es: seq<Entry>, i: nat, rooted: bool) {
    if made then i <= |es| && (rooted || AnyValid(es[..i])) && ts == CloneEntries(page, es[..i], rooted)
    else !rooted && ts == []
  }

  // What one turn does to the copy's entries, and the calls it makes.
  ghost predicate Turned(ts: seq<Touch>, made0: bool, es0: seq<Entry>, made: bool, page: nat, es: seq<Entry>, i: nat) {
    if made then
      && i < |es| && ts == TurnTouches(made0, page, es[i])
      && (if made0 then |es| == |es0| && es[..i] == es0[..i] else !AnyValid(es[..i]) && !es[i].Invalid?)
    else !made0 && ts == []
  }

  lemma LogTurn(ts: seq<Touch>, turn: seq<Touch>, page0: nat, made0: bool, es0: seq<Entry>, page: nat, made: bool,
          es: seq<Entry>, i: nat, rooted: bool)
    requires Logged(ts, page0, made0, es0, i, rooted) && Turned(turn, made0, es0, made, page, es, i)
    requires made0 ==> made && page == page0
    ensures Logged(ts + turn, page, made, es, i + 1, rooted)
  {
    hide CloneEntries, TurnTouches;
    if made {
      assert es[..i + 1] == es[..i] + [es[i]];
      CloneSnoc(page, es[..i], es[i], rooted);
      if !made0 {
        NothingValid(page, es[..i], rooted);
        assert es[..i + 1][i] == es[i];
      } else if !rooted {
        var k :| 0 <= k < i && !es[..i][k].Invalid?;
        assert es[..i + 1][k] == es[..i][k];
      }
    }
  }
}
