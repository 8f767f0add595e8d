// What one turn of the cloning loop (paging.c:342-396) does to the tables in memory.
module CloneSteps {
  import opened PageTree
  import opened PageMemory
  import opened Cow

  // The tables, the free pages and the reference counts.
  datatype Kern = Kern(m: Memory, free: set<nat>, refs: nat -> nat)

  // ---- the parent: its first i entries marked ----

  function Marked(es: seq<Entry>, i: nat): (r: seq<Entry>)
    requires i <= |es|
    ensures |r| == |es|
  {
    MarkEntries(es[..i]) + es[i..]
  }

  lemma {:induction false} MarkedStep(es: seq<Entry>, i: nat)
    requires i < |es|
    ensures Marked(es, i)[i] == es[i] && Marked(es, i + 1) == Marked(es, i)[i := MarkOne(es[i])]
  {
    var a, b := Marked(es, i + 1), Marked(es, i)[i := MarkOne(es[i])];
    forall k: nat | k < |es|
      ensures a[k] == b[k]
    {
      if k < i {
        MarkEntriesAt(es[..i + 1], k);
        MarkEntriesAt(es[..i], k);
      } else if k == i {
        MarkEntriesAt(es[..i + 1], i);
      }
    }
  }

  lemma {:induction false} MarkedUses(es: seq<Entry>, i: nat, f: nat)
    requires i <= |es|
    ensures EntryUses(Marked(es, i), f) == EntryUses(es, f)
    decreases i
  {
    if i == 0 {
      assert Marked(es, 0) == es;
    } else {
      MarkedStep(es, i - 1);
      MarkedUses(es, i - 1, f);
      EntryUsesAt(Marked(es, i - 1), i - 1, MarkOne(es[i - 1]), f);
      MarkOneCounts(es[i - 1], f);
    }
  }

  lemma MarkedAll(es: seq<Entry>)
    ensures Marked(es, |es|) == MarkEntries(es) && Marked(es, 0) == es
  {
    assert es[..|es|] == es;
  }

  // ---- the child: the first i entries copied, the rest still clear ----

  ghost predicate CopyEntry(c: Entry, e: Entry) {
    if e.Table? then c.Table? && CopyOf(c.sub, e.sub) else c == e
  }

  ghost predicate Copied(ce: seq<Entry>, es: seq<Entry>, i: nat) {
    && |ce| == |es| && i <= |es|
    && (forall k: nat :: k < i ==> CopyEntry(ce[k], MarkOne(es[k])))
    && (forall k: nat :: i <= k < |es| ==> ce[k] == Invalid)
  }

  lemma CopiedAll(c: Tree, t: Tree)
    requires Copied(c.entries, t.entries, |t.entries|)
    ensures CopyOf(c, Mark(t))
  {
    forall i | 0 <= i < |t.entries|
      ensures CopyEntry(c.entries[i], Mark(t).entries[i])
    {
      MarkEntriesAt(t.entries, i);
    }
  }

  // How often the child built so far uses f; there is none before the first valid entry.
  ghost function Own(m: Memory, child: nat, made: bool, d: nat, f: nat): (n: nat) {
    if made then Uses(TreeOf(m, child, d), f) else 0
  }

  // ---- the loop invariant ----

  ghost predicate ParentPart(s: Kern, t: Tree, d: nat, i: nat) {
    |t.entries| == ENTRIES && i <= ENTRIES && TreeOf(s.m, t.page, d) == Tree(t.page, Marked(t.entries, i))
  }

  ghost predicate ChildPart(s: Kern, t: Tree, d: nat, child: nat, made: bool, i: nat) {
    if made then Copied(TreeOf(s.m, child, d).entries, t.entries, i)
    else forall k: nat :: k < i && k < |t.entries| ==> t.entries[k].Invalid?
  }

  // The child is built from distinct free pages, and those are no longer free.
  ghost predicate PagesPart(s0: Kern, s: Kern, d: nat, child: nat, made: bool) {
    && (forall f: nat :: Own(s.m, child, made, d, f) <= 1 && (Own(s.m, child, made, d, f) == 1 ==> f in s0.free))
    && (forall f: nat :: f in s.free <==> f in s0.free && Own(s.m, child, made, d, f) == 0)
  }

  ghost predicate RefsPart(s0: Kern, s: Kern, t: Tree, d: nat, child: nat, made: bool, i: nat)
    requires i <= |t.entries|
  {
    forall f: nat :: s.refs(f) == if Own(s.m, child, made, d, f) > 0 then 1
      else s0.refs(f) + EntryMaps(t.entries[..i], f)
  }

  ghost predicate RowsPart(s0: Kern, s: Kern, t: Tree) {
    forall f: nat :: Uses(t, f) == 0 && f !in s0.free ==> Row(s.m, f) == Row(s0.m, f)
  }

  ghost predicate Cloning(s0: Kern, s: Kern, t: Tree, d: nat, child: nat, made: bool, i: nat) {
    && ParentPart(s, t, d, i) && ChildPart(s, t, d, child, made, i)
    && PagesPart(s0, s, d, child, made)
    && |s0.free| == |s.free| + EntryTables(t.entries[..i]) + (if made then 1 else 0)
    && RefsPart(s0, s, t, d, child, made, i) && RowsPart(s0, s, t)
  }

  // What cloning needs: tables that form a tree, none of them empty, its pages and frames
  // not free, and a free page for every table.
  ghost predicate Clonable(s: Kern, t: Tree, d: nat) {
    && Formed(t, d) && (forall f: nat :: Uses(t, f) <= 1)
    && (forall f: nat :: f in s.free ==> Uses(t, f) == 0 && Maps(t, f) == 0)
    && |s.free| >= Tables(t)
  }

  // What it leaves: t marked, and a copy of it on fresh pages.
  ghost predicate Cloned(s0: Kern, s: Kern, t: Tree, d: nat, child: nat) {
    && TreeOf(s.m, t.page, d) == Mark(t) && CopyOf(TreeOf(s.m, child, d), Mark(t))
    && PagesPart(s0, s, d, child, true) && |s0.free| == |s.free| + Tables(t)
    && (forall f: nat :: s.refs(f) == if Uses(TreeOf(s.m, child, d), f) > 0 then 1 else s0.refs(f) + Maps(t, f))
    && RowsPart(s0, s, t)
  }

  lemma CloneStarts(s0: Kern, t: Tree, d: nat)
    requires t == TreeOf(s0.m, t.page, d) && Clonable(s0, t, d)
    ensures Cloning(s0, s0, t, d, 0, false, 0)
  {
    MarkedAll(t.entries);
  }

  lemma CloneEnds(s0: Kern, s: Kern, t: Tree, d: nat, child: nat, made: bool)
    requires Cloning(s0, s, t, d, child, made, ENTRIES) && (Occupied(t) || made)
    ensures Cloned(s0, s, t, d, child)
  {
    assert made;
    MarkedAll(t.entries);
    CopiedAll(TreeOf(s.m, child, d), t);
    assert t.entries[..ENTRIES] == t.entries;
  }

  // ---- an invalid entry ----

  lemma SkipEntry(s0: Kern, s: Kern, t: Tree, d: nat, child: nat, made: bool, i: nat)
    requires Cloning(s0, s, t, d, child, made, i) && i < ENTRIES && t.entries[i].Invalid?
    ensures Cloning(s0, s, t, d, child, made, i + 1)
  {
    MarkedStep(t.entries, i);
    assert Marked(t.entries, i)[i := Invalid] == Marked(t.entries, i);
    forall f: nat
      ensures EntryMaps(t.entries[..i + 1], f) == EntryMaps(t.entries[..i], f)
      ensures EntryTables(t.entries[..i + 1]) == EntryTables(t.entries[..i])
    {
      OneMore(t.entries, i, f);
    }
    assert EntryTables(t.entries[..i + 1]) == EntryTables(t.entries[..i]) by {
      OneMore(t.entries, i, 0);
    }
    hide MarkOne, EntryMaps, EntryTables, Marked;
  }

  lemma BlankSoFar(s0: Kern, s: Kern, t: Tree, d: nat, child: nat, i: nat)
    requires Cloning(s0, s, t, d, child, true, i) && i < ENTRIES
    ensures i < |TreeOf(s.m, child, d).entries| && TreeOf(s.m, child, d).entries[i] == Invalid
  {
  }

  // ---- a valid entry: the parent's side is done, the child's descriptor c is ready ----

  // How often the child with the pending descriptor uses f.
  ghost function With(x: Kern, d: nat, child: nat, made: bool, c: Pte, f: nat): (n: nat) {
    Own(x.m, child, made, d, f) + OneUses(EntryOf(x.m, c, d), f)
  }

  ghost predicate MidPages(s0: Kern, x: Kern, d: nat, child: nat, made: bool, c: Pte) {
    && (forall f: nat :: With(x, d, child, made, c, f) <= 1 && (With(x, d, child, made, c, f) == 1 ==> f in s0.free))
    && (forall f: nat :: f in x.free <==> f in s0.free && With(x, d, child, made, c, f) == 0)
  }

  ghost predicate MidRefs(s0: Kern, x: Kern, t: Tree, d: nat, child: nat, made: bool, i: nat, c: Pte)
    requires i < |t.entries|
  {
    forall f: nat :: x.refs(f) == if With(x, d, child, made, c, f) > 0 then 1
      else s0.refs(f) + EntryMaps(t.entries[..i + 1], f)
  }

  ghost predicate Midway(s0: Kern, x: Kern, t: Tree, d: nat, child: nat, made: bool, i: nat, c: Pte) {
    && ParentPart(x, t, d, i + 1) && ChildPart(x, t, d, child, made, i)
    && CopyEntry(EntryOf(x.m, c, d), MarkOne(t.entries[i]))
    && MidPages(s0, x, d, child, made, c)
    && |s0.free| == |x.free| + EntryTables(t.entries[..i + 1]) + (if made then 1 else 0)
    && MidRefs(s0, x, t, d, child, made, i, c) && RowsPart(s0, x, t)
  }

  // The child's first table page is taken when the first valid entry is met.
  function WithTable(x: Kern, n: nat): (y: Kern) {
    Kern(x.m[n := Cleared()], x.free - {n}, Put(x.refs, n, 1))
  }

  lemma TakeTable(s0: Kern, x: Kern, t: Tree, d: nat, i: nat, c: Pte, n: nat)
    requires Clonable(s0, t, d) && i < |t.entries| && Midway(s0, x, t, d, 0, false, i, c) && n in x.free
    ensures Midway(s0, WithTable(x, n), t, d, n, true, i, c)
    ensures TreeOf(WithTable(x, n).m, n, d) == Tree(n, Blank(ENTRIES))
    ensures EntryOf(WithTable(x, n).m, c, d) == EntryOf(x.m, c, d)
  {
    hide EntryMaps, EntryTables, Tables, Formed, CopyEntry, Marked, With, Copied, MarkOne;
    var y := WithTable(x, n);
    TableTakesNothing(s0, x, t, d, i, c, n);
    ClearedTree(y.m, n, d);
    FreshChild(t, i);
    forall f: nat
      ensures With(y, d, n, true, c, f) == With(x, d, 0, false, c, f) + if f == n then 1 else 0
    {
      WithFresh(x, y, d, n, c, f);
    }
    TakeTableCounts(s0, x, t, d, i, c, n);
    hide WithTable, MidPages, MidRefs, RowsPart, TreeOf, Clonable;
  }

  lemma WithFresh(x: Kern, y: Kern, d: nat, n: nat, c: Pte, f: nat)
    requires EntryOf(y.m, c, d) == EntryOf(x.m, c, d) && TreeOf(y.m, n, d) == Tree(n, Blank(ENTRIES))
    ensures With(y, d, n, true, c, f) == With(x, d, 0, false, c, f) + if f == n then 1 else 0
  {
    BlankCounts(ENTRIES, f);
  }

  lemma TakeTableCounts(s0: Kern, x: Kern, t: Tree, d: nat, i: nat, c: Pte, n: nat)
    requires i < |t.entries| && MidPages(s0, x, d, 0, false, c) && MidRefs(s0, x, t, d, 0, false, i, c)
    requires RowsPart(s0, x, t) && n in x.free
    requires forall f: nat :: With(WithTable(x, n), d, n, true, c, f) == With(x, d, 0, false, c, f) + if f == n then 1
      else 0
    ensures var y := WithTable(x, n);
      MidPages(s0, y, d, n, true, c) && MidRefs(s0, y, t, d, n, true, i, c) && RowsPart(s0, y, t)
        && |x.free| == |y.free| + 1
  {
    hide EntryMaps, With, Cleared, Uses;
    var y := WithTable(x, n);
    assert forall f: nat :: y.refs(f) == if f == n then 1 else x.refs(f);
    assert forall f: nat :: f != n ==> Row(y.m, f) == Row(x.m, f);
    assert With(x, d, 0, false, c, n) == 0;
  }

  lemma TableTakesNothing(s0: Kern, x: Kern, t: Tree, d: nat, i: nat, c: Pte, n: nat)
    requires Clonable(s0, t, d) && i < |t.entries| && Midway(s0, x, t, d, 0, false, i, c) && n in x.free
    ensures var y := WithTable(x, n);
      TreeOf(y.m, t.page, d) == TreeOf(x.m, t.page, d) && EntryOf(y.m, c, d) == EntryOf(x.m, c, d)
  {
    hide EntryMaps, EntryTables, Tables, Formed, CopyEntry, Marked, MarkOne, TreeOf, Uses;
    var y := WithTable(x, n);
    assert forall f: nat :: f != n ==> Row(y.m, f) == Row(x.m, f);
    assert With(x, d, 0, false, c, n) == 0 && Uses(t, n) == 0;
    ParentUses(x, t, d, i + 1, n);
    SameTree(x.m, y.m, t.page, d);
    EntrySame(x.m, y.m, c, d);
  }

  lemma FreshChild(t: Tree, i: nat)
    requires |t.entries| == ENTRIES && i <= ENTRIES && forall k: nat :: k < i ==> t.entries[k].Invalid?
    ensures Copied(Blank(ENTRIES), t.entries, i)
  {
  }

  lemma ParentUses(x: Kern, t: Tree, d: nat, i: nat, f: nat)
    requires ParentPart(x, t, d, i)
    ensures Uses(TreeOf(x.m, t.page, d), f) == Uses(t, f)
  {
    MarkedUses(t.entries, i, f);
  }

  // Storing the descriptor in the child completes the entry.
  function WithEntry(x: Kern, child: nat, i: nat, c: Pte): (y: Kern)
    requires i < |Row(x.m, child)|
  {
    x.(m := x.m[child := Row(x.m, child)[i := c]])
  }

  lemma StoreInChild(s0: Kern, x: Kern, t: Tree, d: nat, child: nat, i: nat, c: Pte)
    requires Clonable(s0, t, d) && i < |t.entries| && Midway(s0, x, t, d, child, true, i, c)
    ensures i < |Row(x.m, child)| && Cloning(s0, WithEntry(x, child, i, c), t, d, child, true, i + 1)
    ensures i < |TreeOf(x.m, child, d).entries|
    ensures TreeOf(WithEntry(x, child, i, c).m, child, d)
      == Tree(child, TreeOf(x.m, child, d).entries[i := EntryOf(x.m, c, d)])
  {
    hide EntryMaps, EntryTables, Tables, Formed, CopyEntry, Marked, MarkOne, Uses;
    var u := TreeOf(x.m, child, d);
    UsesRoot(u);
    assert With(x, d, child, true, c, child) <= 1;
    assert child in s0.free;
    StoreEntry(x.m, child, d, i, c);
    var y := WithEntry(x, child, i, c);
    ParentUses(x, t, d, i + 1, child);
    SameTree(x.m, y.m, t.page, d);
    assert u.entries[i].Invalid?;
    forall f: nat
      ensures Own(y.m, child, true, d, f) == With(x, d, child, true, c, f)
    {
      OwnStored(x, y, d, child, i, c, f);
    }
    hide With, TreeOf, EntryOf, Clonable;
  }

  lemma OwnStored(x: Kern, y: Kern, d: nat, child: nat, i: nat, c: Pte, f: nat)
    requires var es := TreeOf(x.m, child, d).entries;
      i < |es| && es[i].Invalid? && TreeOf(y.m, child, d) == Tree(child, es[i := EntryOf(x.m, c, d)])
    ensures Own(y.m, child, true, d, f) == With(x, d, child, true, c, f)
  {
    EntryUsesAt(TreeOf(x.m, child, d).entries, i, EntryOf(x.m, c, d), f);
  }

  // ---- reaching that point from the loop invariant ----

  lemma ParentEntry(s: Kern, t: Tree, d: nat, i: nat)
    requires ParentPart(s, t, d, i) && i < ENTRIES
    ensures |Row(s.m, t.page)| == ENTRIES && EntryOf(s.m, Row(s.m, t.page)[i], d) == t.entries[i]
  {
    MarkedStep(t.entries, i);
    assert TreeOf(s.m, t.page, d).entries[i] == EntryOf(s.m, Row(s.m, t.page)[i], d);
  }

  // A page: both descriptors become read-only copy-on-write, and the frame gains a reference.
  function Deferred(c: Pte): (r: Pte)
    requires c.Pte?
  {
    c.(cow := true, access := ReadOnly)
  }

  function WithMark(s: Kern, page: nat, i: nat): (x: Kern)
    requires i < |Row(s.m, page)| && Row(s.m, page)[i].Pte?
  {
    var e := Row(s.m, page)[i];
    Kern(s.m[page := Row(s.m, page)[i := Deferred(e)]], s.free, Put(s.refs, e.address, s.refs(e.address) + 1))
  }

  lemma MarkPage(s0: Kern, s: Kern, t: Tree, d: nat, child: nat, made: bool, i: nat)
    requires Clonable(s0, t, d) && Cloning(s0, s, t, d, child, made, i) && i < ENTRIES && t.entries[i].Page?
    ensures |Row(s.m, t.page)| == ENTRIES && Row(s.m, t.page)[i].Pte?
    ensures d == 1 && Maps(t, Row(s.m, t.page)[i].address) > 0
    ensures Midway(s0, WithMark(s, t.page, i), t, d, child, made, i, Deferred(Row(s.m, t.page)[i]))
    ensures made ==> TreeOf(WithMark(s, t.page, i).m, child, d) == TreeOf(s.m, child, d)
  {
    ParentEntry(s, t, d, i);
    var e := Row(s.m, t.page)[i];
    var x, c := WithMark(s, t.page, i), Deferred(e);
    EntryMapsAt(t.entries, i, Invalid, e.address);
    MarkParent(s0, s, t, d, child, made, i);
    hide Marked, Formed, Uses, WithMark;
    MarkChild(s0, s, x, t, d, child, made);
    MarkCounts(s0, s, t, d, child, made, i);
    assert EntryTables(t.entries[..i + 1]) == EntryTables(t.entries[..i]) by {
      OneMore(t.entries, i, 0);
    }
    hide EntryTables, EntryMaps, Maps, MidPages, MidRefs, RowsPart, PagesPart, RefsPart, TreeOf, Copied;
  }

  lemma MarkParent(s0: Kern, s: Kern, t: Tree, d: nat, child: nat, made: bool, i: nat)
    requires Clonable(s0, t, d) && ParentPart(s, t, d, i) && i < ENTRIES && t.entries[i].Page?
    ensures |Row(s.m, t.page)| == ENTRIES && Row(s.m, t.page)[i].Pte?
    ensures ParentPart(WithMark(s, t.page, i), t, d, i + 1)
  {
    ParentEntry(s, t, d, i);
    hide Marked, Uses;
    var e := Row(s.m, t.page)[i];
    UsesRoot(t);
    ParentUses(s, t, d, i, t.page);
    assert Uses(t, t.page) <= 1;
    StoreEntry(s.m, t.page, d, i, Deferred(e));
    MarkedStep(t.entries, i);
  }

  lemma MarkChild(s0: Kern, s: Kern, x: Kern, t: Tree, d: nat, child: nat, made: bool)
    requires Clonable(s0, t, d) && PagesPart(s0, s, d, child, made)
    requires forall f: nat :: f != t.page ==> Row(x.m, f) == Row(s.m, f)
    ensures made ==> TreeOf(x.m, child, d) == TreeOf(s.m, child, d)
    ensures forall f: nat :: Own(x.m, child, made, d, f) == Own(s.m, child, made, d, f)
  {
    hide Formed, Uses;
    UsesRoot(t);
    assert Uses(t, t.page) > 0;
    assert Own(s.m, child, made, d, t.page) == 0;
    if made {
      SameTree(s.m, x.m, child, d);
    }
  }

  lemma MarkCounts(s0: Kern, s: Kern, t: Tree, d: nat, child: nat, made: bool, i: nat)
    requires Clonable(s0, t, d) && PagesPart(s0, s, d, child, made) && i < |t.entries|
    requires RefsPart(s0, s, t, d, child, made, i) && RowsPart(s0, s, t)
    requires i < |Row(s.m, t.page)| && Row(s.m, t.page)[i].Pte? && d == 1 && t.entries[i].Page?
    requires EntryOf(s.m, Row(s.m, t.page)[i], d) == t.entries[i]
    requires forall f: nat :: Own(WithMark(s, t.page, i).m, child, made, d, f) == Own(s.m, child, made, d, f)
    ensures var x, c := WithMark(s, t.page, i), Deferred(Row(s.m, t.page)[i]);
      MidPages(s0, x, d, child, made, c) && MidRefs(s0, x, t, d, child, made, i, c) && RowsPart(s0, x, t)
  {
    var x, c := WithMark(s, t.page, i), Deferred(Row(s.m, t.page)[i]);
    UsesRoot(t);
    assert forall f: nat :: With(x, d, child, made, c, f) == Own(s.m, child, made, d, f);
    forall f: nat
      ensures x.refs(f) == if With(x, d, child, made, c, f) > 0 then 1
        else s0.refs(f) + EntryMaps(t.entries[..i + 1], f)
    {
      OneMore(t.entries, i, f);
      EntryMapsAt(t.entries, i, Invalid, f);
    }
    hide Own, EntryMaps, Uses, With, Formed, Tables;
  }

  // A table: it is cloned first, and the child points at the clone.
  lemma SubClonable(s0: Kern, s: Kern, t: Tree, d: nat, child: nat, made: bool, i: nat)
    requires Clonable(s0, t, d) && Cloning(s0, s, t, d, child, made, i) && i < ENTRIES && t.entries[i].Table?
    ensures |Row(s.m, t.page)| == ENTRIES && Row(s.m, t.page)[i].Pte? && Row(s.m, t.page)[i].table && d > 1
    ensures var sub := t.entries[i].sub;
      sub == TreeOf(s.m, Row(s.m, t.page)[i].address, d - 1) && Clonable(s, sub, d - 1) && Occupied(sub)
  {
    ParentEntry(s, t, d, i);
    var sub := t.entries[i].sub;
    hide Marked, ChildPart, RefsPart, RowsPart;
    TablesSoFar(t.entries, i);
    forall f: nat
      ensures Uses(sub, f) <= Uses(t, f) && Maps(sub, f) <= Maps(t, f)
    {
      UsesEntry(t, i, f);
      EntryMapsAt(t.entries, i, Invalid, f);
    }
    hide Own, EntryTables, EntryOf;
  }

  lemma CloneBelow(s0: Kern, s: Kern, x: Kern, t: Tree, d: nat, child: nat, made: bool, i: nat, c: nat)
    requires Clonable(s0, t, d) && Cloning(s0, s, t, d, child, made, i) && i < ENTRIES && t.entries[i].Table? && d > 1
    requires |Row(s.m, t.page)| == ENTRIES && Row(s.m, t.page)[i].Pte? && Row(s.m, t.page)[i].table
    requires Cloned(s, x, t.entries[i].sub, d - 1, c)
    ensures Midway(s0, x, t, d, child, made, i, Row(s.m, t.page)[i].(address := c))
    ensures made ==> TreeOf(x.m, child, d) == TreeOf(s.m, child, d)
    ensures EntryOf(x.m, Row(s.m, t.page)[i].(address := c), d) == Table(TreeOf(x.m, c, d - 1))
  {
    hide Formed, Uses, Maps, Occupied, EntryTables, EntryMaps, MidPages, MidRefs, TreeOf, Copied, EntryOf;
    hide Marked, ChildPart, Own, With, Tables, RowsPart, PagesPart;
    ParentEntry(s, t, d, i);
    BelowParent(s0, s, x, t, d, child, made, i, c);
    BelowChild(s0, s, x, t, d, child, made, i, c);
    BelowPages(s0, s, x, t, d, child, made, i, c);
    BelowRefs(s0, s, x, t, d, child, made, i, c);
    BelowCopied(s, x, t, d, child, made, i, Row(s.m, t.page)[i], c);
    OneMore(t.entries, i, 0);
  }

  lemma BelowCopied(s: Kern, x: Kern, t: Tree, d: nat, child: nat, made: bool, i: nat, e: Pte, c: nat)
    requires i < |t.entries| && t.entries[i].Table? && d > 1 && e.Pte? && e.table
    requires ChildPart(s, t, d, child, made, i) && (made ==> TreeOf(x.m, child, d) == TreeOf(s.m, child, d))
    ensures ChildPart(x, t, d, child, made, i)
    ensures EntryOf(x.m, e.(address := c), d) == Table(TreeOf(x.m, c, d - 1))
  {
  }

  lemma BelowParent(s0: Kern, s: Kern, x: Kern, t: Tree, d: nat, child: nat, made: bool, i: nat, c: nat)
    requires Clonable(s0, t, d) && Cloning(s0, s, t, d, child, made, i) && i < ENTRIES && t.entries[i].Table? && d > 1
    requires |Row(s.m, t.page)| == ENTRIES && Row(s.m, t.page)[i].Pte? && Row(s.m, t.page)[i].table
    requires EntryOf(s.m, Row(s.m, t.page)[i], d) == t.entries[i]
    requires Cloned(s, x, t.entries[i].sub, d - 1, c)
    ensures ParentPart(x, t, d, i + 1)
  {
    var sub := t.entries[i].sub;
    hide Marked, ChildPart, RefsPart, Formed, Maps, EntryMaps, EntryTables, Tables;
    UsesRoot(t);
    UsesEntry(t, i, t.page);
    assert Uses(t, t.page) <= 1;
    assert Row(x.m, t.page) == Row(s.m, t.page);
    MarkedStep(t.entries, i);
    forall f: nat
      ensures Uses(TreeOf(s.m, t.page, d), f) == Uses(t, f)
    {
      ParentUses(s, t, d, i, f);
    }
    assert TreeOf(s.m, t.page, d).entries[i] == t.entries[i];
    forall f: nat | Uses(TreeOf(s.m, t.page, d), f) > 0 && OneUses(TreeOf(s.m, t.page, d).entries[i], f) == 0
      ensures Row(x.m, f) == Row(s.m, f)
    {
      assert Uses(t, f) > 0 && Uses(sub, f) == 0;
    }
    BelowEntry(s.m, x.m, t.page, d, i);
  }

  lemma BelowChild(s0: Kern, s: Kern, x: Kern, t: Tree, d: nat, child: nat, made: bool, i: nat, c: nat)
    requires Clonable(s0, t, d) && PagesPart(s0, s, d, child, made) && i < |t.entries| && t.entries[i].Table? && d > 1
    requires RowsPart(s, x, t.entries[i].sub)
    ensures made ==> TreeOf(x.m, child, d) == TreeOf(s.m, child, d)
    ensures forall f: nat :: Own(x.m, child, made, d, f) == Own(s.m, child, made, d, f)
  {
    hide Formed, Maps, Tables;
    forall f: nat | Own(s.m, child, made, d, f) > 0
      ensures Row(x.m, f) == Row(s.m, f)
    {
      UsesEntry(t, i, f);
      assert Uses(t, f) == 0;
    }
    hide Uses;
    if made {
      SameTree(s.m, x.m, child, d);
    }
  }

  lemma BelowPages(s0: Kern, s: Kern, x: Kern, t: Tree, d: nat, child: nat, made: bool, i: nat, c: nat)
    requires Clonable(s0, t, d) && PagesPart(s0, s, d, child, made) && RowsPart(s0, s, t) && i < |t.entries|
    requires t.entries[i].Table? && d > 1
    requires i < |Row(s.m, t.page)| && Row(s.m, t.page)[i].Pte? && Row(s.m, t.page)[i].table
    requires PagesPart(s, x, d - 1, c, true) && RowsPart(s, x, t.entries[i].sub)
    requires forall f: nat :: Own(x.m, child, made, d, f) == Own(s.m, child, made, d, f)
    ensures MidPages(s0, x, d, child, made, Row(s.m, t.page)[i].(address := c)) && RowsPart(s0, x, t)
  {
    var pending := Row(s.m, t.page)[i].(address := c);
    assert forall f: nat ::
      With(x, d, child, made, pending, f) == Own(s.m, child, made, d, f) + Own(x.m, c, true, d - 1, f);
    forall f: nat
      ensures Uses(t.entries[i].sub, f) <= Uses(t, f)
    {
      UsesEntry(t, i, f);
    }
    hide Own, With, Uses, Formed, Maps, Tables;
  }

  lemma BelowRefs(s0: Kern, s: Kern, x: Kern, t: Tree, d: nat, child: nat, made: bool, i: nat, c: nat)
    requires Clonable(s0, t, d) && PagesPart(s0, s, d, child, made) && i < |t.entries| && t.entries[i].Table? && d > 1
    requires RefsPart(s0, s, t, d, child, made, i)
    requires i < |Row(s.m, t.page)| && Row(s.m, t.page)[i].Pte? && Row(s.m, t.page)[i].table
    requires forall f: nat :: x.refs(f) == if Uses(TreeOf(x.m, c, d - 1), f) > 0 then 1
      else s.refs(f) + Maps(t.entries[i].sub, f)
    requires forall f: nat :: Own(x.m, child, made, d, f) == Own(s.m, child, made, d, f)
    ensures MidRefs(s0, x, t, d, child, made, i, Row(s.m, t.page)[i].(address := c))
  {
    var pending := Row(s.m, t.page)[i].(address := c);
    forall f: nat
      ensures x.refs(f) == if With(x, d, child, made, pending, f) > 0 then 1
        else s0.refs(f) + EntryMaps(t.entries[..i + 1], f)
    {
      assert With(x, d, child, made, pending, f) == Own(s.m, child, made, d, f) + Uses(TreeOf(x.m, c, d - 1), f);
      OneMore(t.entries, i, f);
      EntryMapsAt(t.entries, i, Invalid, f);
      assert Own(s.m, child, made, d, f) > 0 ==> Maps(t, f) == 0;
    }
  }

  // ---- what the loop needs from the allocator, and its two ways to start ----

  lemma RoomForTable(s0: Kern, x: Kern, t: Tree, d: nat, i: nat, c: Pte)
    requires Clonable(s0, t, d) && i < |t.entries| && Midway(s0, x, t, d, 0, false, i, c)
    ensures x.free != {}
  {
    TablesPrefix(t.entries, i + 1);
  }

  // The top-level table is taken before the loop (paging.c:375).
  lemma RootStarts(s0: Kern, t: Tree, d: nat, n: nat)
    requires t == TreeOf(s0.m, t.page, d) && Clonable(s0, t, d) && n in s0.free
    ensures Cloning(s0, WithTable(s0, n), t, d, n, true, 0)
  {
    RootTrees(s0, t, d, n);
    RootPages(s0, t, d, n);
    assert t.entries[..0] == [];
    assert |WithTable(s0, n).free| == |s0.free| - 1;
    hide Clonable, ParentPart, ChildPart, PagesPart, RefsPart, RowsPart, TreeOf, Row;
  }

  lemma RootTrees(s0: Kern, t: Tree, d: nat, n: nat)
    requires t == TreeOf(s0.m, t.page, d) && Clonable(s0, t, d) && n in s0.free
    ensures var y := WithTable(s0, n);
      ParentPart(y, t, d, 0) && ChildPart(y, t, d, n, true, 0) && RowsPart(s0, y, t)
  {
    assert |t.entries| == ENTRIES;
    hide Formed, Tables;
    assert Uses(t, n) == 0;
    SameTree(s0.m, WithTable(s0, n).m, t.page, d);
    MarkedAll(t.entries);
    ClearedTree(WithTable(s0, n).m, n, d);
    FreshChild(t, 0);
    hide Uses, TreeOf, Marked, Copied;
  }

  // So far only the new top table belongs to the copy.
  lemma RootPages(s0: Kern, t: Tree, d: nat, n: nat)
    requires |t.entries| == ENTRIES && n in s0.free && Clonable(s0, t, d)
    ensures var y := WithTable(s0, n); PagesPart(s0, y, d, n, true) && RefsPart(s0, y, t, d, n, true, 0)
  {
    hide Clonable;
    var y := WithTable(s0, n);
    ClearedTree(y.m, n, d);
    forall f: nat
      ensures Own(y.m, n, true, d, f) == if f == n then 1 else 0
    {
      BlankCounts(ENTRIES, f);
    }
    assert t.entries[..0] == [];
    hide Own, TreeOf;
  }

  // Only the values of the reference counts matter.
  lemma SameRefs(s0: Kern, y: Kern, z: Kern, t: Tree, d: nat, child: nat, made: bool, i: nat)
    requires Cloning(s0, y, t, d, child, made, i) && z.m == y.m && z.free == y.free && forall f: nat ::
      z.refs(f) == y.refs(f)
    ensures Cloning(s0, z, t, d, child, made, i)
  {
  }

  // The descriptor the loop reads, against the entry of the tree being cloned.
  lemma CloningEntry(s0: Kern, s: Kern, t: Tree, d: nat, child: nat, made: bool, i: nat)
    requires Cloning(s0, s, t, d, child, made, i) && i < ENTRIES
    ensures |Row(s.m, t.page)| == ENTRIES && |t.entries| == ENTRIES
    ensures var e := Row(s.m, t.page)[i];
      && (e.Zero? <==> t.entries[i].Invalid?) && (e.Pte? && d > 1 && e.table <==> t.entries[i].Table?)
      && (e.Pte? && !(d > 1 && e.table) <==> t.entries[i].Page?)
  {
    ParentEntry(s, t, d, i);
  }

  lemma TakenApart(s0: Kern, x: Kern, t: Tree, d: nat, i: nat, c: Pte, n: nat, f: nat)
    requires Clonable(s0, t, d) && i < |t.entries| && Midway(s0, x, t, d, 0, false, i, c) && n in x.free
    requires Maps(t, f) > 0
    ensures n != f
  {
    hide Uses, Formed, With, Tables;
  }
}
