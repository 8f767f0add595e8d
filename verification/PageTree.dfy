// A four-level page table as a value: each table is a physical page of 512 entries, and a
// virtual page is named by the path of its table indices (VMSAv8-64, 4 KiB granule).
module PageTree {

  const ENTRIES := 512

  datatype Option<+T> = None | Some(value: T)

  // What EL0 may do, and the software bit that defers a copy.
  datatype Access = ReadWrite | ReadOnly | Hidden
  datatype Leaf = Leaf(frame: nat, cow: bool, access: Access)

  datatype Entry = Invalid | Table(sub: Tree) | Page(leaf: Leaf)
  datatype Tree = Tree(page: nat, entries: seq<Entry>)

  type Path = seq<nat>

  predicate IsPath(p: Path, n: nat) {
    |p| == n && forall i :: 0 <= i < n ==> p[i] < ENTRIES
  }

  // Tables at depth d > 1 hold only tables, the last level only pages.
  ghost predicate Formed(t: Tree, d: nat)
    decreases t
  {
    && d > 0 && |t.entries| == ENTRIES
    && (forall i :: 0 <= i < ENTRIES && t.entries[i].Page? ==> d == 1)
    && (forall i ::
      0 <= i < ENTRIES && t.entries[i].Table? ==>
        d > 1 && Formed(t.entries[i].sub, d - 1) && Occupied(t.entries[i].sub))
  }

  // Cloning a table without valid entries would produce a null table, so none may exist.
  predicate Occupied(t: Tree) {
    exists i :: 0 <= i < |t.entries| && !t.entries[i].Invalid?
  }

  function Lookup(t: Tree, p: Path): (l: Option<Leaf>)
    decreases t
  {
    if p == [] || p[0] >= |t.entries| then None
    else match t.entries[p[0]]
      case Invalid => None
      case Page(l) => if |p| == 1 then Some(l) else None
      case Table(s) => Lookup(s, p[1..])
  }

  // ---- how often a frame is mapped, and how often it serves as a table ----

  function Maps(t: Tree, f: nat): (n: nat)
    decreases t, 1
  {
    EntryMaps(t.entries, f)
  }

  function EntryMaps(es: seq<Entry>, f: nat): (n: nat)
    decreases es, 0
  {
    if es == [] then 0 else OneMaps(es[0], f) + EntryMaps(es[1..], f)
  }

  function OneMaps(e: Entry, f: nat): (n: nat)
    decreases e, 2
  {
    match e
    case Invalid => 0
    case Page(l) => if l.frame == f then 1 else 0
    case Table(s) => Maps(s, f)
  }

  function Uses(t: Tree, f: nat): (n: nat)
    decreases t, 1
  {
    (if t.page == f then 1 else 0) + EntryUses(t.entries, f)
  }

  function EntryUses(es: seq<Entry>, f: nat): (n: nat)
    decreases es, 0
  {
    if es == [] then 0 else OneUses(es[0], f) + EntryUses(es[1..], f)
  }

  function OneUses(e: Entry, f: nat): (n: nat)
    decreases e, 2
  {
    match e
    case Table(s) => Uses(s, f)
    case _ => 0
  }

  lemma {:induction false} EntryMapsAt(es: seq<Entry>, i: nat, e: Entry, f: nat)
    requires i < |es|
    ensures EntryMaps(es[i := e], f) == EntryMaps(es, f) - OneMaps(es[i], f) + OneMaps(e, f)
    ensures OneMaps(es[i], f) <= EntryMaps(es, f)
  {
    if i == 0 {
      assert es[0 := e][1..] == es[1..];
    } else {
      EntryMapsAt(es[1..], i - 1, e, f);
      assert es[i := e][1..] == es[1..][i - 1 := e];
    }
  }

  lemma {:induction false} EntryUsesAt(es: seq<Entry>, i: nat, e: Entry, f: nat)
    requires i < |es|
    ensures EntryUses(es[i := e], f) == EntryUses(es, f) - OneUses(es[i], f) + OneUses(e, f)
    ensures OneUses(es[i], f) <= EntryUses(es, f)
  {
    if i == 0 {
      assert es[0 := e][1..] == es[1..];
    } else {
      EntryUsesAt(es[1..], i - 1, e, f);
      assert es[i := e][1..] == es[1..][i - 1 := e];
    }
  }

  lemma {:induction false} EntryMapsTwo(es: seq<Entry>, i: nat, j: nat, f: nat)
    requires i < j < |es|
    ensures OneMaps(es[i], f) + OneMaps(es[j], f) <= EntryMaps(es, f)
  {
    if i == 0 {
      EntryMapsAt(es[1..], j - 1, Invalid, f);
    } else {
      EntryMapsTwo(es[1..], i - 1, j - 1, f);
    }
  }

  lemma {:induction false} LookupIsMapped(t: Tree, p: Path)
    requires Lookup(t, p).Some?
    ensures Maps(t, Lookup(t, p).value.frame) >= 1
    decreases t
  {
    var e := t.entries[p[0]];
    EntryMapsAt(t.entries, p[0], e, Lookup(t, p).value.frame);
    if e.Table? {
      LookupIsMapped(e.sub, p[1..]);
    }
  }

  // Two virtual pages on one frame are counted twice.
  lemma {:induction false} TwoLookups(t: Tree, p: Path, q: Path)
    requires Lookup(t, p).Some? && Lookup(t, q).Some? && |p| == |q| && p != q
    requires Lookup(t, p).value.frame == Lookup(t, q).value.frame
    ensures Maps(t, Lookup(t, p).value.frame) >= 2
    decreases t
  {
    var f := Lookup(t, p).value.frame;
    if p[0] == q[0] {
      var e := t.entries[p[0]];
      EntryMapsAt(t.entries, p[0], e, f);
      assert p == [p[0]] + p[1..] && q == [q[0]] + q[1..];
      if e.Table? {
        TwoLookups(e.sub, p[1..], q[1..]);
      }
    } else {
      EntryHolds(t, p);
      EntryHolds(t, q);
      if p[0] < q[0] {
        EntryMapsTwo(t.entries, p[0], q[0], f);
      } else {
        EntryMapsTwo(t.entries, q[0], p[0], f);
      }
    }
  }

  lemma EntryHolds(t: Tree, p: Path)
    requires Lookup(t, p).Some?
    ensures OneMaps(t.entries[p[0]], Lookup(t, p).value.frame) >= 1
  {
    if t.entries[p[0]].Table? {
      LookupIsMapped(t.entries[p[0]].sub, p[1..]);
    }
  }

  // ---- marking for copy-on-write (paging.c:355-361) ----

  function Shared(l: Leaf): (r: Leaf) {
    l.(cow := true, access := ReadOnly)
  }

  function Mark(t: Tree): (r: Tree)
    decreases t, 1
  {
    t.(entries := MarkEntries(t.entries))
  }

  function MarkEntries(es: seq<Entry>): (r: seq<Entry>)
    ensures |r| == |es|
    decreases es, 0
  {
    if es == [] then [] else [MarkOne(es[0])] + MarkEntries(es[1..])
  }

  function MarkOne(e: Entry): (r: Entry)
    ensures r.Invalid? <==> e.Invalid?
    decreases e, 2
  {
    match e
    case Invalid => Invalid
    case Page(l) => Page(Shared(l))
    case Table(s) => Table(Mark(s))
  }

  lemma {:induction false} MarkEntriesAt(es: seq<Entry>, i: nat)
    requires i < |es|
    ensures MarkEntries(es)[i] == MarkOne(es[i])
  {
    if i > 0 {
      MarkEntriesAt(es[1..], i - 1);
    }
  }

  lemma {:induction false} MarkLookup(t: Tree, p: Path)
    ensures Lookup(Mark(t), p) == (var l := Lookup(t, p); if l.Some? then Some(Shared(l.value)) else None)
    decreases t
  {
    if p != [] && p[0] < |t.entries| {
      MarkEntriesAt(t.entries, p[0]);
      if t.entries[p[0]].Table? {
        MarkLookup(t.entries[p[0]].sub, p[1..]);
      }
    }
  }

  lemma {:induction false} MarkCounts(t: Tree, f: nat)
    ensures Maps(Mark(t), f) == Maps(t, f) && Uses(Mark(t), f) == Uses(t, f)
    decreases t, 1
  {
    MarkEntryCounts(t.entries, f);
  }

  lemma {:induction false} MarkEntryCounts(es: seq<Entry>, f: nat)
    ensures EntryMaps(MarkEntries(es), f) == EntryMaps(es, f) && EntryUses(MarkEntries(es), f) == EntryUses(es, f)
    decreases es, 0
  {
    if es != [] {
      MarkOneCounts(es[0], f);
      MarkEntryCounts(es[1..], f);
    }
  }

  lemma {:induction false} MarkOneCounts(e: Entry, f: nat)
    ensures OneMaps(MarkOne(e), f) == OneMaps(e, f) && OneUses(MarkOne(e), f) == OneUses(e, f)
    decreases e, 2
  {
    if e.Table? {
      MarkCounts(e.sub, f);
    }
  }

  lemma {:induction false} MarkFormed(t: Tree, d: nat)
    requires Formed(t, d)
    ensures Formed(Mark(t), d) && (Occupied(t) ==> Occupied(Mark(t)))
    decreases t
  {
    var r := Mark(t);
    forall i | 0 <= i < ENTRIES
      ensures r.entries[i] == MarkOne(t.entries[i])
      ensures t.entries[i].Table? ==> Formed(r.entries[i].sub, d - 1) && Occupied(r.entries[i].sub)
    {
      MarkEntriesAt(t.entries, i);
      if t.entries[i].Table? {
        MarkFormed(t.entries[i].sub, d - 1);
      }
    }
  }

  // ---- copies: the same mapping built from other pages ----

  ghost predicate CopyOf(c: Tree, t: Tree)
    decreases t
  {
    && |c.entries| == |t.entries|
    && (forall i :: 0 <= i < |t.entries| && !t.entries[i].Table? ==> c.entries[i] == t.entries[i])
    && (forall i ::
      0 <= i < |t.entries| && t.entries[i].Table? ==> c.entries[i].Table? && CopyOf(c.entries[i].sub, t.entries[i].sub))
  }

  lemma {:induction false} CopyLookup(c: Tree, t: Tree, p: Path)
    requires CopyOf(c, t)
    ensures Lookup(c, p) == Lookup(t, p)
    decreases t
  {
    if p != [] && p[0] < |t.entries| && t.entries[p[0]].Table? {
      CopyLookup(c.entries[p[0]].sub, t.entries[p[0]].sub, p[1..]);
    }
  }

  lemma {:induction false} CopyMaps(c: Tree, t: Tree, f: nat)
    requires CopyOf(c, t)
    ensures Maps(c, f) == Maps(t, f)
    decreases t, |t.entries| + 1
  {
    CopyEntryMaps(c, t, 0, f);
    assert c.entries[0..] == c.entries && t.entries[0..] == t.entries;
  }

  lemma {:induction false} CopyEntryMaps(c: Tree, t: Tree, i: nat, f: nat)
    requires CopyOf(c, t) && i <= |t.entries|
    ensures EntryMaps(c.entries[i..], f) == EntryMaps(t.entries[i..], f)
    decreases t, |t.entries| - i
  {
    if i < |t.entries| {
      CopyEntryMaps(c, t, i + 1, f);
      assert c.entries[i..][1..] == c.entries[i + 1..] && t.entries[i..][1..] == t.entries[i + 1..];
      if t.entries[i].Table? {
        CopyMaps(c.entries[i].sub, t.entries[i].sub, f);
      }
    }
  }

  lemma {:induction false} CopyFormed(c: Tree, t: Tree, d: nat)
    requires CopyOf(c, t) && Formed(t, d)
    ensures Formed(c, d) && (Occupied(t) ==> Occupied(c))
    decreases t
  {
    forall i | 0 <= i < ENTRIES && t.entries[i].Table?
      ensures Formed(c.entries[i].sub, d - 1) && Occupied(c.entries[i].sub)
    {
      CopyFormed(c.entries[i].sub, t.entries[i].sub, d - 1);
    }
    if i :| 0 <= i < |t.entries| && !t.entries[i].Invalid? {
      assert !c.entries[i].Invalid?;
    }
  }

  // ---- replacing one leaf ----

  function SetLeaf(t: Tree, p: Path, l: Leaf): (r: Tree)
    decreases t
  {
    if p == [] || p[0] >= |t.entries| then t
    else match t.entries[p[0]]
      case Invalid => t
      case Page(_) => if |p| == 1 then t.(entries := t.entries[p[0] := Page(l)]) else t
      case Table(s) => t.(entries := t.entries[p[0] := Table(SetLeaf(s, p[1..], l))])
  }

  lemma {:induction false} SetLeafLookup(t: Tree, p: Path, l: Leaf, q: Path)
    requires Lookup(t, p).Some? && |q| == |p|
    ensures Lookup(SetLeaf(t, p, l), q) == if q == p then Some(l) else Lookup(t, q)
    decreases t
  {
    if q[0] == p[0] {
      assert p == [p[0]] + p[1..] && q == [q[0]] + q[1..];
      if t.entries[p[0]].Table? {
        SetLeafLookup(t.entries[p[0]].sub, p[1..], l, q[1..]);
      }
    }
  }

  lemma {:induction false} SetLeafCounts(t: Tree, p: Path, l: Leaf, f: nat)
    requires Lookup(t, p).Some?
    ensures Maps(SetLeaf(t, p, l), f)
      == Maps(t, f) - (if Lookup(t, p).value.frame == f then 1 else 0) + (if l.frame == f then 1 else 0)
    ensures Uses(SetLeaf(t, p, l), f) == Uses(t, f)
    decreases t
  {
    var i := p[0];
    var n := SetLeaf(t, p, l).entries[i];
    EntryMapsAt(t.entries, i, n, f);
    EntryUsesAt(t.entries, i, n, f);
    if t.entries[i].Table? {
      SetLeafCounts(t.entries[i].sub, p[1..], l, f);
    }
  }

  lemma {:induction false} SetLeafFormed(t: Tree, p: Path, l: Leaf, d: nat)
    requires Formed(t, d)
    ensures Formed(SetLeaf(t, p, l), d) && (Occupied(t) ==> Occupied(SetLeaf(t, p, l)))
    decreases t
  {
    if p != [] && p[0] < |t.entries| && !t.entries[p[0]].Invalid? {
      if t.entries[p[0]].Table? {
        SetLeafFormed(t.entries[p[0]].sub, p[1..], l, d - 1);
      }
      assert !SetLeaf(t, p, l).entries[p[0]].Invalid?;
    }
  }

  // ---- adding one page (mmap.c:158-223, one iteration) ----

  function Blank(n: nat): (es: seq<Entry>)
    ensures |es| == n && forall i :: 0 <= i < n ==> es[i] == Invalid
  {
    if n == 0 then [] else [Invalid] + Blank(n - 1)
  }

  // Missing tables are taken from picks, top down; an entry already present is left alone.
  function Insert(t: Tree, p: Path, l: Leaf, picks: seq<nat>): (r: Tree)
    decreases |p|, t
  {
    if p == [] || p[0] >= |t.entries| then t
    else if |p| == 1 then (if t.entries[p[0]].Invalid? then t.(entries := t.entries[p[0] := Page(l)]) else t)
    else match t.entries[p[0]]
      case Invalid =>
        if picks == [] then t
        else t.(entries := t.entries[p[0] := Table(Insert(Tree(picks[0], Blank(ENTRIES)), p[1..], l, picks[1..]))])
      case Page(_) => t
      case Table(s) => t.(entries := t.entries[p[0] := Table(Insert(s, p[1..], l, picks))])
  }

  // How many tables Insert takes.
  function Missing(t: Tree, p: Path): (n: nat)
    ensures n <= |p|
    decreases |p|
  {
    if |p| <= 1 || p[0] >= |t.entries| then 0
    else match t.entries[p[0]]
      case Invalid => |p| - 1
      case Page(_) => 0
      case Table(s) => Missing(s, p[1..])
  }

  lemma {:induction false} BlankCounts(n: nat, f: nat)
    ensures EntryMaps(Blank(n), f) == 0 && EntryUses(Blank(n), f) == 0
  {
    if n > 0 {
      BlankCounts(n - 1, f);
      assert Blank(n)[1..] == Blank(n - 1);
    }
  }

  lemma {:induction false} InsertLookup(t: Tree, p: Path, l: Leaf, picks: seq<nat>, q: Path)
    requires Formed(t, |p|) && IsPath(p, |p|) && p != [] && |q| == |p| && Missing(t, p) <= |picks|
    ensures Lookup(Insert(t, p, l, picks), q) == if q == p && Lookup(t, p).None? then Some(l) else Lookup(t, q)
    decreases |p|, t
  {
    if q[0] == p[0] && |p| > 1 {
      assert p == [p[0]] + p[1..] && q == [q[0]] + q[1..];
      match t.entries[p[0]]
      case Invalid =>
        BlankFormed(picks[0], |p| - 1);
        InsertLookup(Tree(picks[0], Blank(ENTRIES)), p[1..], l, picks[1..], q[1..]);
        BlankLookup(picks[0], p[1..]);
        BlankLookup(picks[0], q[1..]);
      case Table(s) => InsertLookup(s, p[1..], l, picks, q[1..]);
    }
  }

  lemma BlankFormed(page: nat, d: nat)
    requires d > 0
    ensures Formed(Tree(page, Blank(ENTRIES)), d)
  {
    assert forall i :: 0 <= i < ENTRIES ==> Blank(ENTRIES)[i] == Invalid;
  }

  lemma BlankMissing(page: nat, p: Path)
    requires IsPath(p, |p|) && p != []
    ensures Missing(Tree(page, Blank(ENTRIES)), p) == |p| - 1
  {
    assert Blank(ENTRIES)[p[0]] == Invalid;
  }

  lemma BlankLookup(page: nat, p: Path)
    ensures Lookup(Tree(page, Blank(ENTRIES)), p) == None
  {
  }

  lemma InsertCounts(t: Tree, p: Path, l: Leaf, picks: seq<nat>, f: nat)
    requires Formed(t, |p|) && IsPath(p, |p|) && p != [] && Missing(t, p) <= |picks|
    ensures Maps(Insert(t, p, l, picks), f) == Maps(t, f) + (if Lookup(t, p).None? && l.frame == f then 1 else 0)
    ensures Uses(Insert(t, p, l, picks), f) == Uses(t, f) + multiset(picks[..Missing(t, p)])[f]
  {
    LeafAdded(t, p, l, picks, f);
    TablesTaken(t, p, l, picks, f);
  }

  lemma {:induction false} LeafAdded(t: Tree, p: Path, l: Leaf, picks: seq<nat>, f: nat)
    requires Formed(t, |p|) && IsPath(p, |p|) && p != [] && Missing(t, p) <= |picks|
    ensures Maps(Insert(t, p, l, picks), f) == Maps(t, f) + (if Lookup(t, p).None? && l.frame == f then 1 else 0)
    decreases |p|, t
  {
    hide Uses;
    EntryMapsAt(t.entries, p[0], Insert(t, p, l, picks).entries[p[0]], f);
    if |p| > 1 {
      match t.entries[p[0]]
      case Invalid =>
        NewTableCounts(p, l, picks, f);
        LeafAdded(Tree(picks[0], Blank(ENTRIES)), p[1..], l, picks[1..], f);
      case Table(s) => LeafAdded(s, p[1..], l, picks, f);
    }
  }

  lemma {:induction false} TablesTaken(t: Tree, p: Path, l: Leaf, picks: seq<nat>, f: nat)
    requires Formed(t, |p|) && IsPath(p, |p|) && p != [] && Missing(t, p) <= |picks|
    ensures Uses(Insert(t, p, l, picks), f) == Uses(t, f) + multiset(picks[..Missing(t, p)])[f]
    decreases |p|, t
  {
    hide Maps, Lookup;
    EntryUsesAt(t.entries, p[0], Insert(t, p, l, picks).entries[p[0]], f);
    if |p| > 1 {
      match t.entries[p[0]]
      case Invalid =>
        NewTableCounts(p, l, picks, f);
        TablesTaken(Tree(picks[0], Blank(ENTRIES)), p[1..], l, picks[1..], f);
      case Table(s) => TablesTaken(s, p[1..], l, picks, f);
    }
  }

  lemma NewTableCounts(p: Path, l: Leaf, picks: seq<nat>, f: nat)
    requires |p| > 1 && IsPath(p, |p|) && |p| - 1 <= |picks|
    ensures var b := Tree(picks[0], Blank(ENTRIES));
      && Formed(b, |p| - 1) && Missing(b, p[1..]) == |p| - 2 && Lookup(b, p[1..]) == None
      && Maps(b, f) == 0 && Uses(b, f) == if picks[0] == f then 1 else 0
    ensures multiset(picks[..|p| - 1])[f] == (if picks[0] == f then 1 else 0) + multiset(picks[1..][..|p| - 2])[f]
  {
    BlankFormed(picks[0], |p| - 1);
    BlankCounts(ENTRIES, f);
    BlankLookup(picks[0], p[1..]);
    BlankMissing(picks[0], p[1..]);
    assert picks[..|p| - 1] == [picks[0]] + picks[1..][..|p| - 2];
  }

  lemma {:induction false} InsertFormed(t: Tree, p: Path, l: Leaf, picks: seq<nat>)
    requires Formed(t, |p|) && IsPath(p, |p|) && p != [] && Missing(t, p) <= |picks|
    ensures Formed(Insert(t, p, l, picks), |p|) && Occupied(Insert(t, p, l, picks))
    decreases |p|, t
  {
    if |p| > 1 {
      match t.entries[p[0]]
      case Invalid =>
        BlankFormed(picks[0], |p| - 1);
        InsertFormed(Tree(picks[0], Blank(ENTRIES)), p[1..], l, picks[1..]);
      case Table(s) => InsertFormed(s, p[1..], l, picks);
    }
    assert !Insert(t, p, l, picks).entries[p[0]].Invalid?;
  }
}
