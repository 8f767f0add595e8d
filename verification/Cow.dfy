// Copy-on-write address spaces: fork, user writes with their faults, lazy mapping and
// teardown by reference counts, over physical pages handed out by the buddy allocator.
// The allocator's choices are arguments of the operations, so every result holds for
// whatever free pages it picks.
module Cow {
  import opened PageTree
  import opened RefCount

  type PageData = s: seq<bv8> | |s| == 4096 witness seq(4096, i => 0)

  // managed: the pages of the buddy region (everything else is reserved).
  // kernel: managed pages held by other kernel users, or leaked by the fault handler.
  // refs: the refcount field of every frame. spaces[pid] is a process's table, if alive.
  datatype World = World(managed: set<nat>, kernel: set<nat>, free: set<nat>, refs: nat -> nat, data: nat -> PageData,
                         spaces: seq<Option<Tree>>)

  const LEVELS := 4

  // ---- how often a frame is mapped, and used as a table, by all live processes ----

  function MapCount(ss: seq<Option<Tree>>, f: nat): (n: nat) {
    if ss == [] then 0 else (if ss[0].Some? then Maps(ss[0].value, f) else 0) + MapCount(ss[1..], f)
  }

  function UseCount(ss: seq<Option<Tree>>, f: nat): (n: nat) {
    if ss == [] then 0 else (if ss[0].Some? then Uses(ss[0].value, f) else 0) + UseCount(ss[1..], f)
  }

  function SpaceMaps(s: Option<Tree>, f: nat): (n: nat) {
    if s.Some? then Maps(s.value, f) else 0
  }

  function SpaceUses(s: Option<Tree>, f: nat): (n: nat) {
    if s.Some? then Uses(s.value, f) else 0
  }

  lemma {:induction false} CountsAt(ss: seq<Option<Tree>>, i: nat, s: Option<Tree>, f: nat)
    requires i < |ss|
    ensures MapCount(ss[i := s], f) == MapCount(ss, f) - SpaceMaps(ss[i], f) + SpaceMaps(s, f)
    ensures UseCount(ss[i := s], f) == UseCount(ss, f) - SpaceUses(ss[i], f) + SpaceUses(s, f)
    ensures SpaceMaps(ss[i], f) <= MapCount(ss, f) && SpaceUses(ss[i], f) <= UseCount(ss, f)
  {
    if i == 0 {
      assert ss[0 := s][1..] == ss[1..];
    } else {
      CountsAt(ss[1..], i - 1, s, f);
      assert ss[i := s][1..] == ss[1..][i - 1 := s];
    }
  }

  lemma {:induction false} CountsAppend(ss: seq<Option<Tree>>, s: Option<Tree>, f: nat)
    ensures MapCount(ss + [s], f) == MapCount(ss, f) + SpaceMaps(s, f)
    ensures UseCount(ss + [s], f) == UseCount(ss, f) + SpaceUses(s, f)
  {
    if ss == [] {
      assert ss + [s] == [s];
    } else {
      CountsAppend(ss[1..], s, f);
      assert (ss + [s])[1..] == ss[1..] + [s];
    }
  }

  lemma {:induction false} CountsTwo(ss: seq<Option<Tree>>, i: nat, j: nat, f: nat)
    requires i < j < |ss|
    ensures SpaceMaps(ss[i], f) + SpaceMaps(ss[j], f) <= MapCount(ss, f)
  {
    if i == 0 {
      CountsAt(ss[1..], j - 1, None, f);
    } else {
      CountsTwo(ss[1..], i - 1, j - 1, f);
    }
  }

  // ---- the invariant ----

  // Every managed page is free, held by the kernel, or in use, and only one of these; a
  // page in use has a reference for every use; a table page has exactly one.
  ghost predicate PageOk(w: World, f: nat) {
    var m, u := MapCount(w.spaces, f), UseCount(w.spaces, f);
    && (f in w.free ==> f in w.managed && f !in w.kernel && m == 0 && u == 0)
    && (f in w.kernel ==> f in w.managed && m == 0 && u == 0)
    && (f in w.managed && m == 0 && u == 0 ==> f in w.free || f in w.kernel)
    && u <= 1 && (u == 1 ==> f in w.managed && m == 0)
    && (f in w.managed && m + u > 0 ==> w.refs(f) == m + u)
  }

  predicate Alive(w: World, i: nat) {
    i < |w.spaces| && w.spaces[i].Some?
  }

  function LeafAt(w: World, i: nat, p: Path): (l: Option<Leaf>) {
    if Alive(w, i) then Lookup(w.spaces[i].value, p) else None
  }

  // A page that a process may write directly is mapped nowhere else.
  ghost predicate AloneOk(w: World, i: nat, p: Path) {
    var l := LeafAt(w, i, p);
    |p| == LEVELS && l.Some? && l.value.access == ReadWrite ==> MapCount(w.spaces, l.value.frame) == 1
  }

  ghost predicate Inv(w: World) {
    && (forall f: nat :: PageOk(w, f))
    && (forall i: nat :: Alive(w, i) ==> Formed(w.spaces[i].value, LEVELS))
    && (forall i: nat, p: Path :: AloneOk(w, i, p))
  }

  // ---- what a process reads ----

  function View(w: World, i: nat, p: Path): (v: Option<PageData>) {
    var l := LeafAt(w, i, p);
    if l.Some? then Some(w.data(l.value.frame)) else None
  }

  lemma LeafCounted(w: World, i: nat, p: Path)
    requires LeafAt(w, i, p).Some?
    ensures 1 <= Maps(w.spaces[i].value, LeafAt(w, i, p).value.frame) <= MapCount(w.spaces, LeafAt(w, i, p).value.frame)
  {
    LookupIsMapped(w.spaces[i].value, p);
    CountsAt(w.spaces, i, None, LeafAt(w, i, p).value.frame);
  }

  // A frame mapped once is seen through one virtual page only.
  lemma MappedOnce(w: World, i: nat, p: Path, j: nat, q: Path)
    requires LeafAt(w, i, p).Some? && LeafAt(w, j, q).Some? && |p| == |q| && (i != j || p != q)
    requires MapCount(w.spaces, LeafAt(w, i, p).value.frame) == 1
    ensures LeafAt(w, j, q).value.frame != LeafAt(w, i, p).value.frame
  {
    var f := LeafAt(w, i, p).value.frame;
    if LeafAt(w, j, q).value.frame == f {
      LookupIsMapped(w.spaces[i].value, p);
      LookupIsMapped(w.spaces[j].value, q);
      CountsAt(w.spaces, i, None, f);
      if i == j {
        TwoLookups(w.spaces[i].value, p, q);
      } else {
        CountsTwo(w.spaces, if i < j then i else j, if i < j then j else i, f);
      }
      assert false;
    }
  }

  function Put(refs: nat -> nat, k: nat, v: nat): (r: nat -> nat) {
    (f: nat) => if f == k then v else refs(f)
  }

  function PutPage(data: nat -> PageData, k: nat, v: PageData): (r: nat -> PageData) {
    (f: nat) => if f == k then v else data(f)
  }

  // ---- a new process (process.c:36-111) starts with an empty top-level table ----

  function Spawn(w: World, page: nat): (r: World) {
    w.(spaces := w.spaces + [Some(Tree(page, Blank(ENTRIES)))], free := w.free - {page}, refs := Put(w.refs, page, 1))
  }

  lemma SpawnKeepsInv(w: World, page: nat)
    requires Inv(w) && page in w.free
    ensures Inv(Spawn(w, page))
    ensures forall j: nat, p: Path :: LeafAt(Spawn(w, page), j, p) == LeafAt(w, j, p)
  {
    var r, t := Spawn(w, page), Tree(page, Blank(ENTRIES));
    forall f: nat
      ensures PageOk(r, f)
      ensures MapCount(r.spaces, f) == MapCount(w.spaces, f)
    {
      BlankCounts(ENTRIES, f);
      CountsAppend(w.spaces, Some(t), f);
      assert PageOk(w, f);
    }
    BlankFormed(page, LEVELS);
    forall j: nat, p: Path
      ensures LeafAt(r, j, p) == LeafAt(w, j, p) && AloneOk(r, j, p)
    {
      BlankLookup(page, p);
      assert AloneOk(w, j, p);
    }
  }

  // With no process, a partition of the managed pages is all there is to the invariant.
  lemma BootInv(managed: set<nat>, kernel: set<nat>, refs: nat -> nat, data: nat -> PageData)
    requires kernel <= managed
    ensures Inv(World(managed, kernel, managed - kernel, refs, data, []))
  {
  }

  // ---- fork (process.c:113-176 through paging.c:342-396) ----

  predicate CanFork(w: World, i: nat) {
    Alive(w, i)
  }

  ghost predicate ForkLegal(w: World, i: nat, child: Tree) {
    && CanFork(w, i) && CopyOf(child, Mark(w.spaces[i].value))
    && forall f: nat :: Uses(child, f) <= 1 && (Uses(child, f) == 1 ==> f in w.free)
  }

  // Both tables get read-only copy-on-write leaves; every leaf adds a reference; the child
  // appears as the next process, its tables on fresh pages.
  function Fork(w: World, i: nat, child: Tree): (r: World)
    requires CanFork(w, i)
  {
    var t := w.spaces[i].value;
    w.(spaces := w.spaces[i := Some(Mark(t))] + [Some(child)],
       free := (set f | f in w.free && Uses(child, f) == 0),
       refs := f => if Uses(child, f) > 0 then 1 else w.refs(f) + Maps(t, f))
  }

  lemma ForkCounts(w: World, i: nat, child: Tree, f: nat)
    requires ForkLegal(w, i, child)
    ensures var r := Fork(w, i, child);
      && MapCount(r.spaces, f) == MapCount(w.spaces, f) + Maps(w.spaces[i].value, f)
      && UseCount(r.spaces, f) == UseCount(w.spaces, f) + Uses(child, f)
      && Maps(child, f) == Maps(w.spaces[i].value, f) <= MapCount(w.spaces, f)
  {
    var t := w.spaces[i].value;
    MarkCounts(t, f);
    CopyMaps(child, Mark(t), f);
    CountsAt(w.spaces, i, Some(Mark(t)), f);
    CountsAppend(w.spaces[i := Some(Mark(t))], Some(child), f);
  }

  lemma ForkLeaves(w: World, i: nat, child: Tree, j: nat, p: Path)
    requires ForkLegal(w, i, child)
    ensures var r := Fork(w, i, child);
      LeafAt(r, j, p) ==
        if j == i || j == |w.spaces| then (var l := LeafAt(w, i, p); if l.Some? then Some(Shared(l.value)) else None)
        else LeafAt(w, j, p)
  {
    MarkLookup(w.spaces[i].value, p);
    CopyLookup(child, Mark(w.spaces[i].value), p);
  }

  lemma ForkKeepsInv(w: World, i: nat, child: Tree)
    requires Inv(w) && ForkLegal(w, i, child)
    ensures Inv(Fork(w, i, child))
  {
    var r := Fork(w, i, child);
    forall f: nat
      ensures PageOk(r, f)
    {
      ForkCounts(w, i, child, f);
      assert PageOk(w, f);
    }
    MarkFormed(w.spaces[i].value, LEVELS);
    CopyFormed(child, Mark(w.spaces[i].value), LEVELS);
    forall j: nat, p: Path
      ensures AloneOk(r, j, p)
    {
      ForkLeaves(w, i, child, j, p);
      ForkKeepsAlone(w, i, child, j, p);
    }
  }

  lemma ForkKeepsAlone(w: World, i: nat, child: Tree, j: nat, p: Path)
    requires Inv(w) && ForkLegal(w, i, child)
    ensures AloneOk(Fork(w, i, child), j, p)
  {
    ForkLeaves(w, i, child, j, p);
    var l := LeafAt(w, j, p);
    if |p| == LEVELS && j != i && j < |w.spaces| && l.Some? && l.value.access == ReadWrite {
      assert AloneOk(w, j, p);
      var f := l.value.frame;
      ForkCounts(w, i, child, f);
      LeafCounted(w, j, p);
      CountsTwo(w.spaces, if i < j then i else j, if i < j then j else i, f);
    }
  }

  // ---- the copy-on-write fault (userfault.c:93-143) ----

  function Take(w: World, n: nat): (r: World) {
    w.(free := w.free - {n}, refs := Put(w.refs, n, 1))
  }

  // decrement_ref on an order-0 page: reserved frames are left alone, and the last
  // reference frees the page.
  function Drop(w: World, f: nat): (r: World) {
    if f !in w.managed then w
    else
      w.(refs := Put(w.refs, f, Minus1(w.refs(f))),
         free := if Minus1(w.refs(f)) == 0 then w.free + {f} else w.free)
  }

  predicate CanFault(w: World, i: nat, p: Path) {
    |p| == LEVELS && LeafAt(w, i, p).Some? && LeafAt(w, i, p).value.cow
  }

  // The contents move to page n; the entry becomes writable only if the old page had a
  // single reference, otherwise it stays copy-on-write and the retried write faults again.
  function FaultLeaf(w: World, l: Leaf, n: nat): (r: Leaf) {
    if w.refs(l.frame) == 1 then Leaf(n, false, ReadWrite) else l.(frame := n)
  }

  function Fault(w: World, i: nat, p: Path, n: nat): (r: World)
    requires CanFault(w, i, p)
  {
    var l := LeafAt(w, i, p).value;
    var a := Take(w, n);
    var b := a.(data := PutPage(w.data, n, w.data(l.frame)));
    var c := Drop(b, l.frame);
    c.(spaces := w.spaces[i := Some(SetLeaf(w.spaces[i].value, p, FaultLeaf(a, l, n)))])
  }

  lemma FaultCounts(w: World, i: nat, p: Path, n: nat, f: nat)
    requires CanFault(w, i, p)
    ensures var r, o := Fault(w, i, p, n), LeafAt(w, i, p).value.frame;
      && MapCount(r.spaces, f) == MapCount(w.spaces, f) - (if f == o then 1 else 0) + (if f == n then 1 else 0)
      && UseCount(r.spaces, f) == UseCount(w.spaces, f)
      && (f == o ==> MapCount(w.spaces, f) >= 1)
  {
    var l := LeafAt(w, i, p).value;
    var m := FaultLeaf(Take(w, n), l, n);
    SetLeafCounts(w.spaces[i].value, p, m, f);
    CountsAt(w.spaces, i, Some(SetLeaf(w.spaces[i].value, p, m)), f);
    LeafCounted(w, i, p);
  }

  lemma FaultLeaves(w: World, i: nat, p: Path, n: nat, j: nat, q: Path)
    requires CanFault(w, i, p) && |q| == LEVELS
    ensures LeafAt(Fault(w, i, p, n), j, q) ==
      if j == i && q == p then Some(FaultLeaf(Take(w, n), LeafAt(w, i, p).value, n)) else LeafAt(w, j, q)
  {
    SetLeafLookup(w.spaces[i].value, p, FaultLeaf(Take(w, n), LeafAt(w, i, p).value, n), q);
  }

  lemma FreshNotMapped(w: World, n: nat, j: nat, q: Path)
    requires Inv(w) && n in w.free
    ensures LeafAt(w, j, q).Some? ==> LeafAt(w, j, q).value.frame != n
  {
    assert PageOk(w, n);
    if LeafAt(w, j, q).Some? {
      LeafCounted(w, j, q);
    }
  }

  lemma FaultKeepsPage(w: World, i: nat, p: Path, n: nat, f: nat)
    requires Inv(w) && CanFault(w, i, p) && n in w.free
    ensures PageOk(Fault(w, i, p, n), f)
  {
    FaultCounts(w, i, p, n, f);
    assert PageOk(w, f);
    FreshNotMapped(w, n, i, p);
  }

  lemma FaultKeepsInv(w: World, i: nat, p: Path, n: nat)
    requires Inv(w) && CanFault(w, i, p) && n in w.free
    ensures Inv(Fault(w, i, p, n))
  {
    var r := Fault(w, i, p, n);
    forall f: nat
      ensures PageOk(r, f)
    {
      FaultKeepsPage(w, i, p, n, f);
    }
    SetLeafFormed(w.spaces[i].value, p, FaultLeaf(Take(w, n), LeafAt(w, i, p).value, n), LEVELS);
    forall j: nat, q: Path
      ensures AloneOk(r, j, q)
    {
      if |q| == LEVELS {
        FaultKeepsAlone(w, i, p, n, j, q);
      }
    }
  }

  lemma FaultKeepsAlone(w: World, i: nat, p: Path, n: nat, j: nat, q: Path)
    requires Inv(w) && CanFault(w, i, p) && n in w.free && |q| == LEVELS
    ensures AloneOk(Fault(w, i, p, n), j, q)
  {
    FaultLeaves(w, i, p, n, j, q);
    assert PageOk(w, n);
    if j == i && q == p {
      FaultCounts(w, i, p, n, n);
      FreshNotMapped(w, n, i, p);
    } else if LeafAt(w, j, q).Some? && LeafAt(w, j, q).value.access == ReadWrite {
      assert AloneOk(w, j, q);
      MappedOnce(w, j, q, i, p);
      FreshNotMapped(w, n, j, q);
      FaultCounts(w, i, p, n, LeafAt(w, j, q).value.frame);
    }
  }

  // The fault is invisible to every process.
  lemma FaultKeepsView(w: World, i: nat, p: Path, n: nat, j: nat, q: Path)
    requires Inv(w) && CanFault(w, i, p) && n in w.free && |q| == LEVELS
    ensures View(Fault(w, i, p, n), j, q) == View(w, j, q)
  {
    FaultLeaves(w, i, p, n, j, q);
    FreshNotMapped(w, n, j, q);
  }

  // ---- a user store, retried after each fault ----

  function Store(w: World, i: nat, p: Path, off: nat, b: bv8): (r: World)
    requires LeafAt(w, i, p).Some? && off < 4096
  {
    var fr := LeafAt(w, i, p).value.frame;
    w.(data := f => if f == fr then w.data(f)[off := b] else w.data(f))
  }

  // A store completes on a writable page and, after faults, on a copy-on-write page.
  predicate Completes(w: World, i: nat, p: Path) {
    LeafAt(w, i, p).Some? && (LeafAt(w, i, p).value.access == ReadWrite || LeafAt(w, i, p).value.cow)
  }

  // The process may read the page as it is mapped.
  predicate Readable(w: World, i: nat, p: Path) {
    LeafAt(w, i, p).Some? && !LeafAt(w, i, p).value.access.Hidden?
  }

  // A page marked copy-on-write is mapped read-only.
  predicate MarkOk(w: World, i: nat, p: Path) {
    LeafAt(w, i, p).Some? && LeafAt(w, i, p).value.cow ==> LeafAt(w, i, p).value.access == ReadOnly
  }

  function Write(w: World, i: nat, p: Path, off: nat, b: bv8, picks: seq<nat>): (r: World)
    requires |p| == LEVELS && off < 4096
    decreases |picks|
  {
    var l := LeafAt(w, i, p);
    if l.None? then w
    else if l.value.access == ReadWrite then Store(w, i, p, off, b)
    else if !l.value.cow || picks == [] then w
    else Write(Fault(w, i, p, picks[0]), i, p, off, b, picks[1..])
  }

  // Each fault finds a free page.
  predicate WriteLegal(w: World, i: nat, p: Path, picks: seq<nat>)
    requires |p| == LEVELS
    decreases |picks|
  {
    var l := LeafAt(w, i, p);
    if l.None? || l.value.access == ReadWrite || !l.value.cow then true
    else picks != [] && picks[0] in w.free && WriteLegal(Fault(w, i, p, picks[0]), i, p, picks[1..])
  }

  function Faults(w: World, i: nat, p: Path, picks: seq<nat>): (n: nat)
    requires |p| == LEVELS
    decreases |picks|
  {
    var l := LeafAt(w, i, p);
    if l.None? || l.value.access == ReadWrite || !l.value.cow || picks == [] then 0
    else 1 + Faults(Fault(w, i, p, picks[0]), i, p, picks[1..])
  }

  // A store takes no fault on a writable page, one on an unshared copy-on-write page and
  // two on a shared one.
  lemma FaultCount(w: World, i: nat, p: Path, picks: seq<nat>)
    requires Inv(w) && |p| == LEVELS && WriteLegal(w, i, p, picks)
    ensures Faults(w, i, p, picks) ==
      if !Completes(w, i, p) || LeafAt(w, i, p).value.access == ReadWrite then 0
      else if w.refs(LeafAt(w, i, p).value.frame) == 1 then 1 else 2
  {
    if Completes(w, i, p) && LeafAt(w, i, p).value.access != ReadWrite {
      var a, n := Fault(w, i, p, picks[0]), picks[0];
      FreshNotMapped(w, n, i, p);
      FaultKeepsInv(w, i, p, n);
      FaultLeaves(w, i, p, n, i, p);
      if LeafAt(a, i, p).value.access != ReadWrite {
        assert a.refs(n) == 1;
        var rest := picks[1..];
        FaultLeaves(a, i, p, rest[0], i, p);
        FreshNotMapped(a, rest[0], i, p);
        assert Faults(Fault(a, i, p, rest[0]), i, p, rest[1..]) == 0;
        assert Faults(a, i, p, rest) == 1;
      }
    }
  }

  lemma StoreKeepsInv(w: World, i: nat, p: Path, off: nat, b: bv8)
    requires Inv(w) && LeafAt(w, i, p).Some? && off < 4096
    ensures Inv(Store(w, i, p, off, b))
  {
    var r := Store(w, i, p, off, b);
    assert forall f: nat :: PageOk(w, f) ==> PageOk(r, f);
    assert forall j: nat, q: Path :: AloneOk(w, j, q) ==> AloneOk(r, j, q);
  }

  // The store changes one byte of one page of one process, and no other process's view.
  lemma {:induction false} WriteLaw(w: World, i: nat, p: Path, off: nat, b: bv8, picks: seq<nat>)
    requires Inv(w) && |p| == LEVELS && off < 4096 && WriteLegal(w, i, p, picks)
    ensures Inv(Write(w, i, p, off, b, picks))
    ensures |Write(w, i, p, off, b, picks).spaces| == |w.spaces| && forall j: nat ::
      Alive(Write(w, i, p, off, b, picks), j) <==> Alive(w, j)
    ensures forall j: nat, q: Path :: |q| == LEVELS ==>
      View(Write(w, i, p, off, b, picks), j, q) ==
        if j == i && q == p && Completes(w, i, p) then Some(View(w, i, p).value[off := b]) else View(w, j, q)
    decreases |picks|
  {
    var l := LeafAt(w, i, p);
    if l.Some? && l.value.access == ReadWrite {
      StoreKeepsInv(w, i, p, off, b);
      forall j: nat, q: Path | |q| == LEVELS
        ensures View(Store(w, i, p, off, b), j, q) == if j == i && q == p then Some(View(w, i, p).value[off := b])
          else View(w, j, q)
      {
        StoreView(w, i, p, off, b, j, q);
      }
    } else if l.Some? && l.value.cow {
      var a := Fault(w, i, p, picks[0]);
      FaultKeepsInv(w, i, p, picks[0]);
      WriteLaw(a, i, p, off, b, picks[1..]);
      FaultLeaves(w, i, p, picks[0], i, p);
      FaultKeepsView(w, i, p, picks[0], i, p);
      assert Completes(a, i, p);
      forall j: nat, q: Path | |q| == LEVELS
        ensures View(a, j, q) == View(w, j, q)
      {
        FaultKeepsView(w, i, p, picks[0], j, q);
      }
    }
  }

  lemma StoreView(w: World, i: nat, p: Path, off: nat, b: bv8, j: nat, q: Path)
    requires Inv(w) && |p| == |q| == LEVELS && off < 4096 && LeafAt(w, i, p).Some?
    requires LeafAt(w, i, p).value.access == ReadWrite
    ensures View(Store(w, i, p, off, b), j, q) == if j == i && q == p then Some(View(w, i, p).value[off := b])
      else View(w, j, q)
  {
    assert AloneOk(w, i, p);
    if (j != i || q != p) && LeafAt(w, j, q).Some? {
      MappedOnce(w, i, p, j, q);
    }
  }

  // ---- teardown (paging.c:396-411) ----

  // The walk drops one reference per leaf, and then the table page itself.
  function ReapTree(w: World, t: Tree): (r: World)
    decreases t, 1
  {
    Drop(ReapEntries(w, t.entries), t.page)
  }

  function ReapEntries(w: World, es: seq<Entry>): (r: World)
    decreases es, 0
  {
    if es == [] then w else ReapEntries(ReapOne(w, es[0]), es[1..])
  }

  function ReapOne(w: World, e: Entry): (r: World)
    decreases e, 2
  {
    match e
    case Invalid => w
    case Page(l) => Drop(w, l.frame)
    case Table(s) => ReapTree(w, s)
  }

  function Reap(w: World, i: nat): (r: World)
    requires Alive(w, i)
  {
    ReapTree(w, w.spaces[i].value).(spaces := w.spaces[i := None])
  }

  // r is w after dropping n(f) references of every managed frame f.
  ghost predicate Dropped(w: World, r: World, f: nat, n: nat) {
    && r.managed == w.managed && r.kernel == w.kernel && r.spaces == w.spaces && r.data == w.data
    && (f in w.managed && n <= w.refs(f) ==>
          r.refs(f) == w.refs(f) - n && (f in r.free <==> f in w.free || (n > 0 && n == w.refs(f))))
    && (f !in w.managed || n == 0 ==> r.refs(f) == w.refs(f) && (f in r.free <==> f in w.free))
  }

  lemma {:induction false} ReapTreeLaw(w: World, t: Tree, f: nat)
    ensures Dropped(w, ReapTree(w, t), f, Maps(t, f) + Uses(t, f))
    decreases t, 1
  {
    ReapEntriesLaw(w, t.entries, f);
  }

  lemma {:induction false} ReapEntriesLaw(w: World, es: seq<Entry>, f: nat)
    ensures Dropped(w, ReapEntries(w, es), f, EntryMaps(es, f) + EntryUses(es, f))
    decreases es, 0
  {
    if es != [] {
      ReapOneLaw(w, es[0], f);
      ReapEntriesLaw(ReapOne(w, es[0]), es[1..], f);
    }
  }

  lemma {:induction false} ReapOneLaw(w: World, e: Entry, f: nat)
    ensures Dropped(w, ReapOne(w, e), f, OneMaps(e, f) + OneUses(e, f))
    decreases e, 2
  {
    if e.Table? {
      ReapTreeLaw(w, e.sub, f);
    }
  }

  lemma ReapKeepsPage(w: World, i: nat, f: nat)
    requires Inv(w) && Alive(w, i)
    ensures PageOk(Reap(w, i), f)
  {
    CountsAt(w.spaces, i, None, f);
    assert PageOk(w, f);
    ReapTreeLaw(w, w.spaces[i].value, f);
  }

  lemma ReapSpaces(w: World, i: nat)
    requires Alive(w, i)
    ensures var r := Reap(w, i); r.spaces == w.spaces[i := None] && r.data == w.data && r.managed == w.managed
  {
    ReapTreeLaw(w, w.spaces[i].value, 0);
  }

  lemma ReapKeepsInv(w: World, i: nat)
    requires Inv(w) && Alive(w, i)
    ensures Inv(Reap(w, i))
  {
    var r := Reap(w, i);
    forall f: nat
      ensures PageOk(r, f)
    {
      ReapKeepsPage(w, i, f);
    }
    ReapSpaces(w, i);
    forall j: nat, p: Path
      ensures AloneOk(r, j, p)
    {
      assert AloneOk(w, j, p);
      if LeafAt(r, j, p).Some? {
        LeafCounted(r, j, p);
        CountsAt(w.spaces, i, None, LeafAt(r, j, p).value.frame);
      }
    }
  }

  // ---- lazy mapping (userfault.c:22-45) ----

  ghost predicate MapLegal(w: World, i: nat, p: Path, n: nat, picks: seq<nat>) {
    && Alive(w, i) && IsPath(p, LEVELS) && n in w.free
    && |picks| == Missing(w.spaces[i].value, p)
    && (forall k :: 0 <= k < |picks| ==> picks[k] in w.free && picks[k] != n)
    && (forall k, l :: 0 <= k < l < |picks| ==> picks[k] != picks[l])
  }

  // A page is taken for the fault and entered into the table, unless the entry is already
  // there; missing tables are taken too.
  function LazyMap(w: World, i: nat, p: Path, n: nat, access: Access, picks: seq<nat>): (r: World)
    requires Alive(w, i)
  {
    var first: nat := 1;
    w.(free := w.free - {n} - (set x | x in picks),
       refs := f => if f == n || f in picks then first else w.refs(f),
       spaces := w.spaces[i := Some(Insert(w.spaces[i].value, p, Leaf(n, false, access), picks))])
  }

  lemma PicksOnce(picks: seq<nat>, f: nat)
    requires forall k, l :: 0 <= k < l < |picks| ==> picks[k] != picks[l]
    ensures multiset(picks)[f] == if f in picks then 1 else 0
  {
    if picks != [] {
      PicksOnce(picks[1..], f);
      assert picks == [picks[0]] + picks[1..];
    }
  }

  lemma LazyMapCounts(w: World, i: nat, p: Path, n: nat, access: Access, picks: seq<nat>, f: nat)
    requires Inv(w) && MapLegal(w, i, p, n, picks)
    ensures var r := LazyMap(w, i, p, n, access, picks);
      && MapCount(r.spaces, f) == MapCount(w.spaces, f) + (if LeafAt(w, i, p).None? && f == n then 1 else 0)
      && UseCount(r.spaces, f) == UseCount(w.spaces, f) + if f in picks then 1 else 0
  {
    var t := w.spaces[i].value;
    InsertCounts(t, p, Leaf(n, false, access), picks, f);
    assert picks[..|picks|] == picks;
    PicksOnce(picks, f);
    CountsAt(w.spaces, i, Some(Insert(t, p, Leaf(n, false, access), picks)), f);
  }

  lemma LazyMapLeaves(w: World, i: nat, p: Path, n: nat, access: Access, picks: seq<nat>, j: nat, q: Path)
    requires Inv(w) && MapLegal(w, i, p, n, picks) && |q| == LEVELS
    ensures LeafAt(LazyMap(w, i, p, n, access, picks), j, q) ==
      if j == i && q == p && LeafAt(w, i, p).None? then Some(Leaf(n, false, access)) else LeafAt(w, j, q)
  {
    InsertLookup(w.spaces[i].value, p, Leaf(n, false, access), picks, q);
  }

  // Lazy mapping accounts for every page exactly when the address was unmapped. On an
  // address that is mapped but faulted for permission, the page taken is leaked.
  lemma LazyMapInvIff(w: World, i: nat, p: Path, n: nat, access: Access, picks: seq<nat>)
    requires Inv(w) && MapLegal(w, i, p, n, picks)
    ensures Inv(LazyMap(w, i, p, n, access, picks)) <==> LeafAt(w, i, p).None?
  {
    var r := LazyMap(w, i, p, n, access, picks);
    if LeafAt(w, i, p).Some? {
      LazyMapCounts(w, i, p, n, access, picks, n);
      assert PageOk(w, n);
      assert !PageOk(r, n);
    } else {
      forall f: nat
        ensures PageOk(r, f)
      {
        LazyMapCounts(w, i, p, n, access, picks, f);
        assert PageOk(w, f);
      }
      InsertFormed(w.spaces[i].value, p, Leaf(n, false, access), picks);
      forall j: nat, q: Path
        ensures AloneOk(r, j, q)
      {
        if |q| == LEVELS {
          LazyMapKeepsAlone(w, i, p, n, access, picks, j, q);
        }
      }
    }
  }

  lemma LazyMapKeepsAlone(w: World, i: nat, p: Path, n: nat, access: Access, picks: seq<nat>, j: nat, q: Path)
    requires Inv(w) && MapLegal(w, i, p, n, picks) && LeafAt(w, i, p).None? && |q| == LEVELS
    ensures AloneOk(LazyMap(w, i, p, n, access, picks), j, q)
  {
    LazyMapLeaves(w, i, p, n, access, picks, j, q);
    LazyMapCounts(w, i, p, n, access, picks, n);
    assert PageOk(w, n);
    if LeafAt(w, j, q).Some? {
      assert AloneOk(w, j, q);
      FreshNotMapped(w, n, j, q);
      LazyMapCounts(w, i, p, n, access, picks, LeafAt(w, j, q).value.frame);
    }
  }

  // With the leaked page counted as held, the handler's mapping keeps the invariant on every
  // address it is called for.
  function MapFault(w: World, i: nat, p: Path, n: nat, access: Access, picks: seq<nat>): (r: World)
    requires Alive(w, i)
  {
    var r := LazyMap(w, i, p, n, access, picks);
    if LeafAt(w, i, p).None? then r else r.(kernel := w.kernel + {n})
  }

  lemma MapFaultKeepsInv(w: World, i: nat, p: Path, n: nat, access: Access, picks: seq<nat>)
    requires Inv(w) && MapLegal(w, i, p, n, picks)
    ensures Inv(MapFault(w, i, p, n, access, picks))
  {
    if LeafAt(w, i, p).None? {
      LazyMapInvIff(w, i, p, n, access, picks);
    } else {
      MappedFaultKeepsInv(w, i, p, n, access, picks);
    }
  }

  lemma MappedFaultKeepsInv(w: World, i: nat, p: Path, n: nat, access: Access, picks: seq<nat>)
    requires Inv(w) && MapLegal(w, i, p, n, picks) && LeafAt(w, i, p).Some?
    ensures Inv(MapFault(w, i, p, n, access, picks))
  {
    var r := MapFault(w, i, p, n, access, picks);
    LookupMissing(w.spaces[i].value, p);
    forall f: nat
      ensures PageOk(r, f)
    {
      LazyMapCounts(w, i, p, n, access, picks, f);
      assert PageOk(w, f);
    }
    InsertFormed(w.spaces[i].value, p, Leaf(n, false, access), picks);
    forall j: nat, q: Path
      ensures AloneOk(r, j, q)
    {
      if |q| == LEVELS {
        LazyMapLeaves(w, i, p, n, access, picks, j, q);
        assert AloneOk(w, j, q);
        if LeafAt(w, j, q).Some? {
          LazyMapCounts(w, i, p, n, access, picks, LeafAt(w, j, q).value.frame);
        }
      }
    }
  }

  lemma {:induction false} LookupMissing(t: Tree, p: Path)
    requires Lookup(t, p).Some?
    ensures Missing(t, p) == 0
    decreases |p|
  {
    if |p| > 1 {
      LookupMissing(t.entries[p[0]].sub, p[1..]);
    }
  }

  // ---- who may write survives everything but a fork ----

  // A store changes no process's right to write.
  lemma {:induction false} WriteKeepsRights(w: World, i: nat, p: Path, off: nat, b: bv8, picks: seq<nat>, j: nat,
          q: Path)
    requires Inv(w) && |p| == |q| == LEVELS && off < 4096 && WriteLegal(w, i, p, picks)
    ensures Completes(Write(w, i, p, off, b, picks), j, q) <==> Completes(w, j, q)
    decreases |picks|
  {
    var l := LeafAt(w, i, p);
    if l.Some? && l.value.access == ReadWrite {
      assert LeafAt(Store(w, i, p, off, b), j, q) == LeafAt(w, j, q);
    } else if l.Some? && l.value.cow {
      FaultKeepsInv(w, i, p, picks[0]);
      WriteKeepsRights(Fault(w, i, p, picks[0]), i, p, off, b, picks[1..], j, q);
      FaultLeaves(w, i, p, picks[0], j, q);
    }
  }

  // After a fork the parent and the child may write every page they map.
  lemma ForkRights(w: World, i: nat, child: Tree, j: nat, p: Path)
    requires ForkLegal(w, i, child)
    ensures Completes(Fork(w, i, child), j, p) <==>
      if j == i || j == |w.spaces| then LeafAt(w, i, p).Some? else Completes(w, j, p)
  {
    ForkLeaves(w, i, child, j, p);
  }

  // Fork lets both processes read whatever was mapped.
  lemma ForkReads(w: World, i: nat, child: Tree, j: nat, p: Path)
    requires ForkLegal(w, i, child)
    ensures Readable(Fork(w, i, child), j, p) <==>
      if j == i || j == |w.spaces| then LeafAt(w, i, p).Some? else Readable(w, j, p)
    ensures MarkOk(w, j, p) ==> MarkOk(Fork(w, i, child), j, p)
  {
    ForkLeaves(w, i, child, j, p);
  }

  lemma FaultKeepsReads(w: World, i: nat, p: Path, n: nat, j: nat, q: Path)
    requires CanFault(w, i, p) && MarkOk(w, i, p) && MarkOk(w, j, q) && |q| == LEVELS
    ensures Readable(Fault(w, i, p, n), j, q) <==> Readable(w, j, q)
    ensures MarkOk(Fault(w, i, p, n), j, q) && MarkOk(Fault(w, i, p, n), i, p)
  {
    FaultLeaves(w, i, p, n, j, q);
    FaultLeaves(w, i, p, n, i, p);
  }

  lemma {:induction false} WriteKeepsReads(w: World, i: nat, p: Path, off: nat, b: bv8, picks: seq<nat>, j: nat,
          q: Path)
    requires Inv(w) && |p| == |q| == LEVELS && off < 4096 && WriteLegal(w, i, p, picks)
    requires MarkOk(w, i, p) && MarkOk(w, j, q)
    ensures Readable(Write(w, i, p, off, b, picks), j, q) <==> Readable(w, j, q)
    ensures MarkOk(Write(w, i, p, off, b, picks), j, q)
    decreases |picks|
  {
    var l := LeafAt(w, i, p);
    if l.Some? && l.value.access == ReadWrite {
      assert LeafAt(Store(w, i, p, off, b), j, q) == LeafAt(w, j, q);
    } else if l.Some? && l.value.cow {
      FaultKeepsInv(w, i, p, picks[0]);
      FaultKeepsReads(w, i, p, picks[0], j, q);
      WriteKeepsReads(Fault(w, i, p, picks[0]), i, p, off, b, picks[1..], j, q);
    }
  }

  // ---- forking and reaping the child leaves no trace ----

  lemma ForkThenReap(w: World, i: nat, child: Tree)
    requires Inv(w) && ForkLegal(w, i, child)
    ensures var r := Reap(Fork(w, i, child), |w.spaces|);
      && r.free == w.free && Inv(r)
      && (forall f: nat :: f in w.managed && f !in w.free ==> r.refs(f) == w.refs(f))
      && (forall j: nat, p: Path :: View(r, j, p) == View(w, j, p))
  {
    var a, k := Fork(w, i, child), |w.spaces|;
    var r := Reap(a, k);
    ForkKeepsInv(w, i, child);
    ReapKeepsInv(a, k);
    ReapSpaces(a, k);
    forall f: nat
      ensures f in r.free <==> f in w.free
      ensures f in w.managed && f !in w.free ==> r.refs(f) == w.refs(f)
    {
      ForkCounts(w, i, child, f);
      assert PageOk(w, f) && PageOk(a, f);
      ReapTreeLaw(a, child, f);
    }
    forall j: nat, p: Path
      ensures View(r, j, p) == View(w, j, p)
    {
      ForkLeaves(w, i, child, j, p);
    }
  }
}
