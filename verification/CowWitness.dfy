// Reachable states in which the fault handler loses a page and fork grants a permission.
module CowWitness {
  import opened PageTree
  import opened Cow
  import opened CowRefinement

  // Ten free pages and no process.
  function Start(data: nat -> PageData): (w: World) {
    NoProcesses({0, 1, 2, 3, 4, 5, 6, 7, 8, 9}, {}, (f: nat) => 0, data)
  }

  function First(): (p: Path) {
    [0, 0, 0, 0]
  }

  // A process that maps page 1 at its first address.
  function Reader(a: Access): (ops: seq<Op>) {
    [OpSpawn(0), OpMap(0, First(), 1, a, [2, 3, 4])]
  }

  function ReaderTree(a: Access): (t: Tree) {
    Insert(Tree(0, Blank(ENTRIES)), First(), Leaf(1, false, a), [2, 3, 4])
  }

  function OneProcess(data: nat -> PageData): (w: World) {
    Spawn(Start(data), 0)
  }

  lemma StartOk(data: nat -> PageData)
    ensures Inv(Start(data)) && Agrees(Start(data), [])
    ensures Inv(OneProcess(data)) && OneProcess(data).spaces == [Some(Tree(0, Blank(ENTRIES)))]
    ensures MapLegal(OneProcess(data), 0, First(), 1, [2, 3, 4]) && LeafAt(OneProcess(data), 0, First()) == None
  {
    var s := Start(data);
    BootInv(s.managed, {}, s.refs, data);
    SpawnKeepsInv(s, 0);
    BlankMissing(0, First());
    BlankLookup(0, First());
    assert OneProcess(data).spaces == [Some(Tree(0, Blank(ENTRIES)))];
    hide Inv, Blank, Lookup, Missing;
  }

  lemma ReaderRuns(data: nat -> PageData, access: Access) returns (w: World, e: Eager)
    ensures Runs(Start(data), [], Reader(access), w, e)
    ensures Inv(w) && Agrees(w, e) && w.spaces == [Some(ReaderTree(access))] && w.kernel == {}
    ensures LeafAt(w, 0, First()) == Some(Leaf(1, false, access))
    ensures forall f: nat :: 5 <= f <= 9 ==> f in w.free
  {
    hide Insert, Inv, Agrees, Uses, Maps, Fork, Write, Reap, MapLegal, LeafAt, EagerStep;
    StartOk(data);
    var s, a := Start(data), OneProcess(data);
    var op := OpMap(0, First(), 1, access, [2, 3, 4]);
    w := Step(a, op);
    var e1 := EagerStep([], OpSpawn(0), Initial(s, OpSpawn(0)));
    e := EagerStep(e1, op, Initial(a, op));
    LazyMapLeaves(a, 0, First(), 1, access, [2, 3, 4], 0, First());
    RunsTwo(s, [], OpSpawn(0), a, e1, op, w, e);
    CowRefinesEager(s, [], Reader(access), w, e);
    assert w == LazyMap(a, 0, First(), 1, access, [2, 3, 4]);
    assert w.spaces == [Some(ReaderTree(access))];
  }

  lemma RunsTwo(s: World, e: Eager, a: Op, m: World, f: Eager, b: Op, w: World, g: Eager)
    requires Legal(s, a) && m == Step(s, a) && f == EagerStep(e, a, Initial(s, a))
    requires Legal(m, b) && w == Step(m, b) && g == EagerStep(f, b, Initial(m, b))
    ensures Runs(s, e, [a, b], w, g)
  {
    assert [a, b][1..] == [b] && [b][1..] == [];
    assert Runs(w, g, [], w, g);
    assert Runs(m, f, [b], w, g);
  }

  lemma RunsOne(w: World, e: Eager, op: Op)
    requires Legal(w, op)
    ensures Runs(w, e, [op], Step(w, op), EagerStep(e, op, Initial(w, op)))
  {
    assert [op][1..] == [];
  }

  lemma {:induction false} RunsThen(w: World, e: Eager, ops: seq<Op>, m: World, f: Eager, more: seq<Op>, w': World,
          e': Eager)
    requires Runs(w, e, ops, m, f) && Runs(m, f, more, w', e')
    ensures Runs(w, e, ops + more, w', e')
    decreases |ops|
  {
    hide Step, EagerStep, Initial;
    if ops == [] {
      assert ops + more == more;
    } else {
      assert (ops + more)[1..] == ops[1..] + more;
      RunsThen(Step(w, ops[0]), EagerStep(e, ops[0], Initial(w, ops[0])), ops[1..], m, f, more, w', e');
    }
  }

  // A store to a page that may only be read faults, the region is found and a page is taken:
  // it is mapped nowhere, serves as no table, and is not free.
  lemma PageLeaks(data: nat -> PageData)
    ensures exists ops: seq<Op>, w: World, e: Eager, f: nat ::
      && Runs(Start(data), [], ops, w, e)
      && f in w.managed && f !in w.free && MapCount(w.spaces, f) == 0 && UseCount(w.spaces, f) == 0
  {
    hide Insert, Agrees, Uses, Maps, Fork, Write, Reap;
    var w, e := ReaderRuns(data, ReadOnly);
    var op := OpMap(0, First(), 5, ReadWrite, []);
    LookupMissing(w.spaces[0].value, First());
    assert PageOk(w, 5);
    RunsOne(w, e, op);
    var r, g := Step(w, op), EagerStep(e, op, Initial(w, op));
    RunsThen(Start(data), [], Reader(ReadOnly), w, e, [op], r, g);
    LazyMapCounts(w, 0, First(), 5, ReadWrite, [], 5);
  }

  // The tables of the forked child, on pages 5 to 8.
  function ChildTree(): (t: Tree) {
    Insert(Tree(5, Blank(ENTRIES)), First(), Leaf(1, true, ReadOnly), [6, 7, 8])
  }

  lemma {:induction false} InsertCopies(a: nat, b: nat, p: Path, l: Leaf, x: seq<nat>, y: seq<nat>)
    requires IsPath(p, |p|) && p != [] && |x| == |y| == |p| - 1
    ensures CopyOf(Insert(Tree(a, Blank(ENTRIES)), p, Shared(l), x), Mark(Insert(Tree(b, Blank(ENTRIES)), p, l, y)))
    decreases |p|
  {
    var c, t := Insert(Tree(a, Blank(ENTRIES)), p, Shared(l), x), Insert(Tree(b, Blank(ENTRIES)), p, l, y);
    var m := Mark(t);
    forall i | 0 <= i < ENTRIES
      ensures m.entries[i] == MarkOne(t.entries[i])
      ensures i != p[0] ==> m.entries[i] == Invalid && c.entries[i] == Invalid
    {
      MarkEntriesAt(t.entries, i);
    }
    if |p| > 1 {
      InsertCopies(x[0], y[0], p[1..], l, x[1..], y[1..]);
    }
  }

  lemma ChildLegal(w: World, access: Access)
    requires w.spaces == [Some(ReaderTree(access))] && forall f: nat :: 5 <= f <= 9 ==> f in w.free
    ensures ForkLegal(w, 0, ChildTree())
  {
    hide Insert, Mark, CopyOf, Uses;
    InsertCopies(5, 0, First(), Leaf(1, false, access), [6, 7, 8], [2, 3, 4]);
    forall f: nat
      ensures Uses(ChildTree(), f) == if 5 <= f <= 8 then 1 else 0
    {
      ChildUses(f);
    }
  }

  lemma ChildUses(f: nat)
    ensures Uses(ChildTree(), f) == if 5 <= f <= 8 then 1 else 0
  {
    hide Insert, EntryUses, Blank;
    BlankFormed(5, LEVELS);
    BlankMissing(5, First());
    InsertCounts(Tree(5, Blank(ENTRIES)), First(), Leaf(1, true, ReadOnly), [6, 7, 8], f);
    BlankCounts(ENTRIES, f);
    assert [6, 7, 8][..3] == [6, 7, 8];
  }

  // A page the process could not write becomes writable by its own fork.
  lemma ForkGrants(data: nat -> PageData)
    ensures exists ops: seq<Op>, c: Tree, w: World, e: Eager, w': World, e': Eager ::
      && Runs(Start(data), [], ops, w, e) && Runs(w, e, [OpFork(0, c)], w', e')
      && LeafAt(w, 0, First()).Some? && !Completes(w, 0, First()) && Completes(w', 0, First())
  {
    var w, e := ReaderRuns(data, ReadOnly);
    var op := OpFork(0, ChildTree());
    ChildLegal(w, ReadOnly);
    RunsOne(w, e, op);
    ForkRights(w, 0, ChildTree(), 0, First());
    assert Runs(w, e, [OpFork(0, ChildTree())], Step(w, op), EagerStep(e, op, Initial(w, op)));
  }

  // A page mapped without the right to read it becomes readable by fork.
  lemma ForkReveals(data: nat -> PageData)
    ensures exists ops: seq<Op>, c: Tree, w: World, e: Eager, w': World, e': Eager ::
      && Runs(Start(data), [], ops, w, e) && Runs(w, e, [OpFork(0, c)], w', e')
      && LeafAt(w, 0, First()).Some? && !Readable(w, 0, First()) && Readable(w', 0, First())
  {
    var w, e := ReaderRuns(data, Hidden);
    var op := OpFork(0, ChildTree());
    ChildLegal(w, Hidden);
    RunsOne(w, e, op);
    ForkReads(w, 0, ChildTree(), 0, First());
    assert Runs(w, e, [OpFork(0, ChildTree())], Step(w, op), EagerStep(e, op, Initial(w, op)));
  }
}
