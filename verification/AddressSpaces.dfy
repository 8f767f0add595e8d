// The address spaces of all processes as the kernel updates them: fork, exit and the EL0
// fault handler on the tables in memory, proved to be the steps of Cow, and so to keep every
// process's view equal to that of a machine whose fork copies all memory.
module AddressSpaces {
  import opened AllocatorCalls
  import opened PageTree
  import opened Mapping
  import opened PageMemory
  import opened TableSteps
  import opened CloneSteps
  import opened MapProgress
  import opened TableMemory
  import opened Cow
  import opened CowRefinement
  import opened SpaceSteps

  // A registered range of the process's memory.
  datatype Vma = Vma(start: nat, end: nat, access: Access)

  datatype Outcome = Copied(page: nat) | Mapped(page: nat) | Halted

  // The first region that holds the address (userfault.c:24-44).
  function Covering(vmas: seq<Vma>, addr: nat): (v: Option<Vma>) {
    if vmas == [] then None
    else if vmas[0].start <= addr < vmas[0].end then Some(vmas[0])
    else Covering(vmas[1..], addr)
  }

  predicate FirstAt(vmas: seq<Vma>, addr: nat, k: int) {
    && 0 <= k < |vmas| && vmas[k].start <= addr < vmas[k].end
    && forall j :: 0 <= j < k ==> !(vmas[j].start <= addr < vmas[j].end)
  }

  // The search of check_vma.
  method CheckVma(vmas: seq<Vma>, addr: nat) returns (v: Option<Vma>)
    ensures v == Covering(vmas, addr)
    ensures v.Some? ==> v.value.start <= addr < v.value.end && exists k :: FirstAt(vmas, addr, k) && v.value == vmas[k]
    ensures v.None? ==> forall k :: 0 <= k < |vmas| ==> !(vmas[k].start <= addr < vmas[k].end)
  {
    var k := 0;
    while k < |vmas|
      invariant 0 <= k <= |vmas| && Covering(vmas, addr) == Covering(vmas[k..], addr)
      invariant forall j :: 0 <= j < k ==> !(vmas[j].start <= addr < vmas[j].end)
    {
      if vmas[k].start <= addr < vmas[k].end {
        assert FirstAt(vmas, addr, k);
        return Some(vmas[k]);
      }
      assert vmas[k..][1..] == vmas[k + 1..];
      k := k + 1;
    }
    return None;
  }

  lemma SameAgrees(w: World, r: World, e: Eager)
    requires Same(w, r) && Agrees(w, e)
    ensures Agrees(r, e)
  {
    forall i: nat, p: Path | |p| == LEVELS
      ensures PageAgrees(r, e, i, p)
    {
      assert PageAgrees(w, e, i, p);
    }
  }

  // r follows w by op: whatever simple machine agreed with w, its next state agrees with r.
  ghost predicate Simulates(w: World, r: World, op: Op) {
    forall e: Eager :: Agrees(w, e) ==> Agrees(r, EagerStep(e, op, Initial(w, op)))
  }

  lemma StepSimulates(w: World, r: World, op: Op)
    requires Inv(w) && Legal(w, op) && Same(Step(w, op), r)
    ensures Inv(r) && Simulates(w, r, op)
  {
    hide Inv, Same, Agrees, Step, EagerStep;
    forall e: Eager | Agrees(w, e)
      ensures Agrees(r, EagerStep(e, op, Initial(w, op)))
    {
      StepAgrees(w, e, op);
      SameAgrees(Step(w, op), r, EagerStep(e, op, Initial(w, op)));
    }
    StepKeepsInv(w, op);
    SameInv(Step(w, op), r);
  }

  // No process can tell r from w.
  ghost predicate Unseen(w: World, r: World) {
    forall e: Eager :: Agrees(w, e) ==> Agrees(r, e)
  }

  lemma FaultUnseen(w: World, i: nat, p: Path, n: nat)
    requires Inv(w) && CanFault(w, i, p) && n in w.free
    ensures Unseen(w, Fault(w, i, p, n))
  {
    var r := Fault(w, i, p, n);
    assert forall j: nat :: Alive(r, j) <==> Alive(w, j);
    forall j: nat, q: Path | |q| == LEVELS
      ensures View(r, j, q) == View(w, j, q) && (Completes(r, j, q) <==> Completes(w, j, q))
    {
      FaultKeepsView(w, i, p, n, j, q);
      FaultLeaves(w, i, p, n, j, q);
    }
    assert |p| == LEVELS;
    hide Inv, Fault, CanFault, View, Completes, Readable, MarkOk;
    forall e: Eager | Agrees(w, e)
      ensures Agrees(r, e)
    {
      forall j: nat, q: Path | |q| == LEVELS
        ensures PageAgrees(r, e, j, q)
      {
        assert PageAgrees(w, e, j, q) && PageAgrees(w, e, i, p);
        FaultKeepsReads(w, i, p, n, j, q);
      }
    }
  }

  // The step keeps the invariant, with or without a simple machine beside it.
  lemma StepKeepsInv(w: World, op: Op)
    requires Inv(w) && Legal(w, op)
    ensures Inv(Step(w, op))
  {
    match op
    case OpSpawn(n) => SpawnKeepsInv(w, n);
    case OpFork(i, c) => ForkKeepsInv(w, i, c);
    case OpWrite(i, p, off, b, picks) => WriteLaw(w, i, p, off, b, picks);
    case OpMap(i, p, n, a, picks) => MapFaultKeepsInv(w, i, p, n, a, picks);
    case OpReap(i) => ReapKeepsInv(w, i);
  }

  // n differs from m at most in one entry.
  predicate OneEntry(m: Memory, n: Memory, q: nat, k: nat) {
    k < |Row(m, q)| && |Row(n, q)| == |Row(m, q)| && n == StoreAt(m, q, k, Row(n, q)[k])
  }

  lemma StoreOver(m: Memory, n: Memory, q: nat, k: nat, e: Pte)
    requires OneEntry(m, n, q, k)
    ensures StoreAt(n, q, k, e) == StoreAt(m, q, k, e)
  {
    assert Row(n, q)[k := e] == Row(m, q)[k := e];
  }

  lemma StoreOnce(m: Memory, q: nat, k: nat, e: Pte)
    requires k < |Row(m, q)|
    ensures OneEntry(m, m, q, k) && OneEntry(m, StoreAt(m, q, k, e), q, k)
  {
    assert Row(m, q)[k := Row(m, q)[k]] == Row(m, q);
  }

  class AddressSpaces {
    const mem: PageTables
    // Managed pages held by other kernel users, or leaked.
    ghost var kernel: set<nat>
    var data: nat -> PageData
    // The top-level table of each process, None after exit.
    var roots: seq<Option<nat>>

    ghost function Model(): (w: World)
      reads this, mem
    {
      World(mem.managed, kernel, mem.free, mem.refs, data, Spaces(mem.tables, roots))
    }

    ghost predicate Valid()
      reads this, mem
    {
      Inv(Model())
    }

    constructor (mem: PageTables, ghost kernel: set<nat>, data: nat -> PageData)
      requires kernel <= mem.managed && mem.free == mem.managed - kernel
      ensures Valid() && this.mem == mem && this.kernel == kernel && roots == []
    {
      this.mem := mem;
      this.kernel := kernel;
      this.data := data;
      roots := [];
      new;
      BootInv(mem.managed, kernel, mem.refs, data);
      assert Spaces(mem.tables, roots) == [];
    }

    // process.c:58-60: a process starts with an empty top-level table.
    method Spawn() returns (page: nat)
      requires Valid() && mem.free != {}
      modifies this`roots, mem
      ensures Valid() && page in old(mem.free) && Model() == Cow.Spawn(old(Model()), page)
      ensures Simulates(old(Model()), Model(), OpSpawn(page))
      ensures mem.log == old(mem.log) + Touches(old(Model()), OpSpawn(page))
    {
      hide Inv, Simulates, Cow.Spawn, Spaces;
      ghost var w, k0 := Model(), mem.K();
      page := mem.AllocTable();
      roots := roots + [Some(page)];
      SpawnDone(w, k0, roots[..|roots| - 1], page);
      assert roots == roots[..|roots| - 1] + [Some(page)];
      StepSimulates(w, Model(), OpSpawn(page));
    }

    // fork, by process.c:156.
    method Fork(i: nat) returns (ghost child: Tree)
      requires Valid() && i < |roots| && roots[i].Some?
      requires |mem.free| >= Tables(TreeOf(mem.tables, roots[i].value, LEVELS))
      modifies this`roots, mem
      ensures Valid() && |roots| == old(|roots|) + 1 && ForkLegal(old(Model()), i, child)
      ensures Same(Cow.Fork(old(Model()), i, child), Model()) && Simulates(old(Model()), Model(), OpFork(i, child))
      ensures mem.log == old(mem.log) + Touches(old(Model()), OpFork(i, child))
    {
      hide Inv, Simulates, Clonable, Cloned, Same, Cow.Fork, CopyOf, Uses;
      ghost var w, k0 := Model(), mem.K();
      SpaceClonable(w, mem.tables, i);
      var root := mem.CloneVirtualMemory(roots[i].value);
      child := TreeOf(mem.tables, root, LEVELS);
      ForkDone(w, k0, mem.K(), roots, i, root);
      roots := roots + [Some(root)];
      StepSimulates(w, Model(), OpFork(i, child));
    }

    // scheduler.c:220: the exiting process's tables and references go.
    method Exit(i: nat)
      requires Valid() && i < |roots| && roots[i].Some?
      modifies this`roots, mem
      ensures Valid() && Model() == Reap(old(Model()), i) && Simulates(old(Model()), Model(), OpReap(i))
      ensures mem.log == old(mem.log) + Touches(old(Model()), OpReap(i))
    {
      hide Simulates, Reap, ReapTree;
      ghost var w := Model();
      mem.ReapTable(roots[i].value, 0, w);
      ExitDone(w, mem.tables, roots, i, ReapTree(w, w.spaces[i].value));
      roots := roots[i := None];
      StepSimulates(w, Model(), OpReap(i));
    }

    // check_cow (userfault.c:47-91): the last-level table, if the page is marked.
    method CheckCow(i: nat, addr: nat) returns (l3: Option<nat>)
      requires Valid() && i < |roots| && roots[i].Some?
      ensures l3.Some? <==> CanFault(Model(), i, PathOf(addr / 4096))
      ensures l3.Some? ==> l3 == WalkTo(mem.tables, roots[i].value, PathOf(addr / 4096))
    {
      hide Inv, WalkTo, Lookup, TreeOf;
      var v := addr / 4096;
      FaultWalk(Model(), mem.tables, roots[i].value, i, v);
      l3 := mem.Walk(roots[i].value, v);
      if l3.Some? {
        var entry := mem.tables[l3.value][v % ENTRIES];
        if entry.Zero? || !entry.cow {
          l3 := None;
        }
      }
    }

    // handle_el0_fault, the copy (userfault.c:106-138).
    method BreakCow(i: nat, addr: nat, l3: nat) returns (page: nat)
      requires Valid() && i < |roots| && roots[i].Some? && mem.free != {}
      requires CanFault(Model(), i, PathOf(addr / 4096))
      requires WalkTo(mem.tables, roots[i].value, PathOf(addr / 4096)) == Some(l3)
      modifies this`data, mem
      ensures Valid() && page in old(mem.free) && Model() == Fault(old(Model()), i, PathOf(addr / 4096), page)
      ensures Unseen(old(Model()), Model())
      ensures mem.log == old(mem.log) + FaultTouches(old(Model()), i, PathOf(addr / 4096), page)
    {
      hide Inv, WalkTo, PathOf, TreeOf, Lookup, SetLeaf, Spaces;
      var v := addr / 4096;
      ghost var w, m, p := Model(), mem.tables, PathOf(v);
      FaultWalk(w, m, roots[i].value, i, v);
      page := mem.AllocPage();
      FreshNotMapped(w, page, i, p);
      var entry := mem.tables[l3][v % ENTRIES];
      data := PutPage(data, page, data(entry.address));
      ghost var b := Cow.Take(w, page).(data := data);
      if mem.refs(entry.address) == 1 {
        mem.tables := mem.tables[l3 := mem.tables[l3][v % ENTRIES := entry.(cow := false, access := ReadWrite)]];
      }
      ghost var between := mem.tables;
      StoreOnce(m, l3, v % ENTRIES, entry.(cow := false, access := ReadWrite));
      mem.DecrementRef(entry.address, b);
      var moved := mem.tables[l3][v % ENTRIES].(address := page);
      FaultDone(w, m, roots, i, v, page, moved);
      mem.tables := mem.tables[l3 := mem.tables[l3][v % ENTRIES := moved]];
      StoreOver(m, between, l3, v % ENTRIES, moved);
      FaultKeepsInv(w, i, p, page);
      FaultUnseen(w, i, p, page);
    }

    // check_vma's mapping (userfault.c:31-38): a fresh page, entered into the tables. If the
    // address is mapped, nobody will ever free the page.
    method MapFresh(i: nat, addr: nat, access: Access) returns (page: nat, ghost picks: seq<nat>)
      requires Valid() && i < |roots| && roots[i].Some? && addr / 4096 < SPAN && |mem.free| >= 4
      modifies this`kernel, mem
      ensures MapLegal(old(Model()), i, PathOf(addr / 4096), page, picks)
      ensures Same(MapFault(old(Model()), i, PathOf(addr / 4096), page, access, picks), Model())
      ensures Valid() && Simulates(old(Model()), Model(), OpMap(i, PathOf(addr / 4096), page, access, picks))
      ensures mem.log == old(mem.log) + Touches(old(Model()), OpMap(i, PathOf(addr / 4096), page, access, picks))
    {
      hide Inv, PathOf, TreeOf, Lookup, Spaces, Took, RowsKept, RegionMapped, MapLegal, Same, LazyMap, Ready, Simulates;
      hide Touches, TakeAll, MapFault;
      var v := addr / 4096;
      ghost var w := Model();
      page := mem.AllocPage();
      ghost var k0 := mem.K();
      LazyReady(w, mem.tables, roots[i].value, i, v, page);
      picks := mem.Map(roots[i].value, v, page, 0, access);
      LazyDone(w, k0, mem.K(), roots, i, v, page, access, picks);
      MapTouches(w, i, PathOf(v), page, access, picks, old(mem.log));
      LeakSame(w, i, PathOf(v), page, access, picks, Model());
      if LeafAt(w, i, PathOf(v)).Some? {
        kernel := kernel + {page};
      }
      StepSimulates(w, Model(), OpMap(i, PathOf(v), page, access, picks));
    }

    // handle_el0_fault (userfault.c:93-143).
    method HandleEl0Fault(i: nat, addr: nat, vmas: seq<Vma>) returns (o: Outcome, ghost picks: seq<nat>)
      requires Valid() && i < |roots| && roots[i].Some? && addr / 4096 < SPAN && |mem.free| >= 4
      modifies this`data, this`kernel, mem
      ensures Valid()
      ensures var w, p := old(Model()), PathOf(addr / 4096);
        match o
        case Copied(n) =>
          && CanFault(w, i, p) && n in w.free && Model() == Fault(w, i, p, n) && Unseen(w, Model())
          && mem.log == old(mem.log) + FaultTouches(w, i, p, n)
        case Mapped(n) =>
          && !CanFault(w, i, p) && Covering(vmas, addr).Some? && MapLegal(w, i, p, n, picks)
          && Same(MapFault(w, i, p, n, Covering(vmas, addr).value.access, picks), Model())
          && Simulates(w, Model(), OpMap(i, p, n, Covering(vmas, addr).value.access, picks))
          && mem.log == old(mem.log) + Touches(w, OpMap(i, p, n, Covering(vmas, addr).value.access, picks))
        case Halted => !CanFault(w, i, p) && Covering(vmas, addr).None? && Model() == w && mem.log == old(mem.log)
    {
      hide Inv, PathOf, CanFault, Fault, MapFault, MapLegal, Same, Spaces, LeafAt, Unseen, Simulates;
      picks := [];
      var l3 := CheckCow(i, addr);
      if l3.Some? {
        var n := BreakCow(i, addr, l3.value);
        return Copied(n), [];
      }
      var region := CheckVma(vmas, addr);
      if region.Some? {
        var n;
        n, picks := MapFresh(i, addr, region.value.access);
        return Mapped(n), picks;
      }
      return Halted, [];
    }
  }

  lemma MapTouches(w: World, i: nat, p: Path, n: nat, access: Access, picks: seq<nat>, log: seq<Touch>)
    requires R.Legal(w, OpMap(i, p, n, access, picks))
    ensures log + [Taken(n)] + TakeAll(picks) == log + Touches(w, OpMap(i, p, n, access, picks))
  {
    assert ([n] + picks)[1..] == picks;
  }

  lemma LeakSame(w: World, i: nat, p: Path, n: nat, access: Access, picks: seq<nat>, r: World)
    requires Alive(w, i) && Same(LazyMap(w, i, p, n, access, picks), r)
    ensures Same(MapFault(w, i, p, n, access, picks), if LeafAt(w, i, p).Some? then r.(kernel := w.kernel + {n}) else r)
  {
  }
}
