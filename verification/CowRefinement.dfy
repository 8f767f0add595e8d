// Copy-on-write fork refines a fork that copies all memory at once.
module CowRefinement {
  import opened PageTree
  import opened Cow

  datatype Op =
    | OpSpawn(page: nat)
    | OpFork(parent: nat, child: Tree)
    | OpWrite(pid: nat, path: Path, off: nat, byte: bv8, picks: seq<nat>)
    | OpMap(pid: nat, path: Path, frame: nat, access: Access, picks: seq<nat>)
    | OpReap(pid: nat)

  // What the kernel relies on: the process exists and enough pages are free.
  ghost predicate Legal(w: World, op: Op) {
    match op
    case OpSpawn(n) => n in w.free
    case OpFork(i, c) => ForkLegal(w, i, c)
    case OpWrite(i, p, off, b, picks) => |p| == LEVELS && off < 4096 && WriteLegal(w, i, p, picks)
    case OpMap(i, p, n, a, picks) => MapLegal(w, i, p, n, picks)
    case OpReap(i) => Alive(w, i)
  }

  function Step(w: World, op: Op): (r: World)
    requires match op
      case OpSpawn(_) => true
      case OpFork(i, _) => Alive(w, i)
      case OpWrite(i, p, off, _, _) => |p| == LEVELS && off < 4096
      case OpMap(i, _, _, _, _) => Alive(w, i)
      case OpReap(i) => Alive(w, i)
  {
    match op
    case OpSpawn(n) => Spawn(w, n)
    case OpFork(i, c) => Fork(w, i, c)
    case OpWrite(i, p, off, b, picks) => Write(w, i, p, off, b, picks)
    case OpMap(i, p, n, a, picks) => MapFault(w, i, p, n, a, picks)
    case OpReap(i) => Reap(w, i)
  }

  // ---- the simple machine ----

  // Every process owns its pages outright, and decides by itself whether a store lands.
  datatype Cell = Cell(data: PageData, readable: bool, writable: bool)

  type Eager = seq<Option<map<Path, Cell>>>

  // The kernel's fork does not restore permissions: whatever was mapped may be read and
  // written.
  function Granted(m: map<Path, Cell>): (r: map<Path, Cell>) {
    map p | p in m :: Cell(m[p].data, true, true)
  }

  function EagerStore(m: map<Path, Cell>, p: Path, off: nat, b: bv8): (r: map<Path, Cell>)
    requires off < 4096
  {
    if p in m && m[p].writable then m[p := m[p].(data := m[p].data[off := b])] else m
  }

  // Nothing is taken from the kernel but `initial`, what a newly mapped page holds.
  function EagerStep(e: Eager, op: Op, initial: PageData): (r: Eager)
  {
    match op
    case OpSpawn(_) => e + [Some(map[])]
    case OpFork(i, _) =>
      if i < |e| && e[i].Some? then e[i := Some(Granted(e[i].value))] + [Some(Granted(e[i].value))] else e
    case OpWrite(i, p, off, b, _) =>
      if i < |e| && e[i].Some? && off < 4096 then e[i := Some(EagerStore(e[i].value, p, off, b))] else e
    case OpMap(i, p, _, access, _) =>
      if i < |e| && e[i].Some? && p !in e[i].value then
        e[i := Some(e[i].value[p := Cell(initial, !access.Hidden?, access == ReadWrite)])]
      else e
    case OpReap(i) => if i < |e| then e[i := None] else e
  }

  function CellAt(e: Eager, i: nat, p: Path): (c: Option<Cell>) {
    if i < |e| && e[i].Some? && p in e[i].value then Some(e[i].value[p]) else None
  }

  function EagerView(e: Eager, i: nat, p: Path): (v: Option<PageData>) {
    var c := CellAt(e, i, p);
    if c.Some? then Some(c.value.data) else None
  }

  predicate EagerWritable(e: Eager, i: nat, p: Path) {
    var c := CellAt(e, i, p);
    c.Some? && c.value.writable
  }

  predicate EagerReadable(e: Eager, i: nat, p: Path) {
    var c := CellAt(e, i, p);
    c.Some? && c.value.readable
  }

  // Same processes, same contents, same rights to read and write.
  ghost predicate Agrees(w: World, e: Eager) {
    && |e| == |w.spaces|
    && (forall i: nat :: i < |e| ==> (e[i].Some? <==> Alive(w, i)))
    && (forall i: nat, p: Path :: |p| == LEVELS ==> PageAgrees(w, e, i, p))
  }

  ghost predicate PageAgrees(w: World, e: Eager, i: nat, p: Path) {
    && EagerView(e, i, p) == View(w, i, p)
    && (EagerWritable(e, i, p) <==> Completes(w, i, p))
    && (EagerReadable(e, i, p) <==> Readable(w, i, p))
    && MarkOk(w, i, p)
  }

  function Initial(w: World, op: Op): (d: PageData) {
    w.data(if op.OpMap? then op.frame else 0)
  }

  lemma StepAgrees(w: World, e: Eager, op: Op)
    requires Inv(w) && Legal(w, op) && Agrees(w, e)
    ensures Inv(Step(w, op)) && Agrees(Step(w, op), EagerStep(e, op, Initial(w, op)))
  {
    match op
    case OpSpawn(n) => SpawnAgrees(w, e, n);
    case OpFork(i, c) => ForkAgrees(w, e, i, c);
    case OpWrite(i, p, off, b, picks) => WriteAgrees(w, e, i, p, off, b, picks);
    case OpMap(i, p, n, a, picks) => MapAgrees(w, e, i, p, n, a, picks);
    case OpReap(i) => ReapAgrees(w, e, i);
  }

  lemma SpawnAgrees(w: World, e: Eager, n: nat)
    requires Inv(w) && n in w.free && Agrees(w, e)
    ensures Inv(Spawn(w, n)) && Agrees(Spawn(w, n), e + [Some(map[])])
  {
    SpawnKeepsInv(w, n);
    forall j: nat, p: Path | |p| == LEVELS
      ensures PageAgrees(Spawn(w, n), e + [Some(map[])], j, p)
    {
      assert PageAgrees(w, e, j, p);
      assert LeafAt(Spawn(w, n), j, p) == LeafAt(w, j, p);
    }
  }

  lemma ForkAgrees(w: World, e: Eager, i: nat, c: Tree)
    requires Inv(w) && ForkLegal(w, i, c) && Agrees(w, e)
    ensures Inv(Fork(w, i, c)) && Agrees(Fork(w, i, c), EagerStep(e, OpFork(i, c), Initial(w, OpFork(i, c))))
  {
    ForkKeepsInv(w, i, c);
    var r, s := Fork(w, i, c), EagerStep(e, OpFork(i, c), Initial(w, OpFork(i, c)));
    forall j: nat, p: Path | |p| == LEVELS
      ensures PageAgrees(r, s, j, p)
    {
      ForkLeaves(w, i, c, j, p);
      ForkRights(w, i, c, j, p);
      ForkReads(w, i, c, j, p);
      assert PageAgrees(w, e, i, p) && PageAgrees(w, e, j, p);
    }
  }

  lemma WriteAgrees(w: World, e: Eager, i: nat, p: Path, off: nat, b: bv8, picks: seq<nat>)
    requires Inv(w) && |p| == LEVELS && off < 4096 && WriteLegal(w, i, p, picks) && Agrees(w, e)
    ensures var op := OpWrite(i, p, off, b, picks);
      Inv(Write(w, i, p, off, b, picks)) && Agrees(Write(w, i, p, off, b, picks), EagerStep(e, op, Initial(w, op)))
  {
    WriteLaw(w, i, p, off, b, picks);
    assert PageAgrees(w, e, i, p);
    var op := OpWrite(i, p, off, b, picks);
    var r, s := Write(w, i, p, off, b, picks), EagerStep(e, op, Initial(w, op));
    forall j: nat, q: Path | |q| == LEVELS
      ensures PageAgrees(r, s, j, q)
    {
      assert PageAgrees(w, e, j, q);
      WriteKeepsRights(w, i, p, off, b, picks, j, q);
      WriteKeepsReads(w, i, p, off, b, picks, j, q);
    }
    forall j: nat | j < |s|
      ensures s[j].Some? <==> Alive(r, j)
    {
      assert Alive(r, j) <==> Alive(w, j);
    }
  }

  lemma MapAgrees(w: World, e: Eager, i: nat, p: Path, n: nat, a: Access, picks: seq<nat>)
    requires Inv(w) && MapLegal(w, i, p, n, picks) && Agrees(w, e)
    ensures var r := MapFault(w, i, p, n, a, picks);
      Inv(r) && Agrees(r, EagerStep(e, OpMap(i, p, n, a, picks), w.data(n)))
  {
    MapFaultKeepsInv(w, i, p, n, a, picks);
    var r, s := MapFault(w, i, p, n, a, picks), EagerStep(e, OpMap(i, p, n, a, picks), w.data(n));
    assert PageAgrees(w, e, i, p);
    forall j: nat, q: Path | |q| == LEVELS
      ensures PageAgrees(r, s, j, q)
    {
      LazyMapLeaves(w, i, p, n, a, picks, j, q);
      assert PageAgrees(w, e, j, q);
    }
  }

  lemma ReapAgrees(w: World, e: Eager, i: nat)
    requires Inv(w) && Alive(w, i) && Agrees(w, e)
    ensures Inv(Reap(w, i)) && Agrees(Reap(w, i), e[i := None])
  {
    ReapKeepsInv(w, i);
    ReapSpaces(w, i);
    var r, s := Reap(w, i), e[i := None];
    forall j: nat, q: Path | |q| == LEVELS
      ensures PageAgrees(r, s, j, q)
    {
      assert PageAgrees(w, e, j, q);
    }
  }

  // ---- whole runs ----

  ghost predicate Runs(w: World, e: Eager, ops: seq<Op>, w': World, e': Eager)
    decreases |ops|
  {
    if ops == [] then w' == w && e' == e
    else
      && Legal(w, ops[0])
      && Runs(Step(w, ops[0]), EagerStep(e, ops[0], Initial(w, ops[0])), ops[1..], w', e')
  }

  // Over every run of spawn, fork, store, handled fault and exit, every process reads through
  // its own page table exactly what it would read had each fork copied all memory, and its
  // stores land exactly where they land on the simple machine; and every page stays
  // accounted for.
  lemma {:induction false} CowRefinesEager(w: World, e: Eager, ops: seq<Op>, w': World, e': Eager)
    requires Inv(w) && Agrees(w, e) && Runs(w, e, ops, w', e')
    ensures Inv(w') && Agrees(w', e')
    decreases |ops|
  {
    if ops != [] {
      StepAgrees(w, e, ops[0]);
      CowRefinesEager(Step(w, ops[0]), EagerStep(e, ops[0], Initial(w, ops[0])), ops[1..], w', e');
    }
  }

  // The same from boot, where there are no processes.
  function NoProcesses(managed: set<nat>, kernel: set<nat>, refs: nat -> nat, data: nat -> PageData): (w: World) {
    World(managed, kernel, managed - kernel, refs, data, [])
  }

  lemma CowRefinesEagerFromBoot(managed: set<nat>, kernel: set<nat>, refs: nat -> nat, data: nat -> PageData,
      ops: seq<Op>, w: World, e: Eager)
    requires kernel <= managed
    requires Runs(NoProcesses(managed, kernel, refs, data), [], ops, w, e)
    ensures Inv(w) && Agrees(w, e)
  {
    BootInv(managed, kernel, refs, data);
    CowRefinesEager(NoProcesses(managed, kernel, refs, data), [], ops, w, e);
  }

  // ---- runs whose mappings are all writable need no permissions at all ----

  // Memory is contents alone, fork copies it, and every store to a mapped page lands.
  type Plain = seq<Option<map<Path, PageData>>>

  function PlainStep(e: Plain, op: Op, initial: PageData): (r: Plain)
  {
    match op
    case OpSpawn(_) => e + [Some(map[])]
    case OpFork(i, _) => if i < |e| && e[i].Some? then e + [e[i]] else e
    case OpWrite(i, p, off, b, _) =>
      if i < |e| && e[i].Some? && p in e[i].value && off < 4096 then
        e[i := Some(e[i].value[p := e[i].value[p][off := b]])]
      else e
    case OpMap(i, p, _, _, _) =>
      if i < |e| && e[i].Some? && p !in e[i].value then e[i := Some(e[i].value[p := initial])] else e
    case OpReap(i) => if i < |e| then e[i := None] else e
  }

  function PlainView(e: Plain, i: nat, p: Path): (v: Option<PageData>) {
    if i < |e| && e[i].Some? && p in e[i].value then Some(e[i].value[p]) else None
  }

  // q is e without its permissions, all of which are granted.
  ghost predicate Erased(e: Eager, q: Plain) {
    && |q| == |e|
    && (forall i: nat :: i < |e| ==> (q[i].Some? <==> e[i].Some?))
    && (forall i: nat, p: Path :: EagerView(e, i, p) == PlainView(q, i, p))
    && (forall i: nat, p: Path :: CellAt(e, i, p).Some? ==> EagerWritable(e, i, p))
  }

  lemma StepErased(e: Eager, q: Plain, op: Op, initial: PageData)
    requires Erased(e, q) && (op.OpMap? ==> op.access == ReadWrite)
    ensures Erased(EagerStep(e, op, initial), PlainStep(q, op, initial))
  {
    var f, r := EagerStep(e, op, initial), PlainStep(q, op, initial);
    forall i: nat, p: Path
      ensures EagerView(f, i, p) == PlainView(r, i, p) && (CellAt(f, i, p).Some? ==> EagerWritable(f, i, p))
    {
      assert EagerView(e, i, p) == PlainView(q, i, p);
      assert CellAt(e, i, p).Some? ==> EagerWritable(e, i, p);
      if op.OpFork? {
        assert EagerView(e, op.parent, p) == PlainView(q, op.parent, p);
      } else if op.OpWrite? || op.OpMap? {
        assert EagerView(e, op.pid, op.path) == PlainView(q, op.pid, op.path);
        assert CellAt(e, op.pid, op.path).Some? ==> EagerWritable(e, op.pid, op.path);
      }
    }
  }

  ghost predicate PlainRuns(w: World, q: Plain, ops: seq<Op>, w': World, q': Plain)
    decreases |ops|
  {
    if ops == [] then w' == w && q' == q
    else
      && Legal(w, ops[0])
      && PlainRuns(Step(w, ops[0]), PlainStep(q, ops[0], Initial(w, ops[0])), ops[1..], w', q')
  }

  // With writable mappings only, copy-on-write is eager copying and nothing else: every
  // process reads what it would read, and every store to a mapped page lands.
  lemma {:induction false} CowRefinesPlain(w: World, e: Eager, q: Plain, ops: seq<Op>, w': World, q': Plain)
    requires Inv(w) && Agrees(w, e) && Erased(e, q) && PlainRuns(w, q, ops, w', q')
    requires forall k :: 0 <= k < |ops| && ops[k].OpMap? ==> ops[k].access == ReadWrite
    ensures Inv(w')
    ensures forall i: nat, p: Path :: |p| == LEVELS ==>
      PlainView(q', i, p) == View(w', i, p) && (Completes(w', i, p) <==> LeafAt(w', i, p).Some?)
    decreases |ops|
  {
    if ops != [] {
      hide Agrees, Erased, Inv, Legal, Step, EagerStep, PlainStep;
      var initial := Initial(w, ops[0]);
      StepAgrees(w, e, ops[0]);
      StepErased(e, q, ops[0], initial);
      CowRefinesPlain(Step(w, ops[0]), EagerStep(e, ops[0], initial), PlainStep(q, ops[0], initial), ops[1..], w', q');
    } else {
      forall i: nat, p: Path | |p| == LEVELS
        ensures PlainView(q, i, p) == View(w, i, p) && (Completes(w, i, p) <==> LeafAt(w, i, p).Some?)
      {
        assert PageAgrees(w, e, i, p);
        assert EagerView(e, i, p) == PlainView(q, i, p);
        assert CellAt(e, i, p).Some? ==> EagerWritable(e, i, p);
      }
    }
  }

  lemma CowRefinesPlainFromBoot(managed: set<nat>, kernel: set<nat>, refs: nat -> nat, data: nat -> PageData,
      ops: seq<Op>, w: World, q: Plain)
    requires kernel <= managed
    requires PlainRuns(NoProcesses(managed, kernel, refs, data), [], ops, w, q)
    requires forall k :: 0 <= k < |ops| && ops[k].OpMap? ==> ops[k].access == ReadWrite
    ensures Inv(w)
    ensures forall i: nat, p: Path :: |p| == LEVELS ==>
      PlainView(q, i, p) == View(w, i, p) && (Completes(w, i, p) <==> LeafAt(w, i, p).Some?)
  {
    BootInv(managed, kernel, refs, data);
    CowRefinesPlain(NoProcesses(managed, kernel, refs, data), [], [], ops, w, q);
  }

  // ---- what a run loses ----

  // The faults answered by a fresh page although the address was mapped.
  ghost function Leaks(w: World, ops: seq<Op>): (n: nat)
    decreases |ops|
  {
    if ops == [] || !Legal(w, ops[0]) then 0
    else (if ops[0].OpMap? && LeafAt(w, ops[0].pid, ops[0].path).Some? then 1 else 0) + Leaks(Step(w, ops[0]), ops[1..])
  }

  // Each of them loses exactly one page for good, and nothing else does.
  lemma {:induction false} LeaksCounted(w: World, e: Eager, ops: seq<Op>, w': World, e': Eager)
    requires Inv(w) && Agrees(w, e) && Runs(w, e, ops, w', e')
    ensures |w'.kernel| == |w.kernel| + Leaks(w, ops) && w.kernel <= w'.kernel && w'.managed == w.managed
    decreases |ops|
  {
    if ops != [] {
      var op := ops[0];
      StepAgrees(w, e, op);
      StepHeld(w, op);
      LeaksCounted(Step(w, op), EagerStep(e, op, Initial(w, op)), ops[1..], w', e');
    }
  }

  lemma StepHeld(w: World, op: Op)
    requires Inv(w) && Legal(w, op)
    ensures Step(w, op).managed == w.managed
    ensures Step(w, op).kernel ==
      if op.OpMap? && LeafAt(w, op.pid, op.path).Some? then w.kernel + {op.frame} else w.kernel
    ensures op.OpMap? ==> op.frame !in w.kernel
  {
    match op
    case OpSpawn(_) =>
    case OpFork(_, _) =>
    case OpWrite(i, p, off, b, picks) => WriteHeld(w, i, p, off, b, picks);
    case OpMap(i, p, n, a, picks) => assert PageOk(w, n);
    case OpReap(i) => ReapTreeLaw(w, w.spaces[i].value, 0);
  }

  lemma {:induction false} WriteHeld(w: World, i: nat, p: Path, off: nat, b: bv8, picks: seq<nat>)
    requires |p| == LEVELS && off < 4096
    ensures Write(w, i, p, off, b, picks).managed == w.managed && Write(w, i, p, off, b, picks).kernel == w.kernel
    decreases |picks|
  {
    var l := LeafAt(w, i, p);
    if l.Some? && l.value.access != ReadWrite && l.value.cow && picks != [] {
      WriteHeld(Fault(w, i, p, picks[0]), i, p, off, b, picks[1..]);
    }
  }

  // ---- what fork does not keep: permissions ----

  // After a fork every mapped page of the parent can be written, so a page the parent could
  // only read becomes writable; fork keeps the write permissions exactly when there was no
  // such page.
  lemma ForkKeepsPermissionsIff(w: World, i: nat, c: Tree)
    requires Inv(w) && ForkLegal(w, i, c)
    ensures (forall p: Path :: |p| == LEVELS ==> (Completes(Fork(w, i, c), i, p) <==> Completes(w, i, p)))
      <==> (forall p: Path :: |p| == LEVELS && LeafAt(w, i, p).Some? ==>
        LeafAt(w, i, p).value.access == ReadWrite || LeafAt(w, i, p).value.cow)
  {
    forall p: Path | |p| == LEVELS
      ensures Completes(Fork(w, i, c), i, p) <==> LeafAt(w, i, p).Some?
    {
      ForkRights(w, i, c, i, p);
    }
    forall p: Path | |p| == LEVELS
      ensures Completes(w, i, p)
        <==> LeafAt(w, i, p).Some? && (LeafAt(w, i, p).value.access == ReadWrite || LeafAt(w, i, p).value.cow)
    {
    }
  }

  // Likewise reading: a page mapped without any right becomes readable, so fork keeps who may
  // read what exactly when no mapped page of the parent was hidden from it.
  lemma ForkKeepsReadingIff(w: World, i: nat, c: Tree)
    requires Inv(w) && ForkLegal(w, i, c)
    ensures (forall p: Path :: |p| == LEVELS ==> (Readable(Fork(w, i, c), i, p) <==> Readable(w, i, p)))
      <==> (forall p: Path :: |p| == LEVELS && LeafAt(w, i, p).Some? ==> !LeafAt(w, i, p).value.access.Hidden?)
  {
    forall p: Path | |p| == LEVELS
      ensures Readable(Fork(w, i, c), i, p) <==> LeafAt(w, i, p).Some?
    {
      ForkReads(w, i, c, i, p);
    }
    forall p: Path | |p| == LEVELS
      ensures Readable(w, i, p) <==> LeafAt(w, i, p).Some? && !LeafAt(w, i, p).value.access.Hidden?
    {
    }
  }
}
