// kmalloc.c as functions on values: size classes carved out of slabs, each slab a block of
// the buddy allocator with a header, a bitmap and two counters.
module SlabSpec {
  import opened Bits
  import opened ListSpec
  import opened PagePool
  import opened BuddyLaws
  import opened BuddyRuns
  import opened PageOwner

  const CACHES := 7
  const MIN_CLASS := 5
  const MAX_CLASS := 11
  const PAGE := 4096
  // sizeof(slab): two pointers, a 16-byte bitmap, three u16, padded to 8.
  const HEADER := 40
  const BITS := 128

  // lost: bits left set by the memory the slab was built in. Only eight of the sixteen
  // bitmap bytes are cleared, so these are bits 64 and up.
  datatype SlabInfo = SlabInfo(size: nat, total: nat, inuse: nat, bits: seq<bool>, lost: set<nat>)

  datatype Heap = Heap(pool: Pool, slabs: map<nat, SlabInfo>, partial: Lists, full: Lists)

  function AlignUp(x: nat, a: nat): (r: nat)
    requires a > 0
  {
    (x + a - 1) / a * a
  }

  // ---- geometry of a slab of class c (objects of 2^c bytes) ----

  function SlabOrder(c: nat): (o: nat) {
    if c > 9 then c - 9 else 0
  }

  function Item(c: nat): (s: nat) {
    if c == 5 then 32 else if c == 6 then 64 else if c == 7 then 128 else if c == 8 then 256
    else if c == 9 then 512 else if c == 10 then 1024 else 2048
  }

  function SlabBytes(c: nat): (n: nat) {
    if c == 10 then 2 * PAGE else if c == 11 then 4 * PAGE else PAGE
  }

  function FirstItem(c: nat): (off: nat) {
    AlignUp(HEADER, Item(c))
  }

  function Total(c: nat): (n: nat) {
    (SlabBytes(c) - FirstItem(c)) / Item(c)
  }

  lemma SmallPowers()
    ensures Pow2(0) == 1 && Pow2(1) == 2 && Pow2(2) == 4
    ensures Pow2(5) == 32 && Pow2(6) == 64 && Pow2(7) == 128 && Pow2(8) == 256 && Pow2(9) == 512
    ensures Pow2(10) == 1024 && Pow2(11) == 2048
  {
    assert Pow2(3) == 8 && Pow2(4) == 16;
    assert Pow2(7) == 4 * Pow2(5) && Pow2(9) == 4 * Pow2(7) && Pow2(11) == 4 * Pow2(9);
  }

  // A slab's objects fill its block from the least multiple of the object size past the header.
  lemma Geometry(c: nat)
    requires MIN_CLASS <= c <= MAX_CLASS
    ensures Item(c) == Pow2(c) && SlabBytes(c) == PAGE * Pow2(SlabOrder(c))
    ensures FirstItem(c) + Total(c) * Item(c) == SlabBytes(c)
    ensures HEADER <= FirstItem(c) < HEADER + Item(c) && FirstItem(c) / Item(c) * Item(c) == FirstItem(c)
    ensures 7 <= Total(c) <= 126 && (c > 5 ==> Total(c) <= 63)
  {
    SmallPowers();
  }

  // The pages and the objects of a slab, class by class.
  lemma SlabTable()
    ensures SlabOrder(5) == SlabOrder(6) == SlabOrder(7) == SlabOrder(8) == SlabOrder(9) == 0
    ensures SlabOrder(10) == 1 && SlabOrder(11) == 2
    ensures Total(5) == 126 && Total(6) == 63 && Total(7) == 31 && Total(8) == 15
    ensures Total(9) == 7 && Total(10) == 7 && Total(11) == 7
  {
  }

  lemma SlabOrderFits(c: nat)
    requires MIN_CLASS <= c <= MAX_CLASS
    ensures OrderFor(PagesFor(PAGE * (SlabOrder(c) + 1))) == SlabOrder(c)
  {
    var o := SlabOrder(c);
    assert PagesFor(PAGE * (o + 1)) == o + 1;
    SmallOrders(o);
  }

  lemma SmallOrders(o: nat)
    requires o <= 2
    ensures OrderFor(o + 1) == o
  {
    SmallPowers();
    assert OrderFrom(1, 2) == 1;
    assert OrderFrom(2, 3) == 2;
    assert OrderFrom(1, 3) == 2;
  }

  // ---- kmalloc.c:63: 1 << (64 - clz(MAX(bytes, 32) - 1)) ----

  function BitLength(x: nat): (n: nat) {
    if x == 0 then 0 else 1 + BitLength(x / 2)
  }

  function Class(bytes: nat): (c: nat) {
    BitLength((if bytes > 32 then bytes else 32) - 1)
  }

  lemma {:induction false} BitLengthBounds(x: nat)
    ensures x < Pow2(BitLength(x)) && (x > 0 ==> Pow2(BitLength(x) - 1) <= x)
  {
    if x > 0 {
      BitLengthBounds(x / 2);
    }
  }

  // The class is the least power of two, at least 32, that holds the request.
  lemma ClassIsLeast(bytes: nat)
    ensures Class(bytes) >= 5 && bytes <= Pow2(Class(bytes)) && (Class(bytes) > 5 ==> Pow2(Class(bytes) - 1) < bytes)
  {
    var n := if bytes > 32 then bytes else 32;
    BitLengthBounds(n - 1);
    var k := Class(bytes);
    assert Pow2(4) == 16 && Pow2(5) == 32;
    if k < 5 {
      Pow2Monotone(k, 4);
    }
    if k > 5 {
      Pow2Monotone(5, k - 1);
    }
  }

  // ---- _addr_from_slab (kmalloc.c:40-57) ----

  function FirstClear(bits: seq<bool>, i: nat, total: nat): (j: nat)
    requires i <= total <= |bits|
    ensures i <= j <= total && (j < total ==> !bits[j]) && (forall k :: i <= k < j ==> bits[k])
    decreases total - i
  {
    if i == total || !bits[i] then i else FirstClear(bits, i + 1, total)
  }

  function Address(page: nat, c: nat, i: nat): (a: nat) {
    page * PAGE + FirstItem(c) + i * Item(c)
  }

  // ---- kmalloc ----

  // Null is a null return, Panic a call to panic().
  datatype Outcome = Ok(heap: Heap, addr: nat) | Null(heap: Heap) | Panic

  function NewSlab(c: nat, junk: seq<bool>): (s: SlabInfo)
    requires |junk| == BITS
  {
    SlabInfo(c, Total(c), 0, seq(BITS, i requires 0 <= i < BITS => if i < 64 then false else junk[i]),
         set i | 64 <= i < Total(c) && i < BITS && junk[i])
  }

  predicate Caches(h: Heap) {
    |h.partial| == CACHES && |h.full| == CACHES
  }

  // Take one object from the first partial slab of the class.
  function TakeObject(h: Heap, c: nat): (r: Outcome)
    requires Caches(h) && MIN_CLASS <= c <= MAX_CLASS && h.partial[c - MIN_CLASS] != []
    requires var s := h.partial[c - MIN_CLASS][0]; s in h.slabs && h.slabs[s].total <= |h.slabs[s].bits|
  {
    var p := h.partial[c - MIN_CLASS][0];
    var s := h.slabs[p];
    var i := FirstClear(s.bits, 0, s.total);
    if i == s.total then Null(h)
    else
      var s' := s.(bits := s.bits[i := true], inuse := s.inuse + 1);
      var h' := h.(slabs := h.slabs[p := s']);
      Ok(if s'.inuse == s'.total then MoveToFull(h', p, c - MIN_CLASS) else h', Address(p, s.size, i))
  }

  function MoveToFull(h: Heap, p: nat, k: nat): (r: Heap)
    requires Caches(h) && k < CACHES
  {
    h.(partial := Delete(h.partial, p), full := Push(h.full, k, p))
  }

  function MoveToPartial(h: Heap, p: nat, k: nat): (r: Heap)
    requires Caches(h) && k < CACHES
  {
    h.(full := Delete(h.full, p), partial := Push(h.partial, k, p))
  }

  function AddSlab(h: Heap, pool: Pool, p: nat, c: nat, junk: seq<bool>): (r: Heap)
    requires Caches(h) && MIN_CLASS <= c <= MAX_CLASS && |junk| == BITS
  {
    Heap(pool, h.slabs[p := NewSlab(c, junk)], Push(h.partial, c - MIN_CLASS, p), h.full)
  }

  // _slab_alloc (kmalloc.c:13-29): order + 1 pages, handed to the slab layer.
  function SlabPages(m: Pool, c: nat): (r: Alloc)
    requires m.Valid() && Coalesced(m)
    ensures r.Alloc? ==> r.pool.Valid() && Coalesced(r.pool)
  {
    var a := BuddyAlloc(m, PAGE * (SlabOrder(c) + 1));
    if a.NoMemory? then NoMemory
    else
      SlabPagesLaw(m, c);
      Alloc(SetOwner(a.pool, a.page, Slab), a.page)
  }

  lemma SlabPagesLaw(m: Pool, c: nat)
    requires m.Valid() && Coalesced(m) && BuddyAlloc(m, PAGE * (SlabOrder(c) + 1)).Alloc?
    ensures var a := BuddyAlloc(m, PAGE * (SlabOrder(c) + 1));
      && a.pool.Valid() && a.page < |a.pool.frames| && a.page in Live(a.pool) && HeadOf(a.pool, a.page) == a.page
      && SetOwner(a.pool, a.page, Slab).Valid() && Coalesced(SetOwner(a.pool, a.page, Slab))
  {
    AllocOrderLaw(m, OrderFor(PagesFor(PAGE * (SlabOrder(c) + 1))));
    var a := BuddyAlloc(m, PAGE * (SlabOrder(c) + 1));
    assert a.page in Live(a.pool);
    SetOwnerLaw(a.pool, a.page, Slab);
  }

  // Every list of slabs holds known slabs.
  ghost predicate Listed(h: Heap) {
    && Caches(h)
    && forall c :: 0 <= c < CACHES && h.partial[c] != [] ==>
         h.partial[c][0] in h.slabs && h.slabs[h.partial[c][0]].total <= |h.slabs[h.partial[c][0]].bits|
  }

  // junk is what the slab's memory held where its bitmap comes to lie.
  function Kmalloc(h: Heap, bytes: nat, junk: seq<bool>): (r: Outcome)
    requires h.pool.Valid() && Coalesced(h.pool) && Listed(h) && |junk| == BITS
  {
    var c := Class(bytes);
    ClassIsLeast(bytes);
    if bytes > 0x4000_0000 then Null(h)
    else if c > MAX_CLASS then
      (var a := BuddyAlloc(h.pool, Pow2(c)); if a.Alloc? then Ok(h.(pool := a.pool), a.page * PAGE) else Null(h))
    else if h.partial[c - MIN_CLASS] == [] then
      (var a := SlabPages(h.pool, c);
       if a.NoMemory? then Panic
       else TotalFits(c); TakeObject(AddSlab(h, a.pool, a.page, c, junk), c))
    else TakeObject(h, c)
  }

  lemma TotalFits(c: nat)
    requires MIN_CLASS <= c <= MAX_CLASS
    ensures Total(c) <= BITS
  {
  }

  // ---- kfree (kmalloc.c:109-174) ----

  function Index(s: SlabInfo, p: nat, addr: nat): (i: int)
  {
    (addr - p * PAGE) / Item(s.size) - FirstItem(s.size) / Item(s.size)
  }

  // Decrement of a u16.
  function Less16(n: nat): (r: nat) {
    if n == 0 then 0xFFFF else n - 1
  }

  function SlabFree(h: Heap, p: nat, i: nat): (r: Heap)
    requires h.pool.Valid() && Caches(h) && p in h.slabs && i < |h.slabs[p].bits| && p < |h.pool.frames|
    requires MIN_CLASS <= h.slabs[p].size <= MAX_CLASS
  {
    var s := h.slabs[p];
    if !s.bits[i] then h
    else
      var h1 := if s.inuse == s.total then MoveToPartial(h, p, s.size - MIN_CLASS) else h;
      var s' := s.(bits := s.bits[i := false], inuse := Less16(s.inuse), lost := s.lost - {i});
      if s'.inuse == 0 then
        Heap(BuddyFree(h1.pool, p), h1.slabs - {p}, Delete(h1.partial, p), h1.full)
      else h1.(slabs := h1.slabs[p := s'])
  }

  // The slab an address lies in, and the object index kfree computes from it.
  ghost predicate InSlab(h: Heap, addr: nat) {
    h.pool.Valid() && addr / PAGE < |h.pool.frames| && OwnerOf(h.pool, addr / PAGE) == Slab
  }

  datatype Freed = Freed(heap: Heap) | FreePanic

  // What callers owe kfree: an address of this memory that is not in a slab's header.
  ghost predicate Freeable(h: Heap, addr: nat)
    requires h.pool.Valid() && Caches(h)
  {
    addr / PAGE < |h.pool.frames|
    && (InSlab(h, addr) && addr != 0 ==>
      var hp := HeadFromPage(h.pool, addr / PAGE);
      && hp.Head? && hp.page in h.slabs && hp.page < |h.pool.frames| && MIN_CLASS <= h.slabs[hp.page].size <= MAX_CLASS
      && 0 <= Index(h.slabs[hp.page], hp.page, addr) < |h.slabs[hp.page].bits|)
  }

  function Kfree(h: Heap, addr: nat): (r: Freed)
    requires h.pool.Valid() && Caches(h) && Freeable(h, addr)
  {
    if addr == 0 then Freed(h)
    else
      var page := addr / PAGE;
      match OwnerOf(h.pool, page)
      case Buddy => Freed(h.(pool := BuddyFree(h.pool, page)))
      case Slab => (var p := HeadFromPage(h.pool, page).page; Freed(SlabFree(h, p, Index(h.slabs[p], p, addr))))
      case Free => Freed(h)
      case Reserved => FreePanic
  }
}
