// The keyboard pipe: interrupts produce into a ring, readers consume with wrap-around.
module KeyboardRing {
  import opened IntrusiveList
  import opened ListSpec

  const RING := 4096
  const WORD := 0x1_0000_0000_0000_0000

  // head and tail are free-running u64 counters that start at the buffer's address.
  datatype Ring = Ring(buf: seq<bv8>, head: nat, tail: nat, readers: seq<nat>)

  // u64 subtraction.
  function Minus(a: nat, b: nat): (d: nat)
    requires a < WORD && b < WORD
  {
    (a - b) % WORD
  }

  predicate Shaped(r: Ring) {
    |r.buf| == RING && r.head < WORD && r.tail < WORD
  }

  // kbd.c:64-77; every listener is woken and unlinked.
  function KeyEvent(r: Ring, c: bv8): (n: Ring)
    requires Shaped(r)
    ensures Shaped(n)
  {
    if Minus(r.head, r.tail) >= RING then r
    else Ring(r.buf[r.head % RING := c], (r.head + 1) % WORD, r.tail, [])
  }

  datatype ReadResult = Blocks(ring: Ring) | Data(ring: Ring, bytes: seq<bv8>)

  function Min(a: nat, b: nat): (m: nat) {
    if a < b then a else b
  }

  // filedescriptors.c:28-63, one pass: an empty pipe registers the reader only if no other
  // is registered; otherwise two chunks are copied. count is truncated to 32 bits.
  function Read(r: Ring, p: nat, count: nat): (n: ReadResult)
    requires Shaped(r)
    ensures Shaped(n.ring)
  {
    if r.head == r.tail then Blocks(if r.readers == [] then r.(readers := [p]) else r)
    else
      var n := Min(Minus(r.head, r.tail) % 0x1_0000_0000, count % 0x1_0000_0000);
      var at := r.tail % RING;
      var first := Min(n, RING - at);
      Data(r.(tail := (r.tail + n) % WORD), r.buf[at..at + first] + r.buf[..Min(n - first, RING)])
  }

  // Since the counters were `start`, the bytes in `all` were accepted and the first `done`
  // of them read.
  ghost predicate Holds(r: Ring, start: nat, all: seq<bv8>, done: nat) {
    && Shaped(r) && done <= |all| <= done + RING
    && r.head == (start + |all|) % WORD && r.tail == (start + done) % WORD
    && (forall i :: done <= i < |all| ==> r.buf[(start + i) % RING] == all[i])
    && (r.readers != [] ==> done == |all|)
  }

  lemma Occupancy(start: nat, n: nat, done: nat)
    requires done <= n <= done + RING
    ensures Minus((start + n) % WORD, (start + done) % WORD) == n - done
    ensures (start + n) % WORD == (start + done) % WORD <==> n == done
  {
  }

  lemma WordInRing(x: nat)
    ensures x % WORD % RING == x % RING
  {
  }

  lemma Slots(start: nat, i: nat, j: nat)
    requires i < j < i + RING
    ensures (start + i) % RING != (start + j) % RING
  {
  }

  // An event appends its byte when there is room and changes nothing else; and no reader is
  // left registered once there is something to read.
  lemma KeyEventLaw(r: Ring, c: bv8, start: nat, all: seq<bv8>, done: nat)
    requires Holds(r, start, all, done)
    ensures done <= |all| <= done + RING && Shaped(r) && Minus(r.head, r.tail) == |all| - done
    ensures if |all| == done + RING then KeyEvent(r, c) == r
      else Holds(KeyEvent(r, c), start, all + [c], done) && KeyEvent(r, c).readers == []
  {
    Occupancy(start, |all|, done);
    if |all| < done + RING {
      Stored(r, c, start, all, done);
      hide Minus;
    }
  }

  lemma Stored(r: Ring, c: bv8, start: nat, all: seq<bv8>, done: nat)
    requires Holds(r, start, all, done) && |all| < done + RING
    ensures Holds(Ring(r.buf[r.head % RING := c], (r.head + 1) % WORD, r.tail, []), start, all + [c], done)
  {
    WordInRing(start + |all|);
    Advance(start + |all|, 1);
    var buf := r.buf[r.head % RING := c];
    forall i | done <= i < |all| + 1
      ensures buf[(start + i) % RING] == (all + [c])[i]
    {
      if i < |all| {
        Slots(start, i, |all|);
      }
    }
  }

  // A read returns the next bytes in order, as many as there are and as were asked for, even
  // across the end of the buffer.
  lemma ReadLaw(r: Ring, p: nat, count: nat, start: nat, all: seq<bv8>, done: nat)
    requires Holds(r, start, all, done)
    ensures done <= |all| && Shaped(r)
    ensures done == |all| ==>
      && Read(r, p, count).Blocks? && Holds(Read(r, p, count).ring, start, all, done)
      && Read(r, p, count).ring.readers == if r.readers == [] then [p] else r.readers
    ensures done < |all| ==>
      var n := Min(|all| - done, count % 0x1_0000_0000);
      Read(r, p, count).Data? && Read(r, p, count).bytes == all[done..done + n]
        && Holds(Read(r, p, count).ring, start, all, done + n)
  {
    hide Minus;
    Occupancy(start, |all|, done);
    if done < |all| {
      ReadSome(r, p, count, start, all, done);
    }
  }

  lemma ReadSome(r: Ring, p: nat, count: nat, start: nat, all: seq<bv8>, done: nat)
    requires Holds(r, start, all, done) && done < |all|
    ensures var n := Min(|all| - done, count % 0x1_0000_0000);
      Read(r, p, count).Data? && Read(r, p, count).bytes == all[done..done + n]
        && Holds(Read(r, p, count).ring, start, all, done + n)
  {
    var n := Min(|all| - done, count % 0x1_0000_0000);
    ReadBytes(r, start, all, done, n);
    ReadIs(r, p, count, start, all, done);
    Consumed(r, start, all, done, n);
    hide Holds, Read, Minus;
  }

  lemma ReadIs(r: Ring, p: nat, count: nat, start: nat, all: seq<bv8>, done: nat)
    requires Holds(r, start, all, done) && done < |all|
    ensures Shaped(r)
    ensures var n := Min(|all| - done, count % 0x1_0000_0000); var at := (start + done) % RING;
      var first := Min(n, RING - at);
      n - first <= RING &&
      Read(r, p, count) == Data(r.(tail := (r.tail + n) % WORD), r.buf[at..at + first] + r.buf[..n - first])
  {
    Occupancy(start, |all|, done);
    WordInRing(start + done);
    ReadFrom(r, p, count, |all| - done, (start + done) % RING);
    hide Minus, Read;
  }

  lemma ReadFrom(r: Ring, p: nat, count: nat, held: nat, at: nat)
    requires Shaped(r) && r.head != r.tail && Minus(r.head, r.tail) == held <= RING && r.tail % RING == at
    ensures var n := Min(held, count % 0x1_0000_0000); var first := Min(n, RING - at);
      n - first <= RING &&
      Read(r, p, count) == Data(r.(tail := (r.tail + n) % WORD), r.buf[at..at + first] + r.buf[..n - first])
  {
    hide Minus;
    assert held % 0x1_0000_0000 == held;
  }

  lemma Advance(x: nat, n: nat)
    ensures (x % WORD + n) % WORD == (x + n) % WORD
  {
  }

  lemma Consumed(r: Ring, start: nat, all: seq<bv8>, done: nat, n: nat)
    requires Holds(r, start, all, done) && done < |all| && n <= |all| - done
    ensures Holds(r.(tail := (r.tail + n) % WORD), start, all, done + n)
  {
    Advance(start + done, n);
  }

  lemma ReadBytes(r: Ring, start: nat, all: seq<bv8>, done: nat, n: nat)
    requires Holds(r, start, all, done) && n <= |all| - done
    ensures var at := (start + done) % RING; var first := Min(n, RING - at);
      first <= n && n - first <= RING && r.buf[at..at + first] + r.buf[..n - first] == all[done..done + n]
  {
    var at := (start + done) % RING;
    var first := Min(n, RING - at);
    var bytes := r.buf[at..at + first] + r.buf[..n - first];
    forall k | 0 <= k < n
      ensures bytes[k] == all[done..done + n][k]
    {
      Wrap(start + done, k);
      assert r.buf[(start + (done + k)) % RING] == all[done + k];
    }
  }

  lemma Wrap(x: nat, k: nat)
    requires k < RING
    ensures (x + k) % RING == if x % RING + k < RING then x % RING + k else x % RING + k - RING
  {
  }

  // ---- every interleaving of events and reads ----

  datatype Step = Key(c: bv8) | Get(pid: nat, count: nat)

  // out collects what reads returned, taken what events were accepted.
  ghost predicate Runs(r: Ring, steps: seq<Step>, r': Ring, taken: seq<bv8>, out: seq<bv8>)
    requires Shaped(r)
    decreases |steps|
  {
    if steps == [] then r' == r && taken == [] && out == []
    else
      match steps[0]
      case Key(c) =>
        if Minus(r.head, r.tail) >= RING then Runs(r, steps[1..], r', taken, out)
        else taken != [] && taken[0] == c && Runs(KeyEvent(r, c), steps[1..], r', taken[1..], out)
      case Get(p, k) =>
        match Read(r, p, k)
        case Blocks(n) => Runs(n, steps[1..], r', taken, out)
        case Data(n, b) => b <= out && Runs(n, steps[1..], r', taken, out[|b|..])
  }

  lemma {:induction false} RunLaw(r: Ring, steps: seq<Step>, r': Ring, taken: seq<bv8>, out: seq<bv8>, start: nat,
          all: seq<bv8>, done: nat)
    requires Holds(r, start, all, done) && Runs(r, steps, r', taken, out)
    ensures done + |out| <= |all + taken| && all[done..] + taken == (all + taken)[done..]
    ensures out == (all + taken)[done..done + |out|] && Holds(r', start, all + taken, done + |out|)
    decreases |steps|
  {
    if steps == [] {
      assert all + taken == all;
    } else {
      match steps[0]
      case Key(c) => RunKey(r, c, steps, r', taken, out, start, all, done);
      case Get(p, k) => RunGet(r, p, k, steps, r', taken, out, start, all, done);
    }
  }

  lemma {:induction false} RunKey(r: Ring, c: bv8, steps: seq<Step>, r': Ring, taken: seq<bv8>, out: seq<bv8>,
          start: nat, all: seq<bv8>, done: nat)
    requires steps != [] && steps[0] == Key(c) && Holds(r, start, all, done) && Runs(r, steps, r', taken, out)
    ensures done + |out| <= |all + taken|
    ensures out == (all + taken)[done..done + |out|] && Holds(r', start, all + taken, done + |out|)
    decreases |steps|, 0
  {
    hide Holds, Minus, KeyEvent;
    KeyEventLaw(r, c, start, all, done);
    if |all| == done + RING {
      RunLaw(r, steps[1..], r', taken, out, start, all, done);
    } else {
      RunLaw(KeyEvent(r, c), steps[1..], r', taken[1..], out, start, all + [c], done);
      assert all + [c] + taken[1..] == all + taken;
    }
  }

  lemma {:induction false} RunGet(r: Ring, p: nat, k: nat, steps: seq<Step>, r': Ring, taken: seq<bv8>, out: seq<bv8>,
          start: nat, all: seq<bv8>, done: nat)
    requires steps != [] && steps[0] == Get(p, k) && Holds(r, start, all, done) && Runs(r, steps, r', taken, out)
    ensures done + |out| <= |all + taken|
    ensures out == (all + taken)[done..done + |out|] && Holds(r', start, all + taken, done + |out|)
    decreases |steps|, 0
  {
    hide Holds, Read, Minus, KeyEvent, Shaped;
    ReadLaw(r, p, k, start, all, done);
    if done == |all| {
      RunLaw(Read(r, p, k).ring, steps[1..], r', taken, out, start, all, done);
    } else {
      var b := Read(r, p, k).bytes;
      var rest := out[|b|..];
      RunLaw(Read(r, p, k).ring, steps[1..], r', taken, rest, start, all, done + |b|);
      Pieces(all, taken, done, b, rest, out);
    }
  }

  lemma Pieces(all: seq<bv8>, taken: seq<bv8>, done: nat, b: seq<bv8>, rest: seq<bv8>, out: seq<bv8>)
    requires done + |b| <= |all| && b == all[done..done + |b|] && out == b + rest
    requires done + |b| + |rest| <= |all + taken| && rest == (all + taken)[done + |b|..done + |b| + |rest|]
    ensures done + |out| <= |all + taken| && out == (all + taken)[done..done + |out|]
  {
  }

  // From an empty pipe, what the readers got is a prefix of what the keyboard delivered.
  lemma ReadsArePrefix(r: Ring, steps: seq<Step>, r': Ring, taken: seq<bv8>, out: seq<bv8>)
    requires Shaped(r) && r.head == r.tail && Runs(r, steps, r', taken, out)
    ensures Shaped(r')
    ensures out <= taken && |taken| - |out| <= RING && Minus(r'.head, r'.tail) == |taken| - |out|
    ensures r'.readers != [] ==> out == taken
  {
    assert Holds(r, r.head, [], 0);
    RunLaw(r, steps, r', taken, out, r.head, [], 0);
    assert [] + taken == taken;
    Occupancy(r.head, |taken|, |out|);
  }

  // ---- the pipe as it is updated ----

  class Pipe {
    const buf: array<bv8>
    var head: nat
    var tail: nat
    // One node per process, its wait entry, and one head, the list of readers.
    const links: ListHeap

    ghost function Model(): (r: Ring)
      requires |links.lists| == 1
      reads this, buf, links
    {
      Ring(buf[..], head, tail, links.lists[0])
    }

    ghost predicate Valid()
      reads this, buf, links, links.next, links.prev
    {
      && links.Valid() && |links.lists| == 1 && Shaped(Model())
      && var b: object := buf; b != links.next && b != links.prev && b != links
    }

    constructor (address: nat, processes: nat)
      requires address < WORD
      ensures Valid() && head == tail == address && Model().readers == [] && links.nodes == processes
      ensures fresh(buf) && fresh(links) && fresh(links.next) && fresh(links.prev)
    {
      buf := new bv8[RING](i => 0);
      head, tail := address, address;
      links := new ListHeap(processes, 1);
    }

    // Returns the processes woken, in order.
    method HandleKeyboardEvent(c: bv8) returns (woken: seq<nat>)
      requires Valid()
      modifies this, buf, links, links.next, links.prev
      ensures Valid() && Model() == KeyEvent(old(Model()), c)
      ensures woken == if Minus(old(head), old(tail)) >= RING then [] else old(Model()).readers
    {
      woken := [];
      if (head - tail) % WORD >= RING {
        return;
      }
      buf[head % RING] := c;
      head := (head + 1) % WORD;
      woken := WakeListeners();
    }

    // kbd.c:50-61
    method WakeListeners() returns (woken: seq<nat>)
      requires Valid()
      modifies links, links.next, links.prev
      ensures Valid() && Model() == old(Model()).(readers := []) && woken == old(Model()).readers
    {
      woken := [];
      ghost var all := links.lists[0];
      var empty := links.Empty(0);
      while !empty
        modifies links, links.next, links.prev
        invariant links.Valid() && |links.lists| == 1 && woken + links.lists[0] == all
        invariant empty <==> links.lists[0] == []
        decreases |links.lists[0]|
      {
        var p := WakeFirst();
        woken := woken + [p];
        empty := links.Empty(0);
      }
    }

    // The turn of that loop: the front reader is woken and taken off the list.
    method WakeFirst() returns (p: nat)
      requires links.Valid() && |links.lists| == 1 && links.lists[0] != []
      modifies links, links.next, links.prev
      ensures links.Valid() && |links.lists| == 1 && old(links.lists)[0] == [p] + links.lists[0]
    {
      ghost var rest := links.lists[0];
      p := links.First(0);
      assert OnList(links.lists, p);
      links.Remove(p);
      WithoutFirst(rest, p);
      assert links.lists[0] == rest[1..];
    }

    // One pass; the reader's own entry is on no list.
    method PipeRead(p: nat, count: nat) returns (bytes: seq<bv8>, blocked: bool)
      requires Valid() && p < links.nodes
      modifies this, links, links.next, links.prev
      ensures Valid()
      ensures match Read(old(Model()), p, count)
        case Blocks(r) => blocked && Model() == r
        case Data(r, b) => !blocked && bytes == b && Model() == r
    {
      if head == tail {
        var none := links.Empty(0);
        if none {
          assert !OnList(links.lists, p);
          links.Add(p, 0);
          assert links.lists[0] == [p];
        }
        return [], true;
      }
      var n := Min((head - tail) % WORD % 0x1_0000_0000, count % 0x1_0000_0000);
      var at := tail % RING;
      var first := Min(n, RING - at);
      bytes := buf[at..at + first];
      var second := n - first;
      if second > 0 {
        bytes := bytes + buf[..Min(second, RING)];
      }
      tail := (tail + n) % WORD;
      blocked := false;
    }
  }

  lemma WithoutFirst(s: seq<nat>, p: nat)
    requires s != [] && s[0] == p
    ensures Without(s, p) == s[1..]
  {
  }
}
