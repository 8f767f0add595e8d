// Boot-time layout of the managed region: one block per set bit of the page count,
// laid upwards from an unaligned base.
module BuddyInit {
  import opened Bits
  import opened ListSpec
  import opened PagePool
  import opened BuddyLaws

  function BlankFrames(n: nat, base: nat): (r: seq<Frame>)
  {
    seq(n, i requires 0 <= i < n => Frame(0, 0, if i < base then Reserved else Free, false, false))
  }

  // Tail frames of these blocks get state 1 (PAGE_BUDDY_TAIL written into the state
  // field, which reads as BUDDY) and no tail flag.
  function PlaceFrames(frames: seq<Frame>, p: nat, i: nat): (r: seq<Frame>)
    ensures |r| == |frames|
  {
    seq(|frames|, j requires 0 <= j < |frames| =>
      if j == p then Frame(i, frames[j].refcount, Free, true, false)
      else if p < j < p + Pow2(i) then frames[j].(order := p, owner := Buddy)
      else frames[j])
  }

  function Place(m: Pool, p: nat, i: nat): (r: Pool)
    requires i < |m.lists|
  {
    m.(frames := PlaceFrames(m.frames, p, i), lists := Push(m.lists, i, p))
  }

  function Lay(m: Pool, avail: nat, p: nat, n: nat): (r: Pool)
    requires n <= |m.lists|
    decreases n
  {
    if n == 0 then m
    else if Bit(avail, n - 1) == 1 then Lay(Place(m, p, n - 1), avail, p + Pow2(n - 1), n - 1)
    else Lay(m, avail, p, n - 1)
  }

  function Blank(maxOrder: nat, base: nat): (r: Pool)
  {
    Pool(maxOrder, base, BlankFrames(Pow2(maxOrder), base), seq(maxOrder + 1, i => []))
  }

  function Boot(maxOrder: nat, base: nat): (r: Pool)
    requires maxOrder < base <= Pow2(maxOrder)
  {
    Lay(Blank(maxOrder, base), Pow2(maxOrder) - base, base, maxOrder + 1)
  }

  // ---- the layout is a valid pool with every managed page free ----

  lemma RemainderStep(a: nat, n: nat)
    requires n > 0
    ensures a % Pow2(n) == Bit(a, n - 1) * Pow2(n - 1) + a % Pow2(n - 1)
  {
    var d := Pow2(n - 1);
    DivDiv(a, d, 2);
    var q := a / d;
    assert a == q * d + a % d;
    assert q == q / 2 * 2 + q % 2;
    assert q * d == (q / 2) * (2 * d) + (q % 2) * d;
    if q % 2 == 0 {
      DivUnique(a, 2 * d, q / 2, a % d);
    } else {
      DivUnique(a, 2 * d, q / 2, d + a % d);
    }
  }

  // Blocks fill [base, p) and the frames from p on are blank.
  ghost predicate Laid(m: Pool, p: nat, n: nat) {
    && m.Shape() && m.ReservedOk() && m.HeadsOk() && m.InsideOk() && m.ListsOk()
    && m.base <= p <= |m.frames|
    && (forall q: nat :: m.IsHead(q) ==> q < p && m.End(q) <= p && m.frames[q].owner == Free)
    && (forall q: nat ::
      m.base <= q < p && !m.frames[q].head ==>
        m.IsHead(m.frames[q].order) && m.frames[q].order < q < m.End(m.frames[q].order))
    && (forall j :: 0 <= j < |m.lists| ==> |m.lists[j]| <= if j < n then 0 else 1)
  }

  lemma LaidWeaker(m: Pool, p: nat, n: nat)
    requires Laid(m, p, n + 1)
    ensures Laid(m, p, n)
  {
  }

  lemma PlaceKeepsLists(m: Pool, p: nat, i: nat)
    requires Laid(m, p, i + 1) && i <= m.maxOrder && p + Pow2(i) <= |m.frames|
    ensures Place(m, p, i).ListsOk()
    ensures forall j :: 0 <= j < |m.lists| ==> |Place(m, p, i).lists[j]| <= if j < i then 0 else 1
  {
    var r := Place(m, p, i);
    assert m.lists[i] == [];
    forall j, q: nat | 0 <= j <= m.maxOrder
      ensures q in r.lists[j] <==> r.FreeHead(q, j)
    {
      assert q in m.lists[j] <==> m.FreeHead(q, j);
    }
  }

  lemma PlaceKeepsLaid(m: Pool, p: nat, i: nat)
    requires Laid(m, p, i + 1) && i <= m.maxOrder && p + Pow2(i) <= |m.frames|
    ensures Laid(Place(m, p, i), p + Pow2(i), i)
  {
    PlaceKeepsLists(m, p, i);
    PlaceKeepsHeads(m, p, i);
    PlaceKeepsInside(m, p, i);
    PlaceKeepsCover(m, p, i);
  }

  lemma PlacedHead(m: Pool, p: nat, i: nat, q: nat)
    requires Laid(m, p, i + 1) && i <= m.maxOrder && p + Pow2(i) <= |m.frames|
    ensures Place(m, p, i).IsHead(q) <==> q == p || m.IsHead(q)
    ensures m.IsHead(q) ==> Place(m, p, i).frames[q] == m.frames[q]
  {
  }

  lemma PlaceKeepsHeads(m: Pool, p: nat, i: nat)
    requires Laid(m, p, i + 1) && i <= m.maxOrder && p + Pow2(i) <= |m.frames|
    ensures var r := Place(m, p, i);
      && r.Shape() && r.ReservedOk() && r.HeadsOk()
      && (forall q: nat :: r.IsHead(q) ==> q < p + Pow2(i) && r.End(q) <= p + Pow2(i) && r.frames[q].owner == Free)
  {
    forall q: nat | Place(m, p, i).IsHead(q)
      ensures q == p || (m.IsHead(q) && Place(m, p, i).frames[q] == m.frames[q])
    {
      PlacedHead(m, p, i, q);
    }
  }

  lemma PlaceKeepsInside(m: Pool, p: nat, i: nat)
    requires Laid(m, p, i + 1) && i <= m.maxOrder && p + Pow2(i) <= |m.frames|
    ensures Place(m, p, i).InsideOk()
  {
    var r := Place(m, p, i);
    forall h: nat, q: nat | r.IsHead(h) && h < q < r.End(h) && q < |r.frames|
      ensures !r.frames[q].head && r.frames[q].order == h
    {
      PlacedHead(m, p, i, h);
      PlacedHead(m, p, i, q);
      if h != p {
        assert m.End(h) <= p;
        assert r.frames[q] == m.frames[q];
      }
    }
  }

  lemma PlaceKeepsCover(m: Pool, p: nat, i: nat)
    requires Laid(m, p, i + 1) && i <= m.maxOrder && p + Pow2(i) <= |m.frames|
    ensures var r := Place(m, p, i);
      forall q: nat ::
        m.base <= q < p + Pow2(i) && !r.frames[q].head ==>
          r.IsHead(r.frames[q].order) && r.frames[q].order < q < r.End(r.frames[q].order)
  {
    var r := Place(m, p, i);
    forall q: nat | m.base <= q < p + Pow2(i) && !r.frames[q].head
      ensures r.IsHead(r.frames[q].order) && r.frames[q].order < q < r.End(r.frames[q].order)
    {
      if q < p {
        assert r.frames[q] == m.frames[q];
        assert m.IsHead(m.frames[q].order);
      }
    }
  }

  // The state at the top of the loop: what is left is the low bits of the page count.
  ghost predicate LayingFrom(m: Pool, avail: nat, p: nat, n: nat) {
    n <= m.maxOrder + 1 && Laid(m, p, n) && |m.frames| - p == avail % Pow2(n)
  }

  lemma LayingStep(m: Pool, avail: nat, p: nat, i: nat)
    requires LayingFrom(m, avail, p, i + 1)
    ensures Laid(m, p, i + 1) && i < |m.lists|
    ensures Bit(avail, i) == 1 ==> p + Pow2(i) <= |m.frames| && LayingFrom(Place(m, p, i), avail, p + Pow2(i), i)
    ensures Bit(avail, i) != 1 ==> LayingFrom(m, avail, p, i)
  {
    hide Laid, Bit, Pow2, PlaceFrames;
    LaidShape(m, p, i + 1);
    RemainderStep(avail, i + 1);
    RemainderNonneg(avail, i);
    if Bit(avail, i) == 1 {
      PlaceKeepsLaid(m, p, i);
    } else {
      BitIsBit(avail, i);
      LaidWeaker(m, p, i);
    }
  }

  lemma LaidShape(m: Pool, p: nat, n: nat)
    requires Laid(m, p, n)
    ensures |m.lists| == m.maxOrder + 1 && m.maxOrder < |m.frames| && p <= |m.frames|
  {
  }

  lemma RemainderNonneg(a: nat, n: nat)
    ensures Pow2(n) > 0 && a % Pow2(n) >= 0
  {
  }

  lemma BitIsBit(a: nat, i: nat)
    ensures Bit(a, i) != 1 ==> Bit(a, i) == 0
  {
  }

  lemma LayingEnds(m: Pool, avail: nat, p: nat, n: nat)
    requires LayingFrom(m, avail, p, n)
    ensures n <= |m.lists|
    ensures n == 0 ==> Laid(m, |m.frames|, 0)
  {
  }

  lemma {:induction false} LayIsValid(m: Pool, avail: nat, p: nat, n: nat)
    requires LayingFrom(m, avail, p, n)
    ensures n <= |m.lists| && Laid(Lay(m, avail, p, n), |Lay(m, avail, p, n).frames|, 0)
    ensures Lay(m, avail, p, n).maxOrder == m.maxOrder && Lay(m, avail, p, n).base == m.base
    decreases n
  {
    hide Laid, LayingFrom, PlaceFrames;
    LayingEnds(m, avail, p, n);
    if n > 0 {
      LayingStep(m, avail, p, n - 1);
      if Bit(avail, n - 1) == 1 {
        LayIsValid(Place(m, p, n - 1), avail, p + Pow2(n - 1), n - 1);
      } else {
        LayIsValid(m, avail, p, n - 1);
      }
    }
  }

  lemma BootIsValid(maxOrder: nat, base: nat)
    requires maxOrder < base <= Pow2(maxOrder)
    ensures var m := Boot(maxOrder, base);
      && m.maxOrder == maxOrder && m.base == base
      && m.Valid() && Coalesced(m) && Live(m) == map[] && FreePages(m) == Range(base, Pow2(maxOrder))
  {
    hide Lay, Bit, Laid, Coalesced, Pool.Valid, Live, FreePages;
    var n := Pow2(maxOrder);
    var blank := Blank(maxOrder, base);
    BlankIsLaid(maxOrder, base, blank);
    RemainderWhole(n - base, maxOrder);
    LayIsValid(blank, n - base, base, maxOrder + 1);
    LaidIsBooted(Boot(maxOrder, base));
  }

  // At boot a page inside a block has its tail mark in the state and not in the flags, unlike
  // the pages inside a block that was allocated.
  lemma BootTails(maxOrder: nat, base: nat, q: nat)
    requires maxOrder < base <= q < Pow2(maxOrder)
    ensures var m := Boot(maxOrder, base);
      |m.frames| == Pow2(maxOrder) && (m.frames[q].head || (m.frames[q].owner == Buddy && !m.frames[q].tail))
  {
    hide Lay, Pow2, Laid, LayingFrom;
    var n := Pow2(maxOrder);
    BlankIsLaid(maxOrder, base, Blank(maxOrder, base));
    RemainderWhole(n - base, maxOrder);
    BlankLaying(maxOrder, base);
    LayTails(Blank(maxOrder, base), n - base, base, maxOrder + 1);
  }

  // The frames from p on are blank, those inside the blocks below it marked.
  ghost predicate TailsInState(m: Pool, p: nat) {
    && (forall q: nat :: p <= q < |m.frames| ==> !m.frames[q].tail)
    && (forall q: nat :: m.base <= q < p && q < |m.frames| && !m.frames[q].head ==>
      m.frames[q].owner == Buddy && !m.frames[q].tail)
  }

  lemma BlankLaying(maxOrder: nat, base: nat)
    requires maxOrder < base <= Pow2(maxOrder)
    ensures var m := Blank(maxOrder, base);
      LayingFrom(m, Pow2(maxOrder) - base, base, maxOrder + 1) && TailsInState(m, base)
  {
    BlankIsLaid(maxOrder, base, Blank(maxOrder, base));
    RemainderWhole(Pow2(maxOrder) - base, maxOrder);
  }

  lemma {:induction false} LayTails(m: Pool, avail: nat, p: nat, n: nat)
    requires LayingFrom(m, avail, p, n) && TailsInState(m, p)
    ensures n <= |m.lists| && |Lay(m, avail, p, n).frames| == |m.frames| && Lay(m, avail, p, n).base == m.base
    ensures TailsInState(Lay(m, avail, p, n), |m.frames|)
    decreases n
  {
    hide Laid, LayingFrom, PlaceFrames, TailsInState;
    LayingEnds(m, avail, p, n);
    if n > 0 {
      LayingStep(m, avail, p, n - 1);
      if Bit(avail, n - 1) == 1 {
        PlaceTails(m, p, n - 1);
        LayTails(Place(m, p, n - 1), avail, p + Pow2(n - 1), n - 1);
      } else {
        LayTails(m, avail, p, n - 1);
      }
    } else {
      LayDone(m, avail, p);
    }
  }

  lemma LayDone(m: Pool, avail: nat, p: nat)
    requires LayingFrom(m, avail, p, 0)
    ensures p == |m.frames|
  {
    assert Pow2(0) == 1;
  }

  lemma PlaceTails(m: Pool, p: nat, i: nat)
    requires TailsInState(m, p) && i < |m.lists|
    ensures TailsInState(Place(m, p, i), p + Pow2(i))
  {
  }

  // The blocks at boot: one of order k exactly when bit k of the page count is set, behind the
  // blocks of the higher bits.
  lemma BootShape(maxOrder: nat, base: nat, k: nat)
    requires maxOrder < base <= Pow2(maxOrder) && k <= maxOrder
    ensures var m, avail := Boot(maxOrder, base), Pow2(maxOrder) - base;
      && |m.lists| == maxOrder + 1
      && m.lists[k] ==
           if avail / Pow2(k) % 2 == 1 then [base + avail / Pow2(k + 1) * Pow2(k + 1)] else []
  {
    hide Lay, Pow2;
    var n := Pow2(maxOrder);
    BootIsValid(maxOrder, base);
    RemainderWhole(n - base, maxOrder);
    LayLists(Blank(maxOrder, base), n - base, base, maxOrder + 1, k);
  }

  lemma {:induction false} LayLists(m: Pool, avail: nat, p: nat, n: nat, k: nat)
    requires k < |m.lists| && n <= |m.lists|
    ensures |Lay(m, avail, p, n).lists| == |m.lists|
    ensures Lay(m, avail, p, n).lists[k] ==
      if k < n && Bit(avail, k) == 1 then [p + avail % Pow2(n) / Pow2(k + 1) * Pow2(k + 1)] + m.lists[k] else m.lists[k]
    decreases n
  {
    hide Bit, Pow2, PlaceFrames;
    if n > 0 {
      if k < n - 1 {
        HighBits(avail, n, k);
      } else if k == n - 1 {
        NoHighBits(avail, n);
      }
      if Bit(avail, n - 1) == 1 {
        LayLists(Place(m, p, n - 1), avail, p + Pow2(n - 1), n - 1, k);
      } else {
        BitIsBit(avail, n - 1);
        LayLists(m, avail, p, n - 1, k);
      }
    }
  }

  // The bits above k of the low n bits, with the top one apart.
  lemma HighBits(a: nat, n: nat, k: nat)
    requires k < n - 1
    ensures a % Pow2(n) / Pow2(k + 1) * Pow2(k + 1) ==
      Bit(a, n - 1) * Pow2(n - 1) + a % Pow2(n - 1) / Pow2(k + 1) * Pow2(k + 1)
  {
    RemainderStep(a, n);
    RemainderNonneg(a, n - 1);
    Pow2Add(k + 1, n - 2 - k);
    hide Bit, Pow2;
    MultipleApart(Bit(a, n - 1), Pow2(n - 2 - k), Pow2(k + 1), a % Pow2(n - 1));
  }

  lemma MultipleApart(b: nat, c: nat, d: nat, y: nat)
    requires d > 0
    ensures (b * (d * c) + y) / d * d == b * (d * c) + y / d * d
  {
    Products(b, c, d);
    var q := b * c;
    QuotientApart(q, d, y);
  }

  lemma Products(b: nat, c: nat, d: nat)
    ensures b * (d * c) == (b * c) * d
  {
  }

  lemma QuotientApart(q: nat, d: nat, y: nat)
    requires d > 0
    ensures (q * d + y) / d * d == q * d + y / d * d
  {
    var z := y / d;
    assert y == z * d + y % d;
    assert q * d + z * d == (q + z) * d;
    DivUnique(q * d + y, d, q + z, y % d);
  }

  lemma NoHighBits(a: nat, n: nat)
    ensures a % Pow2(n) / Pow2(n) * Pow2(n) == 0
  {
    hide Pow2;
    RemainderNonneg(a, n);
    DivUnique(a % Pow2(n), Pow2(n), 0, a % Pow2(n));
  }

  lemma RemainderWhole(a: nat, k: nat)
    requires a < Pow2(k)
    ensures a % Pow2(k + 1) == a
  {
    DivUnique(a, Pow2(k + 1), 0, a);
  }

  lemma BlankIsLaid(maxOrder: nat, base: nat, blank: Pool)
    requires maxOrder < base <= Pow2(maxOrder)
    requires blank == Blank(maxOrder, base)
    ensures Laid(blank, base, maxOrder + 1)
  {
    assert forall q: nat :: q < |blank.frames| ==> !blank.frames[q].head;
  }

  lemma LaidIsBooted(m: Pool)
    requires Laid(m, |m.frames|, 0)
    ensures m.Valid() && Coalesced(m) && Live(m) == map[] && FreePages(m) == Range(m.base, Pow2(m.maxOrder))
  {
    LaidIsCoalesced(m);
    LaidIsValid(m);
    forall q: nat | m.base <= q < |m.frames|
      ensures PageFree(m, q)
    {
      assert m.IsHead(HeadOf(m, q));
    }
  }

  lemma OneElement(l: seq<nat>, x: nat, y: nat)
    requires |l| <= 1 && x != y
    ensures x !in l || y !in l
  {
  }

  lemma LaidIsValid(m: Pool)
    requires Laid(m, |m.frames|, 0)
    ensures m.Valid()
  {
  }

  // No list holds two blocks, so no two buddies are both listed.
  lemma LaidIsCoalesced(m: Pool)
    requires Laid(m, |m.frames|, 0)
    ensures Coalesced(m)
  {
    forall p: nat, k: nat
      ensures Apart(m, p, k)
    {
      if k < m.maxOrder {
        OneElement(m.lists[k], p, Flip(p, k));
      }
    }
  }
}
