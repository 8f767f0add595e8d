// Powers of two and the one bit operation the allocator relies on: the buddy of
// a block is found by exclusive-or with the block size.
module Bits {

  function Pow2(n: nat): (p: nat)
    ensures p >= 1
  {
    if n == 0 then 1 else 2 * Pow2(n - 1)
  }

  lemma Pow2Monotone(a: nat, b: nat)
    requires a <= b
    ensures Pow2(a) <= Pow2(b)
    ensures a < b ==> 2 * Pow2(a) <= Pow2(b)
    decreases b
  {
    if a < b {
      Pow2Monotone(a, b - 1);
    }
  }

  lemma {:induction false} Pow2Above(n: nat)
    ensures n < Pow2(n)
  {
    if n > 0 {
      Pow2Above(n - 1);
    }
  }

  lemma {:induction false} Pow2Add(a: nat, b: nat)
    ensures Pow2(a + b) == Pow2(a) * Pow2(b)
  {
    if b > 0 {
      Pow2Add(a, b - 1);
      assert Pow2(a + b) == 2 * (Pow2(a) * Pow2(b - 1));
    }
  }

  // ---- division by a variable divisor ----

  lemma DivUnique(x: int, d: int, q: int, r: int)
    requires d > 0 && 0 <= r < d
    requires x == q * d + r
    ensures x / d == q && x % d == r
  {
    var q', r' := x / d, x % d;
    assert x == q' * d + r';
    assert (q - q') * d == r' - r;
    MultipleInside(q - q', d);
  }

  lemma MultipleInside(c: int, d: int)
    requires d > 0 && -d < c * d < d
    ensures c == 0
  {
  }

  lemma DivShift(x: int, d: int, j: int)
    requires d > 0
    ensures (x + j * d) / d == x / d + j
    ensures (x + j * d) % d == x % d
  {
    var q, r := x / d, x % d;
    assert x == q * d + r;
    assert (q + j) * d == q * d + j * d;
    DivUnique(x + j * d, d, q + j, r);
  }

  lemma DivNext(x: int, d: int)
    requires d > 0
    ensures (x + d) / d == x / d + 1 && (x + d) % d == x % d
  {
    DivShift(x, d, 1);
  }

  lemma ProductMonotone(a: int, b: int, d: nat)
    requires a <= b
    ensures a * d <= b * d
  {
    assert (b - a) * d >= 0;
  }

  lemma TwoDigits(r: int, a: nat, s: int, b: nat)
    requires 0 <= r < a && 0 <= s < b
    ensures 0 <= s * a + r < a * b
  {
    ProductMonotone(0, s, a);
    ProductMonotone(s + 1, b, a);
    assert (s + 1) * a == s * a + a;
  }

  lemma Regroup(q: int, b: int, s: int, a: int)
    ensures (q * b + s) * a == q * (a * b) + s * a
  {
    assert q * b * a == q * (a * b);
  }

  lemma DivDiv(x: nat, a: nat, b: nat)
    requires a > 0 && b > 0
    ensures a * b > 0
    ensures x / (a * b) == x / a / b
  {
    var q, r := x / a, x % a;
    var q2, r2 := q / b, q % b;
    TwoDigits(r, a, r2, b);
    Regroup(q2, b, r2, a);
    DivUnique(x, a * b, q2, r2 * a + r);
  }

  // ---- bits ----

  function Bit(p: nat, k: nat): (b: nat)
  {
    p / Pow2(k) % 2
  }

  predicate Aligned(p: nat, k: nat) {
    p % Pow2(k) == 0
  }

  lemma HighBitIsLarge(p: nat, k: nat)
    requires Bit(p, k) == 1
    ensures Pow2(k) <= p
  {
    if p < Pow2(k) {
      DivUnique(p, Pow2(k), 0, p);
    }
  }

  /** p ^ (1 << k): paging.c finds a block's buddy this way. */
  function Flip(p: nat, k: nat): (b: nat)
    ensures b == p + Pow2(k) || b + Pow2(k) == p
  {
    if Bit(p, k) == 0 then p + Pow2(k) else HighBitIsLarge(p, k); p - Pow2(k)
  }

  lemma FlipFlipsBit(p: nat, k: nat)
    ensures Bit(Flip(p, k), k) == 1 - Bit(p, k)
    ensures Flip(Flip(p, k), k) == p
  {
    var d := Pow2(k);
    if Bit(p, k) == 0 {
      DivNext(p, d);
    } else {
      DivNext(Flip(p, k), d);
    }
  }

  // Flip is exclusive-or: it changes bit k and no other bit.
  lemma FlipIsXor(p: nat, k: nat, j: nat)
    ensures Bit(Flip(p, k), j) == if j == k then 1 - Bit(p, k) else Bit(p, j)
  {
    FlipFlipsBit(p, k);
    var q := Flip(p, k);
    if j < k {
      if p < q { LowerBitsKept(p, j, k); } else { LowerBitsKept(q, j, k); }
    } else if j > k {
      if p < q { UpperBitsKept(p, k, j); } else { UpperBitsKept(q, k, j); }
    }
  }

  lemma LowerBitsKept(p: nat, j: nat, k: nat)
    requires j < k
    ensures Bit(p + Pow2(k), j) == Bit(p, j)
  {
    Pow2Add(j, k - j);
    EvenMultiple(p, Pow2(j), Pow2(k - j), Pow2(k - j - 1));
  }

  lemma EvenMultiple(p: nat, d: nat, e: nat, h: nat)
    requires d > 0 && e == 2 * h
    ensures (p + d * e) / d % 2 == p / d % 2
  {
    DivShift(p, d, e);
    assert d * e == e * d;
  }

  lemma UpperBitsKept(p: nat, k: nat, j: nat)
    requires k < j && Bit(p, k) == 0
    ensures Bit(p + Pow2(k), j) == Bit(p, j)
  {
    var d, e := Pow2(k), Pow2(j - k);
    Pow2Add(k, j - k);
    DivNext(p, d);
    DivDiv(p, d, e);
    DivDiv(p + d, d, e);
    SameHalf(p / d, Pow2(j - k - 1));
  }

  lemma SameHalf(q: nat, h: nat)
    requires h > 0 && q % 2 == 0
    ensures (q + 1) / (2 * h) == q / (2 * h)
  {
    DivDiv(q, 2, h);
    DivDiv(q + 1, 2, h);
  }

  // The buddy of a frame below 2^n at an order below n is below 2^n.
  lemma FlipBelow(p: nat, k: nat, n: nat)
    requires p < Pow2(n) && k < n
    ensures Flip(p, k) < Pow2(n)
  {
    if Bit(p, k) == 0 {
      var d, h := Pow2(k), Pow2(n - k - 1);
      Pow2Add(k + 1, n - k - 1);
      assert Pow2(n) == 2 * h * d;
      EvenQuotientBelow(p, d, h);
    }
  }

  lemma EvenQuotientBelow(p: nat, d: nat, h: nat)
    requires d > 0 && p < 2 * h * d && p / d % 2 == 0
    ensures p + d < 2 * h * d
  {
    var q, r := p / d, p % d;
    assert p == q * d + r;
    if q >= 2 * h {
      ProductMonotone(2 * h, q, d);
    } else {
      ProductMonotone(q + 2, 2 * h, d);
      assert (q + 2) * d == q * d + 2 * d;
    }
  }

  // The lower of two aligned buddies is aligned to the doubled size, and only the lower.
  lemma AlignedUp(p: nat, k: nat)
    ensures Aligned(p, k + 1) <==> Aligned(p, k) && Bit(p, k) == 0
  {
    var d := Pow2(k);
    DivDiv(p, d, 2);
    var q := p / d;
    assert p == q * d + p % d;
    assert d * 2 == Pow2(k + 1);
    if Aligned(p, k + 1) {
      var c := p / Pow2(k + 1);
      assert p == c * (2 * d) == (2 * c) * d + 0;
      DivUnique(p, d, 2 * c, 0);
    }
    if Aligned(p, k) && Bit(p, k) == 0 {
      assert q == 2 * (q / 2);
      assert p == (q / 2) * (2 * d) + 0;
      DivUnique(p, 2 * d, q / 2, 0);
    }
  }

  lemma AlignedMove(p: nat, k: nat)
    ensures Aligned(p + Pow2(k), k) <==> Aligned(p, k)
  {
    DivShift(p, Pow2(k), 1);
    assert p + 1 * Pow2(k) == p + Pow2(k);
  }

  lemma AlignedDown(p: nat, k: nat, j: nat)
    requires j <= k && Aligned(p, k)
    ensures Aligned(p, j)
    decreases k
  {
    if j < k {
      AlignedUp(p, k - 1);
      AlignedDown(p, k - 1, j);
    }
  }
}

// The 32-bit reference counts of page frames.
module RefCount {
  function Minus1(n: nat): (r: nat) {
    if n == 0 then 0xFFFF_FFFF else n - 1
  }

  function Plus1(n: nat): (r: nat) {
    (n + 1) % 0x1_0000_0000
  }
}
