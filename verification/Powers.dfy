/** Powers of two, the arithmetic behind every shift in the secure heap. */
module Powers {

  /** `ONE << k`. */
  function Pow2(k: nat): (r: nat)
    ensures r >= 1
  {
    if k == 0 then 1 else 2 * Pow2(k - 1)
  }

  /** `x >> k` on an unsigned word. */
  function Shr(x: nat, k: nat): nat {
    if k == 0 then x else Shr(x / 2, k - 1)
  }

  lemma {:induction false} Pow2Add(a: nat, b: nat)
    ensures Pow2(a + b) == Pow2(a) * Pow2(b)
  {
    if b == 0 {
    } else {
      Pow2Add(a, b - 1);
      assert a + b - 1 == a + (b - 1);
      TwiceFactor(Pow2(a), Pow2(b - 1));
    }
  }

  lemma DoublePow2(k: nat)
    requires k > 0
    ensures Pow2(k) == 2 * Pow2(k - 1)
  {
  }

  lemma TwiceFactor(x: nat, y: nat)
    ensures x * (2 * y) == 2 * (x * y)
  {
  }

  lemma {:induction false} Pow2Monotone(a: nat, b: nat)
    requires a <= b
    ensures Pow2(a) <= Pow2(b)
    ensures a < b ==> 2 * Pow2(a) <= Pow2(b)
    decreases b
  {
    if a < b {
      Pow2Monotone(a, b - 1);
    }
  }

  lemma MulMono(a: int, b: int, s: nat)
    requires a <= b
    ensures a * s <= b * s
  {
  }

  /** Uniqueness of Euclidean division. */
  lemma DivModUnique(x: int, d: nat, q: int, r: int)
    requires 0 <= r < d && x == q * d + r
    ensures x / d == q && x % d == r
  {
    var q' := x / d;
    assert x == q' * d + x % d;
    if q < q' {
      MulMono(q + 1, q', d);
      assert false;
    } else if q' < q {
      MulMono(q' + 1, q, d);
      assert false;
    }
  }

  lemma DivCancel(x: int, d: nat)
    requires d > 0
    ensures x * d / d == x && x * d % d == 0
  {
    DivModUnique(x * d, d, x, 0);
  }

  lemma DivPow2(a: nat, b: nat)
    requires b <= a
    ensures Pow2(a) / Pow2(b) == Pow2(a - b)
  {
    hide Pow2;
    Pow2Add(a - b, b);
    DivCancel(Pow2(a - b), Pow2(b));
  }

  /** Shifting a power of two right subtracts exponents. */
  lemma {:induction false} ShrPow2(a: nat, b: nat)
    requires b <= a
    ensures Shr(Pow2(a), b) == Pow2(a - b)
  {
    if b > 0 {
      ShrPow2(a - 1, b - 1);
    }
  }

  /** A word is a power of two when it is some `Pow2(k)`. */
  ghost predicate IsPow2(x: nat) {
    exists k: nat :: Pow2(k) == x
  }

  lemma Pow2Steps(e: nat)
    ensures Pow2(e + 2) == 4 * Pow2(e) && Pow2(e + 3) == 2 * Pow2(e + 2) == 8 * Pow2(e)
  {
  }

  lemma Pow2Byte(e: nat)
    ensures Pow2(e + 8) == 256 * Pow2(e)
  {
    assert Pow2(e + 4) == 16 * Pow2(e) by {
      assert Pow2(e + 2) == 4 * Pow2(e);
    }
    assert Pow2(e + 6) == 4 * Pow2(e + 4);
  }

  /** `size_t` has 64 bits. */
  lemma Pow2SizeT(e: nat)
    requires Pow2(e) < 0x1_0000_0000_0000_0000
    ensures e < 64
  {
    if e >= 64 {
      hide Pow2;
      Pow2Byte(e - 64);
      Pow2Byte(e - 56);
      Pow2Byte(e - 48);
      Pow2Byte(e - 40);
      Pow2Byte(e - 32);
      Pow2Byte(e - 24);
      Pow2Byte(e - 16);
      Pow2Byte(e - 8);
      assert false;
    }
  }

  lemma QuotientBelow4(x: nat, d: nat)
    requires d > 0
    ensures x / d < 4 <==> x < 4 * d
  {
    var q := x / d;
    assert x == q * d + x % d;
    if q < 4 {
      MulMono(q, 3, d);
    } else {
      MulMono(4, q, d);
    }
  }
}
