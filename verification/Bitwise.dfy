/** The bitwise operator `&` on unsigned words. */
module Bitwise {
  import opened Powers

  /** `x & y` */
  function And(x: nat, y: nat): nat {
    if x == 0 || y == 0 then 0
    else 2 * And(x / 2, y / 2) + if x % 2 == 1 && y % 2 == 1 then 1 else 0
  }

  lemma AndOne(n: nat)
    ensures And(n, 1) == n % 2
  {
    assert And(n / 2, 0) == 0;
  }

  /** Masking with `2^k - 1` keeps the remainder. */
  lemma {:induction false} AndMask(x: nat, k: nat)
    ensures And(x, Pow2(k) - 1) == x % Pow2(k)
  {
    if k == 0 {
      DivModUnique(x, 1, x, 0);
    } else if x == 0 {
      DivModUnique(0, Pow2(k), 0, 0);
    } else {
      var d := Pow2(k - 1);
      AndMask(x / 2, k - 1);
      hide And, Pow2;
      assert And(x, 2 * (d - 1) + 1) == 2 * And(x / 2, d - 1) + x % 2 by { AndOdd(x, d - 1); }
      assert x % (2 * d) == 2 * (x / 2 % d) + x % 2 by { ModDouble(x, d); }
      DoublePow2(k);
    }
  }

  lemma AndOdd(x: nat, y: nat)
    ensures And(x, 2 * y + 1) == 2 * And(x / 2, y) + x % 2
  {
    var z := 2 * y + 1;
    assert z / 2 == y && z % 2 == 1;
    if x == 0 {
      assert And(0, y) == 0;
    } else {
      assert And(x, z) == 2 * And(x / 2, z / 2) + if x % 2 == 1 && z % 2 == 1 then 1 else 0;
    }
  }

  lemma ModDouble(x: nat, d: nat)
    requires d > 0
    ensures x % (2 * d) == 2 * (x / 2 % d) + x % 2
  {
    var q, r := x / 2 / d, x / 2 % d;
    assert x / 2 == q * d + r;
    assert x == q * (2 * d) + (2 * r + x % 2) by { TwiceFactor(q, d); }
    DivModUnique(x, 2 * d, q, 2 * r + x % 2);
  }

  /** `(x & (x - 1)) == 0` recognises the powers of two. */
  lemma {:induction false} PowerOfTwoTest(x: nat)
    requires x > 0
    ensures And(x, x - 1) == 0 <==> IsPow2(x)
  {
    if x == 1 {
      assert Pow2(0) == 1;
    } else if x % 2 == 1 {
      AndSelf(x / 2);
      assert (x - 1) / 2 == x / 2;
      forall k: nat
        ensures Pow2(k) != x
      {
        if k > 0 { assert Pow2(k) == 2 * Pow2(k - 1); }
      }
    } else {
      PowerOfTwoTest(x / 2);
      assert (x - 1) / 2 == x / 2 - 1;
      assert And(x, x - 1) == 2 * And(x / 2, x / 2 - 1);
      forall k: nat | Pow2(k) == x / 2
        ensures IsPow2(x)
      {
        assert Pow2(k + 1) == x;
      }
      forall k: nat | Pow2(k) == x
        ensures IsPow2(x / 2)
      {
        assert Pow2(k - 1) == x / 2;
      }
    }
  }

  lemma {:induction false} AndSelf(x: nat)
    ensures And(x, x) == x
  {
    if x > 0 {
      AndSelf(x / 2);
      assert And(x, x) == 2 * And(x / 2, x / 2) + if x % 2 == 1 then 1 else 0;
    }
  }
}
