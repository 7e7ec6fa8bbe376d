/** Octet strings and the integers they denote, most significant octet first. */
module BigEndian {
  type Byte = b: nat | b < 256

  type Bytes = seq<Byte>

  function Pow256(w: nat): (p: nat)
    ensures p >= 1
  {
    if w == 0 then 1 else 256 * Pow256(w - 1)
  }

  /** The `w` low octets of `n`. */
  function Octets(w: nat, n: nat): (s: Bytes)
    ensures |s| == w
  {
    if w == 0 then [] else Octets(w - 1, n / 256) + [n % 256]
  }

  function Number(s: Bytes): nat {
    if s == [] then 0 else 256 * Number(s[..|s| - 1]) + s[|s| - 1]
  }

  lemma {:induction false} NumberBound(s: Bytes)
    ensures Number(s) < Pow256(|s|)
  {
    if s != [] {
      NumberBound(s[..|s| - 1]);
    }
  }

  lemma {:induction false} NumberOfOctets(w: nat, n: nat)
    requires n < Pow256(w)
    ensures Number(Octets(w, n)) == n
  {
    if w > 0 {
      NumberOfOctets(w - 1, n / 256);
      assert Octets(w, n)[..w - 1] == Octets(w - 1, n / 256);
    }
  }

  lemma {:induction false} OctetsOfNumber(s: Bytes)
    ensures Octets(|s|, Number(s)) == s
  {
    if s != [] {
      OctetsOfNumber(s[..|s| - 1]);
    }
  }

  /** Octet strings of one length are equal when they denote the same integer. */
  lemma NumberInjective(s: Bytes, t: Bytes)
    requires |s| == |t| && Number(s) == Number(t)
    ensures s == t
  {
    OctetsOfNumber(s);
    OctetsOfNumber(t);
  }

  /** One octet string after the other. */
  function Flat(ps: seq<Bytes>): Bytes {
    if ps == [] then [] else ps[0] + Flat(ps[1..])
  }

  lemma {:induction false} FlatAppend(a: seq<Bytes>, b: seq<Bytes>)
    ensures Flat(a + b) == Flat(a) + Flat(b)
  {
    if a == [] {
      assert a + b == b;
    } else {
      assert (a + b)[1..] == a[1..] + b;
      FlatAppend(a[1..], b);
    }
  }

  lemma FlatOne(x: Bytes)
    ensures Flat([x]) == x
  {
    assert [x][1..] == [];
  }
}
