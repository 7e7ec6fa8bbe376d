/** The buddy's bit and the byte-packed bit tables. */
module BitOps {
  import opened Powers
  import opened BuddyTree

  /** `x ^ y` */
  function Xor(x: nat, y: nat): nat
    decreases x + y
  {
    if x == 0 && y == 0 then 0 else 2 * Xor(x / 2, y / 2) + (x + y) % 2
  }

  lemma {:induction false} XorZero(x: nat)
    ensures Xor(x, 0) == x
  {
    if x > 0 {
      XorZero(x / 2);
    }
  }

  /** `bit ^= 1` names the buddy. */
  lemma XorOneIsBuddy(n: nat)
    ensures Xor(n, 1) == Buddy(n)
  {
    XorZero(n / 2);
  }

  // TESTBIT, SETBIT and CLEARBIT

  /** `ONE << i` in one byte */
  function Mask(i: nat): bv8
    requires i < 8
  {
    match i
    case 0 => 1
    case 1 => 2
    case 2 => 4
    case 3 => 8
    case 4 => 16
    case 5 => 32
    case 6 => 64
    case _ => 128
  }

  lemma MaskIsPow2(i: nat)
    requires i < 8
    ensures Mask(i) as nat == Pow2(i)
  {
    assert Pow2(2) == 4 && Pow2(4) == 16 && Pow2(6) == 64;
  }

  predicate Has(x: bv8, i: nat)
    requires i < 8
  {
    x & Mask(i) != 0
  }

  predicate TestBit(t: seq<bv8>, b: nat)
    requires b < 8 * |t|
  {
    Has(t[b / 8], b % 8)
  }

  function SetBit(t: seq<bv8>, b: nat): seq<bv8>
    requires b < 8 * |t|
  {
    t[b / 8 := t[b / 8] | Mask(b % 8)]
  }

  function ClearBit(t: seq<bv8>, b: nat): seq<bv8>
    requires b < 8 * |t|
  {
    t[b / 8 := t[b / 8] & !Mask(b % 8)]
  }

  /** The bits set in a table. */
  ghost function Bits(t: seq<bv8>): set<nat> {
    set b: nat | b < 8 * |t| && TestBit(t, b)
  }

  lemma SetByte(x: bv8, i: nat, j: nat)
    requires i < 8 && j < 8
    ensures Has(x | Mask(i), j) <==> i == j || Has(x, j)
  {
    MaskMeet(i, j);
    BvLaws(x, Mask(i), Mask(j));
  }

  lemma ClearByte(x: bv8, i: nat, j: nat)
    requires i < 8 && j < 8
    ensures Has(x & !Mask(i), j) <==> i != j && Has(x, j)
  {
    MaskMeet(i, j);
    BvLaws(x, Mask(i), Mask(j));
  }

  lemma MaskMeet(i: nat, j: nat)
    requires i < 8 && j < 8
    ensures Mask(i) & Mask(j) == if i == j then Mask(i) else 0
    ensures Mask(i) != 0
    ensures i != j ==> Mask(i) != Mask(j)
  {
  }

  lemma BvLaws(x: bv8, a: bv8, b: bv8)
    ensures a == b && b != 0 ==> (x | a) & b != 0
    ensures a & b == 0 ==> (x | a) & b == x & b
    ensures a == b ==> (x & !a) & b == 0
    ensures a & b == 0 ==> (x & !a) & b == x & b
  {
  }

  lemma SetBitAt(t: seq<bv8>, b: nat, c: nat)
    requires b < 8 * |t| && c < 8 * |t|
    ensures TestBit(SetBit(t, b), c) <==> c == b || TestBit(t, c)
  {
    if b / 8 == c / 8 {
      SetByte(t[c / 8], b % 8, c % 8);
    }
  }

  lemma ClearBitAt(t: seq<bv8>, b: nat, c: nat)
    requires b < 8 * |t| && c < 8 * |t|
    ensures TestBit(ClearBit(t, b), c) <==> c != b && TestBit(t, c)
  {
    if b / 8 == c / 8 {
      ClearByte(t[c / 8], b % 8, c % 8);
    }
  }

  /** SETBIT inserts one element. */
  lemma SetBitInserts(t: seq<bv8>, b: nat)
    requires b < 8 * |t|
    ensures Bits(SetBit(t, b)) == Bits(t) + {b}
  {
    forall c: nat | c < 8 * |t|
      ensures TestBit(SetBit(t, b), c) <==> c == b || TestBit(t, c)
    {
      SetBitAt(t, b, c);
    }
  }

  /** CLEARBIT deletes one element. */
  lemma ClearBitDeletes(t: seq<bv8>, b: nat)
    requires b < 8 * |t|
    ensures Bits(ClearBit(t, b)) == Bits(t) - {b}
  {
    forall c: nat | c < 8 * |t|
      ensures TestBit(ClearBit(t, b), c) <==> c != b && TestBit(t, c)
    {
      ClearBitAt(t, b, c);
    }
  }

  /** Tables of the same length with the same bits are equal byte for byte. */
  lemma BitsDetermineTable(t: seq<bv8>, u: seq<bv8>)
    requires |t| == |u| && Bits(t) == Bits(u)
    ensures t == u
  {
    forall i | 0 <= i < |t|
      ensures t[i] == u[i]
    {
      forall j | 0 <= j < 8
        ensures Has(t[i], j) <==> Has(u[i], j)
      {
        var b := 8 * i + j;
        assert b / 8 == i && b % 8 == j;
        assert b in Bits(t) <==> b in Bits(u);
      }
      ByteFromMasks(t[i], u[i]);
    }
  }

  lemma ByteFromMasks(x: bv8, y: bv8)
    requires forall j :: 0 <= j < 8 ==> (Has(x, j) <==> Has(y, j))
    ensures x == y
  {
    assert Has(x, 0) <==> Has(y, 0);
    assert Has(x, 1) <==> Has(y, 1);
    assert Has(x, 2) <==> Has(y, 2);
    assert Has(x, 3) <==> Has(y, 3);
    assert Has(x, 4) <==> Has(y, 4);
    assert Has(x, 5) <==> Has(y, 5);
    assert Has(x, 6) <==> Has(y, 6);
    assert Has(x, 7) <==> Has(y, 7);
  }

  lemma ZeroTable(t: seq<bv8>)
    requires forall i :: 0 <= i < |t| ==> t[i] == 0
    ensures Bits(t) == {}
  {
    forall b: nat | b < 8 * |t|
      ensures !TestBit(t, b)
    {
      assert t[b / 8] == 0;
    }
  }

  lemma BitsAt(t: seq<bv8>, b: nat)
    ensures b in Bits(t) <==> b < 8 * |t| && TestBit(t, b)
  {
  }
}
