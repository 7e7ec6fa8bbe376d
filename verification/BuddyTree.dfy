/**
  The complete binary tree behind the two bitmaps of the secure heap.
  Bit 1 stands for the whole arena; bits 2n and 2n+1 are the two halves of the
  block of bit n.  `list` levels count from the root, as the free lists do.
*/
module BuddyTree {
  import opened Powers

  /** Depth of a node: the index of the free list its block belongs to. */
  function Level(n: nat): nat
    requires n >= 1
  {
    if n == 1 then 0 else 1 + Level(n / 2)
  }

  /** `bit ^ 1`: the other half of the same parent block. */
  function Buddy(n: nat): (b: nat)
    ensures b / 2 == n / 2 && b != n
  {
    if n % 2 == 0 then n + 1 else n - 1
  }

  /** `a` is `n` or one of the nodes above it. */
  predicate Covers(a: nat, n: nat)
    requires a >= 1
    decreases n
  {
    if n <= a then n == a else Covers(a, n / 2)
  }

  /** Two blocks share memory exactly when one lies above the other. */
  predicate Comparable(a: nat, b: nat)
    requires a >= 1 && b >= 1
  {
    Covers(a, b) || Covers(b, a)
  }

  /** An arena of `Pow2(k)` bytes with blocks of at least `Pow2(m)` bytes. */
  datatype Geometry = Geometry(k: nat, m: nat) {

    /** What `sh_init` leaves behind when it accepts its arguments. */
    predicate Valid() {
      4 <= m && m + 2 <= k <= 63
    }

    function ArenaSize(): nat { Pow2(k) }

    function MinSize(): nat { Pow2(m) }

    /** `freelist_size` */
    function Levels(): nat
      requires Valid()
    {
      k - m + 1
    }

    /** `bittable_size`, in bits */
    function Bits(): nat
      requires Valid()
    {
      Pow2(Levels())
    }

    /** Nodes that stand for a block of the arena. */
    predicate Node(n: nat)
      requires Valid()
    {
      1 <= n < Bits()
    }

    predicate Leaf(n: nat)
      requires Valid()
    {
      Pow2(Levels() - 1) <= n < Bits()
    }

    /** `arena_size >> level` */
    function SizeAt(level: nat): nat
      requires level <= k
    {
      Pow2(k - level)
    }

    /** Bytes in the block of a node. */
    function Size(n: nat): nat
      requires n >= 1 && Level(n) <= k
    {
      SizeAt(Level(n))
    }

    /** Distance of the block of a node from the start of the arena. */
    function Off(n: nat): nat
      requires n >= 1 && Level(n) <= k
    {
      if n == 1 then 0 else Off(n / 2) + if n % 2 == 1 then Size(n) else 0
    }

    /** The bit that `sh_setbit` and its siblings compute for an offset. */
    function NodeAt(level: nat, off: nat): nat
      requires level <= k
    {
      Pow2(level) + off / SizeAt(level)
    }

    /** Byte `p` of the arena belongs to the block of `n`. */
    predicate InBlock(n: nat, p: nat)
      requires n >= 1 && Level(n) <= k
    {
      Off(n) <= p < Off(n) + Size(n)
    }
  }

  // Levels and indices

  lemma {:induction false} LevelBounds(n: nat)
    requires n >= 1
    ensures Pow2(Level(n)) <= n < Pow2(Level(n) + 1)
  {
    if n > 1 {
      LevelBounds(n / 2);
      assert Level(n) == Level(n / 2) + 1;
    }
  }

  /** Powers of two mark where levels begin. */
  lemma LevelCompare(n: nat, l: nat)
    requires n >= 1
    ensures Pow2(l) <= n <==> l <= Level(n)
  {
    LevelBounds(n);
    if l <= Level(n) {
      Pow2Monotone(l, Level(n));
    } else {
      Pow2Monotone(Level(n) + 1, l);
    }
  }

  lemma LevelUnique(n: nat, l: nat)
    requires n >= 1 && Pow2(l) <= n < Pow2(l + 1)
    ensures Level(n) == l
  {
    LevelCompare(n, l);
    LevelCompare(n, l + 1);
  }

  lemma NodeLevel(g: Geometry, n: nat)
    requires g.Valid() && g.Node(n)
    ensures Level(n) < g.Levels() && Level(n) <= g.k
    ensures g.Leaf(n) <==> Level(n) == g.Levels() - 1
  {
    LevelCompare(n, g.Levels());
    LevelCompare(n, g.Levels() - 1);
  }

  lemma ChildLevel(n: nat)
    requires n >= 1
    ensures Level(2 * n) == Level(n) + 1 == Level(2 * n + 1)
  {
    assert (2 * n) / 2 == n && (2 * n + 1) / 2 == n;
  }

  /** The children of a node that is not a leaf are nodes. */
  lemma ChildNode(g: Geometry, n: nat)
    requires g.Valid() && g.Node(n) && Level(n) < g.Levels() - 1
    ensures g.Node(2 * n) && g.Node(2 * n + 1)
    ensures Level(2 * n) == Level(n) + 1 == Level(2 * n + 1)
    ensures Level(n) + 1 <= g.k
  {
    ChildLevel(n);
    LevelBounds(2 * n);
    LevelBounds(2 * n + 1);
    Pow2Monotone(Level(n) + 2, g.Levels());
  }

  /** Buddies share level and parent. */
  lemma BuddyParent(n: nat)
    requires n >= 2
    ensures Buddy(n) >= 2 && Buddy(n) / 2 == n / 2 && Level(Buddy(n)) == Level(n)
  {
  }

  // Ancestors

  lemma {:induction false} CoversBasics(a: nat, n: nat)
    requires a >= 1 && Covers(a, n)
    ensures a <= n
    ensures Level(a) <= Level(n)
    ensures a != n ==> a < n && Level(a) < Level(n)
    decreases n
  {
    if a < n {
      CoversBasics(a, n / 2);
    }
  }

  lemma {:induction false} RootCovers(n: nat)
    requires n >= 1
    ensures Covers(1, n)
  {
    if n > 1 {
      RootCovers(n / 2);
    }
  }

  lemma {:induction false} CoversTransitive(a: nat, b: nat, c: nat)
    requires a >= 1 && b >= 1 && Covers(a, b) && Covers(b, c)
    ensures Covers(a, c)
    decreases c
  {
    CoversBasics(a, b);
    if b < c {
      CoversTransitive(a, b, c / 2);
    }
  }

  /** A strict descendant of a node lies under one of its two children. */
  lemma {:induction false} CoversChild(a: nat, n: nat)
    requires a >= 1 && Covers(a, n) && n != a
    ensures Covers(2 * a, n) || Covers(2 * a + 1, n)
    decreases n
  {
    CoversBasics(a, n);
    if n / 2 == a {
    } else {
      CoversBasics(a, n / 2);
      CoversChild(a, n / 2);
      if Covers(2 * a, n / 2) {
        CoversBasics(2 * a, n / 2);
      } else {
        CoversBasics(2 * a + 1, n / 2);
      }
    }
  }

  lemma ChildCovered(a: nat)
    requires a >= 1
    ensures Covers(a, 2 * a) && Covers(a, 2 * a + 1)
  {
  }

  /** The nodes above one node form a chain. */
  lemma {:induction false} CoversChain(a: nat, b: nat, n: nat)
    requires a >= 1 && b >= 1 && Covers(a, n) && Covers(b, n)
    ensures Comparable(a, b)
    decreases n
  {
    if a < n && b < n {
      CoversChain(a, b, n / 2);
    }
  }

  /** Strictly above a node means above (or at) its parent. */
  lemma CoversParent(a: nat, n: nat)
    requires a >= 1 && n >= 2 && Covers(a, n) && a != n
    ensures Covers(a, n / 2)
  {
    CoversBasics(a, n);
  }

  // Blocks in the arena

  /** The two halves of a block partition it. */
  lemma Halves(g: Geometry, n: nat)
    requires n >= 1 && Level(n) < g.k
    ensures Level(2 * n) == Level(n) + 1 == Level(2 * n + 1)
    ensures g.Size(n) == 2 * g.Size(2 * n) && g.Size(2 * n + 1) == g.Size(2 * n)
    ensures g.Off(2 * n) == g.Off(n)
    ensures g.Off(2 * n + 1) == g.Off(n) + g.Size(2 * n)
  {
    hide Level, Pow2;
    ChildLevel(n);
    DoublePow2(g.k - Level(n));
    assert (2 * n) / 2 == n && (2 * n) % 2 == 0 && (2 * n + 1) / 2 == n && (2 * n + 1) % 2 == 1;
  }

  /** Closed form of the offset, the one `sh_find_my_buddy` computes. */
  lemma {:induction false} OffClosed(g: Geometry, n: nat)
    requires n >= 1 && Level(n) <= g.k
    ensures Pow2(Level(n)) <= n
    ensures g.Off(n) == (n - Pow2(Level(n))) * g.Size(n)
  {
    LevelBounds(n);
    if n > 1 {
      var q := n / 2;
      OffClosed(g, q);
      Halves(g, q);
      Doubling(q - Pow2(Level(q)), g.Size(n));
    }
  }

  lemma Doubling(c: int, s: int)
    ensures c * (2 * s) == (2 * c) * s
    ensures (2 * c + 1) * s == c * (2 * s) + s
  {
  }

  /** Every block lies inside the arena and is aligned to its own size. */
  lemma BlockInArena(g: Geometry, n: nat)
    requires n >= 1 && Level(n) <= g.k
    ensures g.Off(n) + g.Size(n) <= g.ArenaSize()
    ensures g.Off(n) % g.Size(n) == 0
  {
    OffClosed(g, n);
    LevelBounds(n);
    var s, c := g.Size(n), n - Pow2(Level(n));
    Pow2Add(g.k - Level(n), Level(n));
    assert c + 1 <= Pow2(Level(n));
    MulMono(c + 1, Pow2(Level(n)), s);
    assert (c + 1) * s == c * s + s;
    DivCancel(c, s);
  }

  /** A block at or above another contains it. */
  lemma {:induction false} CoversContains(g: Geometry, a: nat, n: nat)
    requires a >= 1 && Covers(a, n) && Level(n) <= g.k
    ensures Level(a) <= g.k
    ensures g.Off(a) <= g.Off(n)
    ensures g.Off(n) + g.Size(n) <= g.Off(a) + g.Size(a)
    decreases n
  {
    CoversBasics(a, n);
    if a < n {
      CoversContains(g, a, n / 2);
      Halves(g, n / 2);
      assert n == 2 * (n / 2) || n == 2 * (n / 2) + 1;
    }
  }

  predicate DisjointBlocks(g: Geometry, a: nat, b: nat)
    requires a >= 1 && b >= 1 && Level(a) <= g.k && Level(b) <= g.k
  {
    g.Off(a) + g.Size(a) <= g.Off(b) || g.Off(b) + g.Size(b) <= g.Off(a)
  }

  /** Blocks neither of which lies above the other do not overlap. */
  lemma {:induction false} IncomparableDisjoint(g: Geometry, a: nat, b: nat)
    requires a >= 1 && b >= 1 && Level(a) <= g.k && Level(b) <= g.k
    requires !Comparable(a, b)
    ensures DisjointBlocks(g, a, b)
    decreases a + b, Level(b)
  {
    RootCovers(a);
    RootCovers(b);
    if Level(a) < Level(b) {
      IncomparableDisjoint(g, b, a);
    } else {
      var p := a / 2;
      if Comparable(p, b) {
        IncomparableCousins(a, b);
        BuddiesDisjoint(g, a);
      } else {
        IncomparableDisjoint(g, p, b);
        CoversContains(g, p, a);
      }
    }
  }

  lemma IncomparableCousins(a: nat, b: nat)
    requires a >= 2 && b >= 2 && Level(b) <= Level(a)
    requires !Comparable(a, b) && Comparable(a / 2, b)
    ensures b == Buddy(a)
  {
    var p := a / 2;
    if Covers(b, p) {
      CoversBasics(b, p);
      assert false;
    }
    CoversChild(p, b);
    var c := if Covers(2 * p, b) then 2 * p else 2 * p + 1;
    CoversBasics(c, b);
    ChildLevel(p);
  }

  lemma BuddiesDisjoint(g: Geometry, a: nat)
    requires a >= 2 && Level(a) <= g.k
    ensures Buddy(a) >= 2 && Level(Buddy(a)) == Level(a)
    ensures DisjointBlocks(g, a, Buddy(a))
  {
    BuddyParent(a);
    Halves(g, a / 2);
  }

  /** Distinct comparable blocks overlap, so overlap decides comparability. */
  lemma OverlapIffComparable(g: Geometry, a: nat, b: nat)
    requires a >= 1 && b >= 1 && Level(a) <= g.k && Level(b) <= g.k
    ensures DisjointBlocks(g, a, b) <==> !Comparable(a, b)
  {
    if Covers(a, b) {
      CoversContains(g, a, b);
    } else if Covers(b, a) {
      CoversContains(g, b, a);
    } else {
      IncomparableDisjoint(g, a, b);
    }
  }

  lemma DivExact(x: nat, d: nat)
    requires d > 0 && x % d == 0
    ensures x / d * d == x
  {
  }

  lemma QuotientBelow(off: nat, a: nat, b: nat)
    requires off < Pow2(a + b)
    ensures off / Pow2(b) < Pow2(a)
  {
    Pow2Add(a, b);
    var q, s := off / Pow2(b), Pow2(b);
    if q >= Pow2(a) {
      MulMono(Pow2(a), q, s);
      assert false;
    }
  }

  lemma NodeOfQuotient(g: Geometry, level: nat, q: nat)
    requires g.Valid() && level < g.Levels() && q < Pow2(level)
    ensures var n := Pow2(level) + q;
            g.Node(n) && Level(n) == level && g.Off(n) == q * g.SizeAt(level)
  {
    var n := Pow2(level) + q;
    LevelUnique(n, level);
    Pow2Monotone(level + 1, g.Levels());
    OffClosed(g, n);
  }

  /** The bit computed from a level and an aligned offset is the block's node. */
  lemma NodeAtIsNode(g: Geometry, level: nat, off: nat)
    requires g.Valid() && level < g.Levels()
    requires off < g.ArenaSize() && off % g.SizeAt(level) == 0
    ensures var n := g.NodeAt(level, off);
            g.Node(n) && Level(n) == level && g.Off(n) == off
  {
    hide Pow2, Level;
    QuotientBelow(off, level, g.k - level);
    DivExact(off, g.SizeAt(level));
    NodeOfQuotient(g, level, off / g.SizeAt(level));
  }

  /** Conversely, a node is found again from its level and offset. */
  lemma NodeAtOff(g: Geometry, n: nat)
    requires n >= 1 && Level(n) <= g.k
    ensures g.NodeAt(Level(n), g.Off(n)) == n
  {
    OffClosed(g, n);
    DivCancel(n - Pow2(Level(n)), g.Size(n));
  }

  /** Level and offset together determine the node: the bit index is injective. */
  lemma NodeInjective(g: Geometry, a: nat, b: nat)
    requires a >= 1 && b >= 1 && Level(a) == Level(b) <= g.k
    requires g.Off(a) == g.Off(b)
    ensures a == b
  {
    NodeAtOff(g, a);
    NodeAtOff(g, b);
  }
}
