/** Sets of tree nodes whose blocks partition the arena. */
module Tiling {
  import opened Powers
  import opened BuddyTree

  /** No two blocks overlap. */
  ghost predicate Antichain(T: set<nat>)
    requires 0 !in T
  {
    forall a, b :: a in T && b in T && a != b ==> !Covers(a, b)
  }

  /** Every smallest block lies in some block of the set. */
  ghost predicate CoversLeaves(g: Geometry, T: set<nat>)
    requires g.Valid() && 0 !in T
  {
    forall v :: g.Leaf(v) ==> exists t :: t in T && Covers(t, v)
  }

  /** The blocks of `T` fill the arena with no overlap and no gap. */
  ghost predicate Tiles(g: Geometry, T: set<nat>)
    requires g.Valid()
  {
    && (forall n :: n in T ==> g.Node(n))
    && Antichain(T)
    && CoversLeaves(g, T)
  }

  /** The smallest block at the start of a block. */
  function FirstLeaf(g: Geometry, v: nat): (r: nat)
    requires g.Valid() && g.Node(v)
    ensures g.Leaf(r)
    decreases g.Levels() - Level(v)
  {
    NodeLevel(g, v);
    if Level(v) == g.Levels() - 1 then v
    else
      ChildNode(g, v);
      FirstLeaf(g, 2 * v)
  }

  lemma {:induction false} FirstLeafCovered(g: Geometry, v: nat)
    requires g.Valid() && g.Node(v)
    ensures Covers(v, FirstLeaf(g, v))
    decreases g.Levels() - Level(v)
  {
    NodeLevel(g, v);
    if Level(v) < g.Levels() - 1 {
      ChildNode(g, v);
      FirstLeafCovered(g, 2 * v);
      ChildCovered(v);
      CoversTransitive(v, 2 * v, FirstLeaf(g, v));
    }
  }

  /** Every block of the arena meets a block of the tiling. */
  lemma TileFor(g: Geometry, T: set<nat>, v: nat) returns (t: nat)
    requires g.Valid() && Tiles(g, T) && g.Node(v)
    ensures t in T && Comparable(t, v)
  {
    var leaf := FirstLeaf(g, v);
    FirstLeafCovered(g, v);
    t :| t in T && Covers(t, leaf);
    CoversChain(t, v, leaf);
  }

  /** Replacing a block by its halves keeps a tiling. */
  lemma SplitTiles(g: Geometry, T: set<nat>, n: nat)
    requires g.Valid() && Tiles(g, T) && n in T && Level(n) < g.Levels() - 1
    ensures 2 * n !in T && 2 * n + 1 !in T
    ensures Tiles(g, T - {n} + {2 * n, 2 * n + 1})
  {
    var a, b := 2 * n, 2 * n + 1;
    var T' := T - {n} + {a, b};
    ChildNode(g, n);
    ChildCovered(n);
    forall x, y | x in T' && y in T' && x != y
      ensures !Covers(x, y)
    {
      SplitApart(T, n, x, y);
    }
    forall v | g.Leaf(v)
      ensures exists t :: t in T' && Covers(t, v)
    {
      var t :| t in T && Covers(t, v);
      if t == n {
        NodeLevel(g, n);
        NodeLevel(g, v);
        CoversChild(n, v);
        assert Covers(a, v) || Covers(b, v);
      } else {
        assert t in T';
      }
    }
  }

  lemma SplitApart(T: set<nat>, n: nat, x: nat, y: nat)
    requires 0 !in T && Antichain(T) && n in T
    requires x in T - {n} + {2 * n, 2 * n + 1} && y in T - {n} + {2 * n, 2 * n + 1}
    requires x != y
    ensures !Covers(x, y)
  {
    ChildCovered(n);
    if Covers(x, y) {
      CoversBasics(x, y);
      if x !in T {
        ChildLevel(n);
        CoversTransitive(n, x, y);
      } else if y !in T {
        // y is a half of n, so x lies above n
        CoversChain(x, n, y);
      }
      assert false;
    }
  }

  /** Replacing two buddies by their parent keeps a tiling. */
  lemma MergeTiles(g: Geometry, T: set<nat>, p: nat)
    requires g.Valid() && Tiles(g, T) && p >= 1 && 2 * p in T && 2 * p + 1 in T
    ensures p !in T && g.Node(p)
    ensures Tiles(g, T - {2 * p, 2 * p + 1} + {p})
  {
    var a, b := 2 * p, 2 * p + 1;
    var T' := T - {a, b} + {p};
    ChildCovered(p);
    forall x, y | x in T' && y in T' && x != y
      ensures !Covers(x, y)
    {
      if Covers(x, y) {
        if y == p {
          CoversTransitive(x, p, a);
          assert false;
        } else if x == p {
          CoversChild(p, y);
          assert false;
        }
      }
    }
    forall v | g.Leaf(v)
      ensures exists t :: t in T' && Covers(t, v)
    {
      var t :| t in T && Covers(t, v);
      if t in {a, b} {
        CoversTransitive(p, t, v);
        assert p in T';
      } else {
        assert t in T';
      }
    }
  }

  /** Blocks of a tiling are pairwise disjoint regions. */
  lemma TilesDisjoint(g: Geometry, T: set<nat>, a: nat, b: nat)
    requires g.Valid() && Tiles(g, T) && a in T && b in T && a != b
    ensures Level(a) <= g.k && Level(b) <= g.k
    ensures DisjointBlocks(g, a, b)
  {
    NodeLevel(g, a);
    NodeLevel(g, b);
    IncomparableDisjoint(g, a, b);
  }

  // Conservation: the sizes of a tiling add up to the arena

  /** Total size of a set of blocks. */
  ghost function SumSizes(g: Geometry, S: set<nat>): nat
    requires g.Valid() && forall n :: n in S ==> g.Node(n)
  {
    if S == {} then 0
    else
      var n :| n in S;
      NodeLevel(g, n);
      g.Size(n) + SumSizes(g, S - {n})
  }

  lemma {:induction false} SumRemove(g: Geometry, S: set<nat>, n: nat)
    requires g.Valid() && (forall x :: x in S ==> g.Node(x)) && n in S
    ensures n >= 1 && Level(n) <= g.k
    ensures SumSizes(g, S) == g.Size(n) + SumSizes(g, S - {n})
    decreases S
  {
    NodeLevel(g, n);
    var m :| m in S && SumSizes(g, S) == (NodeLevel(g, m); g.Size(m)) + SumSizes(g, S - {m});
    if m != n {
      SumRemove(g, S - {m}, n);
      SumRemove(g, S - {n}, m);
      assert S - {m} - {n} == S - {n} - {m};
    }
  }

  lemma {:induction false} SumUnion(g: Geometry, A: set<nat>, B: set<nat>)
    requires g.Valid() && A !! B && forall x :: x in A + B ==> g.Node(x)
    ensures SumSizes(g, A + B) == SumSizes(g, A) + SumSizes(g, B)
    decreases A
  {
    if A == {} {
      assert A + B == B;
    } else {
      var n :| n in A;
      SumRemove(g, A, n);
      SumRemove(g, A + B, n);
      SumUnion(g, A - {n}, B);
      assert A + B - {n} == (A - {n}) + B;
    }
  }

  /** The blocks of `T` inside the block of `v`. */
  ghost function Under(T: set<nat>, v: nat): set<nat>
    requires v >= 1
  {
    set t | t in T && Covers(v, t)
  }

  lemma {:induction false} UnderSum(g: Geometry, T: set<nat>, v: nat)
    requires g.Valid() && Tiles(g, T) && g.Node(v)
    requires forall t :: t in T && t != v ==> !Covers(t, v)
    ensures v >= 1 && Level(v) <= g.k
    ensures SumSizes(g, Under(T, v)) == g.Size(v)
    decreases g.Levels() - Level(v)
  {
    NodeLevel(g, v);
    if v in T {
      assert Under(T, v) == {v};
      SumRemove(g, {v}, v);
      assert {v} - {v} == {};
    } else {
      var t := TileFor(g, T, v);
      CoversBasics(v, t);
      NodeLevel(g, t);
      ChildNode(g, v);
      UnderSplits(T, v);
      forall t | t in T && Covers(t, 2 * v)
        ensures t == 2 * v
      {
        if t != 2 * v { CoversParent(t, 2 * v); }
      }
      forall t | t in T && Covers(t, 2 * v + 1)
        ensures t == 2 * v + 1
      {
        if t != 2 * v + 1 { CoversParent(t, 2 * v + 1); }
      }
      UnderSum(g, T, 2 * v);
      UnderSum(g, T, 2 * v + 1);
      SumUnion(g, Under(T, 2 * v), Under(T, 2 * v + 1));
      Halves(g, v);
    }
  }

  lemma UnderSplits(T: set<nat>, v: nat)
    requires v >= 1 && v !in T && 0 !in T
    ensures Under(T, v) == Under(T, 2 * v) + Under(T, 2 * v + 1)
    ensures Under(T, 2 * v) !! Under(T, 2 * v + 1)
  {
    ChildCovered(v);
    forall t | t in T
      ensures Covers(v, t) <==> Covers(2 * v, t) || Covers(2 * v + 1, t)
      ensures !(Covers(2 * v, t) && Covers(2 * v + 1, t))
    {
      if Covers(v, t) { CoversChild(v, t); }
      if Covers(2 * v, t) { CoversTransitive(v, 2 * v, t); }
      if Covers(2 * v + 1, t) { CoversTransitive(v, 2 * v + 1, t); }
      if Covers(2 * v, t) && Covers(2 * v + 1, t) {
        CoversChain(2 * v, 2 * v + 1, t);
        assert !Covers(2 * v, v);
        assert false;
      }
    }
  }

  /** Conservation: a tiling's blocks add up to the whole arena. */
  lemma TilingSum(g: Geometry, T: set<nat>)
    requires g.Valid() && Tiles(g, T)
    ensures SumSizes(g, T) == g.ArenaSize()
  {
    Pow2Monotone(1, g.Levels());
    UnderSum(g, T, 1);
    forall t | t in T
      ensures Covers(1, t)
    {
      RootCovers(t);
    }
    assert Under(T, 1) == T;
  }

  /** Only the empty set of blocks has total size zero. */
  lemma SumPositive(g: Geometry, S: set<nat>)
    requires g.Valid() && forall n :: n in S ==> g.Node(n)
    ensures SumSizes(g, S) == 0 <==> S == {}
  {
    if S != {} {
      var n :| n in S;
      SumRemove(g, S, n);
    }
  }

  // Fullness: what the absence of free buddies buys

  /** No two buddies of the set are both present. */
  ghost predicate NoBuddies(F: set<nat>) {
    forall n :: n in F && n >= 2 ==> Buddy(n) !in F
  }

  lemma {:induction false} DeepestUnder(T: set<nat>, t: nat) returns (d: nat)
    requires 0 !in T && t in T
    ensures d in T && forall x :: x in T ==> Level(x) <= Level(d)
    decreases T
  {
    var R := T - {t};
    assert T == R + {t};
    d := t;
    if R != {} {
      var x :| x in R;
      d := DeepestUnder(R, x);
      if Level(d) < Level(t) {
        d := t;
      }
    }
  }

  /**
    If every tile that meets the block of `v` is free, and no two buddies are
    both free, then a single free tile holds the whole block.
  */
  lemma FreeRegionIsOneTile(g: Geometry, T: set<nat>, F: set<nat>, v: nat) returns (t: nat)
    requires g.Valid() && Tiles(g, T) && F <= T && NoBuddies(F) && g.Node(v)
    requires forall t :: t in T && Comparable(t, v) ==> t in F
    ensures t in F && Covers(t, v)
  {
    t := TileFor(g, T, v);
    if !Covers(t, v) {
      var d := DeepestUnder(Under(T, v), t);
      assert d in T && Covers(v, d);
      if d == v {
        CoversBasics(v, t);
        assert false;
      }
      BuddyIsTile(g, T, v, d);
      assert false;
    }
  }

  /** The buddy of a deepest tile strictly under `v` is a tile too. */
  lemma BuddyIsTile(g: Geometry, T: set<nat>, v: nat, d: nat)
    requires g.Valid() && Tiles(g, T) && g.Node(v)
    requires d in T && d != v && Covers(v, d)
    requires forall x :: x in T && Covers(v, x) ==> Level(x) <= Level(d)
    ensures d >= 2 && Buddy(d) in T && Covers(v, Buddy(d))
  {
    CoversBasics(v, d);
    CoversParent(v, d);
    BuddyParent(d);
    var b, p := Buddy(d), d / 2;
    CoversBasics(v, p);
    assert Covers(v, b);
    NodeLevel(g, d);
    BuddyNode(g, d);
    var t := TileFor(g, T, b);
    if Covers(t, b) && t != b {
      CoversParent(t, b);
      assert false;
    }
    CoversTransitive(v, b, t);
    CoversBasics(b, t);
  }

  lemma BuddyNode(g: Geometry, n: nat)
    requires g.Valid() && g.Node(n) && n >= 2
    ensures g.Node(Buddy(n))
  {
    BuddyParent(n);
    NodeLevel(g, n);
    LevelBounds(Buddy(n));
    Pow2Monotone(Level(n) + 1, g.Levels());
  }
}
