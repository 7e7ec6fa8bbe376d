/**
  The secure heap without its memory: which blocks exist, which are handed out,
  and the order of every free list.
*/
module BuddyHeap {
  import opened Powers
  import opened BuddyTree
  import opened Tiling

  /** `table` and `live` are the set bits of `bittable` and `bitmalloc`. */
  datatype Heap = Heap(g: Geometry, table: set<nat>, live: set<nat>, lists: seq<seq<nat>>) {

    ghost function Free(): set<nat> { table - live }

    /** Free list `l` holds exactly the free blocks of level `l`, each once. */
    ghost predicate Listed()
      requires g.Valid() && 0 !in table
    {
      |lists| == g.Levels() && Holds(lists, Free())
    }

    /** What every step of every operation keeps. */
    ghost predicate Inv() {
      && g.Valid()
      && Tiles(g, table)
      && live <= table
      && Listed()
    }

    /** What holds between operations: nothing is left to coalesce. */
    ghost predicate Settled() {
      Inv() && NoBuddies(Free())
    }
  }

  /** The list `s` enumerates the blocks of `F` of level `l`. */
  ghost predicate Enumerates(s: seq<nat>, F: set<nat>, l: nat)
    requires 0 !in F
  {
    NoDuplicates(s) && forall n :: n in s <==> n in F && Level(n) == l
  }

  ghost predicate Holds(lists: seq<seq<nat>>, F: set<nat>)
    requires 0 !in F
  {
    forall l :: 0 <= l < |lists| ==> Enumerates(lists[l], F, l)
  }

  ghost predicate NoDuplicates(s: seq<nat>) {
    forall i, j :: 0 <= i < j < |s| ==> s[i] != s[j]
  }

  function IndexOf(s: seq<nat>, x: nat): (i: nat)
    requires x in s
    ensures i < |s| && s[i] == x
  {
    if s[0] == x then 0 else 1 + IndexOf(s[1..], x)
  }

  /** Delete at any position. */
  function Without(s: seq<nat>, x: nat): seq<nat>
    requires x in s
  {
    var i := IndexOf(s, x);
    s[..i] + s[i + 1..]
  }

  lemma WithoutMembers(s: seq<nat>, x: nat)
    requires x in s && NoDuplicates(s)
    ensures NoDuplicates(Without(s, x))
    ensures forall y :: y in Without(s, x) <==> y in s && y != x
  {
    var i := IndexOf(s, x);
    forall y | y in s && y != x
      ensures y in Without(s, x)
    {
      var j :| 0 <= j < |s| && s[j] == y;
      assert Without(s, x)[if j < i then j else j - 1] == y;
    }
  }

  // Operations

  /** The heap that `sh_init` builds: one free block, the arena. */
  ghost function Init(g: Geometry): Heap
    requires g.Valid()
  {
    Heap(g, {1}, {}, seq(g.Levels(), l => if l == 0 then [1] else []))
  }

  /** The list that holds the smallest blocks of at least `size` bytes. */
  function ListFor(g: Geometry, size: nat, l: nat): (r: nat)
    requires g.Valid() && l < g.Levels() && size <= g.ArenaSize()
    ensures r <= l && size <= g.SizeAt(r)
    ensures r == l || g.SizeAt(r) < 2 * size
  {
    if size <= g.SizeAt(l) then l else ListFor(g, size, l - 1)
  }

  /** The nearest non-empty list at or above `l`, or -1. */
  function FirstNonEmpty(lists: seq<seq<nat>>, l: int): (r: int)
    requires l < |lists|
    ensures -1 <= r && (r <= l || r == -1)
    ensures r >= 0 ==> lists[r] != []
    ensures forall j :: r < j <= l && j >= 0 ==> lists[j] == []
    decreases l + 1
  {
    if l < 0 then -1
    else if lists[l] != [] then l
    else FirstNonEmpty(lists, l - 1)
  }

  /** Unlink a free block of level `l`. */
  function Unlink(lists: seq<seq<nat>>, l: nat, n: nat): (r: seq<seq<nat>>)
    requires l < |lists| && n in lists[l]
    ensures |r| == |lists|
  {
    lists[l := Without(lists[l], n)]
  }

  /** Link a free block at the head of list `l`. */
  function Link(lists: seq<seq<nat>>, l: nat, n: nat): seq<seq<nat>>
    requires l < |lists|
  {
    lists[l := [n] + lists[l]]
  }

  /** One round of the split loop, on the head of list `l`. */
  ghost function SplitHead(h: Heap, l: nat): Heap
    requires l + 1 < |h.lists| && h.lists[l] != []
  {
    var n := h.lists[l][0];
    h.(table := h.table - {n} + {2 * n, 2 * n + 1},
       lists := Link(Link(Unlink(h.lists, l, n), l + 1, 2 * n), l + 1, 2 * n + 1))
  }

  /** The whole split loop, from list `s` down to list `l`. */
  ghost function SplitDown(h: Heap, s: nat, l: nat): Heap
    requires s <= l < |h.lists| && h.lists[s] != []
    decreases l - s
  {
    if s == l then h else SplitDown(SplitHead(h, s), s + 1, l)
  }

  /** Hand out the head of list `l`. */
  ghost function TakeHead(h: Heap, l: nat): Heap
    requires l < |h.lists| && h.lists[l] != []
  {
    var n := h.lists[l][0];
    h.(live := h.live + {n}, lists := Unlink(h.lists, l, n))
  }

  datatype Allocation = Failed | Allocated(heap: Heap, node: nat)

  /** `sh_malloc` */
  ghost function Malloc(h: Heap, size: nat): Allocation
    requires h.g.Valid() && |h.lists| == h.g.Levels()
  {
    if size > h.g.ArenaSize() then Failed
    else
      var l := ListFor(h.g, size, h.g.Levels() - 1);
      var s := FirstNonEmpty(h.lists, l);
      if s < 0 then Failed
      else
        var h' := SplitDown(h, s, l);
        SplitDownShape(h, s, l);
        Allocated(TakeHead(h', l), h'.lists[l][0])
  }

  lemma {:induction false} SplitDownShape(h: Heap, s: nat, l: nat)
    requires s <= l < |h.lists| && h.lists[s] != []
    ensures var h' := SplitDown(h, s, l);
            |h'.lists| == |h.lists| && h'.lists[l] != [] && h'.g == h.g && h'.live == h.live
    decreases l - s
  {
    if s < l {
      SplitDownShape(SplitHead(h, s), s + 1, l);
    }
  }

  /** The first half of `sh_free`: the block goes back on its list. */
  ghost function Release(h: Heap, n: nat): Heap
    requires n >= 1 && Level(n) < |h.lists|
  {
    h.(live := h.live - {n}, lists := Link(h.lists, Level(n), n))
  }

  /** One round of the coalescing loop. */
  ghost function MergeUp(h: Heap, n: nat): Heap
    requires n >= 2 && Level(n) < |h.lists|
    requires n in h.lists[Level(n)] && Buddy(n) in h.lists[Level(n)]
  {
    var l, b := Level(n), Buddy(n);
    assert b in Without(h.lists[l], n) by { WithoutKeeps(h.lists[l], n, b); }
    h.(table := h.table - {n, b} + {n / 2},
       lists := Link(Unlink(Unlink(h.lists, l, n), l, b), l - 1, n / 2))
  }

  lemma WithoutKeeps(s: seq<nat>, x: nat, y: nat)
    requires x in s && y in s && x != y
    ensures y in Without(s, x)
  {
    var i := IndexOf(s, x);
    var j :| 0 <= j < |s| && s[j] == y;
    assert Without(s, x)[if j < i then j else j - 1] == y;
  }

  /** The whole coalescing loop, from block `n` upwards. */
  ghost function Coalesce(h: Heap, n: nat): Heap
    requires h.Inv() && n in h.Free()
    ensures Coalesce(h, n).Inv()
    decreases n
  {
    if n >= 2 && Buddy(n) in h.Free() then
      MergeUpInv(h, n);
      Coalesce(MergeUp(h, n), n / 2)
    else h
  }

  /** `sh_free` */
  ghost function Free(h: Heap, n: nat): Heap
    requires h.Inv() && n in h.live
    ensures Free(h, n).Inv()
  {
    ReleaseInv(h, n);
    Coalesce(Release(h, n), n)
  }

  // Every step keeps the invariant

  lemma LinkHolds(lists: seq<seq<nat>>, F: set<nat>, n: nat)
    requires 0 !in F && n !in F && n >= 1 && Level(n) < |lists| && Holds(lists, F)
    ensures Holds(Link(lists, Level(n), n), F + {n})
  {
    var l := Level(n);
    assert n !in lists[l];
    forall j | 0 <= j < |lists|
      ensures Enumerates(Link(lists, l, n)[j], F + {n}, j)
    {
      assert Enumerates(lists[j], F, j);
    }
  }

  lemma UnlinkHolds(lists: seq<seq<nat>>, F: set<nat>, n: nat)
    requires 0 !in F && n in F && Level(n) < |lists| && Holds(lists, F)
    ensures n in lists[Level(n)]
    ensures Holds(Unlink(lists, Level(n), n), F - {n})
  {
    var l := Level(n);
    assert Enumerates(lists[l], F, l);
    WithoutMembers(lists[l], n);
    forall j | 0 <= j < |lists|
      ensures Enumerates(Unlink(lists, l, n)[j], F - {n}, j)
    {
      assert Enumerates(lists[j], F, j);
    }
  }

  /** The head of a free list is a free block of that level. */
  lemma HeadIsFree(h: Heap, l: nat)
    requires h.Inv() && l < |h.lists| && h.lists[l] != []
    ensures h.lists[l][0] in h.Free() && Level(h.lists[l][0]) == l
  {
    assert Enumerates(h.lists[l], h.Free(), l);
    assert h.lists[l][0] in h.lists[l];
  }

  lemma TableNode(h: Heap, n: nat)
    requires h.Inv() && n in h.table
    ensures h.g.Node(n) && Level(n) < |h.lists| && Level(n) <= h.g.k
  {
    NodeLevel(h.g, n);
  }

  lemma SplitHeadInv(h: Heap, l: nat)
    requires h.Inv() && l + 1 < |h.lists| && h.lists[l] != []
    ensures SplitHead(h, l).Inv()
    ensures var n := h.lists[l][0];
            && n in h.Free() && Level(n) == l && 2 * n !in h.table && 2 * n + 1 !in h.table
            && SplitHead(h, l).live == h.live && SplitHead(h, l).g == h.g && |SplitHead(h, l).lists| == |h.lists|
            && SplitHead(h, l).Free() == h.Free() - {n} + {2 * n, 2 * n + 1}
            && SplitHead(h, l).lists[l + 1] == [2 * n + 1, 2 * n] + h.lists[l + 1]
  {
    hide Holds, Without, Covers, Antichain, CoversLeaves, Link, Unlink, Level, Pow2;
    var n := h.lists[l][0];
    HeadIsFree(h, l);
    ChildNode(h.g, n);
    SplitTiles(h.g, h.table, n);
    SplitHolds(h.lists, h.Free(), l, n);
    var h' := SplitHead(h, l);
    assert h'.Free() == h.Free() - {n} + {2 * n} + {2 * n + 1};
  }

  lemma SplitHolds(lists: seq<seq<nat>>, F: set<nat>, l: nat, n: nat)
    requires n >= 1 && 0 !in F && n in F && 2 * n !in F && 2 * n + 1 !in F && Level(n) == l && l + 1 < |lists|
    requires Holds(lists, F) && Level(2 * n) == l + 1 == Level(2 * n + 1)
    ensures n in lists[l]
    ensures var L := Link(Link(Unlink(lists, l, n), l + 1, 2 * n), l + 1, 2 * n + 1);
            && |L| == |lists| && L[l + 1] == [2 * n + 1, 2 * n] + lists[l + 1]
            && Holds(L, F - {n} + {2 * n} + {2 * n + 1})
  {
    hide Holds, Without, Level;
    UnlinkHolds(lists, F, n);
    var L1 := Unlink(lists, l, n);
    LinkHolds(L1, F - {n}, 2 * n);
    LinkHolds(Link(L1, l + 1, 2 * n), F - {n} + {2 * n}, 2 * n + 1);
  }

  lemma TakeHeadInv(h: Heap, l: nat)
    requires h.Inv() && l < |h.lists| && h.lists[l] != []
    ensures TakeHead(h, l).Inv()
    ensures var n := h.lists[l][0];
            && n in h.Free() && Level(n) == l
            && TakeHead(h, l).Free() == h.Free() - {n}
  {
    var n := h.lists[l][0];
    HeadIsFree(h, l);
    UnlinkHolds(h.lists, h.Free(), n);
    assert TakeHead(h, l).Free() == h.Free() - {n};
  }

  lemma ReleaseInv(h: Heap, n: nat)
    requires h.Inv() && n in h.live
    ensures n >= 1 && Level(n) < |h.lists|
    ensures Release(h, n).Inv() && Release(h, n).Free() == h.Free() + {n}
  {
    NodeLevel(h.g, n);
    LinkHolds(h.lists, h.Free(), n);
    assert Release(h, n).Free() == h.Free() + {n};
  }

  lemma MergeUpInv(h: Heap, n: nat)
    requires h.Inv() && n >= 2 && n in h.Free() && Buddy(n) in h.Free()
    ensures 1 <= Level(n) < |h.lists| && Level(n / 2) == Level(n) - 1
    ensures n in h.lists[Level(n)] && Buddy(n) in h.lists[Level(n)]
    ensures MergeUp(h, n).Inv()
    ensures MergeUp(h, n).Free() == h.Free() - {n, Buddy(n)} + {n / 2}
  {
    hide Holds, Without, Covers, Antichain, CoversLeaves, Link, Unlink, Level, Pow2;
    var b, p := Buddy(n), n / 2;
    NodeLevel(h.g, n);
    BuddyParent(n);
    MergeTiles(h.g, h.table, p);
    MergeHolds(h.lists, h.Free(), n);
    var h' := MergeUp(h, n);
    assert h'.table == h.table - {2 * p, 2 * p + 1} + {p};
    assert h'.Free() == h.Free() - {n} - {b} + {p};
  }

  lemma MergeHolds(lists: seq<seq<nat>>, F: set<nat>, n: nat)
    requires n >= 2 && 0 !in F && n in F && Buddy(n) in F && n / 2 !in F && Level(n) < |lists| && Holds(lists, F)
    ensures 1 <= Level(n) && Level(n / 2) == Level(n) - 1 && Buddy(n) != n
    ensures n in lists[Level(n)] && Buddy(n) in lists[Level(n)] && Buddy(n) in Unlink(lists, Level(n), n)[Level(n)]
    ensures Holds(Link(Unlink(Unlink(lists, Level(n), n), Level(n), Buddy(n)), Level(n) - 1, n / 2),
                  F - {n} - {Buddy(n)} + {n / 2})
    ensures |Link(Unlink(Unlink(lists, Level(n), n), Level(n), Buddy(n)), Level(n) - 1, n / 2)| == |lists|
  {
    hide Holds, Without;
    var l, b, p := Level(n), Buddy(n), n / 2;
    BuddyParent(n);
    UnlinkHolds(lists, F, b);
    UnlinkHolds(lists, F, n);
    var L1 := Unlink(lists, l, n);
    UnlinkHolds(L1, F - {n}, b);
    LinkHolds(Unlink(L1, l, b), F - {n} - {b}, p);
  }

  /** `SplitHead` assembled step by step. */
  lemma SplitHeadSteps(h: Heap, l: nat, n: nat, h': Heap)
    requires l + 1 < |h.lists| && h.lists[l] != [] && n == h.lists[l][0] && n in h.lists[l]
    requires h' == h.(table := h.table - {n} + {2 * n} + {2 * n + 1},
                      lists := Link(Link(Unlink(h.lists, l, n), l + 1, 2 * n), l + 1, 2 * n + 1))
    ensures h' == SplitHead(h, l)
  {
    assert h'.table == SplitHead(h, l).table;
  }

  lemma TakeHeadSteps(h: Heap, l: nat, n: nat, h': Heap)
    requires l < |h.lists| && h.lists[l] != [] && n == h.lists[l][0] && n in h.lists[l]
    requires h' == h.(live := h.live + {n}, lists := Unlink(h.lists, l, n))
    ensures h' == TakeHead(h, l)
  {
  }

  /** One round of the split loop is one unfolding of `SplitDown`. */
  lemma SplitDownStep(h: Heap, s: nat, l: nat)
    requires s < l < |h.lists| && h.lists[s] != []
    ensures var h' := SplitHead(h, s);
            && |h'.lists| == |h.lists| && h'.lists[s + 1] != [] && h'.live == h.live && h'.g == h.g
            && SplitDown(h, s, l) == SplitDown(h', s + 1, l)
  {
  }

  lemma SplitDownEnd(h: Heap, l: nat)
    requires l < |h.lists| && h.lists[l] != []
    ensures SplitDown(h, l, l) == h
  {
  }

  /** How `Malloc` is put together. */
  lemma MallocParts(h: Heap, size: nat)
    requires h.g.Valid() && |h.lists| == h.g.Levels()
    ensures size > h.g.ArenaSize() ==> Malloc(h, size).Failed?
    ensures size <= h.g.ArenaSize() ==>
              var l := ListFor(h.g, size, h.g.Levels() - 1);
              var s := FirstNonEmpty(h.lists, l);
              && (s < 0 ==> Malloc(h, size).Failed?)
              && (s >= 0 ==>
                    var h' := SplitDown(h, s, l);
                    && l < |h'.lists| && h'.lists[l] != []
                    && Malloc(h, size) == Allocated(TakeHead(h', l), h'.lists[l][0]))
  {
    if size <= h.g.ArenaSize() {
      var l := ListFor(h.g, size, h.g.Levels() - 1);
      var s := FirstNonEmpty(h.lists, l);
      if s >= 0 {
        SplitDownShape(h, s, l);
      }
    }
  }

  /** `MergeUp` assembled step by step. */
  lemma MergeUpSteps(h: Heap, n: nat, l: nat, L1: seq<seq<nat>>, h': Heap)
    requires 1 <= l < |h.lists| && n in h.lists[l] && Buddy(n) in h.lists[l]
    requires L1 == Unlink(h.lists, l, n) && Buddy(n) in L1[l]
    requires h' == h.(table := h.table - {n} - {Buddy(n)} + {n / 2},
                      lists := Link(Unlink(L1, l, Buddy(n)), l - 1, n / 2))
    requires n >= 2 && Level(n) == l
    ensures h' == MergeUp(h, n)
  {
    assert h'.table == MergeUp(h, n).table;
  }

  /** One round of the coalescing loop is one unfolding of `Coalesce`. */
  lemma CoalesceStep(h: Heap, n: nat)
    requires h.Inv() && n in h.Free()
    ensures if n >= 2 && Buddy(n) in h.Free() then
              1 <= Level(n) < |h.lists| && n in h.lists[Level(n)] && Buddy(n) in h.lists[Level(n)]
              && MergeUp(h, n).Inv() && n / 2 in MergeUp(h, n).Free()
              && Coalesce(h, n) == Coalesce(MergeUp(h, n), n / 2) && MergeUp(h, n).live == h.live
            else Coalesce(h, n) == h
  {
    if n >= 2 && Buddy(n) in h.Free() {
      MergeUpInv(h, n);
    }
  }

  lemma ReleaseSteps(h: Heap, n: nat, h': Heap)
    requires n >= 1 && Level(n) < |h.lists|
    requires h' == h.(live := h.live - {n}, lists := Link(h.lists, Level(n), n))
    ensures h' == Release(h, n)
  {
  }

  lemma FreeParts(h: Heap, n: nat)
    requires h.Inv() && n in h.live
    ensures n >= 1 && Level(n) < |h.lists|
    ensures Release(h, n).Inv() && n in Release(h, n).Free()
    ensures Free(h, n) == Coalesce(Release(h, n), n)
  {
    ReleaseInv(h, n);
  }

  // The shape of whole operations

  /** Splitting touches only the block it splits, and leaves one half per level. */
  lemma {:induction false} SplitDownInv(h: Heap, s: nat, l: nat)
    requires h.Inv() && s <= l < |h.lists| && h.lists[s] != []
    requires NoBuddies(h.Free() - {h.lists[s][0]})
    ensures var h' := SplitDown(h, s, l);
            && h'.Inv() && h'.live == h.live && h'.g == h.g
            && |h'.lists| == |h.lists| && h'.lists[l] != []
            && NoBuddies(h'.Free() - {h'.lists[l][0]})
    decreases l - s
  {
    hide Tiles, Holds, SplitHead, Level, Pow2;
    if s < l {
      SplitHeadInv(h, s);
      var n, h1 := h.lists[s][0], SplitHead(h, s);
      assert h1.Free() - {2 * n + 1} == h.Free() - {n} + {2 * n};
      assert Buddy(2 * n) == 2 * n + 1;
      SplitDownInv(h1, s + 1, l);
    }
  }

  /** Coalescing leaves no free buddies and changes no live block. */
  lemma {:induction false} CoalesceSettles(h: Heap, n: nat)
    requires h.Inv() && n in h.Free() && NoBuddies(h.Free() - {n})
    ensures Coalesce(h, n).Settled()
    ensures Coalesce(h, n).live == h.live && Coalesce(h, n).g == h.g
    decreases n
  {
    if n >= 2 && Buddy(n) in h.Free() {
      MergeUpInv(h, n);
      var h1 := MergeUp(h, n);
      assert h1.Free() - {n / 2} <= h.Free() - {n};
      CoalesceSettles(h1, n / 2);
    } else {
      forall x | x in h.Free() && x >= 2
        ensures Buddy(x) !in h.Free()
      {
        BuddyInvolution(x);
      }
    }
  }

  lemma BuddyInvolution(n: nat)
    ensures Buddy(Buddy(n)) == n
    ensures n >= 2 ==> Buddy(n) >= 2
  {
  }

  // Main results about single operations

  /** The bytes `[off, off + size)` meet no live block. */
  ghost predicate RegionFree(h: Heap, off: nat, size: nat)
    requires h.Inv()
  {
    forall u :: u in h.live ==>
      (NodeLevel(h.g, u);
       h.g.Off(u) + h.g.Size(u) <= off || off + size <= h.g.Off(u))
  }

  /** Some region of `bs` bytes, aligned to `bs`, meets no live block. */
  ghost predicate HasRegion(h: Heap, bs: nat)
    requires h.Inv() && bs > 0
  {
    exists off: nat :: off % bs == 0 && off + bs <= h.g.ArenaSize() && RegionFree(h, off, bs)
  }

  /** The size `sh_malloc` rounds a request up to. */
  function BlockSize(g: Geometry, size: nat): (bs: nat)
    requires g.Valid() && size <= g.ArenaSize()
    ensures bs >= size && bs >= 1
    ensures bs == g.MinSize() || bs < 2 * size
  {
    g.SizeAt(ListFor(g, size, g.Levels() - 1))
  }

  lemma RegionIffNodeFree(h: Heap, v: nat)
    requires h.Inv() && h.g.Node(v)
    ensures Level(v) <= h.g.k
    ensures RegionFree(h, h.g.Off(v), h.g.Size(v)) <==> forall u :: u in h.live ==> !Comparable(u, v)
  {
    NodeLevel(h.g, v);
    forall u | u in h.live
      ensures Level(u) <= h.g.k
      ensures DisjointBlocks(h.g, u, v) <==> !Comparable(u, v)
    {
      NodeLevel(h.g, u);
      OverlapIffComparable(h.g, u, v);
    }
  }

  /** A free region of a level exists exactly when some list at or above it is non-empty. */
  lemma RegionIffListed(h: Heap, l: nat)
    requires h.Settled() && l < h.g.Levels()
    ensures HasRegion(h, h.g.SizeAt(l)) <==> FirstNonEmpty(h.lists, l) >= 0
  {
    if HasRegion(h, h.g.SizeAt(l)) {
      RegionGivesList(h, l);
    }
    if FirstNonEmpty(h.lists, l) >= 0 {
      ListGivesRegion(h, l);
    }
  }

  lemma RegionGivesList(h: Heap, l: nat)
    requires h.Settled() && l < h.g.Levels() && HasRegion(h, h.g.SizeAt(l))
    ensures FirstNonEmpty(h.lists, l) >= 0
  {
    var bs := h.g.SizeAt(l);
    var off: nat :| off % bs == 0 && off + bs <= h.g.ArenaSize() && RegionFree(h, off, bs);
    NodeAtIsNode(h.g, l, off);
    var v := h.g.NodeAt(l, off);
    RegionIffNodeFree(h, v);
    var t := FreeRegionIsOneTile(h.g, h.table, h.Free(), v);
    CoversBasics(t, v);
    assert Enumerates(h.lists[Level(t)], h.Free(), Level(t));
  }

  lemma ListGivesRegion(h: Heap, l: nat)
    requires h.Inv() && l < h.g.Levels() && FirstNonEmpty(h.lists, l) >= 0
    ensures HasRegion(h, h.g.SizeAt(l))
  {
    var s := FirstNonEmpty(h.lists, l);
    var f := h.lists[s][0];
    HeadIsFree(h, s);
    var v := DescendTo(h.g, f, l);
    forall u | u in h.live
      ensures !Comparable(u, v)
    {
      if Covers(u, v) {
        CoversChain(u, f, v);
        assert false;
      } else if Covers(v, u) {
        CoversTransitive(f, v, u);
        assert false;
      }
    }
    RegionIffNodeFree(h, v);
    BlockInArena(h.g, v);
    assert RegionFree(h, h.g.Off(v), h.g.SizeAt(l));
  }

  /** A block of level `l` inside the block of `f`. */
  lemma {:induction false} DescendTo(g: Geometry, f: nat, l: nat) returns (v: nat)
    requires g.Valid() && g.Node(f) && Level(f) <= l < g.Levels()
    ensures g.Node(v) && Level(v) == l && Covers(f, v)
    decreases l - Level(f)
  {
    if Level(f) == l {
      v := f;
    } else {
      ChildNode(g, f);
      v := DescendTo(g, 2 * f, l);
      ChildCovered(f);
      CoversTransitive(f, 2 * f, v);
    }
  }

  /** Allocation never fails needlessly. */
  lemma MallocFailsIff(h: Heap, size: nat)
    requires h.Settled()
    ensures Malloc(h, size).Failed? <==>
              size > h.g.ArenaSize() || !HasRegion(h, BlockSize(h.g, size))
  {
    if size <= h.g.ArenaSize() {
      RegionIffListed(h, ListFor(h.g, size, h.g.Levels() - 1));
    }
  }

  /** A successful allocation adds one block of the rounded size to the live ones. */
  lemma MallocSettled(h: Heap, size: nat)
    requires h.Settled() && Malloc(h, size).Allocated?
    ensures size <= h.g.ArenaSize()
    ensures var Allocated(h', n) := Malloc(h, size);
            && h'.Settled() && h'.g == h.g
            && n !in h.live && h'.live == h.live + {n}
            && Level(n) <= h.g.k && h.g.Size(n) == BlockSize(h.g, size)
  {
    hide Tiles, Holds, Covers, SplitDown, Level, Pow2;
    var l := ListFor(h.g, size, h.g.Levels() - 1);
    var s := FirstNonEmpty(h.lists, l);
    SplitDownInv(h, s, l);
    TakeHeadInv(SplitDown(h, s, l), l);
  }

  /** Freeing removes exactly the freed block from the live ones. */
  lemma FreeSettled(h: Heap, n: nat)
    requires h.Settled() && n in h.live
    ensures Free(h, n).Settled() && Free(h, n).g == h.g
    ensures Free(h, n).live == h.live - {n}
  {
    ReleaseInv(h, n);
    assert Release(h, n).Free() - {n} == h.Free();
    CoalesceSettles(Release(h, n), n);
  }

  /** With nothing live, a settled heap is the initial one. */
  lemma EmptyIsInit(h: Heap)
    requires h.Settled() && h.live == {}
    ensures h == Init(h.g)
  {
    Pow2Monotone(1, h.g.Levels());
    var t := FreeRegionIsOneTile(h.g, h.table, h.Free(), 1);
    CoversBasics(t, 1);
    forall x | x in h.table
      ensures x == 1
    {
      RootCovers(x);
    }
    assert h.table == {1};
    forall l | 0 <= l < |h.lists|
      ensures h.lists[l] == Init(h.g).lists[l]
    {
      if l == 0 {
        assert Enumerates(h.lists[0], h.Free(), 0);
        OnlyOne(h.lists[0], 1);
      } else if h.lists[l] != [] {
        HeadIsFree(h, l);
        assert false;
      }
    }
  }

  lemma AnotherMember(s: seq<nat>, x: nat) returns (y: nat)
    requires NoDuplicates(s) && |s| > 1
    ensures y in s && y != x
  {
    y := if s[0] == x then s[1] else s[0];
  }

  lemma OnlyOne(s: seq<nat>, x: nat)
    requires NoDuplicates(s) && x in s && forall y :: y in s ==> y == x
    ensures s == [x]
  {
    assert s[0] in s;
    if |s| > 1 {
      var y := AnotherMember(s, x);
      assert false;
    }
  }

  lemma InitSettled(g: Geometry)
    requires g.Valid()
    ensures Init(g).Settled()
  {
    Pow2Monotone(1, g.Levels());
    forall v | g.Leaf(v)
      ensures Covers(1, v)
    {
      RootCovers(v);
    }
  }

  /** Live bytes plus free bytes are the arena, and no live byte means no live block. */
  lemma Conservation(h: Heap)
    requires h.Inv()
    ensures SumSizes(h.g, h.live) + SumSizes(h.g, h.Free()) == h.g.ArenaSize()
    ensures SumSizes(h.g, h.live) == 0 <==> h.live == {}
  {
    TilingSum(h.g, h.table);
    SumUnion(h.g, h.live, h.Free());
    assert h.live + h.Free() == h.table;
    SumPositive(h.g, h.live);
  }

  /** Live blocks lie in the arena, are aligned to their size and do not overlap. */
  lemma LiveBlocksApart(h: Heap, a: nat, b: nat)
    requires h.Inv() && a in h.live && b in h.live
    ensures Level(a) <= h.g.k && Level(b) <= h.g.k
    ensures h.g.Off(a) + h.g.Size(a) <= h.g.ArenaSize() && h.g.Off(a) % h.g.Size(a) == 0
    ensures a != b ==> DisjointBlocks(h.g, a, b)
  {
    NodeLevel(h.g, a);
    NodeLevel(h.g, b);
    BlockInArena(h.g, a);
    if a != b {
      TilesDisjoint(h.g, h.table, a, b);
    }
  }

  // Climbing from a leaf bit to the block that starts there

  /** `(arena_size + off) / minsize` is the leaf at the start of the block. */
  lemma StartBit(g: Geometry, n: nat)
    requires g.Valid() && g.Node(n)
    ensures Level(n) <= g.k
    ensures var bit := (g.ArenaSize() + g.Off(n)) / g.MinSize();
            && g.Node(bit) && Level(bit) == g.Levels() - 1
            && g.Off(bit) == g.Off(n) && Covers(n, bit)
  {
    NodeLevel(g, n);
    BlockInArena(g, n);
    AlignedToMin(g, n);
    var bit := g.NodeAt(g.Levels() - 1, g.Off(n));
    assert g.SizeAt(g.Levels() - 1) == g.MinSize();
    NodeAtIsNode(g, g.Levels() - 1, g.Off(n));
    LeafIndex(g, g.Off(n));
    OverlapIffComparable(g, n, bit);
    if Covers(bit, n) {
      CoversBasics(bit, n);
    }
  }

  lemma LeafIndex(g: Geometry, off: nat)
    requires g.Valid()
    ensures (g.ArenaSize() + off) / g.MinSize() == Pow2(g.Levels() - 1) + off / g.MinSize()
  {
    hide Pow2;
    Pow2Add(g.Levels() - 1, g.m);
    var d := g.MinSize();
    var q := Pow2(g.Levels() - 1) + off / d;
    assert g.ArenaSize() + off == q * d + off % d by {
      Distribute(Pow2(g.Levels() - 1), off / d, d);
    }
    DivModUnique(g.ArenaSize() + off, d, q, off % d);
  }

  lemma Distribute(a: int, b: int, d: int)
    ensures (a + b) * d == a * d + b * d
  {
  }

  lemma AlignedToMin(g: Geometry, n: nat)
    requires g.Valid() && g.Node(n) && Level(n) <= g.k && Level(n) < g.Levels()
    ensures g.Off(n) % g.MinSize() == 0
  {
    OffClosed(g, n);
    MultipleOfPow2(n - Pow2(Level(n)), g.k - Level(n) - g.m, g.m);
  }

  lemma {:induction false} MultipleOfPow2(c: nat, e: nat, m: nat)
    ensures c * Pow2(e + m) % Pow2(m) == 0
    decreases e
  {
    if e == 0 {
      DivCancel(c, Pow2(m));
    } else {
      MultipleOfPow2(2 * c, e - 1, m);
      Doubling(c, Pow2(e + m - 1));
    }
  }

  /** Below the block's own bit every bit on the way is clear and even. */
  lemma ClimbStep(h: Heap, n: nat, bit: nat)
    requires h.Inv() && n in h.table && h.g.Node(bit) && Covers(n, bit)
    requires Level(n) <= h.g.k && Level(bit) <= h.g.k && h.g.Off(bit) == h.g.Off(n)
    ensures bit in h.table <==> bit == n
    ensures bit != n ==>
              && bit % 2 == 0 && h.g.Node(bit / 2) && Covers(n, bit / 2)
              && 1 <= Level(bit) == Level(bit / 2) + 1 && h.g.Off(bit / 2) == h.g.Off(n)
  {
    if bit != n {
      CoversBasics(n, bit);
      CoversParent(n, bit);
      CoversContains(h.g, n, bit / 2);
      Halves(h.g, bit / 2);
    }
  }

  // Whole runs

  datatype Op = DoMalloc(size: nat) | DoFree(node: nat)

  /** A legal step: only live blocks are freed. */
  ghost predicate Legal(h: Heap, op: Op) {
    op.DoFree? ==> op.node in h.live
  }

  ghost function Step(h: Heap, op: Op): (h': Heap)
    requires h.Settled() && Legal(h, op)
    ensures h'.Settled() && h'.g == h.g
  {
    match op
    case DoFree(n) => FreeSettled(h, n); Free(h, n)
    case DoMalloc(size) =>
      if Malloc(h, size).Failed? then h
      else MallocSettled(h, size); Malloc(h, size).heap
  }

  /** `h` leads to `h'` by the legal steps `ops`. */
  ghost predicate Run(h: Heap, ops: seq<Op>, h': Heap)
    requires h.Settled()
    decreases |ops|
  {
    if ops == [] then h == h'
    else Legal(h, ops[0]) && Run(Step(h, ops[0]), ops[1..], h')
  }

  /** Every reachable heap is settled. */
  lemma {:induction false} RunSettled(h: Heap, ops: seq<Op>, h': Heap)
    requires h.Settled() && Run(h, ops, h')
    ensures h'.Settled() && h'.g == h.g
    decreases |ops|
  {
    if ops != [] {
      RunSettled(Step(h, ops[0]), ops[1..], h');
    }
  }

  /** Freeing all live blocks, in any order and after any run, restores the initial heap. */
  lemma RunThenEmptyRestores(g: Geometry, ops: seq<Op>, h': Heap)
    requires g.Valid() && (InitSettled(g); Run(Init(g), ops, h')) && h'.live == {}
    ensures h' == Init(g)
  {
    InitSettled(g);
    RunSettled(Init(g), ops, h');
    EmptyIsInit(h');
  }

  /** A block stays live, with the size fixed when it was handed out, until it is freed. */
  lemma {:induction false} LiveUntilFreed(h: Heap, ops: seq<Op>, h': Heap, n: nat)
    requires h.Settled() && Run(h, ops, h') && n in h.live
    requires forall i :: 0 <= i < |ops| ==> ops[i] != DoFree(n)
    ensures n in h'.live
    decreases |ops|
  {
    if ops != [] {
      match ops[0] {
        case DoFree(m) =>
          FreeSettled(h, m);
        case DoMalloc(size) =>
          if Malloc(h, size).Allocated? { MallocSettled(h, size); }
      }
      LiveUntilFreed(Step(h, ops[0]), ops[1..], h', n);
    }
  }

  /** Any order of frees that empties the heap is legal and ends in the initial heap. */
  lemma {:induction false} FreeAllAnyOrder(h: Heap, order: seq<nat>)
    requires h.Settled() && NoDuplicates(order)
    requires forall n :: n in order <==> n in h.live
    ensures Run(h, seq(|order|, i requires 0 <= i < |order| => DoFree(order[i])), Init(h.g))
    decreases |order|
  {
    var ops := seq(|order|, i requires 0 <= i < |order| => DoFree(order[i]));
    if order == [] {
      assert h.live == {};
      EmptyIsInit(h);
    } else {
      var n, rest := order[0], order[1..];
      assert n in order;
      FreeSettled(h, n);
      forall x
        ensures x in rest <==> x in h.live - {n}
      {
        assert order == [n] + rest;
        if x in rest {
          var i :| 0 <= i < |rest| && rest[i] == x;
          assert order[i + 1] == x;
        }
      }
      FreeAllAnyOrder(Free(h, n), rest);
      assert ops[1..] == seq(|rest|, i requires 0 <= i < |rest| => DoFree(rest[i]));
    }
  }
}
