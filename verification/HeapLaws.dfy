/** `sh_malloc` and `sh_free` against each other, down to the order of the free lists. */
module HeapLaws {
  import opened Powers
  import opened BuddyTree
  import opened Tiling
  import opened BuddyHeap

  lemma WithoutHead(s: seq<nat>, x: nat)
    ensures Without([x] + s, x) == s
  {
  }

  lemma ListsRestored(lists: seq<seq<nat>>, l: nat, n: nat)
    requires l + 1 < |lists| && lists[l] != [] && n == lists[l][0] && lists[l + 1] == []
    ensures var L := Link(Link(Unlink(lists, l, n), l + 1, 2 * n), l + 1, 2 * n + 1);
            && 2 * n + 1 in L[l + 1] && 2 * n in Unlink(L, l + 1, 2 * n + 1)[l + 1]
            && Link(Unlink(Unlink(L, l + 1, 2 * n + 1), l + 1, 2 * n), l, n) == lists
  {
    hide Without;
    var rest := lists[l][1..];
    assert lists[l] == [n] + rest;
    WithoutHead(rest, n);
    WithoutHead([2 * n], 2 * n + 1);
    WithoutHead([], 2 * n);
    assert [2 * n] + lists[l + 1] == [2 * n] == [2 * n] + [];
  }

  lemma TableRestored(h: Heap, n: nat)
    requires n in h.table && 2 * n !in h.table && 2 * n + 1 !in h.table
    ensures h.table - {n} + {2 * n, 2 * n + 1} - {2 * n + 1} - {2 * n} + {n} == h.table
  {
  }

  /** One merge undoes one split. */
  lemma MergeUndoesSplit(h: Heap, l: nat)
    requires h.Inv() && l + 1 < |h.lists| && h.lists[l] != [] && h.lists[l + 1] == []
    ensures var h', n := SplitHead(h, l), h.lists[l][0];
            && h'.Inv() && 2 * n + 1 in h'.Free() && n in h.Free() && Coalesce(h', 2 * n + 1) == Coalesce(h, n)
  {
    hide Tiles, Holds, Level, Coalesce, Link, Unlink, MergeUp, Buddy;
    var h', n := SplitHead(h, l), h.lists[l][0];
    SplitHeadInv(h, l);
    UpperHalf(n);
    CoalesceStep(h', 2 * n + 1);
    ListsRestored(h.lists, l, n);
    TableRestored(h, n);
    MergeUpSteps(h', 2 * n + 1, l + 1, Unlink(h'.lists, l + 1, 2 * n + 1), h);
  }

  lemma UpperHalf(n: nat)
    requires n >= 1
    ensures Level(2 * n + 1) == Level(n) + 1 && Buddy(2 * n + 1) == 2 * n && (2 * n + 1) / 2 == n
  {
  }

  lemma LastPart(n: nat, d: nat)
    requires d > 0
    ensures (2 * n + 1 + 1) * Pow2(d - 1) == (n + 1) * Pow2(d)
  {
  }

  lemma OnePart(n: nat)
    ensures n == (n + 1) * Pow2(0) - 1
  {
  }

  /** Coalescing from the block that the split loop arrives at undoes the whole loop. */
  lemma {:induction false} CoalesceUndoesSplit(h: Heap, s: nat, l: nat)
    requires h.Inv() && s <= l < |h.lists| && h.lists[s] != [] && forall j :: s < j <= l ==> h.lists[j] == []
    ensures var h' := SplitDown(h, s, l);
            && h'.Inv() && |h'.lists| == |h.lists| && h'.lists[l] != [] && h'.live == h.live
            && var n, m := h'.lists[l][0], h.lists[s][0];
               && n in h'.Free() && m in h.Free() && n >= 1 && Level(n) == l
               && n == (m + 1) * Pow2(l - s) - 1 && Coalesce(h', n) == Coalesce(h, m)
    decreases l - s
  {
    hide Tiles, Holds, Level, Coalesce, SplitDown, Pow2;
    HeadIsFree(h, s);
    if s == l {
      SplitDownEnd(h, l);
      TableNode(h, h.lists[s][0]);
      OnePart(h.lists[s][0]);
    } else {
      var h1 := SplitHead(h, s);
      SplitHeadInv(h, s);
      SplitDownStep(h, s, l);
      MergeUndoesSplit(h, s);
      BelowKept(h, s, l);
      hide SplitHead;
      CoalesceUndoesSplit(h1, s + 1, l);
      LastPart(h.lists[s][0], l - s);
    }
  }

  lemma BelowKept(h: Heap, s: nat, l: nat)
    requires s < l < |h.lists| && h.lists[s] != [] && forall j :: s < j <= l ==> h.lists[j] == []
    ensures var h' := SplitHead(h, s); |h'.lists| == |h.lists| && forall j :: s + 1 < j <= l ==> h'.lists[j] == []
  {
  }

  /** The block handed out is the last part of the first block on the nearest non-empty list. */
  lemma MallocPlaces(h: Heap, size: nat)
    requires h.Settled() && Malloc(h, size).Allocated?
    ensures size <= h.g.ArenaSize()
    ensures var l := ListFor(h.g, size, h.g.Levels() - 1);
            var s := FirstNonEmpty(h.lists, l);
            s >= 0 && Malloc(h, size).node == (h.lists[s][0] + 1) * Pow2(l - s) - 1
  {
    hide Tiles, Holds, SplitDown, Pow2, Level;
    MallocParts(h, size);
    var l := ListFor(h.g, size, h.g.Levels() - 1);
    CoalesceUndoesSplit(h, FirstNonEmpty(h.lists, l), l);
  }

  /** Freeing what was just allocated restores the heap exactly, the order of every list included. */
  lemma FreeUndoesMalloc(h: Heap, size: nat)
    requires h.Settled() && Malloc(h, size).Allocated?
    ensures var Allocated(h', n) := Malloc(h, size);
            h'.Inv() && n in h'.live && BuddyHeap.Free(h', n) == h
  {
    hide Tiles, Holds, SplitDown, Pow2, Level, Without;
    MallocParts(h, size);
    MallocSettled(h, size);
    var l := ListFor(h.g, size, h.g.Levels() - 1);
    var s := FirstNonEmpty(h.lists, l);
    CoalesceUndoesSplit(h, s, l);
    var split := SplitDown(h, s, l);
    ReleaseUndoesTake(split, l);
    FreeParts(TakeHead(split, l), split.lists[l][0]);
    CoalesceStep(h, h.lists[s][0]);
  }

  lemma ReleaseUndoesTake(h: Heap, l: nat)
    requires h.Inv() && l < |h.lists| && h.lists[l] != []
    requires h.lists[l][0] in h.Free() && Level(h.lists[l][0]) == l && h.lists[l][0] >= 1
    ensures Release(TakeHead(h, l), h.lists[l][0]) == h
  {
    hide Tiles, Holds, Level, Without;
    var n := h.lists[l][0];
    WithoutHead(h.lists[l][1..], n);
    assert h.lists[l] == [n] + h.lists[l][1..];
    assert Release(TakeHead(h, l), n).lists == h.lists;
    assert h.live + {n} - {n} == h.live;
  }

  /** Allocating again what was just freed gives the same block and restores the heap, unless it was merged. */
  lemma MallocUndoesFree(h: Heap, n: nat)
    requires h.Settled() && n in h.live && (n >= 2 ==> Buddy(n) !in h.Free())
    ensures n >= 1 && Level(n) <= h.g.k && Malloc(BuddyHeap.Free(h, n), h.g.Size(n)) == Allocated(h, n)
  {
    hide Tiles, Holds, Pow2, Level, SplitDown, Malloc, Coalesce, Release, TakeHead, ListFor, Buddy;
    TableNode(h, n);
    LevelOfSize(h.g, n);
    FreeParts(h, n);
    ReleaseHead(h, n);
    CoalesceStep(Release(h, n), n);
    MallocParts(Release(h, n), h.g.Size(n));
    SplitDownEnd(Release(h, n), Level(n));
  }

  lemma ReleaseHead(h: Heap, n: nat)
    requires n in h.live && n >= 1 && Level(n) < |h.lists|
    ensures var h', l := Release(h, n), Level(n);
            && h'.g == h.g && |h'.lists| == |h.lists| && h'.lists[l] != [] && h'.lists[l][0] == n
            && TakeHead(h', l) == h && FirstNonEmpty(h'.lists, l) == l && h'.Free() <= h.Free() + {n}
  {
    hide Level, Without;
    var l := Level(n);
    WithoutHead(h.lists[l], n);
    assert TakeHead(Release(h, n), l).lists == h.lists;
    assert h.live - {n} + {n} == h.live;
  }

  lemma LevelOfSize(g: Geometry, n: nat)
    requires g.Valid() && g.Node(n) && Level(n) <= g.k
    ensures g.Size(n) <= g.ArenaSize() && ListFor(g, g.Size(n), g.Levels() - 1) == Level(n)
  {
    hide Pow2, Level;
    var l := Level(n);
    NodeLevel(g, n);
    Pow2Monotone(g.k - l, g.k);
    var r := ListFor(g, g.Size(n), g.Levels() - 1);
    if r < l {
      Pow2Monotone(g.k - l + 1, g.k - r);
      DoublePow2(g.k - l + 1);
    } else if r > l {
      Pow2Monotone(g.k - r, g.k - l - 1);
      DoublePow2(g.k - l);
    }
  }
}
