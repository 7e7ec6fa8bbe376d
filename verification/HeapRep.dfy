/** How the cells of the arena represent a buddy heap, kept by every step. */
module HeapRep {
  import opened Powers
  import opened BitOps
  import opened Bitwise
  import opened BuddyTree
  import opened Tiling
  import opened BuddyHeap
  import opened HeapMemory

  /** Address of the block of a node. */
  function Ptr(g: Geometry, arena: nat, n: nat): nat
    requires n >= 1 && Level(n) <= g.k
  {
    arena + g.Off(n)
  }

  ghost predicate NodesOnly(g: Geometry, s: seq<nat>)
    requires g.Valid()
  {
    forall i :: 0 <= i < |s| ==> g.Node(s[i])
  }

  ghost function PtrList(g: Geometry, arena: nat, s: seq<nat>): (r: seq<nat>)
    requires g.Valid() && NodesOnly(g, s)
    ensures |r| == |s|
    ensures forall i :: 0 <= i < |s| ==> s[i] >= 1 && Level(s[i]) <= g.k && r[i] == Ptr(g, arena, s[i])
  {
    if s == [] then []
    else
      NodeLevel(g, s[0]);
      assert NodesOnly(g, s[1..]);
      [Ptr(g, arena, s[0])] + PtrList(g, arena, s[1..])
  }

  ghost predicate AllNodes(g: Geometry, lists: seq<seq<nat>>)
    requires g.Valid()
  {
    forall l :: 0 <= l < |lists| ==> NodesOnly(g, lists[l])
  }

  /** The free lists as lists of addresses. */
  ghost function Ptrs(g: Geometry, arena: nat, lists: seq<seq<nat>>): (P: seq<seq<nat>>)
    requires g.Valid() && AllNodes(g, lists)
    ensures |P| == |lists|
    ensures forall l :: 0 <= l < |lists| ==> P[l] == PtrList(g, arena, lists[l])
  {
    seq(|lists|, l requires 0 <= l < |lists| => PtrList(g, arena, lists[l]))
  }

  lemma ListsAreNodes(h: Heap)
    requires h.Inv()
    ensures AllNodes(h.g, h.lists)
  {
    forall l | 0 <= l < |h.lists|
      ensures NodesOnly(h.g, h.lists[l])
    {
      assert Enumerates(h.lists[l], h.Free(), l);
      assert forall i :: 0 <= i < |h.lists[l]| ==> h.lists[l][i] in h.lists[l];
    }
  }

  ghost function FreePtrs(h: Heap, arena: nat): seq<seq<nat>>
    requires h.Inv()
  {
    ListsAreNodes(h);
    Ptrs(h.g, arena, h.lists)
  }

  /** `m` has one list head per level and one granule per 16 bytes of arena. */
  ghost predicate Spans(m: Memory, g: Geometry, arena: nat)
    requires g.Valid()
  {
    && m.Valid() && |m.slots| == g.Levels()
    && forall q :: q in m.back <==> arena <= q < arena + g.ArenaSize() && (q - arena) % 16 == 0
  }

  /** Address `q` lies in the block of `n`. */
  ghost predicate Inside(g: Geometry, arena: nat, n: nat, q: nat)
    requires n >= 1 && Level(n) <= g.k
  {
    arena <= q && g.InBlock(n, q - arena)
  }

  ghost predicate InLive(h: Heap, arena: nat, q: nat)
    requires h.Inv()
  {
    exists n :: n in h.live && (NodeLevel(h.g, n); Inside(h.g, arena, n, q))
  }

  ghost predicate Zero(m: Memory, q: nat) {
    q in m.next && q in m.back && m.next[q] == 0 && m.back[q] == 0
  }

  /** Every granule that is neither live nor the header of a free block is zero. */
  ghost predicate Quiet(m: Memory, h: Heap, arena: nat)
    requires h.Inv()
  {
    forall q :: q in m.back && q !in Addrs(FreePtrs(h, arena)) && !InLive(h, arena, q) ==> Zero(m, q)
  }

  ghost predicate Represents(m: Memory, h: Heap, arena: nat) {
    && h.Inv()
    && Spans(m, h.g, arena)
    && Linked(m, FreePtrs(h, arena))
    && Quiet(m, h, arena)
  }

  // Addresses of blocks

  lemma BlockGranule(g: Geometry, n: nat)
    requires g.Valid() && g.Node(n)
    ensures Level(n) <= g.k && g.Size(n) >= 16 && g.Size(n) % 16 == 0
    ensures g.Off(n) % 16 == 0 && g.Off(n) + g.Size(n) <= g.ArenaSize()
  {
    NodeLevel(g, n);
    BlockInArena(g, n);
    OffClosed(g, n);
    Multiple16(n - Pow2(Level(n)), g.k - Level(n));
  }

  lemma {:induction false} Multiple16(c: nat, e: nat)
    requires e >= 4
    ensures Pow2(e) >= 16 && Pow2(e) % 16 == 0 && c * Pow2(e) % 16 == 0
    decreases e
  {
    if e == 4 {
      assert Pow2(4) == 16 by { assert Pow2(2) == 4; }
    } else {
      Multiple16(2 * c, e - 1);
      assert c * (2 * Pow2(e - 1)) == (2 * c) * Pow2(e - 1);
    }
  }

  /** Two blocks of the table never hold the same address. */
  lemma OneBlockPerAddress(h: Heap, arena: nat, a: nat, b: nat, q: nat)
    requires h.Inv() && a in h.table && b in h.table
    requires Level(a) <= h.g.k && Level(b) <= h.g.k
    requires Inside(h.g, arena, a, q) && Inside(h.g, arena, b, q)
    ensures a == b
  {
    if a != b {
      TilesDisjoint(h.g, h.table, a, b);
    }
  }

  /** Every header address is the start of a free block. */
  lemma HeaderIsFree(h: Heap, arena: nat, q: nat) returns (n: nat)
    requires h.Inv() && q in Addrs(FreePtrs(h, arena))
    ensures n in h.Free() && Level(n) <= h.g.k && q == Ptr(h.g, arena, n)
    ensures Inside(h.g, arena, n, q)
  {
    var P := FreePtrs(h, arena);
    var l, i :| 0 <= l < |P| && 0 <= i < |P[l]| && P[l][i] == q;
    ListsAreNodes(h);
    n := h.lists[l][i];
    assert Enumerates(h.lists[l], h.Free(), l);
    assert n in h.lists[l];
    assert P[l] == PtrList(h.g, arena, h.lists[l]);
    BlockGranule(h.g, n);
  }

  /** The only header inside a block of the table is its own. */
  lemma HeaderInBlock(h: Heap, arena: nat, n: nat, q: nat)
    requires h.Inv() && n in h.table && Level(n) <= h.g.k
    requires q in Addrs(FreePtrs(h, arena)) && Inside(h.g, arena, n, q)
    ensures n in h.Free() && q == Ptr(h.g, arena, n)
  {
    var f := HeaderIsFree(h, arena, q);
    OneBlockPerAddress(h, arena, f, n, q);
  }

  lemma LinkPtrs(g: Geometry, arena: nat, lists: seq<seq<nat>>, l: nat, n: nat)
    requires g.Valid() && AllNodes(g, lists) && l < |lists| && g.Node(n)
    ensures Level(n) <= g.k && AllNodes(g, Link(lists, l, n))
    ensures var P := Ptrs(g, arena, lists);
            Ptrs(g, arena, Link(lists, l, n)) == P[l := [Ptr(g, arena, n)] + P[l]]
  {
    NodeLevel(g, n);
    var L, P := Link(lists, l, n), Ptrs(g, arena, lists);
    assert AllNodes(g, L);
    assert PtrList(g, arena, L[l]) == [Ptr(g, arena, n)] + P[l];
    assert Ptrs(g, arena, L) == P[l := [Ptr(g, arena, n)] + P[l]];
  }

  lemma UnlinkPtrs(g: Geometry, arena: nat, lists: seq<seq<nat>>, l: nat, n: nat)
    requires g.Valid() && AllNodes(g, lists) && l < |lists| && n in lists[l]
    ensures n >= 1 && Level(n) <= g.k && AllNodes(g, Unlink(lists, l, n))
    ensures var P, i := Ptrs(g, arena, lists), IndexOf(lists[l], n);
            && P[l][i] == Ptr(g, arena, n)
            && Ptrs(g, arena, Unlink(lists, l, n)) == P[l := Delete(P[l], i)]
  {
    hide PtrList, IndexOf, Ptr, Level;
    var L, P, i := Unlink(lists, l, n), Ptrs(g, arena, lists), IndexOf(lists[l], n);
    NodeLevel(g, n);
    assert NodesOnly(g, L[l]);
    assert AllNodes(g, L);
    assert PtrList(g, arena, L[l]) == Delete(P[l], i);
    assert Ptrs(g, arena, L) == P[l := Delete(P[l], i)];
  }

  lemma SameOutsideTrans(m: Memory, m1: Memory, m2: Memory, A: set<nat>, B: set<nat>, C: set<nat>)
    requires SameOutside(m, m1, A) && SameOutside(m1, m2, B) && A <= C && B <= C && m.Valid()
    ensures SameOutside(m, m2, C)
  {
  }

  lemma SpansShape(m: Memory, m': Memory, g: Geometry, arena: nat)
    requires g.Valid() && Spans(m, g, arena) && m.SameShape(m')
    ensures Spans(m', g, arena)
  {
  }

  // Links and unlinks, seen from the nodes

  /** `m'` is `m` with node `n` taken off list `l`. */
  ghost predicate Unlinks(m: Memory, m': Memory, g: Geometry, arena: nat, lists: seq<seq<nat>>, l: nat, n: nat)
    requires g.Valid() && AllNodes(g, lists) && l < |lists| && n in lists[l]
  {
    UnlinkPtrs(g, arena, lists, l, n);
    var P, P' := Ptrs(g, arena, lists), Ptrs(g, arena, Unlink(lists, l, n));
    Linked(m', P') && Addrs(P') == Addrs(P) - {Ptr(g, arena, n)} && SameOutside(m, m', Addrs(P))
  }

  /** `m'` is `m` with node `n` put at the head of list `l`. */
  ghost predicate Links(m: Memory, m': Memory, g: Geometry, arena: nat, lists: seq<seq<nat>>, l: nat, n: nat)
    requires g.Valid() && AllNodes(g, lists) && l < |lists| && g.Node(n)
  {
    LinkPtrs(g, arena, lists, l, n);
    var P, P' := Ptrs(g, arena, lists), Ptrs(g, arena, Link(lists, l, n));
    Linked(m', P') && Addrs(P') == Addrs(P) + {Ptr(g, arena, n)} && SameOutside(m, m', Addrs(P'))
  }

  /** `sh_remove_from_list` unlinks. */
  lemma RemoveUnlinks(m: Memory, g: Geometry, arena: nat, lists: seq<seq<nat>>, l: nat, n: nat)
    requires g.Valid() && AllNodes(g, lists) && l < |lists| && n in lists[l]
    requires Linked(m, Ptrs(g, arena, lists))
    ensures n >= 1 && Level(n) <= g.k
    ensures var p := Ptr(g, arena, n);
            p in m.next && p in m.back && Unlinks(m, RemoveFromList(m, p), g, arena, lists, l, n)
  {
    UnlinkPtrs(g, arena, lists, l, n);
    RemoveRefinesDelete(m, Ptrs(g, arena, lists), l, IndexOf(lists[l], n));
  }

  /** `sh_add_to_list` links. */
  lemma AddLinks(m: Memory, g: Geometry, arena: nat, lists: seq<seq<nat>>, l: nat, n: nat)
    requires g.Valid() && AllNodes(g, lists) && l < |lists| && g.Node(n) && Level(n) <= g.k
    requires Linked(m, Ptrs(g, arena, lists))
    requires var p := Ptr(g, arena, n); p in m.back && p !in Addrs(Ptrs(g, arena, lists))
    ensures l < |m.slots| && m.slots[l] in m.next
    ensures Links(m, AddToList(m, l, Ptr(g, arena, n)), g, arena, lists, l, n)
  {
    LinkPtrs(g, arena, lists, l, n);
    AddRefinesPrepend(m, Ptrs(g, arena, lists), l, Ptr(g, arena, n));
  }

  // Live memory

  /** Every granule of the blocks `U` has the same content in both memories. */
  ghost predicate Kept(m: Memory, m': Memory, g: Geometry, arena: nat, U: set<nat>)
    requires g.Valid() && forall u :: u in U ==> g.Node(u)
  {
    && m.SameShape(m')
    && forall u, q :: u in U && q in m.back && q in m.next && (NodeLevel(g, u); Inside(g, arena, u, q)) ==>
         m'.next[q] == m.next[q] && m'.back[q] == m.back[q]
  }

  lemma KeptTrans(m: Memory, m1: Memory, m2: Memory, g: Geometry, arena: nat, U: set<nat>)
    requires g.Valid() && forall u :: u in U ==> g.Node(u)
    requires Kept(m, m1, g, arena, U) && Kept(m1, m2, g, arena, U)
    ensures Kept(m, m2, g, arena, U)
  {
  }

  /** Writing headers of free blocks touches no live block. */
  lemma HeadersKeepLive(m: Memory, m': Memory, h: Heap, arena: nat)
    requires h.Inv() && SameOutside(m, m', Addrs(FreePtrs(h, arena)))
    ensures Kept(m, m', h.g, arena, h.live)
  {
    forall u, q | u in h.live && q in m.back && q in m.next && (NodeLevel(h.g, u); Inside(h.g, arena, u, q))
      ensures m'.next[q] == m.next[q] && m'.back[q] == m.back[q]
    {
      NodeLevel(h.g, u);
      if q in Addrs(FreePtrs(h, arena)) {
        HeaderInBlock(h, arena, u, q);
        assert false;
      }
    }
  }

  /** Whatever happens inside one live block, the heap stays represented. */
  lemma LiveWriteRepresents(m: Memory, m': Memory, h: Heap, arena: nat, n: nat)
    requires Represents(m, h, arena) && n in h.live && Level(n) <= h.g.k && m.SameShape(m')
    requires forall l :: 0 <= l < |m.slots| ==> m.slots[l] in m'.next && m'.next[m.slots[l]] == m.next[m.slots[l]]
    requires forall q :: q in m.back && q in m.next && !Inside(h.g, arena, n, q) ==>
               m'.next[q] == m.next[q] && m'.back[q] == m.back[q]
    ensures Represents(m', h, arena)
    ensures Kept(m, m', h.g, arena, h.live - {n})
  {
    hide Linked, Holds, Addrs, PtrList, Level, Pow2, Covers, Antichain, CoversLeaves;
    SpansShape(m, m', h.g, arena);
    WriteLinked(m, m', h, arena, n);
    WriteQuiet(m, m', h, arena, n);
    forall u, q | u in h.live - {n} && q in m.back && q in m.next && (NodeLevel(h.g, u); Inside(h.g, arena, u, q))
      ensures m'.next[q] == m.next[q] && m'.back[q] == m.back[q]
    {
      NodeLevel(h.g, u);
      if Inside(h.g, arena, n, q) {
        OneBlockPerAddress(h, arena, u, n, q);
        assert false;
      }
    }
  }

  lemma WriteLinked(m: Memory, m': Memory, h: Heap, arena: nat, n: nat)
    requires Represents(m, h, arena) && n in h.live && Level(n) <= h.g.k && m.SameShape(m')
    requires forall l :: 0 <= l < |m.slots| ==> m.slots[l] in m'.next && m'.next[m.slots[l]] == m.next[m.slots[l]]
    requires forall q :: q in m.back && q in m.next && !Inside(h.g, arena, n, q) ==>
               m'.next[q] == m.next[q] && m'.back[q] == m.back[q]
    ensures Linked(m', FreePtrs(h, arena))
  {
    hide Holds, PtrList, Level, Pow2, Quiet, Covers, Antichain, CoversLeaves, Inside;
    var P := FreePtrs(h, arena);
    forall l | 0 <= l < |P|
      ensures Granules(m', P[l]) && Chain(m', l, P[l])
    {
      forall i | 0 <= i < |P[l]|
        ensures !Inside(h.g, arena, n, P[l][i])
      {
        assert P[l][i] in Addrs(P);
        LiveNoHeader(h, arena, n, P[l][i]);
      }
      ChainFrame(m, m', l, P[l]);
    }
  }

  lemma LiveNoHeader(h: Heap, arena: nat, n: nat, q: nat)
    requires h.Inv() && n in h.live && Level(n) <= h.g.k && q in Addrs(FreePtrs(h, arena))
    ensures !Inside(h.g, arena, n, q)
  {
    if Inside(h.g, arena, n, q) {
      HeaderInBlock(h, arena, n, q);
      assert false;
    }
  }

  lemma WriteQuiet(m: Memory, m': Memory, h: Heap, arena: nat, n: nat)
    requires h.Inv() && Quiet(m, h, arena) && n in h.live && Level(n) <= h.g.k && m.SameShape(m') && m.Valid()
    requires forall q :: q in m.back && q in m.next && !Inside(h.g, arena, n, q) ==>
               m'.next[q] == m.next[q] && m'.back[q] == m.back[q]
    ensures Quiet(m', h, arena)
  {
    forall q | q in m'.back && q !in Addrs(FreePtrs(h, arena)) && !InLive(h, arena, q)
      ensures Zero(m', q)
    {
      assert Zero(m, q);
      assert !Inside(h.g, arena, n, q);
    }
  }

  // One round of splitting

  /** The second half of the block at the head of list `l` carries no header yet. */
  lemma SplitAddresses(h: Heap, arena: nat, l: nat)
    requires h.Inv() && l + 1 < |h.lists| && h.lists[l] != []
    ensures var n := h.lists[l][0];
            && n >= 1 && n in h.Free() && Level(n) == l && l + 1 <= h.g.k
            && h.g.Node(2 * n) && h.g.Node(2 * n + 1)
            && Level(2 * n) == l + 1 && Level(2 * n + 1) == l + 1
            && 2 * n !in h.table && 2 * n + 1 !in h.table
            && Ptr(h.g, arena, 2 * n) == Ptr(h.g, arena, n)
            && Ptr(h.g, arena, 2 * n + 1) == Ptr(h.g, arena, n) + h.g.SizeAt(l + 1)
            && Ptr(h.g, arena, 2 * n + 1) !in Addrs(FreePtrs(h, arena))
  {
    hide Holds, PtrList, Addrs, Covers, Antichain, CoversLeaves, Pow2;
    HeadIsFree(h, l);
    var n := h.lists[l][0];
    NodeLevel(h.g, n);
    ChildNode(h.g, n);
    SplitTiles(h.g, h.table, n);
    Halves(h.g, n);
    var q := Ptr(h.g, arena, 2 * n + 1);
    if q in Addrs(FreePtrs(h, arena)) {
      HeaderInBlock(h, arena, n, q);
      assert false;
    }
  }

  /** The split loop's list operations turn a represented heap into the split one. */
  lemma SplitRepresents(m: Memory, m1: Memory, m2: Memory, m3: Memory, h: Heap, arena: nat, l: nat,
                        n: nat, L1: seq<seq<nat>>, L2: seq<seq<nat>>)
    requires Represents(m, h, arena) && l + 1 < |h.lists| && h.lists[l] != [] && n == h.lists[l][0]
    requires AllNodes(h.g, h.lists) && Unlinks(m, m1, h.g, arena, h.lists, l, n)
    requires L1 == Unlink(h.lists, l, n) && AllNodes(h.g, L1)
    requires h.g.Node(2 * n) && Links(m1, m2, h.g, arena, L1, l + 1, 2 * n)
    requires L2 == Link(L1, l + 1, 2 * n) && AllNodes(h.g, L2)
    requires h.g.Node(2 * n + 1) && Links(m2, m3, h.g, arena, L2, l + 1, 2 * n + 1)
    ensures Represents(m3, SplitHead(h, l), arena)
    ensures Kept(m, m3, h.g, arena, h.live)
  {
    hide Linked, Tiles, Holds, PtrList, Addrs, IndexOf, Without, AllNodes, NodesOnly;
    SplitHeadInv(h, l);
    SplitAddresses(h, arena, l);
    HeadAddress(h, arena, l);
    var S, p, p' := Addrs(FreePtrs(h, arena)), Ptr(h.g, arena, n), Ptr(h.g, arena, 2 * n + 1);
    assert Addrs(Ptrs(h.g, arena, L1)) == S - {p};
    assert Addrs(Ptrs(h.g, arena, L2)) == S - {p} + {p};
    hide Unlink, Link, SameOutside, Ptr;
    ThreeFrames(m, m1, m2, m3, S, p, p');
    SpansShape(m, m3, h.g, arena);
    QuietGrows(m, m3, h, SplitHead(h, l), arena);
    HeadersKeepLive(m, m3, SplitHead(h, l), arena);
  }

  lemma ThreeFrames(m: Memory, m1: Memory, m2: Memory, m3: Memory, S: set<nat>, p: nat, p': nat)
    requires m.Valid() && p in S
    requires SameOutside(m, m1, S) && SameOutside(m1, m2, S - {p} + {p}) && SameOutside(m2, m3, S - {p} + {p} + {p'})
    ensures S - {p} + {p} + {p'} == S + {p'}
    ensures SameOutside(m, m3, S + {p'})
  {
    assert S - {p} + {p} == S;
  }

  lemma HeadAddress(h: Heap, arena: nat, l: nat)
    requires h.Inv() && l < |h.lists| && h.lists[l] != []
    ensures h.lists[l][0] >= 1 && Level(h.lists[l][0]) <= h.g.k
    ensures Ptr(h.g, arena, h.lists[l][0]) in Addrs(FreePtrs(h, arena))
  {
    ListsAreNodes(h);
    assert FreePtrs(h, arena)[l] == PtrList(h.g, arena, h.lists[l]);
    assert FreePtrs(h, arena)[l][0] in Addrs(FreePtrs(h, arena));
  }

  /** Silence survives when the headers only grow and the live blocks stay. */
  lemma QuietGrows(m: Memory, m': Memory, h: Heap, h': Heap, arena: nat)
    requires h.Inv() && h'.Inv() && h'.g == h.g && h'.live == h.live && m.Valid()
    requires Quiet(m, h, arena)
    requires Addrs(FreePtrs(h, arena)) <= Addrs(FreePtrs(h', arena))
    requires SameOutside(m, m', Addrs(FreePtrs(h', arena)))
    ensures Quiet(m', h', arena)
  {
    forall q | q in m'.back && q !in Addrs(FreePtrs(h', arena)) && !InLive(h', arena, q)
      ensures Zero(m', q)
    {
      assert !InLive(h, arena, q);
      assert Zero(m, q);
    }
  }

  /** `memset(p, 0, sizeof(SH_LIST))` */
  function ZeroHeader(m: Memory, p: nat): Memory {
    m.(next := m.next[p := 0], back := m.back[p := 0])
  }

  lemma ZeroHeaderFrame(m: Memory, p: nat)
    requires m.Valid() && p in m.back
    ensures ZeroHeader(m, p).Valid() && Zero(ZeroHeader(m, p), p)
    ensures SameOutside(m, ZeroHeader(m, p), {p})
    ensures forall l :: 0 <= l < |m.slots| ==> ZeroHeader(m, p).next[m.slots[l]] == m.next[m.slots[l]]
  {
  }

  /** Lists survive zeroing a granule that none of them uses. */
  lemma ZeroHeaderLinked(m: Memory, P: seq<seq<nat>>, p: nat)
    requires Linked(m, P) && p in m.back && p !in Addrs(P)
    ensures Linked(ZeroHeader(m, p), P)
  {
    ZeroHeaderFrame(m, p);
    forall l | 0 <= l < |P|
      ensures Granules(ZeroHeader(m, p), P[l]) && Chain(ZeroHeader(m, p), l, P[l])
    {
      forall i | 0 <= i < |P[l]|
        ensures P[l][i] != p
      {
        assert P[l][i] in Addrs(P);
      }
      ChainFrame(m, ZeroHeader(m, p), l, P[l]);
    }
  }

  // Handing a block out

  /** The block handed out is all zero and the rest of the heap stays represented. */
  lemma TakeRepresents(m: Memory, m1: Memory, h: Heap, arena: nat, l: nat)
    requires Represents(m, h, arena) && l < |h.lists| && h.lists[l] != []
    requires AllNodes(h.g, h.lists) && Unlinks(m, m1, h.g, arena, h.lists, l, h.lists[l][0])
    ensures h.lists[l][0] >= 1 && Level(h.lists[l][0]) <= h.g.k
    ensures var n := h.lists[l][0];
            var m' := ZeroHeader(m1, Ptr(h.g, arena, n));
            && Represents(m', TakeHead(h, l), arena)
            && Kept(m, m', h.g, arena, h.live)
            && forall q :: q in m'.back && Inside(h.g, arena, n, q) ==> Zero(m', q)
  {
    TakeHeadInv(h, l);
    HeadAddress(h, arena, l);
    var n := h.lists[l][0];
    var g, p, h', S := h.g, Ptr(h.g, arena, n), TakeHead(h, l), Addrs(FreePtrs(h, arena));
    BlockGranule(g, n);
    ZeroHeaderFrame(m1, p);
    ZeroHeaderLinked(m1, FreePtrs(h', arena), p);
    var m' := ZeroHeader(m1, p);
    SameOutsideTrans(m, m1, m', S, {p}, S);
    SpansShape(m, m', g, arena);
    HeadersKeepLive(m, m', h, arena);
    forall q | q in m'.back && Inside(g, arena, n, q)
      ensures Zero(m', q)
    {
      FreeBlockUnowned(h, arena, n, q);
      if q != p { assert Zero(m, q); }
    }
    forall q | q in m'.back && q !in Addrs(FreePtrs(h', arena)) && !InLive(h', arena, q)
      ensures Zero(m', q)
    {
      LiveGrows(h, h', arena, q);
      if q != p { assert Zero(m, q); }
    }
  }

  /** Inside a free block nothing is live and nothing but its own header is linked. */
  lemma FreeBlockUnowned(h: Heap, arena: nat, n: nat, q: nat)
    requires h.Inv() && n in h.Free() && Level(n) <= h.g.k && Inside(h.g, arena, n, q)
    ensures !InLive(h, arena, q)
    ensures q in Addrs(FreePtrs(h, arena)) ==> q == Ptr(h.g, arena, n)
  {
    if InLive(h, arena, q) {
      var u :| u in h.live && (NodeLevel(h.g, u); Inside(h.g, arena, u, q));
      NodeLevel(h.g, u);
      OneBlockPerAddress(h, arena, u, n, q);
      assert false;
    }
    if q in Addrs(FreePtrs(h, arena)) {
      HeaderInBlock(h, arena, n, q);
    }
  }

  lemma LiveGrows(h: Heap, h': Heap, arena: nat, q: nat)
    requires h.Inv() && h'.Inv() && h'.g == h.g && h.live <= h'.live
    ensures InLive(h, arena, q) ==> InLive(h', arena, q)
  {
    if InLive(h, arena, q) {
      var u :| u in h.live && (NodeLevel(h.g, u); Inside(h.g, arena, u, q));
      NodeLevel(h'.g, u);
    }
  }

  // Taking a block back

  /** A live block carries no header. */
  lemma LiveNotLinked(h: Heap, arena: nat, n: nat)
    requires h.Inv() && n in h.live
    ensures n >= 1 && Level(n) <= h.g.k
    ensures Ptr(h.g, arena, n) !in Addrs(FreePtrs(h, arena))
  {
    BlockGranule(h.g, n);
    var q := Ptr(h.g, arena, n);
    if q in Addrs(FreePtrs(h, arena)) {
      HeaderInBlock(h, arena, n, q);
      assert false;
    }
  }

  /** A wiped block goes back on its list without leaving anything behind. */
  lemma ReleaseRepresents(m: Memory, m1: Memory, h: Heap, arena: nat, n: nat)
    requires Represents(m, h, arena) && n in h.live && AllNodes(h.g, h.lists)
    requires Level(n) <= h.g.k && Level(n) < |h.lists|
    requires forall q :: q in m.back && Inside(h.g, arena, n, q) ==> Zero(m, q)
    requires Links(m, m1, h.g, arena, h.lists, Level(n), n)
    ensures Represents(m1, Release(h, n), arena)
    ensures Kept(m, m1, h.g, arena, h.live - {n})
  {
    ReleaseInv(h, n);
    hide Linked, Tiles, Holds, PtrList, Addrs;
    var h' := Release(h, n);
    SpansShape(m, m1, h.g, arena);
    HeadersKeepLive(m, m1, h', arena);
    forall q | q in m1.back && q !in Addrs(FreePtrs(h', arena)) && !InLive(h', arena, q)
      ensures Zero(m1, q)
    {
      if InLive(h, arena, q) {
        OnlyLiveOwner(h, h', arena, n, q);
      }
      assert Zero(m, q);
    }
  }

  lemma OnlyLiveOwner(h: Heap, h': Heap, arena: nat, n: nat, q: nat)
    requires h.Inv() && h'.Inv() && h'.g == h.g && h'.live == h.live - {n} && n in h.live
    requires Level(n) <= h.g.k && InLive(h, arena, q) && !InLive(h', arena, q)
    ensures Inside(h.g, arena, n, q)
  {
    var u :| u in h.live && (NodeLevel(h.g, u); Inside(h.g, arena, u, q));
    NodeLevel(h.g, u);
    if u != n {
      assert false;
    }
  }

  // One round of coalescing

  lemma BuddyNodes(g: Geometry, n: nat)
    requires g.Valid() && g.Node(n) && n >= 2
    ensures g.Node(Buddy(n)) && g.Node(n / 2)
    ensures 1 <= Level(n) <= g.k && Level(Buddy(n)) == Level(n) && Level(n / 2) == Level(n) - 1
  {
    NodeLevel(g, n);
    BuddyNode(g, n);
    BuddyParent(n);
  }

  /** Buddies start at their parent's address and half way through it. */
  lemma BuddyPtrs(g: Geometry, arena: nat, n: nat)
    requires n >= 2 && Buddy(n) >= 2
    requires 1 <= Level(n) <= g.k && Level(Buddy(n)) == Level(n) && Level(n / 2) == Level(n) - 1
    ensures var a, b, p, s := Ptr(g, arena, n), Ptr(g, arena, Buddy(n)), Ptr(g, arena, n / 2), g.SizeAt(Level(n));
            if n % 2 == 0 then a == p && b == p + s else b == p && a == p + s
  {
    Halves(g, n / 2);
  }

  /** Two unlinks, a wipe and a link: the lists after one round of coalescing. */
  lemma MergeLinks(m: Memory, m1: Memory, m2: Memory, m4: Memory, g: Geometry, arena: nat, l: nat, n: nat, b: nat,
                   hi: nat, lists: seq<seq<nat>>, L1: seq<seq<nat>>, L2: seq<seq<nat>>)
    requires g.Valid() && AllNodes(g, lists) && AllNodes(g, L1) && AllNodes(g, L2) && m.Valid()
    requires 1 <= l < |lists| && n in lists[l] && L1 == Unlink(lists, l, n) && b in L1[l] && L2 == Unlink(L1, l, b)
    requires Unlinks(m, m1, g, arena, lists, l, n) && Unlinks(m1, m2, g, arena, L1, l, b)
    requires g.Node(n / 2) && Links(ZeroHeader(m2, hi), m4, g, arena, L2, l - 1, n / 2)
    requires n >= 2 && b >= 1 && Level(n) <= g.k && Level(b) <= g.k && Level(n / 2) <= g.k && hi in m.back
    requires var S, x, y, lo := Addrs(Ptrs(g, arena, lists)), Ptr(g, arena, n), Ptr(g, arena, b), Ptr(g, arena, n / 2);
             x in S && y in S && x != y && ((lo == x && hi == y) || (lo == y && hi == x))
    ensures var S, L := Addrs(Ptrs(g, arena, lists)), Link(L2, l - 1, n / 2);
            && AllNodes(g, L) && Linked(m4, Ptrs(g, arena, L)) && Addrs(Ptrs(g, arena, L)) == S - {hi}
            && SameOutside(m, m4, S) && Zero(m4, hi)
  {
    hide Linked, PtrList, Addrs, Ptr, Level, SameOutside, ZeroHeader, Zero, AllNodes;
    LinkPtrs(g, arena, L2, l - 1, n / 2);
    FourFrames(m, m1, m2, m4, Addrs(Ptrs(g, arena, lists)),
               Ptr(g, arena, n), Ptr(g, arena, b), Ptr(g, arena, n / 2), hi);
  }

  /** The coalescing loop's list operations and wipe turn a represented heap into the merged one. */
  lemma MergeRepresents(m: Memory, m1: Memory, m2: Memory, m4: Memory, h: Heap, arena: nat,
                        n: nat, l: nat, hi: nat, L1: seq<seq<nat>>, L2: seq<seq<nat>>)
    requires Represents(m, h, arena) && n >= 2 && n in h.Free() && Buddy(n) in h.Free()
    requires 1 <= l == Level(n) < |h.lists| && AllNodes(h.g, h.lists) && AllNodes(h.g, L1) && AllNodes(h.g, L2)
    requires n in h.lists[l] && L1 == Unlink(h.lists, l, n) && Buddy(n) in L1[l] && L2 == Unlink(L1, l, Buddy(n))
    requires Unlinks(m, m1, h.g, arena, h.lists, l, n) && Unlinks(m1, m2, h.g, arena, L1, l, Buddy(n))
    requires h.g.Node(n / 2) && Level(n / 2) <= h.g.k && l <= h.g.k
    requires hi == Ptr(h.g, arena, n / 2) + h.g.SizeAt(l)
    requires Links(ZeroHeader(m2, hi), m4, h.g, arena, L2, l - 1, n / 2)
    ensures Represents(m4, MergeUp(h, n), arena)
    ensures Kept(m, m4, h.g, arena, h.live)
  {
    hide Linked, Tiles, Holds, PtrList, Addrs, Links, Unlinks, Level, AllNodes, IndexOf, Without;
    MergeUpInv(h, n);
    TableNode(h, n);
    BuddyNodes(h.g, n);
    BuddyPtrs(h.g, arena, n);
    BlockGranule(h.g, n);
    BlockGranule(h.g, Buddy(n));
    FreeAddress(h, arena, n);
    FreeAddress(h, arena, Buddy(n));
    MergeLinks(m, m1, m2, m4, h.g, arena, l, n, Buddy(n), hi, h.lists, L1, L2);
    SpansShape(m, m4, h.g, arena);
    QuietShrinks(m, m4, h, MergeUp(h, n), arena, hi);
    HeadersKeepLive(m, m4, h, arena);
  }

  lemma FreeAddress(h: Heap, arena: nat, n: nat)
    requires h.Inv() && n in h.Free()
    ensures n >= 1 && Level(n) <= h.g.k && Ptr(h.g, arena, n) in Addrs(FreePtrs(h, arena))
  {
    NodeLevel(h.g, n);
    ListsAreNodes(h);
    var l, P := Level(n), FreePtrs(h, arena);
    assert Enumerates(h.lists[l], h.Free(), l);
    assert n in h.lists[l];
    var i :| 0 <= i < |h.lists[l]| && h.lists[l][i] == n;
    assert P[l] == PtrList(h.g, arena, h.lists[l]);
    assert P[l][i] in Addrs(P);
  }

  lemma FourFrames(m: Memory, m1: Memory, m2: Memory, m4: Memory, S: set<nat>, a: nat, b: nat, lo: nat, hi: nat)
    requires m.Valid() && a in S && b in S && a != b && hi in m.back
    requires (lo == a && hi == b) || (lo == b && hi == a)
    requires SameOutside(m, m1, S) && SameOutside(m1, m2, S - {a})
    requires SameOutside(ZeroHeader(m2, hi), m4, S - {a} - {b} + {lo})
    ensures S - {a} - {b} + {lo} == S - {hi}
    ensures SameOutside(m, m4, S) && Zero(m4, hi)
  {
    ZeroHeaderFrame(m2, hi);
  }

  /** Silence survives when one header is wiped and dropped. */
  lemma QuietShrinks(m: Memory, m': Memory, h: Heap, h': Heap, arena: nat, hi: nat)
    requires h.Inv() && h'.Inv() && h'.g == h.g && h'.live == h.live && m.Valid()
    requires Quiet(m, h, arena)
    requires Addrs(FreePtrs(h', arena)) == Addrs(FreePtrs(h, arena)) - {hi}
    requires SameOutside(m, m', Addrs(FreePtrs(h, arena))) && Zero(m', hi)
    ensures Quiet(m', h', arena)
  {
    forall q | q in m'.back && q !in Addrs(FreePtrs(h', arena)) && !InLive(h', arena, q)
      ensures Zero(m', q)
    {
      if q != hi {
        assert !InLive(h, arena, q);
        assert Zero(m, q);
      }
    }
  }

  // What the code reads off the representation

  /** `(bit & ((1 << level) - 1)) * (arena_size >> level)` is the offset of a block. */
  lemma OffFromBit(g: Geometry, n: nat)
    requires n >= 1 && Level(n) <= g.k
    ensures n % Pow2(Level(n)) * g.Size(n) == g.Off(n)
  {
    OffClosed(g, n);
    LevelBounds(n);
    DivModUnique(n, Pow2(Level(n)), 1, n - Pow2(Level(n)));
  }

  /** The bit and offset arithmetic of `sh_find_my_buddy`. */
  lemma BuddyArithmetic(g: Geometry, n: nat)
    requires g.Valid() && g.Node(n) && Level(n) <= g.k
    ensures Xor(n, 1) == Buddy(n) < g.Bits()
    ensures n >= 2 ==>
              && Buddy(n) >= 2 && Level(Buddy(n)) == Level(n)
              && And(Buddy(n), Pow2(Level(n)) - 1) * g.Size(n) == g.Off(Buddy(n))
  {
    hide Pow2, Xor, And, Level;
    XorOneIsBuddy(n);
    BitsEven(g);
    if n >= 2 {
      BuddyParent(n);
      MaskedOff(g, Buddy(n));
    }
  }

  lemma MaskedOff(g: Geometry, b: nat)
    requires b >= 1 && Level(b) <= g.k
    ensures And(b, Pow2(Level(b)) - 1) * g.Size(b) == g.Off(b)
  {
    hide Pow2, And, Level;
    AndMask(b, Level(b));
    OffFromBit(g, b);
  }

  lemma BitsEven(g: Geometry)
    requires g.Valid()
    ensures g.Bits() == 2 * Pow2(g.Levels() - 1)
  {
  }

  /** `sh.freelist[l]` is NULL for an empty list and otherwise the address of its first block. */
  lemma ReadHead(m: Memory, h: Heap, arena: nat, l: nat)
    requires Represents(m, h, arena) && l < |h.lists|
    ensures l < |m.slots| && m.slots[l] in m.next
    ensures m.next[m.slots[l]] == 0 <==> h.lists[l] == []
    ensures h.lists[l] != [] ==>
              && h.lists[l][0] >= 1 && Level(h.lists[l][0]) <= h.g.k
              && m.next[m.slots[l]] == Ptr(h.g, arena, h.lists[l][0])
  {
    ListsAreNodes(h);
    ListHead(m, FreePtrs(h, arena), l);
    assert FreePtrs(h, arena)[l] == PtrList(h.g, arena, h.lists[l]);
  }

  /** After an unlink, the list head no longer names the unlinked block. */
  lemma HeadChanged(m: Memory, g: Geometry, arena: nat, lists: seq<seq<nat>>, l: nat, p: nat)
    requires g.Valid() && AllNodes(g, lists) && l < |lists|
    requires Linked(m, Ptrs(g, arena, lists)) && p != 0 && p !in Addrs(Ptrs(g, arena, lists))
    ensures m.slots[l] in m.next && m.next[m.slots[l]] != p
  {
    var P := Ptrs(g, arena, lists);
    ListHead(m, P, l);
    if P[l] != [] {
      assert P[l][0] in Addrs(P);
    }
  }

  /** After a link, the list head names the linked block. */
  lemma HeadLinked(m: Memory, g: Geometry, arena: nat, lists: seq<seq<nat>>, l: nat, n: nat)
    requires g.Valid() && AllNodes(g, lists) && l < |lists| && lists[l] != [] && lists[l][0] == n
    requires Linked(m, Ptrs(g, arena, lists))
    ensures n >= 1 && Level(n) <= g.k
    ensures m.slots[l] in m.next && m.next[m.slots[l]] == Ptr(g, arena, n)
  {
    ListHead(m, Ptrs(g, arena, lists), l);
    assert Ptrs(g, arena, lists)[l] == PtrList(g, arena, lists[l]);
  }

  /** `p` is the address of the block of `n`, which has level `l`. */
  predicate Block(g: Geometry, arena: nat, p: nat, l: nat, n: nat) {
    g.Valid() && g.Node(n) && Level(n) == l < g.Levels() && l <= g.k && p == Ptr(g, arena, n)
  }

  /** `p` is on one of the free lists of `h`. */
  ghost predicate OnList(h: Heap, arena: nat, p: nat) {
    h.Inv() && p in Addrs(FreePtrs(h, arena))
  }

  /** What the code finds at the head of a non-empty list. */
  lemma HeadView(m: Memory, h: Heap, arena: nat, l: nat)
    requires Represents(m, h, arena) && l < |h.lists| && h.lists[l] != []
    ensures l < |m.slots| && m.slots[l] in m.next
    ensures var n, p := h.lists[l][0], m.next[m.slots[l]];
            && Block(h.g, arena, p, l, n) && p in m.back && OnList(h, arena, p)
            && n in h.table && n !in h.live && n in h.lists[l] && p != 0
    ensures 0 !in h.table
  {
    hide Linked, Quiet, Holds, Covers, Antichain, CoversLeaves, PtrList, Addrs;
    HeadIsFree(h, l);
    NodeLevel(h.g, h.lists[l][0]);
    ReadHead(m, h, arena, l);
    HeadAddress(h, arena, l);
    BlockGranule(h.g, h.lists[l][0]);
  }

  /** Where the split loop finds the two halves of the head of list `l`. */
  lemma HalvesView(m: Memory, h: Heap, arena: nat, l: nat, n: nat, p: nat)
    requires Represents(m, h, arena) && l + 1 < |h.lists| && h.lists[l] != []
    requires n == h.lists[l][0] && Block(h.g, arena, p, l, n)
    ensures var p' := p + Shr(h.g.ArenaSize(), l + 1);
            && Block(h.g, arena, p, l + 1, 2 * n) && Block(h.g, arena, p', l + 1, 2 * n + 1)
            && p' in m.back && !OnList(h, arena, p')
    ensures 2 * n !in h.table && 2 * n + 1 !in h.table
  {
    hide Linked, Quiet, Holds, Covers, Antichain, CoversLeaves, PtrList, Addrs;
    SplitAddresses(h, arena, l);
    ShrPow2(h.g.k, l + 1);
    BlockGranule(h.g, 2 * n + 1);
    hide Level, Pow2, Shr;
  }

  /** A block, its buddy and their parent, as the coalescing loop addresses them. */
  lemma BuddyBlocks(g: Geometry, arena: nat, n: nat, l: nat, p: nat, b: nat)
    requires n >= 2 && Block(g, arena, p, l, n)
    requires Level(Buddy(n)) <= g.k && b == Ptr(g, arena, Buddy(n))
    ensures l >= 1 && p != b && Block(g, arena, b, l, Buddy(n))
    ensures Block(g, arena, if p > b then b else p, l - 1, n / 2)
    ensures (if p > b then p else b) == (if p > b then b else p) + g.SizeAt(l)
  {
    BuddyNodes(g, n);
    BuddyPtrs(g, arena, n);
    NodeLevel(g, n / 2);
  }

  /** A free block is on its list and its header is a granule. */
  lemma FreeView(m: Memory, h: Heap, arena: nat, n: nat, l: nat, p: nat)
    requires Represents(m, h, arena) && n in h.Free() && Block(h.g, arena, p, l, n)
    ensures p in m.back && p != 0 && OnList(h, arena, p) && l < |h.lists| && n in h.lists[l]
  {
    hide Linked, Quiet, Covers, Antichain, CoversLeaves, PtrList, Addrs;
    BlockGranule(h.g, n);
    FreeAddress(h, arena, n);
    assert Enumerates(h.lists[l], h.Free(), l);
  }

  /** The parent of two free buddies is not in the table. */
  lemma ParentView(h: Heap, n: nat, l: nat)
    requires h.Inv() && n >= 2 && n in h.Free() && Buddy(n) in h.Free()
    requires l == Level(n) < |h.lists| && n in h.lists[l] && Buddy(n) in h.lists[l]
    ensures n / 2 !in h.table && 0 !in h.table
    ensures Buddy(n) in Unlink(h.lists, l, n)[l]
  {
    hide Covers, Antichain, CoversLeaves, Holds;
    WithoutKeeps(h.lists[l], n, Buddy(n));
    MergeTiles(h.g, h.table, n / 2);
  }

  /** With nothing live, every cell is determined: one header at the start of the arena, zero elsewhere. */
  lemma EmptyMemory(m: Memory, h: Heap, arena: nat)
    requires Represents(m, h, arena) && h == Init(h.g)
    ensures forall l :: 0 <= l < |m.slots| ==> m.next[m.slots[l]] == if l == 0 then arena else 0
    ensures forall q :: q in m.back ==>
              && q in m.next && m.next[q] == 0
              && m.back[q] == if q == arena then m.slots[0] else 0
  {
    ListsAreNodes(h);
    var P := FreePtrs(h, arena);
    assert h.g.Off(1) == 0 && Level(1) == 0;
    assert P[0] == PtrList(h.g, arena, [1]) && P[0] == [arena];
    forall l | 0 <= l < |m.slots|
      ensures m.next[m.slots[l]] == (if l == 0 then arena else 0) && (l > 0 ==> P[l] == [])
    {
      ReadHead(m, h, arena, l);
      assert P[l] == PtrList(h.g, arena, h.lists[l]);
    }
    HeaderAt(m, P, 0, 0);
    assert Addrs(P) == {arena};
    forall q | q in m.back
      ensures q in m.next && m.next[q] == 0 && m.back[q] == if q == arena then m.slots[0] else 0
    {
      if q != arena {
        assert !InLive(h, arena, q);
        assert Zero(m, q);
      }
    }
  }
}
