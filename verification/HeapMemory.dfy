/**
  The cells that the free lists live in.  A free block carries an `SH_LIST` in
  its first 16 bytes, so the 16-byte granule at address `p` is read as the pair
  `p->next`, `p->p_next`.  A `next` cell is also what a list head is, and
  `p_next` holds the address of whichever `next` cell points at the block.
*/
module HeapMemory {

  /** An 8-byte word; 0 is NULL. */
  type Word = n: nat | n < 0x1_0000_0000_0000_0000

  /**
    `next` maps the address of every `next` cell to its content: the list heads
    `slots[0..]` and the first word of every granule of the arena.  `back` maps
    the address of every granule to its second word.
  */
  datatype Memory = Memory(slots: seq<nat>, next: map<nat, nat>, back: map<nat, nat>) {

    /** List heads are distinct cells outside the arena, and NULL is no cell. */
    ghost predicate Valid() {
      && (forall l :: 0 <= l < |slots| ==> slots[l] in next && slots[l] !in back)
      && (forall l, k :: 0 <= l < k < |slots| ==> slots[l] != slots[k])
      && back.Keys <= next.Keys
      && 0 !in next
    }

    ghost predicate SameShape(m: Memory) {
      m.slots == slots && m.next.Keys == next.Keys && m.back.Keys == back.Keys
    }
  }

  /** Address of the cell that points at element `i` of list `l`. */
  function Cell(m: Memory, l: nat, s: seq<nat>, i: nat): nat
    requires l < |m.slots| && i <= |s|
  {
    if i == 0 then m.slots[l] else s[i - 1]
  }

  /** Address of element `i`, or NULL past the end. */
  function At(s: seq<nat>, i: nat): nat {
    if i < |s| then s[i] else 0
  }

  ghost predicate Granules(m: Memory, s: seq<nat>) {
    forall i :: 0 <= i < |s| ==> s[i] in m.back
  }

  /** List `l` is `s`: `next` leads forward and every `p_next` names the cell that points here. */
  ghost predicate Chain(m: Memory, l: nat, s: seq<nat>)
    requires m.Valid() && l < |m.slots| && Granules(m, s)
  {
    && (forall i :: 0 <= i <= |s| ==> m.next[Cell(m, l, s, i)] == At(s, i))
    && (forall i :: 0 <= i < |s| ==> m.back[s[i]] == Cell(m, l, s, i))
  }

  /** No address occurs twice, within a list or across lists. */
  ghost predicate Distinct(P: seq<seq<nat>>) {
    forall l, i, k, j :: 0 <= l < |P| && 0 <= i < |P[l]| && 0 <= k < |P| && 0 <= j < |P[k]| && (l != k || i != j) ==>
      P[l][i] != P[k][j]
  }

  /** The memory holds exactly the lists `P`. */
  ghost predicate Linked(m: Memory, P: seq<seq<nat>>) {
    && m.Valid() && |P| == |m.slots|
    && Distinct(P)
    && (forall l :: 0 <= l < |P| ==> Granules(m, P[l]) && Chain(m, l, P[l]))
  }

  /** The addresses that occur in the lists. */
  ghost function Addrs(P: seq<seq<nat>>): set<nat> {
    set l, i | 0 <= l < |P| && 0 <= i < |P[l]| :: P[l][i]
  }

  /** `m'` differs from `m` only in list heads and in the granules `S`. */
  ghost predicate SameOutside(m: Memory, m': Memory, S: set<nat>) {
    && m.SameShape(m')
    && forall q :: q in m.back && q in m.next && q !in S ==> m'.next[q] == m.next[q] && m'.back[q] == m.back[q]
  }

  /** The stores of `sh_add_to_list`, in order. */
  function AddToList(m: Memory, l: nat, p: nat): Memory
    requires l < |m.slots| && m.slots[l] in m.next
  {
    var next := m.next[m.slots[l]];
    var m1 := m.(next := m.next[p := next]);
    var m2 := m1.(back := m1.back[p := m.slots[l]]);
    var m3 := if next == 0 then m2 else m2.(back := m2.back[next := p]);
    m3.(next := m3.next[m.slots[l] := p])
  }

  /** The stores of `sh_remove_from_list`, in order. */
  function RemoveFromList(m: Memory, p: nat): Memory
    requires p in m.next && p in m.back
  {
    var m1 := if m.next[p] == 0 then m else m.(back := m.back[m.next[p] := m.back[p]]);
    m1.(next := m1.next[m1.back[p] := m1.next[p]])
  }

  /** A chain survives changes outside its own cells. */
  lemma ChainFrame(m: Memory, m': Memory, l: nat, s: seq<nat>)
    requires m.SameShape(m') && m.Valid() && l < |m.slots| && Granules(m, s) && Chain(m, l, s)
    requires m'.next[m.slots[l]] == m.next[m.slots[l]]
    requires forall i :: 0 <= i < |s| ==> m'.next[s[i]] == m.next[s[i]] && m'.back[s[i]] == m.back[s[i]]
    ensures m'.Valid() && Granules(m', s) && Chain(m', l, s)
  {
    forall i | 0 <= i <= |s|
      ensures m'.next[Cell(m', l, s, i)] == At(s, i)
    {
      assert m.next[Cell(m, l, s, i)] == At(s, i);
    }
  }

  // sh_add_to_list refines prepend

  /** The cells `sh_add_to_list` writes. */
  lemma AddCells(m: Memory, l: nat, s: seq<nat>, p: nat)
    requires m.Valid() && l < |m.slots| && Granules(m, s) && Chain(m, l, s) && p in m.back && p !in s
    ensures m.next[m.slots[l]] == At(s, 0)
    ensures var m' := AddToList(m, l, p);
            && m.SameShape(m') && m'.Valid()
            && m'.next == m.next[p := At(s, 0)][m.slots[l] := p]
            && m'.back == if s == [] then m.back[p := m.slots[l]] else m.back[p := m.slots[l]][s[0] := p]
  {
    assert m.next[Cell(m, l, s, 0)] == At(s, 0);
    var m' := AddToList(m, l, p);
    assert m'.back == if s == [] then m.back[p := m.slots[l]] else m.back[p := m.slots[l]][s[0] := p];
    assert m.SameShape(m');
  }

  lemma AddNextAt(m: Memory, m': Memory, l: nat, s: seq<nat>, p: nat, i: nat)
    requires m.Valid() && l < |m.slots| && Granules(m, s) && Chain(m, l, s) && p in m.back && p !in s
    requires m.SameShape(m') && m'.next == m.next[p := At(s, 0)][m.slots[l] := p] && i <= |s| + 1
    ensures Cell(m', l, [p] + s, i) in m'.next && m'.next[Cell(m', l, [p] + s, i)] == At([p] + s, i)
  {
    if i >= 2 {
      assert m.next[Cell(m, l, s, i - 1)] == At(s, i - 1);
    }
  }

  lemma AddBackAt(m: Memory, m': Memory, l: nat, s: seq<nat>, p: nat, i: nat)
    requires m.Valid() && l < |m.slots| && Granules(m, s) && Chain(m, l, s) && p in m.back && p !in s
    requires forall i, j :: 0 <= i < j < |s| ==> s[i] != s[j]
    requires m.SameShape(m') && i <= |s|
    requires m'.back == if s == [] then m.back[p := m.slots[l]] else m.back[p := m.slots[l]][s[0] := p]
    ensures m'.back[([p] + s)[i]] == Cell(m', l, [p] + s, i)
  {
    if i >= 2 {
      assert m.back[s[i - 1]] == Cell(m, l, s, i - 1);
    }
  }

  lemma AddChain(m: Memory, l: nat, s: seq<nat>, p: nat)
    requires m.Valid() && l < |m.slots| && Granules(m, s) && Chain(m, l, s) && p in m.back && p !in s
    requires forall i, j :: 0 <= i < j < |s| ==> s[i] != s[j]
    ensures var m' := AddToList(m, l, p);
            m.SameShape(m') && m'.Valid() && Granules(m', [p] + s) && Chain(m', l, [p] + s)
  {
    AddCells(m, l, s, p);
    hide AddToList;
    var m', s' := AddToList(m, l, p), [p] + s;
    assert Granules(m', s');
    forall i | 0 <= i <= |s'|
      ensures m'.next[Cell(m', l, s', i)] == At(s', i)
    {
      AddNextAt(m, m', l, s, p, i);
    }
    forall i | 0 <= i < |s'|
      ensures m'.back[s'[i]] == Cell(m', l, s', i)
    {
      AddBackAt(m, m', l, s, p, i);
    }
  }

  /** Prepending at the head of a free list. */
  lemma AddRefinesPrepend(m: Memory, P: seq<seq<nat>>, l: nat, p: nat)
    requires Linked(m, P) && l < |P| && p in m.back && p !in Addrs(P)
    ensures m.next[m.slots[l]] == At(P[l], 0)
    ensures Linked(AddToList(m, l, p), P[l := [p] + P[l]])
    ensures Addrs(P[l := [p] + P[l]]) == Addrs(P) + {p}
    ensures SameOutside(m, AddToList(m, l, p), Addrs(P) + {p})
  {
    var m', P' := AddToList(m, l, p), P[l := [p] + P[l]];
    forall k, i | 0 <= k < |P| && 0 <= i < |P[k]|
      ensures P[k][i] != p
    {
      assert P[k][i] in Addrs(P);
    }
    AddCells(m, l, P[l], p);
    AddChain(m, l, P[l], p);
    hide AddToList;
    forall k | 0 <= k < |P'|
      ensures Granules(m', P'[k]) && Chain(m', k, P'[k])
    {
      if k != l {
        ChainFrame(m, m', k, P[k]);
      }
    }
    DistinctPrepend(P, l, p);
    PrependAddrs(P, l, p);
    if |P[l]| > 0 {
      assert P[l][0] in Addrs(P);
    }
  }

  lemma PrependAddrs(P: seq<seq<nat>>, l: nat, p: nat)
    requires l < |P|
    ensures Addrs(P[l := [p] + P[l]]) == Addrs(P) + {p}
  {
    var P' := P[l := [p] + P[l]];
    forall x | x in Addrs(P)
      ensures x in Addrs(P')
    {
      var k, i :| 0 <= k < |P| && 0 <= i < |P[k]| && P[k][i] == x;
      assert P'[k][if k == l then i + 1 else i] == x;
    }
    assert P'[l][0] == p;
  }

  lemma DistinctPrepend(P: seq<seq<nat>>, l: nat, p: nat)
    requires Distinct(P) && l < |P| && forall k, j :: 0 <= k < |P| && 0 <= j < |P[k]| ==> P[k][j] != p
    ensures Distinct(P[l := [p] + P[l]])
  {
    var P' := P[l := [p] + P[l]];
    forall a, i, b, j | 0 <= a < |P'| && 0 <= i < |P'[a]| && 0 <= b < |P'| && 0 <= j < |P'[b]| && (a != b || i != j)
      ensures P'[a][i] != P'[b][j]
    {
      var i', j' := if a == l then i - 1 else i, if b == l then j - 1 else j;
      if i' >= 0 { assert P'[a][i] == P[a][i']; }
      if j' >= 0 { assert P'[b][j] == P[b][j']; }
    }
  }

  // sh_remove_from_list refines deletion at any position

  function Delete(s: seq<nat>, i: nat): (r: seq<nat>)
    requires i < |s|
    ensures |r| + 1 == |s|
  {
    s[..i] + s[i + 1..]
  }

  /** What the header of element `i` says. */
  lemma HeaderAt(m: Memory, P: seq<seq<nat>>, l: nat, i: nat)
    requires Linked(m, P) && l < |P| && i < |P[l]|
    ensures var s, p := P[l], P[l][i];
            && p in m.back && p in m.next
            && m.next[p] == At(s, i + 1) && m.back[p] == Cell(m, l, s, i)
            && m.next[p] != p && m.back[p] != p && m.back[p] in m.next
            && (m.next[p] != 0 ==> m.next[p] in m.back)
  {
    var s := P[l];
    assert m.next[Cell(m, l, s, i + 1)] == At(s, i + 1);
  }

  /** The cells `sh_remove_from_list` writes. */
  lemma RemoveCells(m: Memory, P: seq<seq<nat>>, l: nat, i: nat)
    requires Linked(m, P) && l < |P| && i < |P[l]|
    ensures var s, p := P[l], P[l][i];
            && p in m.next && p in m.back
            && (var m' := RemoveFromList(m, p);
            && m.SameShape(m') && m'.Valid()
            && m'.next == m.next[Cell(m, l, s, i) := At(s, i + 1)]
            && m'.back == if i + 1 == |s| then m.back else m.back[s[i + 1] := Cell(m, l, s, i)])
  {
    HeaderAt(m, P, l, i);
    var s, p := P[l], P[l][i];
    var m' := RemoveFromList(m, p);
    assert m'.next == m.next[Cell(m, l, s, i) := At(s, i + 1)];
    assert m.SameShape(m');
  }

  lemma DeleteAt(m: Memory, l: nat, s: seq<nat>, i: nat, j: nat)
    requires l < |m.slots| && i < |s| && j < |s|
    ensures Cell(m, l, Delete(s, i), j) == if j <= i then Cell(m, l, s, j) else Cell(m, l, s, j + 1)
    ensures At(Delete(s, i), j) == if j < i then At(s, j) else At(s, j + 1)
  {
  }

  lemma CellsDistinct(m: Memory, l: nat, s: seq<nat>, i: nat, j: nat)
    requires m.Valid() && l < |m.slots| && Granules(m, s) && i <= |s| && j <= |s|
    requires forall a, b :: 0 <= a < b < |s| ==> s[a] != s[b]
    ensures Cell(m, l, s, i) == Cell(m, l, s, j) ==> i == j
  {
  }

  lemma RemoveNextAt(m: Memory, m': Memory, l: nat, s: seq<nat>, i: nat, j: nat)
    requires m.Valid() && l < |m.slots| && Granules(m, s) && Chain(m, l, s) && i < |s| && j < |s|
    requires forall a, b :: 0 <= a < b < |s| ==> s[a] != s[b]
    requires m.SameShape(m') && m'.next == m.next[Cell(m, l, s, i) := At(s, i + 1)]
    ensures var c := Cell(m', l, Delete(s, i), j); c in m'.next && m'.next[c] == At(Delete(s, i), j)
  {
    var k := if j <= i then j else j + 1;
    assert m.next[Cell(m, l, s, k)] == At(s, k);
    CellsDistinct(m, l, s, i, k);
    DeleteAt(m', l, s, i, j);
  }

  lemma RemoveBackAt(m: Memory, m': Memory, l: nat, s: seq<nat>, i: nat, j: nat)
    requires m.Valid() && l < |m.slots| && Granules(m, s) && Chain(m, l, s) && i < |s| && j + 1 < |s|
    requires forall a, b :: 0 <= a < b < |s| ==> s[a] != s[b]
    requires m.SameShape(m') && m'.back == if i + 1 == |s| then m.back else m.back[s[i + 1] := Cell(m, l, s, i)]
    ensures m'.back[Delete(s, i)[j]] == Cell(m', l, Delete(s, i), j)
  {
    var k := if j < i then j else j + 1;
    assert m.back[s[k]] == Cell(m, l, s, k);
    DeleteAt(m', l, s, i, j);
  }

  lemma RemoveChain(m: Memory, P: seq<seq<nat>>, l: nat, i: nat)
    requires Linked(m, P) && l < |P| && i < |P[l]|
    ensures var p := P[l][i]; p in m.next && p in m.back
    ensures var m' := RemoveFromList(m, P[l][i]);
            && m.SameShape(m') && m'.Valid()
            && Granules(m', Delete(P[l], i)) && Chain(m', l, Delete(P[l], i))
  {
    RemoveCells(m, P, l, i);
    hide RemoveFromList;
    var s, m', s' := P[l], RemoveFromList(m, P[l][i]), Delete(P[l], i);
    forall j | 0 <= j <= |s'|
      ensures m'.next[Cell(m', l, s', j)] == At(s', j)
    {
      RemoveNextAt(m, m', l, s, i, j);
    }
    forall j | 0 <= j < |s'|
      ensures m'.back[s'[j]] == Cell(m', l, s', j)
    {
      RemoveBackAt(m, m', l, s, i, j);
    }
  }

  /** Deleting an element from wherever it sits in its list. */
  lemma RemoveRefinesDelete(m: Memory, P: seq<seq<nat>>, l: nat, i: nat)
    requires Linked(m, P) && l < |P| && i < |P[l]|
    ensures var p := P[l][i]; p in m.next && p in m.back
    ensures Linked(RemoveFromList(m, P[l][i]), P[l := Delete(P[l], i)])
    ensures Addrs(P[l := Delete(P[l], i)]) == Addrs(P) - {P[l][i]}
    ensures SameOutside(m, RemoveFromList(m, P[l][i]), Addrs(P))
  {
    RemoveCells(m, P, l, i);
    RemoveChain(m, P, l, i);
    hide RemoveFromList;
    var s, p := P[l], P[l][i];
    var m', P' := RemoveFromList(m, p), P[l := Delete(s, i)];
    forall k | 0 <= k < |P'|
      ensures Granules(m', P'[k]) && Chain(m', k, P'[k])
    {
      if k != l {
        ChainFrame(m, m', k, P[k]);
      }
    }
    DistinctDelete(P, l, i);
    DeleteAddrs(P, l, i);
    if i > 0 { assert s[i - 1] in Addrs(P); }
    if i + 1 < |s| { assert s[i + 1] in Addrs(P); }
  }

  lemma DeleteAddrs(P: seq<seq<nat>>, l: nat, i: nat)
    requires Distinct(P) && l < |P| && i < |P[l]|
    ensures Addrs(P[l := Delete(P[l], i)]) == Addrs(P) - {P[l][i]}
  {
    var P' := P[l := Delete(P[l], i)];
    forall x | x in Addrs(P) && x != P[l][i]
      ensures x in Addrs(P')
    {
      var k, j :| 0 <= k < |P| && 0 <= j < |P[k]| && P[k][j] == x;
      assert P'[k][if k == l && j > i then j - 1 else j] == x;
    }
    forall x | x in Addrs(P')
      ensures x in Addrs(P) && x != P[l][i]
    {
      var k, j :| 0 <= k < |P'| && 0 <= j < |P'[k]| && P'[k][j] == x;
      assert x == P[k][if k == l && j >= i then j + 1 else j];
    }
  }

  lemma DistinctDelete(P: seq<seq<nat>>, l: nat, i: nat)
    requires Distinct(P) && l < |P| && i < |P[l]|
    ensures Distinct(P[l := Delete(P[l], i)])
  {
    var P' := P[l := Delete(P[l], i)];
    forall a, x, b, y | 0 <= a < |P'| && 0 <= x < |P'[a]| && 0 <= b < |P'| && 0 <= y < |P'[b]| && (a != b || x != y)
      ensures P'[a][x] != P'[b][y]
    {
      var x' := if a == l && x >= i then x + 1 else x;
      var y' := if b == l && y >= i then y + 1 else y;
      assert P'[a][x] == P[a][x'] && P'[b][y] == P[b][y'];
    }
  }

  /** A list head is NULL or names the first block, whose `p_next` is the head itself. */
  lemma ListHead(m: Memory, P: seq<seq<nat>>, l: nat)
    requires Linked(m, P) && l < |P|
    ensures m.slots[l] in m.next && m.slots[l] !in m.back && 0 !in m.back && m.back.Keys <= m.next.Keys
    ensures var next := m.next[m.slots[l]];
            next == At(P[l], 0) && (next != 0 ==> next in m.back && m.back[next] == m.slots[l])
    ensures P[l] == [] <==> m.next[m.slots[l]] == 0
  {
    assert m.next[Cell(m, l, P[l], 0)] == At(P[l], 0);
    if P[l] != [] {
      assert m.back[P[l][0]] == Cell(m, l, P[l], 0);
    }
  }

  /** Empty lists. */
  lemma EmptyLinked(m: Memory, P: seq<seq<nat>>)
    requires m.Valid() && |P| == |m.slots|
    requires forall l :: 0 <= l < |P| ==> P[l] == [] && m.next[m.slots[l]] == 0
    ensures Linked(m, P) && Addrs(P) == {}
  {
  }
}
