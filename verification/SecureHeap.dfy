/** The secure heap of `mem_sec.c`: bitmaps, list heads and arena, changed in place. */
module SecureHeap {
  import opened Powers
  import opened BigEndian
  import opened BitOps
  import opened Bitwise
  import opened BuddyTree
  import opened Tiling
  import opened BuddyHeap
  import opened HeapMemory
  import opened HeapView
  import opened HeapRep

  /** How `sh_init` ends: by an assertion that aborts, or with 0, 1 or 2. */
  datatype InitStatus = Aborted | Rejected | Ready | Unprotected

  /** Byte `k` of a word, counted from the least significant one. */
  function ByteAt(word: nat, k: nat): Byte {
    if k == 0 then word % 256 else ByteAt(word / 256, k - 1)
  }

  function SetByte(word: nat, k: nat, b: Byte): nat {
    if k == 0 then word / 256 * 256 + b else SetByte(word / 256, k - 1, b) * 256 + word % 256
  }

  lemma {:induction false} SetByteAt(word: nat, k: nat, b: Byte, j: nat)
    ensures ByteAt(SetByte(word, k, b), j) == if j == k then b else ByteAt(word, j)
    decreases k
  {
    if k > 0 && j > 0 {
      SetByteAt(word / 256, k - 1, b, j - 1);
    }
  }

  lemma {:induction false} SetByteBound(word: nat, k: nat, b: Byte, width: nat)
    requires word < Pow256(width) && k < width
    ensures SetByte(word, k, b) < Pow256(width)
  {
    if k > 0 {
      SetByteBound(word / 256, k - 1, b, width - 1);
    }
  }

  lemma EightBytes()
    ensures Pow256(8) == 0x1_0000_0000_0000_0000
  {
    assert Pow256(4) == 0x1_0000_0000;
  }

  function WithByte(word: Word, k: nat, b: Byte): Word
    requires k < 8
  {
    EightBytes();
    SetByteBound(word, k, b, 8);
    SetByte(word, k, b)
  }

  /** The bytes of a number below `Pow256(width)` determine it. */
  lemma {:induction false} BytesDetermine(x: nat, y: nat, width: nat)
    requires x < Pow256(width) && y < Pow256(width)
    requires forall k: nat :: k < width ==> ByteAt(x, k) == ByteAt(y, k)
    ensures x == y
  {
    if width > 0 {
      assert x % 256 == ByteAt(x, 0) == ByteAt(y, 0) == y % 256;
      forall k: nat | k < width - 1
        ensures ByteAt(x / 256, k) == ByteAt(y / 256, k)
      {
        assert ByteAt(x, k + 1) == ByteAt(y, k + 1);
      }
      BytesDetermine(x / 256, y / 256, width - 1);
    }
  }

  /** The arena's word that holds byte `at` of the block at `ptr`. */
  function WordIndex(base: nat, ptr: nat, at: nat): nat
    requires base <= ptr
  {
    (ptr - base) / 8 + at / 8
  }

  lemma SameWord(base: nat, ptr: nat, at: nat)
    requires base <= ptr && (ptr - base) % 8 == 0
    ensures WordIndex(base, ptr, at) == (ptr - base) / 8 + at / 8 == (ptr - base + at) / 8
  {
  }

  /** The arena as bytes. */
  function ByteOf(words: seq<Word>, a: nat): Byte
    requires a < 8 * |words|
  {
    ByteAt(words[a / 8], a % 8)
  }

  /** Two arenas are equal word for word if they are byte for byte. */
  lemma BytesDetermineWords(a: seq<Word>, b: seq<Word>)
    requires |a| == |b| && forall i: nat :: i < 8 * |a| ==> ByteOf(a, i) == ByteOf(b, i)
    ensures a == b
  {
    EightBytes();
    hide Pow256, ByteAt;
    forall w: nat | w < |a|
      ensures a[w] == b[w]
    {
      forall k: nat | k < 8
        ensures ByteAt(a[w], k) == ByteAt(b[w], k)
      {
        assert ByteOf(a, 8 * w + k) == ByteOf(b, 8 * w + k);
      }
      BytesDetermine(a[w], b[w], 8);
    }
  }

  class SecureHeap {
    const arenaSize: nat
    const minsize: nat
    const freelistSize: nat
    const bittableSize: nat
    /** Addresses of `sh.freelist` and `sh.arena`. */
    const freelistBase: nat
    const arenaBase: nat
    const freelist: array<Word>
    const arena: array<Word>
    const bittable: array<bv8>
    const bitmalloc: array<bv8>
    /** `secure_mem_used` */
    var used: nat

    ghost const g: Geometry
    ghost var heap: Heap

    /** What `sh_init` fixes for good. */
    ghost predicate Shape() {
      && g.Valid()
      && arenaSize == g.ArenaSize() && minsize == g.MinSize()
      && freelistSize == g.Levels() && bittableSize == g.Bits()
      && 8 * arena.Length == arenaSize && freelist.Length == freelistSize
      && 8 * bittable.Length == bittableSize && 8 * bitmalloc.Length == bittableSize
      && bittable != bitmalloc && arena != freelist
      && bittable as object !in {arena, freelist} && bitmalloc as object !in {arena, freelist}
      && Placed(freelistBase, arenaBase, freelist.Length, arena.Length)
    }

    /** The free-list cells held by the two word arrays. */
    ghost function Mem(): Memory
      requires Shape()
      reads freelist, arena
    {
      View(freelistBase, arenaBase, freelist[..], arena[..])
    }

    /** Bitmaps and list cells hold `heap`, which may be in the middle of an operation. */
    ghost predicate Cells()
      reads this`heap, freelist, arena, bittable, bitmalloc
    {
      && Shape() && heap.g == g
      && Bits(bittable[..]) == heap.table && Bits(bitmalloc[..]) == heap.live
      && |heap.lists| == freelistSize && AllNodes(g, heap.lists)
      && Linked(Mem(), Ptrs(g, arenaBase, heap.lists))
    }

    /** Addresses of the blocks on the free lists. */
    ghost function HeaderSet(): set<nat>
      requires Cells()
      reads this`heap, freelist, arena, bittable, bitmalloc
    {
      Addrs(Ptrs(g, arenaBase, heap.lists))
    }

    /** Bitmaps, lists and memory agree on a heap; holds after every round of every loop. */
    ghost predicate Consistent()
      reads this`heap, freelist, arena, bittable, bitmalloc
    {
      Cells() && Represents(Mem(), heap, arenaBase)
    }

    /** What holds between calls. */
    ghost predicate Valid()
      reads this, freelist, arena, bittable, bitmalloc
    {
      Consistent() && heap.Settled() && used == SumSizes(g, heap.live)
    }

    predicate WithinArena(p: nat) {
      arenaBase <= p < arenaBase + arenaSize
    }

    predicate WithinFreelist(p: nat) {
      freelistBase <= p < freelistBase + 8 * freelistSize
    }

    // Loads and stores

    /** `*cell` for a list head or for the `next` field of a block. */
    method LoadNext(a: nat) returns (v: Word)
      requires Shape() && a in Mem().next
      ensures v == Mem().next[a]
    {
      NextCells(freelistBase, arenaBase, freelist[..], arena[..], a);
      if WithinFreelist(a) {
        ViewSlotAt(freelistBase, arenaBase, freelist[..], arena[..], a);
        v := freelist[(a - freelistBase) / 8];
      } else {
        ViewAt(freelistBase, arenaBase, freelist[..], arena[..], a);
        v := arena[(a - arenaBase) / 8];
      }
    }

    method StoreNext(a: nat, v: Word)
      requires Shape() && a in Mem().next
      modifies freelist, arena
      ensures Mem() == old(Mem()).(next := old(Mem().next)[a := v])
    {
      hide View;
      NextCells(freelistBase, arenaBase, freelist[..], arena[..], a);
      ghost var slots, words := freelist[..], arena[..];
      if WithinFreelist(a) {
        ViewSlot(freelistBase, arenaBase, slots, words, a, v);
        freelist[(a - freelistBase) / 8] := v;
        assert freelist[..] == slots[(a - freelistBase) / 8 := v];
      } else {
        ViewNext(freelistBase, arenaBase, slots, words, a, v);
        arena[(a - arenaBase) / 8] := v;
        assert arena[..] == words[(a - arenaBase) / 8 := v];
      }
    }

    /** `p->p_next` */
    method LoadBack(p: nat) returns (v: Word)
      requires Shape() && p in Mem().back
      ensures v == Mem().back[p]
    {
      ViewAt(freelistBase, arenaBase, freelist[..], arena[..], p);
      v := arena[(p - arenaBase) / 8 + 1];
    }

    method StoreBack(p: nat, v: Word)
      requires Shape() && p in Mem().back
      modifies arena
      ensures Mem() == old(Mem()).(back := old(Mem().back)[p := v])
    {
      hide View;
      ghost var slots, words := freelist[..], arena[..];
      ViewAt(freelistBase, arenaBase, slots, words, p);
      ViewBack(freelistBase, arenaBase, slots, words, p, v);
      arena[(p - arenaBase) / 8 + 1] := v;
      assert arena[..] == words[(p - arenaBase) / 8 + 1 := v];
    }

    lemma GranuleInArena(p: nat)
      requires Shape() && p in Mem().back
      ensures WithinArena(p)
    {
      ViewAt(freelistBase, arenaBase, freelist[..], arena[..], p);
    }

    lemma CellMapped(a: nat)
      requires Shape() && a in Mem().next
      ensures WithinFreelist(a) || WithinArena(a)
    {
      NextCells(freelistBase, arenaBase, freelist[..], arena[..], a);
    }

    // Bits

    /** The bit of a block, with the checks that `sh_testbit` and its siblings share. */
    method BitFor(ptr: nat, list: nat, ghost n: nat) returns (bit: nat)
      requires Shape() && g.Node(n) && Level(n) == list <= g.k && ptr == Ptr(g, arenaBase, n)
      ensures bit == n
    {
      hide Pow2, And, Shr, Level;
      NodeLevel(g, n);
      BlockInArena(g, n);
      assert list < freelistSize;
      var off, size := ptr - arenaBase, Shr(arenaSize, list);
      ShrPow2(g.k, list);
      AndMask(off, g.k - list);
      assert And(off, size - 1) == 0;
      NodeAtOff(g, n);
      bit := Pow2(list) + off / size;
      assert 0 < bit < bittableSize;
    }

    /** `TESTBIT` */
    method ReadBit(table: array<bv8>, bit: nat) returns (b: bool)
      requires bit < 8 * table.Length
      ensures b <==> bit in Bits(table[..])
    {
      b := table[bit / 8] & Mask(bit % 8) != 0;
    }

    /** `CLEARBIT` */
    static method ClearBitIn(table: array<bv8>, bit: nat)
      requires bit < 8 * table.Length
      modifies table
      ensures table[..] == ClearBit(old(table[..]), bit)
    {
      table[bit / 8] := table[bit / 8] & !Mask(bit % 8);
    }

    /** `SETBIT` */
    static method SetBitIn(table: array<bv8>, bit: nat)
      requires bit < 8 * table.Length
      modifies table
      ensures table[..] == SetBit(old(table[..]), bit)
    {
      table[bit / 8] := table[bit / 8] | Mask(bit % 8);
    }

    /** `ptr` is the address of the block of `n`, which belongs on list `list`. */
    ghost predicate BlockAt(ptr: nat, list: nat, n: nat) {
      Shape() && Block(g, arenaBase, ptr, list, n)
    }

    /** `sh_testbit` */
    method TestBitAt(ptr: nat, list: nat, table: array<bv8>, ghost n: nat) returns (b: bool)
      requires Cells() && BlockAt(ptr, list, n) && (table == bittable || table == bitmalloc)
      ensures b <==> n in if table == bittable then heap.table else heap.live
    {
      var bit := BitFor(ptr, list, n);
      b := ReadBit(table, bit);
    }

    /** `sh_clearbit` */
    method ClearBitAt(ptr: nat, list: nat, table: array<bv8>, ghost n: nat)
      requires Cells() && BlockAt(ptr, list, n) && (table == bittable || table == bitmalloc)
      requires n in if table == bittable then heap.table else heap.live
      modifies table, this`heap
      ensures Cells() && Mem() == old(Mem()) && HeaderSet() == old(HeaderSet())
      ensures heap == if table == bittable then old(heap).(table := old(heap.table) - {n})
                      else old(heap).(live := old(heap.live) - {n})
    {
      hide View, Linked, AllNodes, Ptrs, Bits, TestBit, ClearBit, Pow2, Level;
      var bit := BitFor(ptr, list, n);
      BitsAt(table[..], bit);
      assert TestBit(table[..], bit);
      ClearBitDeletes(table[..], bit);
      ClearBitIn(table, bit);
      heap := if table == bittable then heap.(table := heap.table - {n}) else heap.(live := heap.live - {n});
    }

    /** `sh_setbit` */
    method SetBitAt(ptr: nat, list: nat, table: array<bv8>, ghost n: nat)
      requires Cells() && BlockAt(ptr, list, n) && (table == bittable || table == bitmalloc)
      requires n !in if table == bittable then heap.table else heap.live
      modifies table, this`heap
      ensures Cells() && Mem() == old(Mem()) && HeaderSet() == old(HeaderSet())
      ensures heap == if table == bittable then old(heap).(table := old(heap.table) + {n})
                      else old(heap).(live := old(heap.live) + {n})
    {
      hide View, Linked, AllNodes, Ptrs, Bits, TestBit, SetBit, Pow2, Level;
      var bit := BitFor(ptr, list, n);
      BitsAt(table[..], bit);
      assert !TestBit(table[..], bit);
      SetBitInserts(table[..], bit);
      SetBitIn(table, bit);
      heap := if table == bittable then heap.(table := heap.table + {n}) else heap.(live := heap.live + {n});
    }

    // Lists

    /** The stores of `sh_add_to_list`. */
    method AddCells(list: nat, ptr: nat)
      requires Shape() && list < freelistSize && ptr in Mem().back && ptr in Mem().next
      requires var m := Mem();
               && m.slots[list] in m.next
               && (var next := m.next[m.slots[list]]; next != 0 ==> next in m.back && m.back[next] == m.slots[list])
      modifies freelist, arena
      ensures Mem() == HeapMemory.AddToList(old(Mem()), list, ptr)
    {
      hide View;
      var slot := freelistBase + 8 * list;
      assert WithinFreelist(slot);
      GranuleInArena(ptr);
      assert WithinArena(ptr);
      var next := LoadNext(slot);
      StoreNext(ptr, next);
      StoreBack(ptr, slot);
      if next != 0 {
        GranuleInArena(next);
        assert WithinArena(next);
        var back := LoadBack(next);
        assert back == slot;
        StoreBack(next, ptr);
      }
      StoreNext(slot, ptr);
    }

    /** `sh_add_to_list` */
    method AddToList(list: nat, ptr: nat, ghost n: nat)
      requires Cells() && BlockAt(ptr, list, n)
      requires ptr in Mem().back && ptr !in HeaderSet()
      modifies freelist, arena, this`heap
      ensures Cells() && heap == old(heap).(lists := Link(old(heap.lists), list, n))
      ensures HeaderSet() == old(HeaderSet()) + {ptr}
      ensures Mem().back.Keys == old(Mem().back.Keys) && AllNodes(g, heap.lists)
      ensures Links(old(Mem()), Mem(), g, arenaBase, old(heap.lists), list, n)
    {
      hide View, Addrs, AllNodes, Ptr, Chain, Distinct, Bits;
      ghost var lists := heap.lists;
      ListHead(Mem(), Ptrs(g, arenaBase, lists), list);
      AddLinks(Mem(), g, arenaBase, lists, list, n);
      LinkPtrs(g, arenaBase, lists, list, n);
      AddCells(list, ptr);
      heap := heap.(lists := Link(lists, list, n));
    }

    /** The stores of `sh_remove_from_list`. */
    method RemoveCells(ptr: nat)
      requires Shape() && ptr in Mem().next && ptr in Mem().back
      requires var m := Mem();
               && m.back[ptr] in m.next && m.next[ptr] != ptr
               && (m.next[ptr] != 0 ==> m.next[ptr] in m.back)
      modifies freelist, arena
      ensures Mem() == HeapMemory.RemoveFromList(old(Mem()), ptr)
    {
      hide View;
      var next := LoadNext(ptr);
      if next != 0 {
        var back := LoadBack(ptr);
        StoreBack(next, back);
      }
      var prev := LoadBack(ptr);
      var after := LoadNext(ptr);
      StoreNext(prev, after);
      if after != 0 {
        var back := LoadBack(after);
        CellMapped(back);
        assert WithinFreelist(back) || WithinArena(back);
      }
    }

    /** `sh_remove_from_list` */
    method RemoveFromList(ptr: nat, ghost l: nat, ghost n: nat)
      requires Cells() && BlockAt(ptr, l, n) && n in heap.lists[l]
      modifies freelist, arena, this`heap
      ensures Cells() && heap == old(heap).(lists := Unlink(old(heap.lists), l, n))
      ensures HeaderSet() == old(HeaderSet()) - {ptr}
      ensures Mem().back.Keys == old(Mem().back.Keys) && AllNodes(g, heap.lists)
      ensures Unlinks(old(Mem()), Mem(), g, arenaBase, old(heap.lists), l, n)
    {
      hide View, Addrs, AllNodes, Ptr, Chain, Distinct, Bits;
      ghost var lists := heap.lists;
      UnlinkPtrs(g, arenaBase, lists, l, n);
      HeaderAt(Mem(), Ptrs(g, arenaBase, lists), l, IndexOf(lists[l], n));
      RemoveUnlinks(Mem(), g, arenaBase, lists, l, n);
      RemoveCells(ptr);
      heap := heap.(lists := Unlink(lists, l, n));
    }

    // Levels and buddies

    /** `sh_getlist`: climb from the leaf bit to the first set bit. */
    method GetList(ptr: nat, ghost n: nat) returns (list: nat)
      requires Consistent() && n in heap.table && Level(n) <= g.k && ptr == Ptr(g, arenaBase, n)
      ensures list == Level(n)
    {
      hide View, Quiet, Linked, Tiles, Holds, Spans, Bits, Placed, Covers, Level;
      TableNode(heap, n);
      StartBit(g, n);
      list := freelistSize - 1;
      var bit: nat := (arenaSize + ptr - arenaBase) / minsize;
      while bit != 0
        invariant g.Node(bit) && list == Level(bit) <= g.k
        invariant Covers(n, bit) && g.Off(bit) == g.Off(n)
      {
        ClimbStep(heap, n, bit);
        var isSet := ReadBit(bittable, bit);
        if isSet {
          return;
        }
        AndOne(bit);
        assert And(bit, 1) == 0;
        bit, list := bit / 2, list - 1;
      }
    }

    /** `sh_find_my_buddy`: the address of the buddy if it is free, else NULL. */
    method FindMyBuddy(ptr: nat, list: nat, ghost n: nat) returns (chunk: nat)
      requires Cells() && BlockAt(ptr, list, n) && 0 !in heap.table
      ensures chunk != 0 <==> n >= 2 && Buddy(n) in heap.Free()
      ensures chunk != 0 ==> Level(Buddy(n)) == list <= g.k && chunk == Ptr(g, arenaBase, Buddy(n))
    {
      hide *;
      BuddyFacts(ptr, list, n);
      var size := Shr(arenaSize, list);
      var bit := Pow2(list) + (ptr - arenaBase) / size;
      bit := Xor(bit, 1);
      chunk := 0;
      var there := ReadBit(bittable, bit);
      var taken := ReadBit(bitmalloc, bit);
      if there && !taken {
        chunk := arenaBase + And(bit, Pow2(list) - 1) * size;
      }
    }

    /** The arithmetic of `sh_find_my_buddy`. */
    lemma BuddyFacts(ptr: nat, list: nat, n: nat)
      requires Cells() && BlockAt(ptr, list, n) && 0 !in heap.table
      ensures 0 < arenaBase <= ptr && Shr(arenaSize, list) > 0 && Pow2(list) >= 1
      ensures Pow2(list) + (ptr - arenaBase) / Shr(arenaSize, list) == n && Xor(n, 1) == Buddy(n)
      ensures Buddy(n) < 8 * bittable.Length && Buddy(n) < 8 * bitmalloc.Length
      ensures Bits(bittable[..]) == heap.table && Bits(bitmalloc[..]) == heap.live
      ensures heap.Free() == heap.table - heap.live
      ensures n < 2 ==> Buddy(n) == 0
      ensures n >= 2 ==>
                && Buddy(n) >= 1 && Level(Buddy(n)) == list <= g.k
                && arenaBase + And(Buddy(n), Pow2(list) - 1) * Shr(arenaSize, list) == Ptr(g, arenaBase, Buddy(n))
    {
      hide View, Linked, AllNodes, Ptrs, Bits, Xor, And, Shr, Level, Pow2;
      NodeAtOff(g, n);
      BuddyArithmetic(g, n);
      ShrPow2(g.k, list);
    }

    /** A block that is on no list is not a list head. */
    lemma NotHead(list: nat, ptr: nat)
      requires Cells() && list < freelistSize && ptr != 0 && ptr !in HeaderSet()
      ensures freelistBase + 8 * list in Mem().next && Mem().next[freelistBase + 8 * list] != ptr
    {
      hide View, Linked, Bits, Ptrs, Addrs;
      HeadChanged(Mem(), g, arenaBase, heap.lists, list, ptr);
    }

    /** The first block of a list is its head. */
    lemma IsHead(list: nat, ptr: nat, n: nat)
      requires Cells() && BlockAt(ptr, list, n) && heap.lists[list] != [] && heap.lists[list][0] == n
      ensures freelistBase + 8 * list in Mem().next && Mem().next[freelistBase + 8 * list] == ptr
    {
      hide View, Linked, Bits, Ptrs, Addrs;
      HeadLinked(Mem(), g, arenaBase, heap.lists, list, n);
    }

    // The two moves both loops are made of

    /** Take a free block out of the bit table and off its list. */
    method Retire(ptr: nat, list: nat, ghost n: nat)
      requires Cells() && BlockAt(ptr, list, n) && n in heap.lists[list]
      requires n in heap.table && n !in heap.live
      modifies freelist, arena, bittable, this`heap
      ensures Cells() && Shape() && AllNodes(g, heap.lists)
      ensures heap == old(heap).(table := old(heap.table) - {n}, lists := Unlink(old(heap.lists), list, n))
      ensures HeaderSet() == old(HeaderSet()) - {ptr} && Mem().back.Keys == old(Mem().back.Keys)
      ensures AllNodes(g, old(heap.lists)) && Unlinks(old(Mem()), Mem(), g, arenaBase, old(heap.lists), list, n)
    {
      hide View, Linked, Links, Unlinks, Unlink, Bits, Block, Placed, Ptrs, Addrs;
      ClearBitAt(ptr, list, bittable, n);
      RemoveFromList(ptr, list, n);
    }

    /** Enter a free block in the bit table and put it at the head of its list. */
    method Enlist(ptr: nat, list: nat, ghost n: nat)
      requires Cells() && BlockAt(ptr, list, n) && ptr in Mem().back && ptr !in HeaderSet()
      requires n !in heap.table && n !in heap.live
      modifies freelist, arena, bittable, this`heap
      ensures Cells() && Shape() && AllNodes(g, heap.lists)
      ensures heap == old(heap).(table := old(heap.table) + {n}, lists := Link(old(heap.lists), list, n))
      ensures HeaderSet() == old(HeaderSet()) + {ptr} && Mem().back.Keys == old(Mem().back.Keys)
      ensures g.Node(n) && AllNodes(g, old(heap.lists))
      ensures Links(old(Mem()), Mem(), g, arenaBase, old(heap.lists), list, n)
    {
      hide View, Linked, Links, Unlinks, Bits, Placed, Ptrs, Addrs;
      var taken := TestBitAt(ptr, list, bitmalloc, n);
      assert !taken;
      SetBitAt(ptr, list, bittable, n);
      AddToList(list, ptr, n);
      IsHead(list, ptr, n);
      var head := LoadNext(freelistBase + 8 * list);
      assert head == ptr;
    }

    // Allocation

    /** The block at the head of a list and its two halves, as the split loop addresses them. */
    lemma SplitBlocks(l: nat)
      requires Consistent() && l + 1 < freelistSize && heap.lists[l] != []
      ensures Cells() && Shape() && bittable != bitmalloc && |heap.lists| == freelistSize
      ensures heap.g == g && AllNodes(g, heap.lists) && Represents(Mem(), heap, arenaBase)
      ensures freelistBase + 8 * l in Mem().next
      ensures var n, p := heap.lists[l][0], Mem().next[freelistBase + 8 * l];
              var p' := p + Shr(arenaSize, l + 1);
              && BlockAt(p, l, n) && BlockAt(p, l + 1, 2 * n) && BlockAt(p', l + 1, 2 * n + 1)
              && p in Mem().back && p' in Mem().back && p in HeaderSet() && p' !in HeaderSet()
              && n in heap.table && 2 * n !in heap.table && 2 * n + 1 !in heap.table
              && n !in heap.live && 2 * n !in heap.live && 2 * n + 1 !in heap.live
              && n in heap.lists[l] && g.Node(2 * n) && g.Node(2 * n + 1) && p != 0 && 0 !in heap.table
    {
      hide View, Linked, Quiet, Holds, Bits, Placed, Tiles, PtrList, Addrs, AllNodes, Ptr, Level, Spans, Pow2, Shr;
      HeadView(Mem(), heap, arenaBase, l);
      HalvesView(Mem(), heap, arenaBase, l, heap.lists[l][0], Mem().next[freelistBase + 8 * l]);
    }

    lemma MakeConsistent()
      requires Cells() && Represents(Mem(), heap, arenaBase)
      ensures Consistent()
    {
    }

    /** One round of the split loop of `sh_malloc`. */
    method SplitOne(slist: nat)
      requires Consistent() && slist + 1 < freelistSize && heap.lists[slist] != []
      modifies this`heap, freelist, arena, bittable
      ensures Consistent() && heap == SplitHead(old(heap), slist)
      ensures Kept(old(Mem()), Mem(), g, arenaBase, old(heap.live))
    {
      hide *;
      SplitBlocks(slist);
      ghost var h, m := heap, Mem();
      ghost var n := h.lists[slist][0];
      var temp := LoadNext(freelistBase + 8 * slist);
      var taken := TestBitAt(temp, slist, bitmalloc, n);
      assert !taken;
      Retire(temp, slist, n);
      NotHead(slist, temp);
      var head := LoadNext(freelistBase + 8 * slist);
      assert temp != head;
      ghost var m1, L1 := Mem(), heap.lists;
      Enlist(temp, slist + 1, 2 * n);
      ghost var m2, L2 := Mem(), heap.lists;
      temp := temp + Shr(arenaSize, slist + 1);
      Enlist(temp, slist + 1, 2 * n + 1);
      SplitRepresents(m, m1, m2, Mem(), h, arenaBase, slist, n, L1, L2);
      SplitHeadSteps(h, slist, n, heap);
      MakeConsistent();
      SplitBuddy(temp, slist, n, h);
      var buddy := FindMyBuddy(temp, slist + 1, 2 * n + 1);
      assert temp - Shr(arenaSize, slist + 1) == buddy;
    }

    /** The two halves of a split block are each other's free buddies. */
    lemma SplitBuddy(p: nat, l: nat, n: nat, h: Heap)
      requires Cells() && heap.table == h.table - {n} + {2 * n} + {2 * n + 1} && 2 * n !in heap.live && 0 !in h.table
      requires BlockAt(p, l + 1, 2 * n + 1) && p >= Shr(arenaSize, l + 1)
      requires BlockAt(p - Shr(arenaSize, l + 1), l + 1, 2 * n)
      ensures 0 !in heap.table && Buddy(2 * n + 1) == 2 * n && Buddy(2 * n + 1) in heap.Free()
      ensures Level(Buddy(2 * n + 1)) <= g.k
      ensures Ptr(g, arenaBase, Buddy(2 * n + 1)) == p - Shr(arenaSize, l + 1)
    {
      hide Cells, Ptr, Pow2, Shr, Level;
    }

    /** `memset(ptr, 0, sizeof(SH_LIST))` on a block that is on no list. */
    method ZeroHeaderAt(ptr: nat)
      requires Cells() && ptr in Mem().back && ptr !in HeaderSet()
      modifies freelist, arena
      ensures Cells() && Mem() == ZeroHeader(old(Mem()), ptr) && HeaderSet() == old(HeaderSet())
      ensures Mem().back.Keys == old(Mem().back.Keys)
    {
      hide View, Chain, Distinct, Addrs, Ptrs, Bits, AllNodes;
      ZeroHeaderLinked(Mem(), Ptrs(g, arenaBase, heap.lists), ptr);
      StoreNext(ptr, 0);
      StoreBack(ptr, 0);
    }

    /** The block at the head of a non-empty list. */
    lemma HeadBlock(l: nat)
      requires Consistent() && l < freelistSize && heap.lists[l] != []
      ensures Cells() && Shape() && bittable != bitmalloc && |heap.lists| == freelistSize && arenaBase > 0
      ensures heap.g == g && AllNodes(g, heap.lists) && Represents(Mem(), heap, arenaBase)
      ensures freelistBase + 8 * l in Mem().next
      ensures var n, p := heap.lists[l][0], Mem().next[freelistBase + 8 * l];
              && BlockAt(p, l, n) && p in Mem().back && p in HeaderSet() && WithinArena(p)
              && n in heap.table && n !in heap.live && n in heap.lists[l]
    {
      hide View, Linked, Quiet, Holds, Bits, Tiles, PtrList, Addrs, AllNodes, Ptr, Level;
      HeadView(Mem(), heap, arenaBase, l);
      GranuleInArena(Mem().next[freelistBase + 8 * l]);
    }

    /** The end of `sh_malloc`: hand out the head of list `list` with its header wiped. */
    method TakeOne(list: nat) returns (chunk: nat)
      requires Consistent() && list < freelistSize && heap.lists[list] != []
      modifies this`heap, freelist, arena, bitmalloc
      ensures Consistent() && heap == TakeHead(old(heap), list)
      ensures BlockAt(chunk, list, old(heap.lists[list][0])) && chunk != 0
      ensures forall q :: q in Mem().back && Inside(g, arenaBase, old(heap.lists[list][0]), q) ==> Zero(Mem(), q)
      ensures Kept(old(Mem()), Mem(), g, arenaBase, old(heap.live))
    {
      hide *;
      HeadBlock(list);
      ghost var h, m := heap, Mem();
      ghost var n := h.lists[list][0];
      chunk := LoadNext(freelistBase + 8 * list);
      var there := TestBitAt(chunk, list, bittable, n);
      assert there;
      SetBitAt(chunk, list, bitmalloc, n);
      RemoveFromList(chunk, list, n);
      ghost var m1 := Mem();
      assert WithinArena(chunk);
      ZeroHeaderAt(chunk);
      TakeRepresents(m, m1, h, arenaBase, list);
      TakeHeadSteps(h, list, n, heap);
      BlockPtr(chunk, list, n);
      MakeConsistent();
    }

    lemma BlockPtr(p: nat, l: nat, n: nat)
      requires BlockAt(p, l, n)
      ensures n >= 1 && Level(n) == l <= g.k && p == Ptr(g, arenaBase, n) && p != 0
    {
    }

    /** The rounding loop of `sh_malloc`. */
    method ListForSize(size: nat) returns (list: nat)
      requires Shape() && size <= arenaSize
      ensures list == ListFor(g, size, freelistSize - 1)
    {
      hide Pow2;
      var i := minsize;
      list := freelistSize - 1;
      while i < size
        invariant list < freelistSize && i == g.SizeAt(list)
        invariant ListFor(g, size, freelistSize - 1) == ListFor(g, size, list)
        decreases list
      {
        DoublePow2(g.k - list + 1);
        i, list := 2 * i, list - 1;
      }
    }

    /** The search loop of `sh_malloc`: the nearest list head that is not NULL. */
    method FindSource(list: nat) returns (slist: int)
      requires Consistent() && list < freelistSize
      ensures slist == FirstNonEmpty(heap.lists, list)
    {
      hide *;
      Unfold();
      slist := list;
      while slist >= 0
        invariant -1 <= slist <= list
        invariant FirstNonEmpty(heap.lists, list) == FirstNonEmpty(heap.lists, slist)
      {
        ListHeadAt(slist);
        var head := LoadNext(freelistBase + 8 * slist);
        if head != 0 {
          return;
        }
        slist := slist - 1;
      }
      SearchEnds();
    }

    lemma ListHeadAt(l: nat)
      requires Consistent() && l < freelistSize
      ensures Shape() && |heap.lists| == freelistSize && freelistBase + 8 * l in Mem().next
      ensures var head := Mem().next[freelistBase + 8 * l];
              FirstNonEmpty(heap.lists, l) == if head != 0 then l else FirstNonEmpty(heap.lists, l - 1)
    {
      hide View, Linked, Quiet, Holds, Tiles, PtrList, Addrs, AllNodes, Bits;
      ReadHead(Mem(), heap, arenaBase, l);
    }

    lemma SearchEnds()
      requires Shape() && |heap.lists| == freelistSize
      ensures FirstNonEmpty(heap.lists, -1) == -1
    {
    }

    /** The parts of `Consistent` that callers use. */
    lemma Unfold()
      requires Consistent()
      ensures Cells() && Shape() && heap.g == g && heap.Inv() && 0 !in heap.table
      ensures |heap.lists| == freelistSize == g.Levels() && g.Valid()
      ensures arenaSize == g.ArenaSize()
      ensures forall u :: u in heap.live ==> g.Node(u)
      ensures Kept(Mem(), Mem(), g, arenaBase, heap.live)
    {
      hide View, Linked, Quiet, Holds, Bits, Ptrs, Covers;
    }

    /** The split loop of `sh_malloc`. */
    method SplitTo(source: nat, list: nat)
      requires Consistent() && source <= list < freelistSize && heap.lists[source] != []
      modifies this`heap, freelist, arena, bittable
      ensures Consistent() && heap == SplitDown(old(heap), source, list) && heap.live == old(heap.live)
      ensures |heap.lists| == freelistSize && heap.lists[list] != []
      ensures Kept(old(Mem()), Mem(), g, arenaBase, old(heap.live))
    {
      hide *;
      Unfold();
      ghost var h, m := heap, Mem();
      var slist := source;
      while slist != list
        invariant source <= slist <= list && Consistent() && heap.live == h.live && |heap.lists| == freelistSize
        invariant heap.lists[slist] != [] && SplitDown(h, source, list) == SplitDown(heap, slist, list)
        invariant Kept(m, Mem(), g, arenaBase, h.live)
        decreases list - slist
      {
        ghost var m1 := Mem();
        SplitDownStep(heap, slist, list);
        SplitOne(slist);
        KeptTrans(m, m1, Mem(), g, arenaBase, h.live);
        slist := slist + 1;
      }
      SplitDownEnd(heap, list);
    }

    /** `sh_malloc`: NULL (0) or the address of a zeroed block; no other live block changes. */
    method Malloc(size: nat) returns (chunk: nat)
      requires Consistent() && heap.Settled()
      modifies this`heap, freelist, arena, bittable, bitmalloc
      ensures Consistent() && heap.Settled()
      ensures chunk == 0 <==> BuddyHeap.Malloc(old(heap), size).Failed?
      ensures chunk == 0 ==> heap == old(heap) && Mem() == old(Mem())
      ensures chunk != 0 ==>
                var n := BuddyHeap.Malloc(old(heap), size).node;
                && heap == BuddyHeap.Malloc(old(heap), size).heap
                && n >= 1 && BlockAt(chunk, Level(n), n)
                && forall q :: q in Mem().back && Inside(g, arenaBase, n, q) ==> Zero(Mem(), q)
      ensures Kept(old(Mem()), Mem(), g, arenaBase, old(heap.live))
    {
      hide *;
      Unfold();
      ghost var h, m := heap, Mem();
      MallocParts(h, size);
      if size > arenaSize {
        return 0;
      }
      var list := ListForSize(size);
      var slist := FindSource(list);
      if slist < 0 {
        return 0;
      }
      SplitTo(slist, list);
      ghost var m1, n := Mem(), heap.lists[list][0];
      chunk := TakeOne(list);
      BlockPtr(chunk, list, n);
      KeptTrans(m, m1, Mem(), g, arenaBase, h.live);
      MallocSettled(h, size);
    }

    // Release

    /** What the coalescing loop needs to know about a free block and its free buddy. */
    lemma MergeBlocks(n: nat, l: nat, p: nat, b: nat)
      requires Consistent() && n >= 2 && n in heap.Free() && Buddy(n) in heap.Free()
      requires BlockAt(p, l, n) && Level(Buddy(n)) == l && b == Ptr(g, arenaBase, Buddy(n))
      ensures Cells() && Shape() && bittable != bitmalloc && |heap.lists| == freelistSize && g.Valid()
      ensures heap.g == g && AllNodes(g, heap.lists) && Represents(Mem(), heap, arenaBase) && heap.Inv()
      ensures l >= 1 && p != b && p != 0 && b != 0 && BlockAt(b, l, Buddy(n)) && Level(n) == l < freelistSize
      ensures var lo, hi := if p > b then b else p, if p > b then p else b;
              && BlockAt(lo, l - 1, n / 2) && g.Node(n / 2) && Level(n / 2) <= g.k
              && lo == Ptr(g, arenaBase, n / 2) && hi == lo + g.SizeAt(l)
      ensures p in Mem().back && b in Mem().back && p in HeaderSet() && b in HeaderSet()
      ensures n in heap.lists[l] && Buddy(n) in heap.lists[l] && Buddy(n) in Unlink(heap.lists, l, n)[l]
      ensures n in heap.table && Buddy(n) in heap.table && n / 2 !in heap.table && 0 !in heap.table
      ensures n !in heap.live && Buddy(n) !in heap.live && n / 2 !in heap.live
      ensures Buddy(Buddy(n)) == n
    {
      hide View, Linked, Quiet, Holds, Bits, Tiles, PtrList, Addrs, AllNodes, Ptr, Level, Spans, Unlink;
      BuddyBlocks(g, arenaBase, n, l, p, b);
      FreeView(Mem(), heap, arenaBase, n, l, p);
      FreeView(Mem(), heap, arenaBase, Buddy(n), l, b);
      ParentView(heap, n, l);
    }

    /** One round of the coalescing loop of `sh_free`. */
    method MergeOne(ptr: nat, buddy: nat, list: nat, ghost n: nat) returns (parent: nat)
      requires Consistent() && BlockAt(ptr, list, n) && n >= 2 && n in heap.Free() && Buddy(n) in heap.Free()
      requires Level(Buddy(n)) == list && buddy == Ptr(g, arenaBase, Buddy(n))
      modifies this`heap, freelist, arena, bittable
      ensures 1 <= list == Level(n) < |old(heap.lists)|
      ensures n in old(heap.lists[list]) && Buddy(n) in old(heap.lists[list])
      ensures Consistent() && heap == MergeUp(old(heap), n) && BlockAt(parent, list - 1, n / 2)
      ensures Kept(old(Mem()), Mem(), g, arenaBase, old(heap.live))
    {
      hide *;
      MergeBlocks(n, list, ptr, buddy);
      ghost var h, m := heap, Mem();
      var other := FindMyBuddy(buddy, list, Buddy(n));
      BlockPtr(ptr, list, n);
      assert ptr == other;
      assert ptr != 0;
      var taken := TestBitAt(ptr, list, bitmalloc, n);
      assert !taken;
      Retire(ptr, list, n);
      ghost var m1, L1 := Mem(), heap.lists;
      taken := TestBitAt(ptr, list, bitmalloc, n);
      assert !taken;
      Retire(buddy, list, Buddy(n));
      ghost var m2, L2 := Mem(), heap.lists;
      ghost var hi := if ptr > buddy then ptr else buddy;
      ZeroHeaderAt(if ptr > buddy then ptr else buddy);
      parent := if ptr > buddy then buddy else ptr;
      Enlist(parent, list - 1, n / 2);
      MergeRepresents(m, m1, m2, Mem(), h, arenaBase, n, list, hi, L1, L2);
      MergeUpSteps(h, n, list, L1, heap);
      MakeConsistent();
    }

    /** What freeing needs to know about a live block. */
    lemma LiveBlock(n: nat, p: nat)
      requires Consistent() && n in heap.live && Level(n) <= g.k && p == Ptr(g, arenaBase, n)
      ensures Cells() && Shape() && bittable != bitmalloc && |heap.lists| == freelistSize && g.Valid()
      ensures heap.g == g && AllNodes(g, heap.lists) && Represents(Mem(), heap, arenaBase) && heap.Inv()
      ensures n >= 1 && Level(n) < freelistSize && BlockAt(p, Level(n), n) && n in heap.table && g.Node(n)
      ensures p in Mem().back && p !in HeaderSet() && p != 0 && WithinArena(p)
      ensures Mem() == View(freelistBase, arenaBase, freelist[..], arena[..])
      ensures Bits(bittable[..]) == heap.table && Bits(bitmalloc[..]) == heap.live
      ensures bittable as object != arena && bitmalloc as object != arena && freelist != arena
      ensures forall u :: u in heap.live ==> g.Node(u)
    {
      hide View, Linked, Quiet, Holds, Bits, PtrList, Addrs, AllNodes, Covers, Antichain, CoversLeaves;
      LiveNotLinked(heap, arenaBase, n);
      TableNode(heap, n);
      BlockGranule(g, n);
      GranuleInArena(p);
    }

    /** The coalescing loop of `sh_free`, started at the free block of `n`. */
    method CoalesceFrom(start: nat, startList: nat, ghost n: nat)
      requires Consistent() && BlockAt(start, startList, n) && n in heap.Free()
      modifies this`heap, freelist, arena, bittable
      ensures old(heap).Inv() && Consistent() && heap == Coalesce(old(heap), n) && heap.live == old(heap.live)
      ensures Kept(old(Mem()), Mem(), g, arenaBase, old(heap.live))
    {
      hide *;
      Unfold();
      ghost var h, m, c := heap, Mem(), n;
      var ptr: nat, list: nat := start, startList;
      var buddy := FindMyBuddy(ptr, list, c);
      while buddy != 0
        invariant Consistent() && heap.Inv() && heap.live == h.live && BlockAt(ptr, list, c) && c in heap.Free()
        invariant Coalesce(h, n) == Coalesce(heap, c) && Kept(m, Mem(), g, arenaBase, h.live)
        invariant buddy != 0 <==> c >= 2 && Buddy(c) in heap.Free()
        invariant buddy != 0 ==> Level(Buddy(c)) == list <= g.k && buddy == Ptr(g, arenaBase, Buddy(c))
        decreases list
      {
        ghost var m1 := Mem();
        CoalesceStep(heap, c);
        ptr := MergeOne(ptr, buddy, list, c);
        KeptTrans(m, m1, Mem(), g, arenaBase, h.live);
        list, c := list - 1, c / 2;
        Unfold();
        buddy := FindMyBuddy(ptr, list, c);
      }
      CoalesceStep(heap, c);
    }

    /** `sh_free` on a live block whose bytes have been wiped. */
    method Free(ptr: nat, ghost n: nat)
      requires Consistent() && heap.Settled() && n in heap.live && Level(n) <= g.k && ptr == Ptr(g, arenaBase, n)
      requires forall q :: q in Mem().back && Inside(g, arenaBase, n, q) ==> Zero(Mem(), q)
      modifies this`heap, freelist, arena, bittable, bitmalloc
      ensures Consistent() && heap.Settled() && heap == BuddyHeap.Free(old(heap), n)
      ensures Kept(old(Mem()), Mem(), g, arenaBase, old(heap.live) - {n})
    {
      hide *;
      LiveBlock(n, ptr);
      ghost var h, m := heap, Mem();
      FreeParts(h, n);
      FreeSettled(h, n);
      assert WithinArena(ptr);
      var list := GetList(ptr, n);
      var there := TestBitAt(ptr, list, bittable, n);
      assert there;
      ClearBitAt(ptr, list, bitmalloc, n);
      AddToList(list, ptr, n);
      ghost var m1 := Mem();
      ReleaseRepresents(m, m1, h, arenaBase, n);
      ReleaseSteps(h, n, heap);
      MakeConsistent();
      CoalesceFrom(ptr, list, n);
      KeptTrans(m, m1, Mem(), g, arenaBase, h.live - {n});
    }

    // The public layer

    /** Word `w` of the arena belongs to the block of `n`. */
    ghost predicate WordOf(n: nat, w: nat)
      requires n >= 1 && Level(n) <= g.k
    {
      g.Off(n) <= 8 * w < g.Off(n) + g.Size(n)
    }

    /** The words of the blocks `U` are the same in `words` and in the arena. */
    ghost predicate WordsKept(words: seq<Word>, U: set<nat>)
      requires Shape() && (forall u :: u in U ==> g.Node(u)) && |words| == arena.Length
      reads arena
    {
      forall u, w :: u in U && 0 <= w < arena.Length && (NodeLevel(g, u); WordOf(u, w)) ==> arena[w] == words[w]
    }

    lemma GranuleOfWord(n: nat, w: nat)
      requires Shape() && g.Node(n) && Level(n) <= g.k && w < arena.Length && WordOf(n, w)
      ensures Inside(g, arenaBase, n, arenaBase + 16 * (w / 2))
    {
      BlockGranule(g, n);
      hide Level, Pow2;
      RoundDown(g.Off(n), g.Size(n), w);
    }

    static lemma RoundDown(off: nat, size: nat, w: nat)
      requires off % 16 == 0 && size % 16 == 0 && off <= 8 * w < off + size
      ensures off <= 16 * (w / 2) < off + size
    {
      assert off == 16 * (off / 16) && size == 16 * (size / 16);
    }

    /** Granules kept are words kept. */
    lemma KeptWords(slots: seq<Word>, words: seq<Word>, U: set<nat>)
      requires Shape() && (forall u :: u in U ==> g.Node(u)) && |slots| == freelist.Length && |words| == arena.Length
      requires Kept(View(freelistBase, arenaBase, slots, words), Mem(), g, arenaBase, U)
      ensures WordsKept(words, U)
    {
      hide View;
      forall u, w | u in U && 0 <= w < arena.Length && (NodeLevel(g, u); WordOf(u, w))
        ensures arena[w] == words[w]
      {
        NodeLevel(g, u);
        GranuleOfWord(u, w);
        WordInGranule(freelistBase, arenaBase, slots, words, w);
        WordInGranule(freelistBase, arenaBase, freelist[..], arena[..], w);
      }
    }

    /** A block of zero granules is a block of zero words. */
    lemma ZeroWords(n: nat)
      requires Shape() && g.Node(n) && Level(n) <= g.k
      requires forall q :: q in Mem().back && Inside(g, arenaBase, n, q) ==> Zero(Mem(), q)
      ensures forall w :: 0 <= w < arena.Length && WordOf(n, w) ==> arena[w] == 0
    {
      hide View;
      forall w | 0 <= w < arena.Length && WordOf(n, w)
        ensures arena[w] == 0
      {
        GranuleOfWord(n, w);
        WordInGranule(freelistBase, arenaBase, freelist[..], arena[..], w);
      }
    }

    /** `sh_actual_size` */
    method ActualSize(ptr: nat, ghost n: nat) returns (size: nat)
      requires Consistent() && n in heap.live && Level(n) <= g.k && ptr == Ptr(g, arenaBase, n)
      ensures size == g.Size(n)
    {
      hide *;
      LiveBlock(n, ptr);
      assert WithinArena(ptr);
      var list := GetList(ptr, n);
      var there := TestBitAt(ptr, list, bittable, n);
      assert there;
      SizeOfLevel(n);
      size := arenaSize / Pow2(list);
    }

    lemma SizeOfLevel(n: nat)
      requires Shape() && n >= 1 && Level(n) <= g.k
      ensures Pow2(Level(n)) >= 1 && arenaSize / Pow2(Level(n)) == g.Size(n)
    {
      hide Pow2, Level;
      Pow2Add(g.k - Level(n), Level(n));
      DivCancel(g.Size(n), Pow2(Level(n)));
    }

    /** A granule lies in a block exactly when its two words do. */
    lemma WordsOfGranule(n: nat, q: nat)
      requires Shape() && g.Node(n) && Level(n) <= g.k && q in Mem().back
      ensures q >= arenaBase
      ensures var i := (q - arenaBase) / 8;
              && i + 1 < arena.Length && q in Mem().next
              && Mem().next[q] == arena[i] && Mem().back[q] == arena[i + 1]
              && (Inside(g, arenaBase, n, q) <==> WordOf(n, i)) && (Inside(g, arenaBase, n, q) <==> WordOf(n, i + 1))
    {
      hide View, Level, Pow2;
      ViewAt(freelistBase, arenaBase, freelist[..], arena[..], q);
      BlockGranule(g, n);
      BothWords(g.Off(n), g.Size(n), q - arenaBase);
    }

    static lemma BothWords(off: nat, size: nat, d: nat)
      requires off % 16 == 0 && size % 16 == 0 && d % 16 == 0
      ensures 8 * (d / 8) == d
      ensures off <= d < off + size <==> off <= d + 8 < off + size
    {
      var a, b, c := off / 16, size / 16, d / 16;
      assert off == 16 * a && size == 16 * b && d == 16 * c;
      assert d == 8 * (2 * c);
      DivCancel(2 * c, 8);
      Sixteenths(a, b, c);
    }

    static lemma Sixteenths(a: nat, b: nat, c: nat)
      ensures 16 * a <= 16 * c < 16 * a + 16 * b <==> 16 * a <= 16 * c + 8 < 16 * a + 16 * b
    {
    }

    /** Writing words of one live block keeps the heap represented. */
    lemma BlockWritten(m: Memory, words: seq<Word>, n: nat)
      requires Shape() && |words| == arena.Length && m == View(freelistBase, arenaBase, freelist[..], words)
      requires heap.g == g && Represents(m, heap, arenaBase) && n in heap.live && Level(n) <= g.k && g.Node(n)
      requires forall w :: 0 <= w < arena.Length && !WordOf(n, w) ==> arena[w] == words[w]
      ensures Represents(Mem(), heap, arenaBase)
      ensures Kept(m, Mem(), g, arenaBase, heap.live - {n})
    {
      hide View, Represents, Level, Pow2, Kept;
      ViewShape(freelistBase, arenaBase, freelist[..], words, freelist[..], arena[..]);
      forall l | 0 <= l < |m.slots|
        ensures m.slots[l] in Mem().next && m.slots[l] in m.next && Mem().next[m.slots[l]] == m.next[m.slots[l]]
      {
        ViewSlotAt(freelistBase, arenaBase, freelist[..], words, m.slots[l]);
        ViewSlotAt(freelistBase, arenaBase, freelist[..], arena[..], m.slots[l]);
      }
      forall q | q in m.back && q in m.next && !Inside(g, arenaBase, n, q)
        ensures Mem().next[q] == m.next[q] && Mem().back[q] == m.back[q]
      {
        ViewAt(freelistBase, arenaBase, freelist[..], words, q);
        WordsOfGranule(n, q);
      }
      LiveWriteRepresents(m, Mem(), heap, arenaBase, n);
    }

    /** The words of a block are a range of the arena. */
    lemma BlockRange(n: nat, ptr: nat)
      requires n >= 1 && BlockAt(ptr, Level(n), n)
      ensures arenaBase <= ptr
      ensures var first, count := (ptr - arenaBase) / 8, g.Size(n) / 8;
              && first + count <= arena.Length
              && forall w: nat :: WordOf(n, w) <==> first <= w < first + count
    {
      hide Level, Pow2;
      BlockGranule(g, n);
      var off, size := g.Off(n), g.Size(n);
      Eighths(off, size, arena.Length);
      forall w: nat
        ensures WordOf(n, w) <==> off / 8 <= w < off / 8 + size / 8
      {
        Eighths(off, size, w);
      }
    }

    static lemma Eighths(off: nat, size: nat, w: nat)
      requires off % 16 == 0 && size % 16 == 0
      ensures off <= 8 * w < off + size <==> off / 8 <= w < off / 8 + size / 8
      ensures off + size <= 8 * w ==> off / 8 + size / 8 <= w
    {
      DivModUnique(off, 8, 2 * (off / 16), 0);
      DivModUnique(size, 8, 2 * (size / 16), 0);
    }

    /** A block of zero words is a block of zero granules. */
    lemma ZeroGranules(n: nat)
      requires Shape() && g.Node(n) && Level(n) <= g.k
      requires forall w :: 0 <= w < arena.Length && WordOf(n, w) ==> arena[w] == 0
      ensures forall q :: q in Mem().back && Inside(g, arenaBase, n, q) ==> Zero(Mem(), q)
    {
      hide View, Level, Pow2;
      forall q | q in Mem().back && Inside(g, arenaBase, n, q)
        ensures Zero(Mem(), q)
      {
        WordsOfGranule(n, q);
      }
    }

    lemma Reassemble()
      requires Shape() && heap.g == g && Represents(Mem(), heap, arenaBase)
      requires Bits(bittable[..]) == heap.table && Bits(bitmalloc[..]) == heap.live
      ensures Consistent()
    {
      hide View, Linked, Quiet, Holds, Bits, Addrs, Covers, PtrList;
      ListsAreNodes(heap);
    }

    /** `CLEAR(ptr, size)` on a live block. */
    method ClearBlock(ptr: nat, size: nat, ghost n: nat)
      requires Consistent() && n in heap.live && Level(n) <= g.k && ptr == Ptr(g, arenaBase, n) && size == g.Size(n)
      modifies arena
      ensures Consistent()
      ensures forall q :: q in Mem().back && Inside(g, arenaBase, n, q) ==> Zero(Mem(), q)
      ensures Kept(old(Mem()), Mem(), g, arenaBase, old(heap.live) - {n})
    {
      hide *;
      LiveBlock(n, ptr);
      ghost var words, m := arena[..], Mem();
      BlockRange(n, ptr);
      ClearWords((ptr - arenaBase) / 8, size / 8);
      BlockWritten(m, words, n);
      ZeroGranules(n);
      Reassemble();
    }

    /** Zero `count` words from word `first` on. */
    method ClearWords(first: nat, count: nat)
      requires first + count <= arena.Length
      modifies arena
      ensures forall w :: 0 <= w < arena.Length ==>
                arena[w] == if first <= w < first + count then 0 else old(arena[w])
    {
      var i := first;
      while i < first + count
        invariant first <= i <= first + count
        invariant forall w :: 0 <= w < arena.Length ==>
                    arena[w] == if first <= w < i then 0 else old(arena[w])
      {
        arena[i] := 0;
        i := i + 1;
      }
    }

    /** What `Valid` says to callers of the public layer. */
    lemma UnfoldValid()
      requires Valid()
      ensures Consistent() && Shape() && heap.Settled() && heap.g == g && g.Valid() && heap.Inv()
      ensures |heap.lists| == g.Levels() && arenaSize == g.ArenaSize()
      ensures (forall u :: u in heap.live ==> g.Node(u)) && used == SumSizes(g, heap.live)
      ensures Mem() == View(freelistBase, arenaBase, freelist[..], arena[..])
    {
      hide View, Linked, Quiet, Holds, Bits, Ptrs, Covers;
    }

    lemma MakeValid()
      requires Consistent() && heap.Settled() && heap.g == g && g.Valid() && forall u :: u in heap.live ==> g.Node(u)
      requires used == SumSizes(g, heap.live)
      ensures Valid()
    {
    }

    /**
      `CRYPTO_secure_malloc`: NULL exactly when no aligned free region fits; otherwise an aligned,
      zeroed block of the rounded size, with every other live block untouched.
    */
    method SecureMalloc(num: nat) returns (ptr: nat, ghost n: nat)
      requires Valid()
      modifies this, freelist, arena, bittable, bitmalloc
      ensures Valid() && old(heap).Inv()
      ensures ptr == 0 <==> num > arenaSize || !HasRegion(old(heap), BlockSize(g, num))
      ensures ptr == 0 ==> BuddyHeap.Malloc(old(heap), num).Failed? && heap == old(heap) && used == old(used)
      ensures ptr != 0 ==>
                && num <= arenaSize && g.Node(n) && Level(n) <= g.k && ptr == Ptr(g, arenaBase, n)
                && BuddyHeap.Malloc(old(heap), num) == Allocated(heap, n)
                && n !in old(heap.live) && heap.live == old(heap.live) + {n}
                && g.Size(n) == BlockSize(g, num) && used == old(used) + g.Size(n)
                && forall w :: 0 <= w < arena.Length && WordOf(n, w) ==> arena[w] == 0
      ensures WordsKept(old(arena[..]), old(heap.live))
    {
      hide *;
      UnfoldValid();
      ghost var h, words, slots := heap, arena[..], freelist[..];
      MallocFailsIff(h, num);
      n := 0;
      ptr := Malloc(num);
      var actual := 0;
      Unfold();
      if ptr != 0 {
        MallocSettled(h, num);
        n := BuddyHeap.Malloc(h, num).node;
        BlockPtr(ptr, Level(n), n);
        actual := ActualSize(ptr, n);
        ZeroWords(n);
        SumRemove(g, heap.live, n);
        assert heap.live - {n} == h.live;
      }
      used := used + actual;
      KeptWords(slots, words, h.live);
      MakeValid();
    }

    /**
      `CRYPTO_secure_free` and `CRYPTO_secure_clear_free`: a block of the arena is wiped, given back
      and coalesced; any other pointer leaves the heap alone.
    */
    method SecureFree(ptr: nat, ghost n: nat)
      requires Valid()
      requires WithinArena(ptr) ==> n in heap.live && Level(n) <= g.k && ptr == Ptr(g, arenaBase, n)
      modifies this, freelist, arena, bittable, bitmalloc
      ensures Valid() && old(heap).Inv()
      ensures !WithinArena(ptr) ==> heap == old(heap) && used == old(used)
      ensures WithinArena(ptr) ==>
                && heap == BuddyHeap.Free(old(heap), n) && heap.live == old(heap.live) - {n}
                && used == old(used) - g.Size(n)
      ensures WordsKept(old(arena[..]), heap.live)
    {
      hide *;
      UnfoldValid();
      ghost var h, words, slots, m := heap, arena[..], freelist[..], Mem();
      if ptr == 0 || !WithinArena(ptr) {
        NullOutside();
        WordsKeptSame(words);
        return;
      }
      var actual := ActualSize(ptr, n);
      ClearBlock(ptr, actual, n);
      ghost var m1 := Mem();
      SumRemove(g, h.live, n);
      FreeSettled(h, n);
      used := used - actual;
      Free(ptr, n);
      KeptTrans(m, m1, Mem(), g, arenaBase, heap.live);
      KeptWords(slots, words, heap.live);
      MakeValid();
    }

    lemma NullOutside()
      requires Shape()
      ensures !WithinArena(0)
    {
    }

    lemma WordsKeptSame(words: seq<Word>)
      requires Shape() && words == arena[..] && forall u :: u in heap.live ==> g.Node(u)
      ensures WordsKept(words, heap.live)
    {
    }

    /** A client stores a word in a block it owns. */
    method ClientStore(ptr: nat, i: nat, v: Word, ghost n: nat)
      requires Valid() && n in heap.live && Level(n) <= g.k && ptr == Ptr(g, arenaBase, n) && 8 * i < g.Size(n)
      modifies arena
      ensures Valid()
      ensures (ptr - arenaBase) / 8 + i < arena.Length
      ensures arena[..] == old(arena[..])[(ptr - arenaBase) / 8 + i := v]
    {
      hide *;
      UnfoldValid();
      LiveBlock(n, ptr);
      BlockRange(n, ptr);
      BlockEighth(n, i);
      ghost var words, m := arena[..], Mem();
      arena[(ptr - arenaBase) / 8 + i] := v;
      assert arena[..] == words[(ptr - arenaBase) / 8 + i := v];
      BlockWritten(m, words, n);
      Reassemble();
      MakeValid();
    }

    /** A client stores a byte in a block it owns. */
    method ClientStoreByte(ptr: nat, j: nat, b: Byte, ghost n: nat)
      requires Valid() && n in heap.live && Level(n) <= g.k && ptr == Ptr(g, arenaBase, n) && j < g.Size(n)
      modifies arena
      ensures Valid() && arenaBase <= ptr && ptr - arenaBase + j < 8 * arena.Length
      ensures WordIndex(arenaBase, ptr, j) < arena.Length
      ensures var w := WordIndex(arenaBase, ptr, j);
              arena[..] == old(arena[..])[w := WithByte(old(arena[..])[w], j % 8, b)]
      ensures forall a: nat :: a < 8 * arena.Length ==>
                ByteOf(arena[..], a) == if a == ptr - arenaBase + j then b else ByteOf(old(arena[..]), a)
    {
      hide *;
      ByteInBlock(ptr, j, n);
      var w := WordIndex(arenaBase, ptr, j);
      ghost var words := arena[..];
      ClientStore(ptr, j / 8, WithByte(arena[w], j % 8, b), n);
      OneByteChanged(words, arena[..], ptr - arenaBase + j, b);
    }

    lemma ByteInBlock(ptr: nat, j: nat, n: nat)
      requires Valid() && n in heap.live && Level(n) <= g.k && ptr == Ptr(g, arenaBase, n) && j < g.Size(n)
      ensures arenaBase <= ptr && 8 * (j / 8) < g.Size(n)
      ensures var w := WordIndex(arenaBase, ptr, j);
              && w < arena.Length && w == (ptr - arenaBase) / 8 + j / 8 == (ptr - arenaBase + j) / 8
              && j % 8 == (ptr - arenaBase + j) % 8 && ptr - arenaBase + j < 8 * arena.Length
    {
      hide *;
      UnfoldValid();
      LiveBlock(n, ptr);
      BlockRange(n, ptr);
      BlockEighth(n, j / 8);
      PtrAligned(ptr, n);
      SameWord(arenaBase, ptr, j);
    }

    lemma PtrAligned(ptr: nat, n: nat)
      requires g.Valid() && g.Node(n) && Level(n) <= g.k && ptr == Ptr(g, arenaBase, n)
      ensures ptr >= arenaBase && (ptr - arenaBase) % 8 == 0
    {
      hide Level, Pow2;
      BlockGranule(g, n);
      Sixteen(g.Off(n));
    }

    static lemma Sixteen(x: nat)
      requires x % 16 == 0
      ensures x % 8 == 0 && x == 8 * (x / 8) && x / 8 % 2 == 0
    {
      var q := x / 16;
      assert x == 8 * (2 * q);
      DivCancel(2 * q, 8);
    }

    static lemma OneByteChanged(words: seq<Word>, words': seq<Word>, at: nat, b: Byte)
      requires at < 8 * |words| && words' == words[at / 8 := WithByte(words[at / 8], at % 8, b)]
      ensures forall a: nat :: a < 8 * |words| ==> ByteOf(words', a) == if a == at then b else ByteOf(words, a)
    {
      forall a: nat | a < 8 * |words|
        ensures ByteOf(words', a) == if a == at then b else ByteOf(words, a)
      {
        SetByteAt(words[at / 8], at % 8, b, a % 8);
      }
    }

    lemma BlockEighth(n: nat, i: nat)
      requires Shape() && g.Node(n) && Level(n) <= g.k && 8 * i < g.Size(n)
      ensures i < g.Size(n) / 8
    {
      hide Level, Pow2;
      BlockGranule(g, n);
    }

    /** `CRYPTO_secure_malloc_done` succeeds exactly when no block is live, and then the heap is as initialised. */
    method MallocDone() returns (ret: bool)
      requires Valid()
      ensures ret <==> heap.live == {}
      ensures ret ==> heap == BuddyHeap.Init(g)
    {
      hide *;
      UnfoldValid();
      Conservation(heap);
      ret := used == 0;
      if ret {
        EmptyIsInit(heap);
      }
    }

    /** Two empty heaps of the same shape are equal byte for byte, whatever happened to either before. */
    lemma EmptyHeapsEqual(other: SecureHeap)
      requires Valid() && other.Valid() && heap.live == {} && other.heap.live == {}
      requires g == other.g && arenaBase == other.arenaBase && freelistBase == other.freelistBase
      ensures bittable[..] == other.bittable[..] && bitmalloc[..] == other.bitmalloc[..]
      ensures freelist[..] == other.freelist[..] && arena[..] == other.arena[..]
    {
      hide View, Linked, Quiet, Holds, Tiles, AllNodes, Ptrs, Level, Pow2;
      EmptyIsInit(heap);
      EmptyIsInit(other.heap);
      BitsDetermineTable(bittable[..], other.bittable[..]);
      BitsDetermineTable(bitmalloc[..], other.bitmalloc[..]);
      hide Bits;
      EmptyMemory(Mem(), heap, arenaBase);
      EmptyMemory(other.Mem(), other.heap, arenaBase);
      assert forall l :: 0 <= l < |Mem().slots| ==> other.Mem().slots[l] == Mem().slots[l];
      CellsDetermineArrays(other);
    }

    lemma CellsDetermineArrays(other: SecureHeap)
      requires Shape() && other.Shape() && g == other.g
      requires arenaBase == other.arenaBase && freelistBase == other.freelistBase
      requires var m, m' := Mem(), other.Mem();
               && (forall l :: 0 <= l < |m.slots| ==>
                    m.slots[l] in m.next && m.slots[l] in m'.next && m.next[m.slots[l]] == m'.next[m.slots[l]])
               && (forall q :: q in m.back ==>
                    q in m'.back && q in m.next && q in m'.next && m.next[q] == m'.next[q] && m.back[q] == m'.back[q])
      ensures freelist[..] == other.freelist[..] && arena[..] == other.arena[..]
    {
      hide View, Level, Pow2;
      forall l | 0 <= l < freelist.Length
        ensures freelist[l] == other.freelist[l]
      {
        ViewSlotAt(freelistBase, arenaBase, freelist[..], arena[..], freelistBase + 8 * l);
        ViewSlotAt(freelistBase, arenaBase, other.freelist[..], other.arena[..], freelistBase + 8 * l);
        assert Mem().slots[l] == freelistBase + 8 * l;
      }
      forall w | 0 <= w < arena.Length
        ensures arena[w] == other.arena[w]
      {
        WordInGranule(freelistBase, arenaBase, freelist[..], arena[..], w);
        WordInGranule(freelistBase, arenaBase, other.freelist[..], other.arena[..], w);
        var q := arenaBase + 16 * (w / 2);
        assert q in Mem().back && Mem().next[q] == other.Mem().next[q] && Mem().back[q] == other.Mem().back[q];
      }
    }

    // Initialisation

    /** Bitmaps, list heads and arena, all zero: no block exists yet. */
    constructor (ghost g: Geometry, arenaSize: nat, minsize: nat, freelistSize: nat, bittableSize: nat,
                 freelistBase: nat, arenaBase: nat, words: nat, bytes: nat)
      requires g.Valid() && arenaSize == g.ArenaSize() == 8 * words && minsize == g.MinSize()
      requires freelistSize == g.Levels() && bittableSize == g.Bits() == 8 * bytes
      requires Placed(freelistBase, arenaBase, freelistSize, words)
      ensures Shape() && this.g == g && this.freelistBase == freelistBase && this.arenaBase == arenaBase
      ensures this.arenaSize == arenaSize && this.minsize == minsize && this.freelistSize == freelistSize && used == 0
      ensures heap == Bare(g, freelistSize)
      ensures fresh(freelist) && fresh(arena) && fresh(bittable) && fresh(bitmalloc)
      ensures forall l :: 0 <= l < freelist.Length ==> freelist[l] == 0
      ensures forall w :: 0 <= w < arena.Length ==> arena[w] == 0
      ensures (forall i :: 0 <= i < bittable.Length ==> bittable[i] == 0)
      ensures (forall i :: 0 <= i < bitmalloc.Length ==> bitmalloc[i] == 0)
    {
      hide Pow2, Level, Placed;
      this.g := g;
      this.arenaSize, this.minsize := arenaSize, minsize;
      this.freelistSize, this.bittableSize := freelistSize, bittableSize;
      this.freelistBase, this.arenaBase := freelistBase, arenaBase;
      freelist := new Word[freelistSize](_ => 0);
      arena := new Word[words](_ => 0);
      bittable := new bv8[bytes](_ => 0);
      bitmalloc := new bv8[bytes](_ => 0);
      used := 0;
      heap := Bare(g, freelistSize);
    }

    /** A heap without blocks. */
    static ghost function Bare(g: Geometry, lists: nat): Heap {
      Heap(g, {}, {}, seq(lists, _ => []))
    }

    /** Zeroed arrays hold the heap without blocks. */
    static ghost predicate Blank(m: Memory) {
      forall q :: q in m.back ==> Zero(m, q)
    }

    lemma ZeroCells()
      requires Shape() && heap == Bare(g, freelistSize)
      requires forall l :: 0 <= l < freelist.Length ==> freelist[l] == 0
      requires forall w :: 0 <= w < arena.Length ==> arena[w] == 0
      requires (forall i :: 0 <= i < bittable.Length ==> bittable[i] == 0)
      requires (forall i :: 0 <= i < bitmalloc.Length ==> bitmalloc[i] == 0)
      ensures Cells() && HeaderSet() == {} && Spans(Mem(), g, arenaBase)
      ensures Blank(Mem())
    {
      hide View, Linked, Bits, Addrs, Pow2, PtrList;
      ZeroTable(bittable[..]);
      ZeroTable(bitmalloc[..]);
      ViewValid(freelistBase, arenaBase, freelist[..], arena[..]);
      ghost var m := Mem();
      forall l | 0 <= l < |m.slots|
        ensures m.next[m.slots[l]] == 0
      {
        ViewSlotAt(freelistBase, arenaBase, freelist[..], arena[..], m.slots[l]);
      }
      forall q: nat
        ensures q in m.back <==> IsGranule(arenaBase, arena.Length, q)
        ensures q in m.back ==> Zero(m, q)
      {
        ViewAt(freelistBase, arenaBase, freelist[..], arena[..], q);
      }
      EmptyLinked(m, Ptrs(g, arenaBase, heap.lists));
    }

    /** The heap after the first block has been entered. */
    lemma FirstBlock(m: Memory, h: Heap)
      requires Cells() && h.g == g && h.lists == Bare(g, freelistSize).lists && AllNodes(g, h.lists) && g.Node(1)
      requires heap == Heap(g, {1}, {}, Link(h.lists, 0, 1))
      requires Spans(m, g, arenaBase) && Blank(m)
      requires Links(m, Mem(), g, arenaBase, h.lists, 0, 1)
      ensures Consistent() && heap == BuddyHeap.Init(g) && heap.Settled()
    {
      hide View, Linked, Holds, Bits, Addrs, Covers, PtrList;
      InitSettled(g);
      assert heap.lists[0] == [1];
      assert heap.lists == BuddyHeap.Init(g).lists;
      SpansShape(m, Mem(), g, arenaBase);
    }

    /** `minsize` doubled until it can hold a list header. */
    static method RoundMin(minsize: nat, ghost e: nat) returns (min: nat, ghost e': nat)
      requires minsize == Pow2(e)
      ensures min == (if minsize < 16 then 16 else minsize) && min == Pow2(e') && e' >= 4
    {
      SixteenIsPow2(e);
      min, e' := minsize, e;
      while min < 16
        invariant min == Pow2(e') && e <= e'
        invariant if minsize < 16 then e' <= 4 else e' == e
        decreases 16 - min
      {
        SixteenIsPow2(e');
        min, e' := 2 * min, e' + 1;
      }
      SixteenIsPow2(e');
    }

    static lemma SixteenIsPow2(e: nat)
      ensures Pow2(e) < 16 <==> e < 4
      ensures e == 4 ==> Pow2(e) == 16
    {
      assert Pow2(4) == 16 by { assert Pow2(2) == 4; }
      if e < 4 {
        Pow2Monotone(e, 4);
      } else {
        Pow2Monotone(4, e);
      }
    }

    /** `freelist_size`: how often the bit count halves before it reaches one. */
    static method CountLevels(bits: nat, ghost levels: nat) returns (n: nat)
      requires bits == Pow2(levels)
      ensures n == levels
    {
      var i, count := bits, -1;
      ghost var e: int := levels;
      while i != 0
        invariant -1 <= e <= levels && count == levels - e - 1
        invariant i == if e >= 0 then Pow2(e) else 0
      {
        i, count, e := i / 2, count + 1, e - 1;
      }
      n := count;
    }

    /** The arguments that `sh_init` does not reject. */
    static ghost predicate Accepts(size: nat, minsize: int) {
      && minsize > 0 && IsPow2(size) && IsPow2(minsize)
      && 4 * (if minsize < 16 then 16 else minsize) <= size
    }

    /** Where the system puts up to 64 list heads and the arena: in 64 bits, apart, and not at NULL. */
    static predicate Mapped(size: nat, freelistBase: nat, arenaBase: nat) {
      && 0 < freelistBase && 0 < arenaBase
      && (freelistBase + 8 * 64 <= arenaBase || arenaBase + size <= freelistBase)
      && freelistBase + 8 * 64 <= 0x1_0000_0000_0000_0000 && arenaBase + size <= 0x1_0000_0000_0000_0000
    }

    static function BitCount(size: nat, min: nat): nat
      requires min > 0
    {
      size / min * 2
    }

    static lemma GeometryOf(size: nat, min: nat, k: nat, m: nat)
      requires size == Pow2(k) && size < 0x1_0000_0000_0000_0000 && min == Pow2(m) && m >= 4
      ensures BitCount(size, min) / 8 == 0 <==> size < 4 * min
      ensures size >= 4 * min ==>
                && Geometry(k, m).Valid() && size % 16 == 0
                && BitCount(size, min) == Pow2(k - m + 1) && BitCount(size, min) % 8 == 0
    {
      hide Pow2;
      assert size / min < 4 <==> size < 4 * min by { QuotientBelow4(size, min); }
      if size >= 4 * min {
        GeometryValid(size, k, m);
        GeometryBits(k, m);
      }
    }

    static lemma GeometryBits(k: nat, m: nat)
      requires 4 <= m && m + 2 <= k
      ensures BitCount(Pow2(k), Pow2(m)) == Pow2(k - m + 1)
      ensures Pow2(k - m + 1) % 8 == 0 && Pow2(k) % 16 == 0
    {
      BitCountPow2(k, m);
      hide Pow2, BitCount;
      Pow2Steps(k - m - 2);
      Multiple16(1, k);
    }

    static lemma BitCountPow2(k: nat, m: nat)
      requires m <= k
      ensures BitCount(Pow2(k), Pow2(m)) == Pow2(k - m + 1)
    {
      hide Pow2;
      DivPow2(k, m);
      DoublePow2(k - m + 1);
    }

    static lemma GeometryValid(size: nat, k: nat, m: nat)
      requires size == Pow2(k) && size < 0x1_0000_0000_0000_0000 && m >= 4 && size >= 4 * Pow2(m)
      ensures Geometry(k, m).Valid()
    {
      Pow2SizeT(k);
      if k < m + 2 {
        Pow2Monotone(k, m + 1);
        assert false;
      }
    }

    /**
      `sh_init`: aborts on sizes that are not powers of two, rejects arenas of fewer than four smallest
      blocks, and otherwise builds a heap that is one free block.  The addresses stand for what the
      system returns; `tables`, `mapped` and `secured` say whether the tables were allocated, the
      arena was mapped, and guard pages and locking succeeded.
    */
    static method Init(size: nat, minsize: int, freelistBase: nat, arenaBase: nat,
                       tables: bool, mapped: bool, secured: bool)
      returns (status: InitStatus, h: SecureHeap?)
      requires size < 0x1_0000_0000_0000_0000 && minsize < 0x8000_0000
      requires Accepts(size, minsize) && tables && mapped ==> Mapped(size, freelistBase, arenaBase)
      ensures status == Aborted <==>
                !(minsize > 0 && IsPow2(size) && IsPow2(minsize)) || (Accepts(size, minsize) && !tables)
      ensures status in {Ready, Unprotected} <==> Accepts(size, minsize) && tables && mapped
      ensures status == Ready ==> secured
      ensures status == Unprotected ==> !secured
      ensures h != null <==> status in {Ready, Unprotected}
      ensures h != null ==>
                && fresh(h) && fresh(h.freelist) && fresh(h.arena) && fresh(h.bittable) && fresh(h.bitmalloc)
                && h.Valid() && h.heap == BuddyHeap.Init(h.g) && h.used == 0 && h.arenaBase == arenaBase
                && h.arenaSize == size && h.minsize == (if minsize < 16 then 16 else minsize)
                && h.freelistSize >= 1 && Pow2(h.freelistSize - 1) * h.minsize == size
    {
      hide *;
      if size == 0 || And(size, size - 1) != 0 {
        RejectSize(size, minsize);
        return Aborted, null;
      }
      if minsize <= 0 || And(minsize, minsize - 1) != 0 {
        RejectMin(size, minsize);
        return Aborted, null;
      }
      ghost var k := Exponent(size);
      ghost var e := Exponent(minsize);
      var min, m := RoundMin(minsize, e);
      Decide(size, minsize, min, k, m, freelistBase, arenaBase);
      var bits := BitCount(size, min);
      if bits / 8 == 0 {
        return Rejected, null;
      }
      ghost var g := Geometry(k, m);
      var levels := CountLevels(bits, g.Levels());
      if !tables {
        return Aborted, null;
      }
      if !mapped {
        return Rejected, null;
      }
      h := Build(g, size, min, levels, bits, freelistBase, arenaBase, size / 8, bits / 8);
      Pow2Add(levels - 1, m);
      status := if secured then Ready else Unprotected;
    }

    static lemma RejectSize(size: nat, minsize: int)
      requires size == 0 || And(size, size - 1) != 0
      ensures !IsPow2(size) && !Accepts(size, minsize)
    {
      if size > 0 { PowerOfTwoTest(size); }
    }

    static lemma RejectMin(size: nat, minsize: int)
      requires minsize <= 0 || And(minsize, minsize - 1) != 0
      ensures (minsize > 0 ==> !IsPow2(minsize)) && !Accepts(size, minsize)
    {
      if minsize > 0 { PowerOfTwoTest(minsize); }
    }

    static lemma Exponent(x: nat) returns (e: nat)
      requires x > 0 && And(x, x - 1) == 0
      ensures x == Pow2(e) && IsPow2(x)
    {
      PowerOfTwoTest(x);
      e :| Pow2(e) == x;
    }

    static lemma Decide(size: nat, minsize: int, min: nat, k: nat, m: nat, freelistBase: nat, arenaBase: nat)
      requires size == Pow2(k) && size < 0x1_0000_0000_0000_0000 && min == Pow2(m) && m >= 4
      requires minsize > 0 && And(minsize, minsize - 1) == 0 && min == (if minsize < 16 then 16 else minsize)
      ensures min > 0
      ensures BitCount(size, min) / 8 == 0 <==> !Accepts(size, minsize)
      ensures BitCount(size, min) / 8 != 0 ==>
                var g := Geometry(k, m);
                && g.Valid() && size == g.ArenaSize() && min == g.MinSize() && g.Levels() == k - m + 1 && k >= m
                && BitCount(size, min) == g.Bits() == Pow2(k - m + 1) == 8 * (BitCount(size, min) / 8)
                && size == 8 * (size / 8)
                && (Mapped(size, freelistBase, arenaBase) ==> Placed(freelistBase, arenaBase, g.Levels(), size / 8))
    {
      hide Pow2, BitCount, And, Placed;
      GeometryOf(size, min, k, m);
      Accepted(size, minsize, k);
      if size >= 4 * min {
        var bits := BitCount(size, min);
        Eight(bits);
        Sixteen(size);
        if Mapped(size, freelistBase, arenaBase) {
          Fitting(size, k - m + 1, freelistBase, arenaBase);
        }
      }
    }

    static lemma Accepted(size: nat, minsize: int, k: nat)
      requires size == Pow2(k) && minsize > 0 && And(minsize, minsize - 1) == 0
      ensures Accepts(size, minsize) <==> size >= 4 * if minsize < 16 then 16 else minsize
    {
      hide Pow2, And;
      PowerOfTwoTest(minsize);
      assert IsPow2(size);
    }

    static lemma Eight(x: nat)
      requires x % 8 == 0
      ensures x == 8 * (x / 8)
    {
    }

    static lemma Fitting(size: nat, levels: nat, freelistBase: nat, arenaBase: nat)
      requires size == 8 * (size / 8) && size / 8 % 2 == 0 && levels <= 64 && Mapped(size, freelistBase, arenaBase)
      ensures Placed(freelistBase, arenaBase, levels, size / 8)
    {
    }

    /** The end of `sh_init`: the whole arena becomes the first free block. */
    static method Build(ghost g: Geometry, arenaSize: nat, minsize: nat, freelistSize: nat, bittableSize: nat,
                        freelistBase: nat, arenaBase: nat, words: nat, bytes: nat) returns (h: SecureHeap)
      requires g.Valid() && arenaSize == g.ArenaSize() == 8 * words && minsize == g.MinSize()
      requires freelistSize == g.Levels() && bittableSize == g.Bits() == 8 * bytes
      requires Placed(freelistBase, arenaBase, freelistSize, words)
      ensures fresh(h) && fresh(h.freelist) && fresh(h.arena) && fresh(h.bittable) && fresh(h.bitmalloc)
      ensures h.Valid() && h.g == g && h.heap == BuddyHeap.Init(g) && h.used == 0
      ensures h.arenaSize == arenaSize && h.minsize == minsize
      ensures h.freelistSize == freelistSize && h.arenaBase == arenaBase
    {
      hide *;
      h := new SecureHeap(g, arenaSize, minsize, freelistSize, bittableSize, freelistBase, arenaBase, words, bytes);
      h.ZeroCells();
      h.SeedArena();
    }

    method SeedArena()
      requires Cells() && HeaderSet() == {} && Spans(Mem(), g, arenaBase) && Blank(Mem()) && used == 0
      requires heap == Bare(g, freelistSize)
      modifies freelist, arena, bittable, this`heap
      ensures Valid() && heap == BuddyHeap.Init(g)
    {
      hide *;
      FirstFacts();
      ghost var h0, m := heap, Mem();
      SetBitAt(arenaBase, 0, bittable, 1);
      AddToList(0, arenaBase, 1);
      FirstBlock(m, h0);
      MakeValidEmpty();
    }

    lemma FirstFacts()
      requires Cells() && Spans(Mem(), g, arenaBase) && HeaderSet() == {}
      requires heap == Bare(g, freelistSize)
      ensures BlockAt(arenaBase, 0, 1) && g.Node(1) && arenaBase in Mem().back && AllNodes(g, heap.lists)
      ensures Shape() && heap.g == g && bittable != bitmalloc && 1 !in heap.table && arenaBase !in HeaderSet()
      ensures heap.table == {} && heap.live == {} && heap.lists == Bare(g, freelistSize).lists
    {
      hide View, Linked, Bits, Addrs, PtrList, AllNodes;
      Pow2Monotone(1, g.Levels());
      Pow2Monotone(0, g.k);
    }

    lemma MakeValidEmpty()
      requires Consistent() && heap.Settled() && heap == BuddyHeap.Init(g) && used == 0
      ensures Valid()
    {
      hide View, Linked, Quiet, Holds, Bits, Addrs, PtrList;
    }
  }
}
