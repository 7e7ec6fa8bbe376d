/** Whole runs of clients on the arrays: allocations, frees and stores in any legal order. */
module SecureRuns {
  import opened BigEndian
  import opened BuddyTree
  import opened BuddyHeap
  import opened HeapLaws
  import opened HeapMemory
  import opened HeapRep
  import opened SecureHeap

  /** A client's call; `node` names the block that starts at `ptr`. */
  datatype Call =
    | MallocCall(size: nat)
    | FreeCall(ptr: nat, node: nat)
    | StoreCall(ptr: nat, node: nat, at: nat, value: Byte)

  /** `ptr` is the start of the live block `n`. */
  ghost predicate Owns(h: Heap, base: nat, ptr: nat, n: nat) {
    n in h.live && n >= 1 && Level(n) <= h.g.k && ptr == Ptr(h.g, base, n)
  }

  /** Clients free live blocks only and store only inside live blocks. */
  ghost predicate LegalCall(h: Heap, base: nat, c: Call) {
    match c
    case MallocCall(_) => true
    case FreeCall(ptr, n) => Owns(h, base, ptr, n)
    case StoreCall(ptr, n, at, _) => Owns(h, base, ptr, n) && at < h.g.Size(n)
  }

  /** The heap operations of a run; stores are none. */
  function Ops(calls: seq<Call>): seq<Op> {
    if calls == [] then []
    else
      match calls[0]
      case MallocCall(size) => [DoMalloc(size)] + Ops(calls[1..])
      case FreeCall(_, n) => [DoFree(n)] + Ops(calls[1..])
      case StoreCall(_, _, _, _) => Ops(calls[1..])
  }

  ghost function After(h: Heap, base: nat, c: Call): (h': Heap)
    requires h.Settled() && LegalCall(h, base, c)
    ensures h'.Settled() && h'.g == h.g
  {
    match c
    case MallocCall(size) => Step(h, DoMalloc(size))
    case FreeCall(_, n) => Step(h, DoFree(n))
    case StoreCall(_, _, _, _) => h
  }

  ghost predicate LegalCalls(h: Heap, base: nat, calls: seq<Call>)
    requires h.Settled()
    decreases |calls|
  {
    calls == [] || (LegalCall(h, base, calls[0]) && LegalCalls(After(h, base, calls[0]), base, calls[1..]))
  }

  /** No call of the run frees block `n`. */
  ghost predicate Keeps(calls: seq<Call>, n: nat) {
    forall i :: 0 <= i < |calls| ==> !(calls[i].FreeCall? && calls[i].node == n)
  }

  /** What the arena's words would be if only the stores in block `n` had happened. */
  function Written(base: nat, calls: seq<Call>, n: nat, words: seq<Word>): (r: seq<Word>)
    ensures |r| == |words|
    decreases |calls|
  {
    if calls == [] then words else Written(base, calls[1..], n, WrittenOnce(base, calls[0], n, words))
  }

  function WrittenOnce(base: nat, c: Call, n: nat, words: seq<Word>): (r: seq<Word>)
    ensures |r| == |words|
  {
    if c.StoreCall? && c.node == n && base <= c.ptr && WordIndex(base, c.ptr, c.at) < |words| then
      var w := WordIndex(base, c.ptr, c.at);
      words[w := WithByte(words[w], c.at % 8, c.value)]
    else words
  }

  /** `a` and `b` agree on the words of block `n`. */
  ghost predicate Agree(s: SecureHeap, n: nat, a: seq<Word>, b: seq<Word>)
    requires n >= 1 && Level(n) <= s.g.k && |a| == |b|
  {
    forall w :: 0 <= w < |a| && s.WordOf(n, w) ==> a[w] == b[w]
  }

  /** Block `n` is live and its words in the arena are those of `words`. */
  ghost predicate BlockHolds(s: SecureHeap, n: nat, words: seq<Word>)
    requires |words| == s.arena.Length
    reads s`heap, s.arena
  {
    n in s.heap.live && n >= 1 && Level(n) <= s.g.k && Agree(s, n, s.arena[..], words)
  }

  /** One call. */
  method Perform(s: SecureHeap, c: Call)
    requires s.Valid() && LegalCall(s.heap, s.arenaBase, c)
    modifies s, s.freelist, s.arena, s.bittable, s.bitmalloc
    ensures s.Valid() && s.Shape() && old(s.heap).Settled() && s.heap == After(old(s.heap), s.arenaBase, c)
    ensures forall n :: n in old(s.heap.live) && Keeps([c], n) ==>
              BlockHolds(s, n, WrittenOnce(s.arenaBase, c, n, old(s.arena[..])))
  {
    hide *;
    s.UnfoldValid();
    ghost var h, words := s.heap, s.arena[..];
    CallOwns(h, s.arenaBase, c);
    match c {
      case MallocCall(size) =>
        var ptr, n := s.SecureMalloc(size);
        s.UnfoldValid();
        MallocIsStep(h, s.arenaBase, size, s.heap);
        UntouchedHold(s, words, h.live, c);
      case FreeCall(ptr, node) =>
        OwnedPtr(s, ptr, node);
        s.SecureFree(ptr, node);
        s.UnfoldValid();
        FreeIsStep(h, s.arenaBase, c);
        UntouchedHold(s, words, s.heap.live, c);
      case StoreCall(ptr, node, at, value) =>
        OwnedPtr(s, ptr, node);
        StoreInside(s, words, c);
        s.ClientStoreByte(ptr, at, value, node);
        s.UnfoldValid();
        StoredHold(s, words, c);
    }
  }

  lemma MallocIsStep(h: Heap, base: nat, size: nat, h': Heap)
    requires h.Settled()
    requires h' == if Malloc(h, size).Failed? then h else Malloc(h, size).heap
    ensures h' == After(h, base, MallocCall(size))
  {
  }

  lemma FreeIsStep(h: Heap, base: nat, c: Call)
    requires h.Settled() && LegalCall(h, base, c) && c.FreeCall?
    ensures c.node in h.live && After(h, base, c) == Free(h, c.node)
    ensures forall n :: Keeps([c], n) <==> n != c.node
  {
    forall n: nat
      ensures Keeps([c], n) <==> n != c.node
    {
      assert [c][0] == c;
    }
  }

  lemma OwnedPtr(s: SecureHeap, ptr: nat, n: nat)
    requires s.Valid() && Owns(s.heap, s.arenaBase, ptr, n)
    ensures s.heap.g == s.g && n in s.heap.live && n >= 1 && Level(n) <= s.g.k && ptr == Ptr(s.g, s.arenaBase, n)
    ensures s.WithinArena(ptr)
  {
    hide *;
    s.UnfoldValid();
    OwnedParts(s.heap, s.arenaBase, ptr, n);
    s.LiveBlock(n, ptr);
  }

  lemma OwnedParts(h: Heap, base: nat, ptr: nat, n: nat)
    requires Owns(h, base, ptr, n)
    ensures n in h.live && n >= 1 && Level(n) <= h.g.k && ptr == Ptr(h.g, base, n)
  {
  }

  lemma CallOwns(h: Heap, base: nat, c: Call)
    requires LegalCall(h, base, c)
    ensures !c.MallocCall? ==> Owns(h, base, c.ptr, c.node)
  {
  }

  /** A store lies in its block, and is the only one of its call. */
  lemma StoreInside(s: SecureHeap, words: seq<Word>, c: Call)
    requires s.Valid() && s.heap.Settled() && c.StoreCall? && LegalCall(s.heap, s.arenaBase, c) && s.heap.g == s.g
    requires |words| == s.arena.Length
    ensures c.node >= 1 && Level(c.node) <= s.g.k && c.at < s.g.Size(c.node)
    ensures After(s.heap, s.arenaBase, c) == s.heap
    ensures s.arenaBase <= c.ptr && WordIndex(s.arenaBase, c.ptr, c.at) < |words|
    ensures var w := WordIndex(s.arenaBase, c.ptr, c.at);
            WrittenOnce(s.arenaBase, c, c.node, words) == words[w := WithByte(words[w], c.at % 8, c.value)]
  {
    CallParts(s.heap, s.arenaBase, c);
    s.ByteInBlock(c.ptr, c.at, c.node);
  }

  /** Blocks that a malloc or a free leaves alone. */
  lemma UntouchedHold(s: SecureHeap, words: seq<Word>, U: set<nat>, c: Call)
    requires s.Shape() && U <= s.heap.live && (forall u :: u in U ==> s.g.Node(u)) && |words| == s.arena.Length
    requires s.WordsKept(words, U) && !c.StoreCall?
    ensures forall n :: n in U ==> BlockHolds(s, n, WrittenOnce(s.arenaBase, c, n, words))
  {
    forall n | n in U
      ensures BlockHolds(s, n, words)
    {
      NodeLevel(s.g, n);
    }
  }

  /** After a store, every live block holds what was stored in it. */
  lemma StoredHold(s: SecureHeap, words: seq<Word>, c: Call)
    requires s.Valid() && s.Shape() && c.StoreCall? && LegalCall(s.heap, s.arenaBase, c) && |words| == s.arena.Length
    requires s.arenaBase <= c.ptr && WordIndex(s.arenaBase, c.ptr, c.at) < |words|
    requires s.arena[..] == WrittenOnce(s.arenaBase, c, c.node, words)
    ensures forall n :: n in s.heap.live ==> BlockHolds(s, n, WrittenOnce(s.arenaBase, c, n, words))
  {
    hide *;
    forall n | n in s.heap.live
      ensures BlockHolds(s, n, WrittenOnce(s.arenaBase, c, n, words))
    {
      StoredHolds(s, words, c, n);
    }
  }

  lemma StoredHolds(s: SecureHeap, words: seq<Word>, c: Call, n: nat)
    requires s.Valid() && s.Shape() && c.StoreCall? && LegalCall(s.heap, s.arenaBase, c) && |words| == s.arena.Length
    requires s.arenaBase <= c.ptr && WordIndex(s.arenaBase, c.ptr, c.at) < |words|
    requires s.arena[..] == WrittenOnce(s.arenaBase, c, c.node, words) && n in s.heap.live
    ensures BlockHolds(s, n, WrittenOnce(s.arenaBase, c, n, words))
  {
    hide *;
    s.UnfoldValid();
    CallParts(s.heap, s.arenaBase, c);
    NodeFacts(s.g, n);
    if n == c.node {
      HoldsArena(s, n);
    } else {
      StoreElsewhere(s, c, n, WordIndex(s.arenaBase, c.ptr, c.at));
      HoldsBut(s, words, c, n);
    }
  }

  lemma CallParts(h: Heap, base: nat, c: Call)
    requires c.StoreCall? && LegalCall(h, base, c)
    ensures Owns(h, base, c.ptr, c.node)
    ensures c.node in h.live && c.node >= 1 && Level(c.node) <= h.g.k && c.ptr == Ptr(h.g, base, c.node)
    ensures c.at < h.g.Size(c.node)
  {
  }

  lemma NodeFacts(g: Geometry, n: nat)
    requires g.Valid() && g.Node(n)
    ensures n >= 1 && Level(n) <= g.k
  {
    NodeLevel(g, n);
  }

  lemma HoldsArena(s: SecureHeap, n: nat)
    requires s.Shape() && n in s.heap.live && n >= 1 && Level(n) <= s.g.k
    ensures BlockHolds(s, n, s.arena[..])
  {
  }

  /** A store in one block is in no word of another. */
  lemma StoreElsewhere(s: SecureHeap, c: Call, n: nat, w: nat)
    requires c.StoreCall? && c.node >= 1 && Level(c.node) <= s.g.k && c.ptr == Ptr(s.g, s.arenaBase, c.node)
    requires c.at < s.g.Size(c.node) && n != c.node && n >= 1 && Level(n) <= s.g.k && s.arenaBase <= c.ptr
    requires w == WordIndex(s.arenaBase, c.ptr, c.at)
    requires s.Valid() && s.heap.g == s.g && c.node in s.heap.live && n in s.heap.live
    ensures !s.WordOf(n, w)
  {
    hide *;
    s.ByteInBlock(c.ptr, c.at, c.node);
    s.UnfoldValid();
    s.LiveBlock(c.node, c.ptr);
    s.BlockRange(c.node, c.ptr);
    s.BlockEighth(c.node, c.at / 8);
    LiveBlocksApart(s.heap, n, c.node);
    WordsApart(s, n, c.node, w);
  }

  lemma WordsApart(s: SecureHeap, a: nat, b: nat, w: nat)
    requires a >= 1 && b >= 1 && Level(a) <= s.g.k && Level(b) <= s.g.k && DisjointBlocks(s.g, a, b) && s.WordOf(b, w)
    ensures !s.WordOf(a, w)
  {
    hide Level;
  }

  lemma HoldsBut(s: SecureHeap, words: seq<Word>, c: Call, n: nat)
    requires s.Shape() && c.StoreCall? && |words| == s.arena.Length && n != c.node
    requires s.arenaBase <= c.ptr && WordIndex(s.arenaBase, c.ptr, c.at) < |words|
    requires s.arena[..] == WrittenOnce(s.arenaBase, c, c.node, words)
    requires n in s.heap.live && n >= 1 && Level(n) <= s.g.k && !s.WordOf(n, WordIndex(s.arenaBase, c.ptr, c.at))
    ensures BlockHolds(s, n, WrittenOnce(s.arenaBase, c, n, words))
  {
    hide Level, WithByte;
    forall w | 0 <= w < s.arena.Length && s.WordOf(n, w)
      ensures s.arena[w] == words[w]
    {
      assert s.arena[w] == s.arena[..][w];
    }
  }

  /**
    Any legal run: the arrays hold the heap that the abstract run leads to, and every block that was
    live before and is not freed holds what it held, changed by the stores in that block alone.
  */
  method Replay(s: SecureHeap, calls: seq<Call>)
    requires s.Valid() && s.heap.Settled() && LegalCalls(s.heap, s.arenaBase, calls)
    modifies s, s.freelist, s.arena, s.bittable, s.bitmalloc
    ensures s.Valid() && s.Shape() && old(s.heap).Settled() && Run(old(s.heap), Ops(calls), s.heap)
    ensures forall n :: n in old(s.heap.live) && Keeps(calls, n) ==>
              BlockHolds(s, n, Written(s.arenaBase, calls, n, old(s.arena[..])))
    decreases |calls|
  {
    hide *;
    s.UnfoldValid();
    ghost var h, words := s.heap, s.arena[..];
    if calls == [] {
      NoCalls(s);
      return;
    }
    FirstCall(h, s.arenaBase, calls);
    Perform(s, calls[0]);
    s.UnfoldValid();
    ghost var words1 := s.arena[..];
    AfterFirst(s, h, words, calls);
    Replay(s, calls[1..]);
    RunFirst(h, s.arenaBase, calls, s.heap);
    forall n | n in h.live && Keeps(calls, n)
      ensures BlockHolds(s, n, Written(s.arenaBase, calls, n, words))
    {
      ThenRest(s, n, calls, words, words1);
    }
  }

  lemma NoCalls(s: SecureHeap)
    requires s.Valid() && s.heap.Settled() && forall u :: u in s.heap.live ==> s.g.Node(u)
    ensures s.Shape() && Run(s.heap, Ops([]), s.heap)
    ensures forall n :: n in s.heap.live ==> BlockHolds(s, n, Written(s.arenaBase, [], n, s.arena[..]))
  {
    hide Level, WrittenOnce;
    s.UnfoldValid();
    forall n | n in s.heap.live
      ensures n >= 1 && Level(n) <= s.g.k
    {
      NodeLevel(s.g, n);
    }
  }

  lemma FirstCall(h: Heap, base: nat, calls: seq<Call>)
    requires h.Settled() && calls != [] && LegalCalls(h, base, calls)
    ensures LegalCall(h, base, calls[0]) && LegalCalls(After(h, base, calls[0]), base, calls[1..])
  {
  }

  /** The first call, as the rest of the run finds it. */
  lemma AfterFirst(s: SecureHeap, h: Heap, words: seq<Word>, calls: seq<Call>)
    requires calls != [] && |words| == s.arena.Length
    requires forall n :: n in h.live && Keeps([calls[0]], n) ==>
               BlockHolds(s, n, WrittenOnce(s.arenaBase, calls[0], n, words))
    ensures forall n :: n in h.live && Keeps(calls, n) ==>
              && Keeps(calls[1..], n) && n in s.heap.live && n >= 1 && Level(n) <= s.g.k
              && Agree(s, n, s.arena[..], WrittenOnce(s.arenaBase, calls[0], n, words))
  {
    hide Level, WrittenOnce, Agree;
    forall n | Keeps(calls, n)
      ensures Keeps([calls[0]], n) && Keeps(calls[1..], n)
    {
      assert calls[0] in calls;
      forall i | 0 <= i < |calls[1..]|
        ensures calls[1..][i] == calls[i + 1]
      {
      }
    }
  }

  lemma RunFirst(h: Heap, base: nat, calls: seq<Call>, h': Heap)
    requires h.Settled() && calls != [] && LegalCall(h, base, calls[0])
    requires Run(After(h, base, calls[0]), Ops(calls[1..]), h')
    ensures Run(h, Ops(calls), h')
  {
    var rest := Ops(calls[1..]);
    match calls[0] {
      case MallocCall(size) => assert ([DoMalloc(size)] + rest)[1..] == rest;
      case FreeCall(_, n) => assert ([DoFree(n)] + rest)[1..] == rest;
      case StoreCall(_, _, _, _) =>
    }
  }

  /** The rest of the run acts alike on arenas that agree on the block. */
  lemma ThenRest(s: SecureHeap, n: nat, calls: seq<Call>, words: seq<Word>, words1: seq<Word>)
    requires calls != [] && |words| == |words1| == s.arena.Length && n >= 1 && Level(n) <= s.g.k
    requires Agree(s, n, words1, WrittenOnce(s.arenaBase, calls[0], n, words))
    requires BlockHolds(s, n, Written(s.arenaBase, calls[1..], n, words1))
    ensures BlockHolds(s, n, Written(s.arenaBase, calls, n, words))
  {
    hide *;
    var first := WrittenOnce(s.arenaBase, calls[0], n, words);
    var rest, both := Written(s.arenaBase, calls[1..], n, words1), Written(s.arenaBase, calls[1..], n, first);
    WrittenFirst(s.arenaBase, calls, n, words);
    WrittenAgree(s, n, calls[1..], words1, first);
    HoldsParts(s, n, rest);
    AgreeTrans(s, n, s.arena[..], rest, both);
    HoldsParts(s, n, both);
  }

  lemma HoldsParts(s: SecureHeap, n: nat, words: seq<Word>)
    requires |words| == s.arena.Length
    ensures BlockHolds(s, n, words) <==>
              n in s.heap.live && n >= 1 && Level(n) <= s.g.k && Agree(s, n, s.arena[..], words)
  {
  }

  lemma WrittenFirst(base: nat, calls: seq<Call>, n: nat, words: seq<Word>)
    requires calls != []
    ensures Written(base, calls, n, words) == Written(base, calls[1..], n, WrittenOnce(base, calls[0], n, words))
  {
  }

  lemma AgreeTrans(s: SecureHeap, n: nat, a: seq<Word>, b: seq<Word>, c: seq<Word>)
    requires n >= 1 && Level(n) <= s.g.k && |a| == |b| == |c| && Agree(s, n, a, b) && Agree(s, n, b, c)
    ensures Agree(s, n, a, c)
  {
  }

  lemma {:induction false} WrittenAgree(s: SecureHeap, n: nat, calls: seq<Call>, a: seq<Word>, b: seq<Word>)
    requires n >= 1 && Level(n) <= s.g.k && |a| == |b| && Agree(s, n, a, b)
    ensures Agree(s, n, Written(s.arenaBase, calls, n, a), Written(s.arenaBase, calls, n, b))
    decreases |calls|
  {
    hide Level, WithByte;
    if calls != [] {
      var c := calls[0];
      WrittenAgree(s, n, calls[1..], WrittenOnce(s.arenaBase, c, n, a), WrittenOnce(s.arenaBase, c, n, b));
    }
  }

  /** Without stores in a block, a run that does not free it leaves it as it was. */
  lemma {:induction false} Unwritten(base: nat, calls: seq<Call>, n: nat, words: seq<Word>)
    requires forall i :: 0 <= i < |calls| ==> !(calls[i].StoreCall? && calls[i].node == n)
    ensures Written(base, calls, n, words) == words
    decreases |calls|
  {
    if calls != [] {
      assert calls[0] in calls;
      Unwritten(base, calls[1..], n, words);
    }
  }

  /**
    A block that a legal run neither frees nor stores in keeps every word, and `sh_actual_size` still
    returns the size it had.
  */
  method Survives(s: SecureHeap, calls: seq<Call>, ptr: nat, ghost n: nat) returns (size: nat)
    requires s.Valid() && s.heap.Settled() && LegalCalls(s.heap, s.arenaBase, calls)
    requires Owns(s.heap, s.arenaBase, ptr, n)
    requires Keeps(calls, n) && forall i :: 0 <= i < |calls| ==> !(calls[i].StoreCall? && calls[i].node == n)
    modifies s, s.freelist, s.arena, s.bittable, s.bitmalloc
    ensures s.Valid() && n in s.heap.live && n >= 1 && Level(n) <= s.g.k && size == s.g.Size(n)
    ensures Agree(s, n, s.arena[..], old(s.arena[..]))
  {
    hide *;
    OwnedPtr(s, ptr, n);
    ghost var words := s.arena[..];
    Unwritten(s.arenaBase, calls, n, words);
    Replay(s, calls);
    HoldsParts(s, n, words);
    s.UnfoldValid();
    size := s.ActualSize(ptr, n);
  }

  /** A geometry that `sh_init` builds for the arguments. */
  ghost predicate Built(g: Geometry, size: nat, minsize: nat) {
    g.Valid() && g.ArenaSize() == size && g.MinSize() == if minsize < 16 then 16 else minsize
  }

  /**
    A whole session: initialise, run any legal sequence of calls, and ask to finish.  Finishing
    succeeds exactly if the run freed every block, and the heap is then as it was initialised.
  */
  method Session(size: nat, minsize: nat, freelistBase: nat, arenaBase: nat, calls: seq<Call>)
    returns (s: SecureHeap, done: bool)
    requires size < 0x1_0000_0000_0000_0000 && minsize < 0x8000_0000 && SecureHeap.Accepts(size, minsize)
    requires SecureHeap.Mapped(size, freelistBase, arenaBase)
    requires forall g :: Built(g, size, minsize) && Init(g).Settled() ==> LegalCalls(Init(g), arenaBase, calls)
    ensures s.Valid() && Built(s.g, size, minsize) && Init(s.g).Settled() && Run(Init(s.g), Ops(calls), s.heap)
    ensures done <==> s.heap.live == {}
    ensures done ==> s.heap == Init(s.g)
  {
    hide *;
    var status, h := SecureHeap.Init(size, minsize, freelistBase, arenaBase, true, true, true);
    s := h;
    s.UnfoldValid();
    GeometryBuilt(s, minsize);
    Replay(s, calls);
    done := s.MallocDone();
  }

  lemma GeometryBuilt(s: SecureHeap, minsize: nat)
    requires s.Shape() && s.minsize == if minsize < 16 then 16 else minsize
    ensures Built(s.g, s.arenaSize, minsize)
  {
  }

  /**
    A block that is given back at once leaves no trace: bitmaps and lists hold the heap they held, the counter is
    the same, and every live block has its words.
  */
  method MallocThenFree(s: SecureHeap, num: nat)
    requires s.Valid()
    modifies s, s.freelist, s.arena, s.bittable, s.bitmalloc
    ensures s.Valid() && s.heap == old(s.heap) && s.used == old(s.used)
    ensures s.Shape() && (forall u :: u in s.heap.live ==> s.g.Node(u))
    ensures s.WordsKept(old(s.arena[..]), s.heap.live)
  {
    hide *;
    s.UnfoldValid();
    ghost var h, words := s.heap, s.arena[..];
    var ptr, n := s.SecureMalloc(num);
    s.UnfoldValid();
    if ptr != 0 {
      FreeUndoesMalloc(h, num);
      ghost var words1 := s.arena[..];
      KeptAgrees(s, words, h.live);
      NodeFacts(s.g, n);
      OwnedNow(s.heap, s.arenaBase, ptr, n);
      OwnedPtr(s, ptr, n);
      s.SecureFree(ptr, n);
      s.UnfoldValid();
      KeptTwice(s, words, words1, h.live);
    }
  }

  lemma OwnedNow(h: Heap, base: nat, ptr: nat, n: nat)
    requires n in h.live && n >= 1 && Level(n) <= h.g.k && ptr == Ptr(h.g, base, n)
    ensures Owns(h, base, ptr, n)
  {
  }

  /** `a` and `b` agree on the words of the blocks of `U`. */
  ghost predicate AgreeOn(s: SecureHeap, a: seq<Word>, b: seq<Word>, U: set<nat>)
    requires s.Shape() && (forall u :: u in U ==> s.g.Node(u)) && |a| == |b| == s.arena.Length
  {
    forall u, w :: u in U && 0 <= w < |a| && (NodeLevel(s.g, u); s.WordOf(u, w)) ==> a[w] == b[w]
  }

  lemma KeptAgrees(s: SecureHeap, words: seq<Word>, U: set<nat>)
    requires s.Shape() && (forall u :: u in U ==> s.g.Node(u)) && |words| == s.arena.Length && s.WordsKept(words, U)
    ensures AgreeOn(s, s.arena[..], words, U)
  {
  }

  lemma KeptTwice(s: SecureHeap, words: seq<Word>, words1: seq<Word>, U: set<nat>)
    requires s.Shape() && |words| == |words1| == s.arena.Length && forall u :: u in U ==> s.g.Node(u)
    requires AgreeOn(s, words1, words, U) && s.WordsKept(words1, U)
    ensures s.WordsKept(words, U)
  {
    hide Level;
  }
}
