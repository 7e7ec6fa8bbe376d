/** The arrays of the secure heap, read as the cells of its free lists. */
module HeapView {
  import opened HeapMemory

  /** Both regions are mapped, do not overlap, end in 64 bits, and the arena consists of whole granules. */
  predicate Placed(freelist: nat, arena: nat, slots: nat, words: nat) {
    && 0 < freelist && 0 < arena && words % 2 == 0
    && (freelist + 8 * slots <= arena || arena + 8 * words <= freelist)
    && freelist + 8 * slots <= 0x1_0000_0000_0000_0000 && arena + 8 * words <= 0x1_0000_0000_0000_0000
  }

  predicate IsSlot(freelist: nat, slots: nat, a: nat) {
    freelist <= a < freelist + 8 * slots && (a - freelist) % 8 == 0
  }

  predicate IsGranule(arena: nat, words: nat, a: nat) {
    arena <= a < arena + 8 * words && (a - arena) % 16 == 0
  }

  /** The cells held by the list heads `slots` at `freelist` and the words `words` at `arena`. */
  ghost function View(freelist: nat, arena: nat, slots: seq<nat>, words: seq<nat>): (m: Memory)
    requires Placed(freelist, arena, |slots|, |words|)
    ensures |m.slots| == |slots| && forall l :: 0 <= l < |slots| ==> m.slots[l] == freelist + 8 * l
  {
    Memory(
      seq(|slots|, l requires 0 <= l => freelist + 8 * l),
      (map a: nat | freelist <= a < freelist + 8 * |slots| && IsSlot(freelist, |slots|, a) :: slots[(a - freelist) / 8])
      + (map a: nat | arena <= a < arena + 8 * |words| && IsGranule(arena, |words|, a) :: words[(a - arena) / 8]),
      map a: nat | arena <= a < arena + 8 * |words| && IsGranule(arena, |words|, a) :: words[(a - arena) / 8 + 1])
  }

  lemma ViewKeys(freelist: nat, arena: nat, slots: seq<nat>, words: seq<nat>)
    requires Placed(freelist, arena, |slots|, |words|)
    ensures var m := View(freelist, arena, slots, words);
            forall a: nat ::
              && (a in m.next <==> IsSlot(freelist, |slots|, a) || IsGranule(arena, |words|, a))
              && (a in m.back <==> IsGranule(arena, |words|, a))
  {
  }

  lemma ViewValid(freelist: nat, arena: nat, slots: seq<nat>, words: seq<nat>)
    requires Placed(freelist, arena, |slots|, |words|)
    ensures View(freelist, arena, slots, words).Valid()
  {
    hide View;
    ViewKeys(freelist, arena, slots, words);
    var m := View(freelist, arena, slots, words);
    forall l | 0 <= l < |slots|
      ensures m.slots[l] in m.next && m.slots[l] !in m.back
    {
      assert IsSlot(freelist, |slots|, m.slots[l]);
    }
  }

  lemma ViewSlotAt(freelist: nat, arena: nat, slots: seq<nat>, words: seq<nat>, a: nat)
    requires Placed(freelist, arena, |slots|, |words|) && IsSlot(freelist, |slots|, a)
    ensures var m := View(freelist, arena, slots, words);
            a in m.next && a !in m.back && m.next[a] == slots[(a - freelist) / 8]
  {
  }

  lemma ViewSlot(freelist: nat, arena: nat, slots: seq<nat>, words: seq<nat>, a: nat, v: nat)
    requires Placed(freelist, arena, |slots|, |words|) && IsSlot(freelist, |slots|, a)
    ensures var m := View(freelist, arena, slots, words);
            View(freelist, arena, slots[(a - freelist) / 8 := v], words) == m.(next := m.next[a := v])
  {
    var m, i := View(freelist, arena, slots, words), (a - freelist) / 8;
    var m' := View(freelist, arena, slots[i := v], words);
    ViewSlotAt(freelist, arena, slots, words, a);
    assert m'.next == m.next[a := v];
    assert m'.back == m.back;
  }

  /** Distinct granules use distinct words, and first words are never second words. */
  lemma GranuleWords(arena: nat, words: nat, a: nat, b: nat)
    requires IsGranule(arena, words, a) && IsGranule(arena, words, b)
    ensures (a - arena) / 8 % 2 == 0
    ensures a != b ==> (a - arena) / 8 != (b - arena) / 8
    ensures (a - arena) / 8 + 1 != (b - arena) / 8
    ensures words % 2 == 0 ==> (a - arena) / 8 + 1 < words
  {
    var i, j := (a - arena) / 16, (b - arena) / 16;
    assert a == arena + 16 * i && b == arena + 16 * j;
  }

  /** What the view says about one granule. */
  lemma ViewAt(freelist: nat, arena: nat, slots: seq<nat>, words: seq<nat>, a: nat)
    requires Placed(freelist, arena, |slots|, |words|)
    ensures var m := View(freelist, arena, slots, words); a in m.back <==> IsGranule(arena, |words|, a)
    ensures IsGranule(arena, |words|, a) ==>
              var m, i := View(freelist, arena, slots, words), (a - arena) / 8;
              i + 1 < |words| && a in m.next && m.next[a] == words[i] && m.back[a] == words[i + 1]
  {
    if IsGranule(arena, |words|, a) {
      GranuleWords(arena, |words|, a, a);
    }
  }

  lemma ViewNextAt(freelist: nat, arena: nat, slots: seq<nat>, words: seq<nat>, a: nat, v: nat, b: nat)
    requires Placed(freelist, arena, |slots|, |words|)
    requires IsGranule(arena, |words|, a) && IsGranule(arena, |words|, b)
    ensures var m, m' := View(freelist, arena, slots, words), View(freelist, arena, slots, words[(a - arena) / 8 := v]);
            && b in m.next && b in m'.next && b in m.back && b in m'.back
            && m'.next[b] == (if a == b then v else m.next[b]) && m'.back[b] == m.back[b]
  {
    GranuleWords(arena, |words|, a, b);
    GranuleWords(arena, |words|, b, a);
    ViewAt(freelist, arena, slots, words, b);
    ViewAt(freelist, arena, slots, words[(a - arena) / 8 := v], b);
  }

  lemma ViewNext(freelist: nat, arena: nat, slots: seq<nat>, words: seq<nat>, a: nat, v: nat)
    requires Placed(freelist, arena, |slots|, |words|) && IsGranule(arena, |words|, a)
    ensures var m := View(freelist, arena, slots, words);
            View(freelist, arena, slots, words[(a - arena) / 8 := v]) == m.(next := m.next[a := v])
  {
    var m, m' := View(freelist, arena, slots, words), View(freelist, arena, slots, words[(a - arena) / 8 := v]);
    forall b | b in m.back
      ensures b in m'.back && m'.back[b] == m.back[b]
      ensures b in m'.next && b in m.next && m'.next[b] == if a == b then v else m.next[b]
    {
      ViewNextAt(freelist, arena, slots, words, a, v, b);
    }
    ViewAt(freelist, arena, slots, words, a);
    assert m'.next == m.next[a := v];
    assert m'.back == m.back;
  }

  lemma ViewBackAt(freelist: nat, arena: nat, slots: seq<nat>, words: seq<nat>, a: nat, v: nat, b: nat)
    requires Placed(freelist, arena, |slots|, |words|)
    requires IsGranule(arena, |words|, a) && IsGranule(arena, |words|, b)
    requires (a - arena) / 8 + 1 < |words|
    ensures var m := View(freelist, arena, slots, words);
            var m' := View(freelist, arena, slots, words[(a - arena) / 8 + 1 := v]);
            && b in m.next && b in m'.next && b in m.back && b in m'.back
            && m'.next[b] == m.next[b] && m'.back[b] == (if a == b then v else m.back[b])
  {
    GranuleWords(arena, |words|, a, b);
    GranuleWords(arena, |words|, b, a);
    ViewAt(freelist, arena, slots, words, b);
    ViewAt(freelist, arena, slots, words[(a - arena) / 8 + 1 := v], b);
  }

  lemma ViewBack(freelist: nat, arena: nat, slots: seq<nat>, words: seq<nat>, a: nat, v: nat)
    requires Placed(freelist, arena, |slots|, |words|) && IsGranule(arena, |words|, a)
    ensures (a - arena) / 8 + 1 < |words|
    ensures var m := View(freelist, arena, slots, words);
            View(freelist, arena, slots, words[(a - arena) / 8 + 1 := v]) == m.(back := m.back[a := v])
  {
    GranuleWords(arena, |words|, a, a);
    var m, m' := View(freelist, arena, slots, words), View(freelist, arena, slots, words[(a - arena) / 8 + 1 := v]);
    forall b | b in m.back
      ensures b in m'.back && m'.back[b] == if a == b then v else m.back[b]
      ensures b in m'.next && b in m.next && m'.next[b] == m.next[b]
    {
      ViewBackAt(freelist, arena, slots, words, a, v, b);
    }
    ViewAt(freelist, arena, slots, words, a);
    assert m'.next == m.next;
    assert m'.back == m.back[a := v];
  }

  /** A `next` cell is a list head or the first word of a granule. */
  lemma NextCells(freelist: nat, arena: nat, slots: seq<nat>, words: seq<nat>, a: nat)
    requires Placed(freelist, arena, |slots|, |words|)
    requires a in View(freelist, arena, slots, words).next
    ensures IsSlot(freelist, |slots|, a) || IsGranule(arena, |words|, a)
    ensures !(IsSlot(freelist, |slots|, a) && IsGranule(arena, |words|, a))
  {
  }

  /** Word `w` of the arena is half of the granule that holds it. */
  lemma WordInGranule(freelist: nat, arena: nat, slots: seq<nat>, words: seq<nat>, w: nat)
    requires Placed(freelist, arena, |slots|, |words|) && w < |words|
    ensures var m, q := View(freelist, arena, slots, words), arena + 16 * (w / 2);
            && q in m.back && q in m.next
            && words[w] == if w % 2 == 0 then m.next[q] else m.back[q]
  {
    var q := arena + 16 * (w / 2);
    assert IsGranule(arena, |words|, q);
    ViewAt(freelist, arena, slots, words, q);
    assert (q - arena) / 8 == 2 * (w / 2);
  }

  /** The domain of the view depends on the shape of the arrays alone. */
  lemma ViewShape(freelist: nat, arena: nat, slots: seq<nat>, words: seq<nat>, slots': seq<nat>, words': seq<nat>)
    requires Placed(freelist, arena, |slots|, |words|) && |slots'| == |slots| && |words'| == |words|
    ensures View(freelist, arena, slots, words).SameShape(View(freelist, arena, slots', words'))
  {
    var m, m' := View(freelist, arena, slots, words), View(freelist, arena, slots', words');
    assert m.slots == m'.slots;
    assert m.next.Keys == m'.next.Keys;
    assert m.back.Keys == m'.back.Keys;
  }
}
