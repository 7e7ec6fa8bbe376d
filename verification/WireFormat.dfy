/**
  The byte formats of the TPM library, part 2, as data, with the meaning of a format given twice: as
  the parser that `Unmarshal.c` is, and as the encoding that part 2 defines.
*/
module WireFormat {
  import opened BigEndian
  import opened Bitwise

  /** Response codes of the unmarshaller. */
  datatype Rc = INSUFFICIENT | SIZE | VALUE | SELECTOR | RESERVED_BITS

  /** Checks on a scalar after it was read. */
  datatype Test = Any | Exactly(n: nat) | Between(lo: nat, hi: nat) | Unreserved(mask: nat)
  {
    predicate Passes(x: nat) {
      match this
      case Any => true
      case Exactly(n) => x == n
      case Between(lo, hi) => lo <= x <= hi
      case Unreserved(mask) => And(x, mask) == 0
    }

    function Error(): Rc {
      if Unreserved? then RESERVED_BITS else VALUE
    }
  }

  datatype Format =
    | UInt(width: nat, test: Test)                       // big-endian scalar
    | Sized(width: nat, capacity: nat, error: Rc)        // length, then that many bytes, as in TPM2B
    | Fixed(length: nat)                                 // byte array without a length
    | Record(fields: seq<Field>)                         // TPMS_, TPMT_: one field after the other
    | Union(arms: map<nat, Format>)                      // TPMU_: the arm named by the selector
    | List(capacity: nat, element: Format)               // TPML_: 32-bit count, then the elements
    | Boxed(width: nat, content: Format, optional: bool) // length, then a structure of that length

  /** `index` names the earlier field that selects the arm of the union in `format`. */
  datatype Field = Plain(format: Format) | Selected(format: Format, index: nat)

  datatype Value =
    | Num(n: nat)
    | Blob(bytes: Bytes)
    | Many(items: seq<Value>)
    | Box(content: Value)
    | Absent

  /** A value and the unread bytes, or an error and the bytes not read when it was found. */
  datatype Result = Ok(v: Value, rest: Bytes) | Err(rc: Rc, rest: Bytes)

  /** The selector for a field, after the fields before it were read. */
  function Selector(field: Field, before: seq<Value>): nat {
    if field.Selected? && field.index < |before| && before[field.index].Num? then before[field.index].n else 0
  }

  // Reading

  function Take(n: nat, b: Bytes): Result {
    if |b| < n then Err(INSUFFICIENT, b) else Ok(Blob(b[..n]), b[n..])
  }

  function ReadNumber(w: nat, b: Bytes): Result {
    if |b| < w then Err(INSUFFICIENT, b) else Ok(Num(Number(b[..w])), b[w..])
  }

  function Parse(f: Format, selector: nat, b: Bytes): Result
    decreases f, 1, 0
  {
    match f
    case UInt(w, test) =>
      var r := ReadNumber(w, b);
      if r.Ok? && !test.Passes(r.v.n) then Err(test.Error(), r.rest) else r
    case Sized(w, capacity, error) =>
      var r := ReadNumber(w, b);
      if r.Err? then r
      else if r.v.n > capacity then Err(error, r.rest)
      else Take(r.v.n, r.rest)
    case Fixed(n) => Take(n, b)
    case Record(_) => ParseFields(f, [], b)
    case Union(arms) =>
      if selector in arms then Parse(arms[selector], selector, b) else Err(SELECTOR, b)
    case List(capacity, _) =>
      var r := ReadNumber(4, b);
      if r.Err? then r
      else if r.v.n > capacity then Err(SIZE, r.rest)
      else ParseItems(f, r.v.n, [], r.rest)
    case Boxed(w, content, optional) =>
      var r := ReadNumber(w, b);
      if r.Err? then r
      else if r.v.n == 0 then if optional then Ok(Absent, r.rest) else Err(SIZE, r.rest)
      else
        var inner := Parse(content, selector, r.rest);
        if inner.Err? then inner
        else if |r.rest| - |inner.rest| != r.v.n then Err(SIZE, inner.rest)
        else Ok(Box(inner.v), inner.rest)
  }

  /** The fields of record `f` after those already read. */
  function ParseFields(f: Format, before: seq<Value>, b: Bytes): Result
    requires f.Record? && |before| <= |f.fields|
    decreases f, 0, |f.fields| - |before|
  {
    if |before| == |f.fields| then Ok(Many(before), b)
    else
      var field := f.fields[|before|];
      var r := Parse(field.format, Selector(field, before), b);
      if r.Err? then r else ParseFields(f, before + [r.v], r.rest)
  }

  /** The `n` elements of list `f` that follow those already read. */
  function ParseItems(f: Format, n: nat, before: seq<Value>, b: Bytes): Result
    requires f.List?
    decreases f, 0, n
  {
    if n == 0 then Ok(Many(before), b)
    else
      var r := Parse(f.element, 0, b);
      if r.Err? then r else ParseItems(f, n - 1, before + [r.v], r.rest)
  }

  // Writing

  /** `v` is a value of format `f`. */
  predicate Fits(f: Format, selector: nat, v: Value)
    decreases f, 1, 0
  {
    match f
    case UInt(w, test) => v.Num? && v.n < Pow256(w) && test.Passes(v.n)
    case Sized(w, capacity, _) => v.Blob? && |v.bytes| <= capacity && |v.bytes| < Pow256(w)
    case Fixed(n) => v.Blob? && |v.bytes| == n
    case Record(_) => v.Many? && |v.items| == |f.fields| && FieldsFit(f, v.items, 0)
    case Union(arms) => selector in arms && Fits(arms[selector], selector, v)
    case List(capacity, element) =>
      && v.Many? && |v.items| <= capacity && |v.items| < Pow256(4)
      && forall i :: 0 <= i < |v.items| ==> Fits(element, 0, v.items[i])
    case Boxed(w, content, optional) =>
      || (v.Absent? && optional)
      || (v.Box? && Fits(content, selector, v.content) && 0 < |Encode(content, selector, v.content)| < Pow256(w))
  }

  predicate FieldsFit(f: Format, items: seq<Value>, i: nat)
    requires f.Record? && i <= |items| == |f.fields|
    decreases f, 0, |items| - i
  {
    || i == |items|
    || (Fits(f.fields[i].format, Selector(f.fields[i], items[..i]), items[i]) && FieldsFit(f, items, i + 1))
  }

  function Encode(f: Format, selector: nat, v: Value): Bytes
    requires Fits(f, selector, v)
    decreases f, 3, 0
  {
    match f
    case UInt(w, _) => Octets(w, v.n)
    case Sized(w, _, _) => Octets(w, |v.bytes|) + v.bytes
    case Fixed(_) => v.bytes
    case Record(_) => EncodeFields(f, v.items, 0)
    case Union(arms) => Encode(arms[selector], selector, v)
    case List(_, _) => Octets(4, |v.items|) + EncodeItems(f, v.items)
    case Boxed(w, content, _) =>
      if v.Absent? then Octets(w, 0)
      else
        var e := Encode(content, selector, v.content);
        Octets(w, |e|) + e
  }

  function EncodeFields(f: Format, items: seq<Value>, i: nat): Bytes
    requires f.Record? && i <= |items| == |f.fields| && FieldsFit(f, items, i)
    decreases f, 2, |items| - i
  {
    if i == |items| then []
    else Encode(f.fields[i].format, Selector(f.fields[i], items[..i]), items[i]) + EncodeFields(f, items, i + 1)
  }

  function EncodeItems(f: Format, items: seq<Value>): Bytes
    requires f.List? && forall i :: 0 <= i < |items| ==> Fits(f.element, 0, items[i])
    decreases f, 2, |items|
  {
    if items == [] then [] else Encode(f.element, 0, items[0]) + EncodeItems(f, items[1..])
  }

  /** A record fits if its fields do, and its encoding is theirs, one after the other. */
  lemma FieldFirst(f: Format, items: seq<Value>, i: nat)
    requires f.Record? && i < |items| == |f.fields| && FieldsFit(f, items, i + 1)
    requires Fits(f.fields[i].format, Selector(f.fields[i], items[..i]), items[i])
    ensures FieldsFit(f, items, i)
    ensures EncodeFields(f, items, i) ==
              Encode(f.fields[i].format, Selector(f.fields[i], items[..i]), items[i]) + EncodeFields(f, items, i + 1)
  {
  }

  lemma FieldsDone(f: Format, items: seq<Value>)
    requires f.Record? && |items| == |f.fields|
    ensures FieldsFit(f, items, |items|) && EncodeFields(f, items, |items|) == []
  {
  }

  lemma RecordFits(f: Format, selector: nat, items: seq<Value>)
    requires f.Record? && |items| == |f.fields|
    ensures Fits(f, selector, Many(items)) <==> FieldsFit(f, items, 0)
    ensures Fits(f, selector, Many(items)) ==> Encode(f, selector, Many(items)) == EncodeFields(f, items, 0)
  {
  }

  lemma ScalarFits(w: nat, test: Test, selector: nat, n: nat)
    ensures Fits(UInt(w, test), selector, Num(n)) <==> n < Pow256(w) && test.Passes(n)
    ensures Fits(UInt(w, test), selector, Num(n)) ==> Encode(UInt(w, test), selector, Num(n)) == Octets(w, n)
  {
  }

  lemma SizedFits(w: nat, capacity: nat, error: Rc, selector: nat, bytes: Bytes)
    ensures var f := Sized(w, capacity, error);
            && (Fits(f, selector, Blob(bytes)) <==> |bytes| <= capacity && |bytes| < Pow256(w))
            && (Fits(f, selector, Blob(bytes)) ==> Encode(f, selector, Blob(bytes)) == Octets(w, |bytes|) + bytes)
  {
  }

  // Parser and encoder are inverse to each other

  lemma NumberSound(w: nat, b: Bytes)
    requires |b| >= w
    ensures Number(b[..w]) < Pow256(w) && b == Octets(w, Number(b[..w])) + b[w..]
  {
    NumberBound(b[..w]);
    OctetsOfNumber(b[..w]);
  }

  lemma NumberComplete(w: nat, n: nat, s: Bytes)
    requires n < Pow256(w)
    ensures ReadNumber(w, Octets(w, n) + s) == Ok(Num(n), s)
  {
    NumberOfOctets(w, n);
    assert (Octets(w, n) + s)[..w] == Octets(w, n);
  }

  lemma Concat(b: Bytes, x: Bytes, y: Bytes, z: Bytes, tail: Bytes)
    requires b == x + tail && tail == y + z
    ensures b == (x + y) + z
  {
  }

  /** Whatever the parser accepts is the encoding of the value it returns, followed by what it left. */
  lemma {:induction false} Sound(f: Format, selector: nat, b: Bytes)
    requires Parse(f, selector, b).Ok?
    ensures var r := Parse(f, selector, b);
            Fits(f, selector, r.v) && b == Encode(f, selector, r.v) + r.rest
    decreases f, 2, 0
  {
    match f
    case UInt(w, test) => NumberSound(w, b);
    case Sized(w, _, _) => SoundSized(f, selector, b);
    case Fixed(n) =>
    case Record(_) => SoundFields(f, [], b);
    case Union(arms) => Sound(arms[selector], selector, b);
    case List(_, _) => SoundList(f, selector, b);
    case Boxed(w, content, _) => SoundBoxed(f, selector, b);
  }

  lemma SoundSized(f: Format, selector: nat, b: Bytes)
    requires f.Sized? && Parse(f, selector, b).Ok?
    ensures var r := Parse(f, selector, b);
            Fits(f, selector, r.v) && b == Encode(f, selector, r.v) + r.rest
  {
    NumberSound(f.width, b);
    var r := Parse(f, selector, b);
    Concat(b, Octets(f.width, Number(b[..f.width])), r.v.bytes, r.rest, b[f.width..]);
  }

  lemma {:induction false} SoundList(f: Format, selector: nat, b: Bytes)
    requires f.List? && Parse(f, selector, b).Ok?
    ensures var r := Parse(f, selector, b);
            Fits(f, selector, r.v) && b == Encode(f, selector, r.v) + r.rest
    decreases f, 1, 0
  {
    NumberSound(4, b);
    var n, r := Number(b[..4]), Parse(f, selector, b);
    SoundItems(f, n, [], b[4..]);
    assert r.v.items[0..] == r.v.items;
    Concat(b, Octets(4, n), EncodeItems(f, r.v.items), r.rest, b[4..]);
  }

  lemma {:induction false} SoundBoxed(f: Format, selector: nat, b: Bytes)
    requires f.Boxed? && Parse(f, selector, b).Ok?
    ensures var r := Parse(f, selector, b);
            Fits(f, selector, r.v) && b == Encode(f, selector, r.v) + r.rest
    decreases f, 0, 0
  {
    hide Number, Octets, Pow256;
    NumberSound(f.width, b);
    var n, r := Number(b[..f.width]), Parse(f, selector, b);
    if n != 0 {
      Sound(f.content, selector, b[f.width..]);
      var e := Encode(f.content, selector, r.v.content);
      Concat(b, Octets(f.width, n), e, r.rest, b[f.width..]);
    }
  }

  lemma {:induction false} SoundFields(f: Format, before: seq<Value>, b: Bytes)
    requires f.Record? && |before| <= |f.fields| && ParseFields(f, before, b).Ok?
    ensures var r := ParseFields(f, before, b);
            && r.v.Many? && |r.v.items| == |f.fields| && before <= r.v.items
            && FieldsFit(f, r.v.items, |before|) && b == EncodeFields(f, r.v.items, |before|) + r.rest
    decreases f, 0, |f.fields| - |before|
  {
    hide Parse, Encode, Fits;
    if |before| < |f.fields| {
      var field := f.fields[|before|];
      Sound(field.format, Selector(field, before), b);
      var r := Parse(field.format, Selector(field, before), b);
      SoundFields(f, before + [r.v], r.rest);
      var all := ParseFields(f, before, b);
      var items := all.v.items;
      assert items[..|before|] == before && items[|before|] == r.v;
      var x, y := Encode(field.format, Selector(field, before), r.v), EncodeFields(f, items, |before| + 1);
      Concat(b, x, y, all.rest, r.rest);
    }
  }

  lemma {:induction false} SoundItems(f: Format, n: nat, before: seq<Value>, b: Bytes)
    requires f.List? && ParseItems(f, n, before, b).Ok?
    ensures var r := ParseItems(f, n, before, b);
            && r.v.Many? && |r.v.items| == |before| + n && before <= r.v.items
            && (forall i :: |before| <= i < |r.v.items| ==> Fits(f.element, 0, r.v.items[i]))
            && b == EncodeItems(f, r.v.items[|before|..]) + r.rest
    decreases f, 0, n
  {
    hide Parse, Encode, Fits;
    if n > 0 {
      Sound(f.element, 0, b);
      var r := Parse(f.element, 0, b);
      SoundItems(f, n - 1, before + [r.v], r.rest);
      var all := ParseItems(f, n, before, b);
      var items := all.v.items[|before|..];
      assert items[0] == r.v && items[1..] == all.v.items[|before| + 1..];
      Concat(b, Encode(f.element, 0, r.v), EncodeItems(f, items[1..]), all.rest, r.rest);
    }
  }

  /** Decoding the encoding of a value returns the value and leaves what follows it. */
  lemma {:induction false} Complete(f: Format, selector: nat, v: Value, s: Bytes)
    requires Fits(f, selector, v)
    ensures Parse(f, selector, Encode(f, selector, v) + s) == Ok(v, s)
    decreases f, 1, 0
  {
    match f
    case UInt(w, _) => NumberComplete(w, v.n, s);
    case Sized(_, _, _) => CompleteSized(f, selector, v, s);
    case Fixed(_) =>
    case Record(_) => CompleteFields(f, v.items, 0, s);
    case Union(arms) => Complete(arms[selector], selector, v, s);
    case List(_, _) => CompleteList(f, selector, v, s);
    case Boxed(_, _, _) => CompleteBoxed(f, selector, v, s);
  }

  lemma CompleteSized(f: Format, selector: nat, v: Value, s: Bytes)
    requires f.Sized? && Fits(f, selector, v)
    ensures Parse(f, selector, Encode(f, selector, v) + s) == Ok(v, s)
  {
    NumberComplete(f.width, |v.bytes|, v.bytes + s);
    assert Encode(f, selector, v) + s == Octets(f.width, |v.bytes|) + (v.bytes + s);
  }

  lemma {:induction false} CompleteList(f: Format, selector: nat, v: Value, s: Bytes)
    requires f.List? && Fits(f, selector, v)
    ensures Parse(f, selector, Encode(f, selector, v) + s) == Ok(v, s)
    decreases f, 0, |v.items| + 1
  {
    var e := EncodeItems(f, v.items);
    NumberComplete(4, |v.items|, e + s);
    assert Encode(f, selector, v) + s == Octets(4, |v.items|) + (e + s);
    CompleteItems(f, [], v.items, s);
    assert [] + v.items == v.items;
  }

  lemma {:induction false} CompleteBoxed(f: Format, selector: nat, v: Value, s: Bytes)
    requires f.Boxed? && Fits(f, selector, v)
    ensures Parse(f, selector, Encode(f, selector, v) + s) == Ok(v, s)
    decreases f, 0, 0
  {
    if v.Absent? {
      NumberComplete(f.width, 0, s);
    } else {
      var e := Encode(f.content, selector, v.content);
      NumberComplete(f.width, |e|, e + s);
      assert Encode(f, selector, v) + s == Octets(f.width, |e|) + (e + s);
      Complete(f.content, selector, v.content, s);
    }
  }

  lemma {:induction false} CompleteFields(f: Format, items: seq<Value>, i: nat, s: Bytes)
    requires f.Record? && i <= |items| == |f.fields| && FieldsFit(f, items, i)
    ensures ParseFields(f, items[..i], EncodeFields(f, items, i) + s) == Ok(Many(items), s)
    decreases f, 0, |items| - i
  {
    hide Parse, Encode, Fits;
    if i == |items| {
      assert items[..i] == items;
      assert EncodeFields(f, items, i) + s == s;
    } else {
      var field, tail := f.fields[i], EncodeFields(f, items, i + 1) + s;
      Complete(field.format, Selector(field, items[..i]), items[i], tail);
      assert EncodeFields(f, items, i) + s == Encode(field.format, Selector(field, items[..i]), items[i]) + tail;
      assert items[..i] + [items[i]] == items[..i + 1];
      CompleteFields(f, items, i + 1, s);
    }
  }

  lemma {:induction false} CompleteItems(f: Format, before: seq<Value>, items: seq<Value>, s: Bytes)
    requires f.List? && forall i :: 0 <= i < |items| ==> Fits(f.element, 0, items[i])
    ensures ParseItems(f, |items|, before, EncodeItems(f, items) + s) == Ok(Many(before + items), s)
    decreases f, 0, |items|
  {
    hide Parse, Encode, Fits;
    if items == [] {
      assert before + items == before;
      assert EncodeItems(f, items) + s == s;
    } else {
      var tail := EncodeItems(f, items[1..]) + s;
      Complete(f.element, 0, items[0], tail);
      assert EncodeItems(f, items) + s == Encode(f.element, 0, items[0]) + tail;
      assert before + [items[0]] + items[1..] == before + items;
      CompleteItems(f, before + [items[0]], items[1..], s);
    }
  }

  // What follows for every format

  /** No accepted encoding is a prefix of another, and no value has two encodings. */
  lemma PrefixFree(f: Format, selector: nat, v: Value, v': Value, s: Bytes, s': Bytes)
    requires Fits(f, selector, v) && Fits(f, selector, v')
    requires Encode(f, selector, v) + s == Encode(f, selector, v') + s'
    ensures v == v' && s == s'
  {
    Complete(f, selector, v, s);
    Complete(f, selector, v', s');
  }

  /** The result depends on the consumed bytes only: what follows them may change at will. */
  lemma ConsumedDecides(f: Format, selector: nat, b: Bytes, t: Bytes)
    requires Parse(f, selector, b).Ok?
    ensures var r := Parse(f, selector, b);
            |r.rest| <= |b| && Parse(f, selector, b[..|b| - |r.rest|] + t) == Ok(r.v, t)
  {
    Sound(f, selector, b);
    var r := Parse(f, selector, b);
    assert b[..|b| - |r.rest|] == Encode(f, selector, r.v);
    Complete(f, selector, r.v, t);
  }

  lemma Extend(f: Format, selector: nat, b: Bytes, t: Bytes)
    requires Parse(f, selector, b).Ok?
    ensures var r := Parse(f, selector, b); Parse(f, selector, b + t) == Ok(r.v, r.rest + t)
  {
    hide Parse, Encode, Fits;
    var r := Parse(f, selector, b);
    ConsumedDecides(f, selector, b, r.rest + t);
    Sound(f, selector, b);
    assert b + t == b[..|b| - |r.rest|] + (r.rest + t);
  }

  /**
    "Parse, then compare the size" is "cut the declared window, then parse all of it": a boxed
    structure is accepted exactly if its window lies in the buffer and its content fills the window.
  */
  lemma BoxIsWindow(f: Format, selector: nat, b: Bytes, v: Value, rest: Bytes)
    requires f.Boxed?
    ensures Parse(f, selector, b) == Ok(v, rest) <==> Window(f, selector, b, v, rest)
  {
    if Parse(f, selector, b) == Ok(v, rest) {
      WindowOfBox(f, selector, b);
    }
    if Window(f, selector, b, v, rest) {
      BoxOfWindow(f, selector, b, v, rest);
    }
  }

  ghost predicate Window(f: Format, selector: nat, b: Bytes, v: Value, rest: Bytes)
    requires f.Boxed?
  {
    && f.width <= |b|
    && var n := Number(b[..f.width]);
       if n == 0 then f.optional && v == Absent && rest == b[f.width..]
       else
         && f.width + n <= |b| && rest == b[f.width + n..]
         && v.Box? && Parse(f.content, selector, b[f.width..f.width + n]) == Ok(v.content, [])
  }

  lemma WindowOfBox(f: Format, selector: nat, b: Bytes)
    requires f.Boxed? && Parse(f, selector, b).Ok?
    ensures var r := Parse(f, selector, b); Window(f, selector, b, r.v, r.rest)
  {
    hide Number, Fits, Encode;
    var n, c := Number(b[..f.width]), b[f.width..];
    if n != 0 {
      ConsumedDecides(f.content, selector, c, []);
      RestIsSuffix(f.content, selector, c);
      Cut(b, f.width, n, Parse(f.content, selector, c).rest);
    }
  }

  lemma Cut(b: Bytes, w: nat, n: nat, rest: Bytes)
    requires w <= |b| && SuffixOf(rest, b[w..]) && |b| - w - |rest| == n
    ensures b[w..][..n] + [] == b[w..w + n] && rest == b[w + n..]
  {
  }

  lemma Glue(b: Bytes, w: nat, n: nat, rest: Bytes)
    requires w + n <= |b| && rest == b[w + n..]
    ensures b[w..w + n] + rest == b[w..] && [] + rest == rest
  {
  }

  lemma BoxOfWindow(f: Format, selector: nat, b: Bytes, v: Value, rest: Bytes)
    requires f.Boxed? && Window(f, selector, b, v, rest)
    ensures Parse(f, selector, b) == Ok(v, rest)
  {
    hide Number, Fits, Encode;
    var n := Number(b[..f.width]);
    if n != 0 {
      Glue(b, f.width, n, rest);
      Extend(f.content, selector, b[f.width..f.width + n], rest);
    }
  }

  /** In success and in failure the cursor moves forward and stays inside the buffer. */
  lemma {:induction false} RestIsSuffix(f: Format, selector: nat, b: Bytes)
    ensures SuffixOf(Parse(f, selector, b).rest, b)
    decreases f, 1, 0
  {
    hide SuffixOf;
    Drops(b, 0);
    match f
    case UInt(w, _) => Drops(b, w);
    case Sized(w, _, _) =>
      Drops(b, w);
      if |b| >= w {
        Drops(b[w..], Number(b[..w]));
        SuffixTrans(Parse(f, selector, b).rest, b[w..], b);
      }
    case Fixed(n) => Drops(b, n);
    case Record(_) => FieldsSuffix(f, [], b);
    case Union(arms) => if selector in arms { RestIsSuffix(arms[selector], selector, b); }
    case List(_, _) =>
      Drops(b, 4);
      if |b| >= 4 {
        ItemsSuffix(f, Number(b[..4]), [], b[4..]);
        SuffixTrans(Parse(f, selector, b).rest, b[4..], b);
      }
    case Boxed(w, content, _) =>
      Drops(b, w);
      if |b| >= w {
        RestIsSuffix(content, selector, b[w..]);
        SuffixTrans(Parse(f, selector, b).rest, b[w..], b);
      }
  }

  lemma Drops(b: Bytes, n: nat)
    ensures SuffixOf(b, b) && (n <= |b| ==> SuffixOf(b[n..], b))
  {
  }

  lemma SuffixTrans(t: Bytes, c: Bytes, b: Bytes)
    requires SuffixOf(t, c) && SuffixOf(c, b)
    ensures SuffixOf(t, b)
  {
  }

  ghost predicate SuffixOf(t: Bytes, b: Bytes) {
    |t| <= |b| && t == b[|b| - |t|..]
  }

  lemma {:induction false} FieldsSuffix(f: Format, before: seq<Value>, b: Bytes)
    requires f.Record? && |before| <= |f.fields|
    ensures SuffixOf(ParseFields(f, before, b).rest, b)
    decreases f, 0, |f.fields| - |before|
  {
    if |before| < |f.fields| {
      var field := f.fields[|before|];
      RestIsSuffix(field.format, Selector(field, before), b);
      var r := Parse(field.format, Selector(field, before), b);
      if r.Ok? {
        FieldsSuffix(f, before + [r.v], r.rest);
        SuffixTrans(ParseFields(f, before, b).rest, r.rest, b);
      }
    }
  }

  lemma {:induction false} ItemsSuffix(f: Format, n: nat, before: seq<Value>, b: Bytes)
    requires f.List?
    ensures SuffixOf(ParseItems(f, n, before, b).rest, b)
    decreases f, 0, n
  {
    if n > 0 {
      RestIsSuffix(f.element, 0, b);
      var r := Parse(f.element, 0, b);
      if r.Ok? {
        ItemsSuffix(f, n - 1, before + [r.v], r.rest);
        SuffixTrans(ParseItems(f, n, before, b).rest, r.rest, b);
      }
    }
  }

  /** Only a lack of input can be cured by more input: every other error is final. */
  lemma {:induction false} ErrorsAreFinal(f: Format, selector: nat, b: Bytes, t: Bytes)
    requires var r := Parse(f, selector, b); r.Err? && r.rc != INSUFFICIENT
    ensures var r := Parse(f, selector, b); Parse(f, selector, b + t) == Err(r.rc, r.rest + t)
    decreases f, 2, 0
  {
    match f
    case UInt(w, _) => NumberExtends(w, b, t);
    case Sized(w, _, _) => NumberExtends(w, b, t);
    case Fixed(_) =>
    case Record(_) => FieldErrorsAreFinal(f, [], b, t);
    case Union(arms) => if selector in arms { ErrorsAreFinal(arms[selector], selector, b, t); }
    case List(_, _) =>
      NumberExtends(4, b, t);
      if Number(b[..4]) <= f.capacity {
        ItemErrorsAreFinal(f, Number(b[..4]), [], b[4..], t);
      }
    case Boxed(_, _, _) => BoxErrorsAreFinal(f, selector, b, t);
  }

  lemma NumberExtends(w: nat, b: Bytes, t: Bytes)
    requires |b| >= w
    ensures (b + t)[..w] == b[..w] && (b + t)[w..] == b[w..] + t
  {
  }

  lemma {:induction false} BoxErrorsAreFinal(f: Format, selector: nat, b: Bytes, t: Bytes)
    requires f.Boxed? && var r := Parse(f, selector, b); r.Err? && r.rc != INSUFFICIENT
    ensures var r := Parse(f, selector, b); Parse(f, selector, b + t) == Err(r.rc, r.rest + t)
    decreases f, 1, 0
  {
    NumberExtends(f.width, b, t);
    var c := b[f.width..];
    if Number(b[..f.width]) != 0 {
      if Parse(f.content, selector, c).Ok? {
        Extend(f.content, selector, c, t);
      } else {
        ErrorsAreFinal(f.content, selector, c, t);
      }
    }
  }

  lemma {:induction false} FieldErrorsAreFinal(f: Format, before: seq<Value>, b: Bytes, t: Bytes)
    requires f.Record? && |before| <= |f.fields|
    requires var r := ParseFields(f, before, b); r.Err? && r.rc != INSUFFICIENT
    ensures var r := ParseFields(f, before, b); ParseFields(f, before, b + t) == Err(r.rc, r.rest + t)
    decreases f, 0, |f.fields| - |before|
  {
    var field := f.fields[|before|];
    var r := Parse(field.format, Selector(field, before), b);
    if r.Ok? {
      Extend(field.format, Selector(field, before), b, t);
      FieldErrorsAreFinal(f, before + [r.v], r.rest, t);
    } else {
      ErrorsAreFinal(field.format, Selector(field, before), b, t);
    }
  }

  lemma {:induction false} ItemErrorsAreFinal(f: Format, n: nat, before: seq<Value>, b: Bytes, t: Bytes)
    requires f.List?
    requires var r := ParseItems(f, n, before, b); r.Err? && r.rc != INSUFFICIENT
    ensures var r := ParseItems(f, n, before, b); ParseItems(f, n, before, b + t) == Err(r.rc, r.rest + t)
    decreases f, 0, n
  {
    var r := Parse(f.element, 0, b);
    if r.Ok? {
      Extend(f.element, 0, b, t);
      ItemErrorsAreFinal(f, n - 1, before + [r.v], r.rest, t);
    } else {
      ErrorsAreFinal(f.element, 0, b, t);
    }
  }

  /** Every truncation of every valid encoding is reported as insufficient input, and as nothing else. */
  lemma TruncationIsInsufficient(f: Format, selector: nat, v: Value, n: nat)
    requires Fits(f, selector, v) && n < |Encode(f, selector, v)|
    ensures var r := Parse(f, selector, Encode(f, selector, v)[..n]); r.Err? && r.rc == INSUFFICIENT
  {
    var e := Encode(f, selector, v);
    var p, t := e[..n], e[n..];
    assert p + t == e == e + [];
    Complete(f, selector, v, []);
    var r := Parse(f, selector, p);
    if r.Ok? {
      Extend(f, selector, p, t);
      assert false;
    } else if r.rc != INSUFFICIENT {
      ErrorsAreFinal(f, selector, p, t);
      assert false;
    }
  }
}
