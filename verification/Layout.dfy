/** Tools for writing the encodings of structures out, field by field, and for locating errors in them. */
module Layout {
  import opened BigEndian
  import opened Bitwise
  import opened WireFormat
  import S = TpmStructures

  /** Value `v` fits its format exactly if `ok` holds, and its encoding is then `bytes`. */
  ghost predicate Laid(f: Format, selector: nat, v: Value, ok: bool, bytes: Bytes) {
    (Fits(f, selector, v) <==> ok) && (ok ==> Encode(f, selector, v) == bytes)
  }

  /** A laid-out value is read exactly from its bytes, whatever follows them. */
  lemma ReadIff(f: Format, selector: nat, v: Value, ok: bool, bytes: Bytes, b: Bytes, rest: Bytes)
    requires Laid(f, selector, v, ok, bytes)
    ensures Parse(f, selector, b) == Ok(v, rest) <==> ok && b == bytes + rest
  {
    hide Parse, Fits, Encode;
    if Parse(f, selector, b) == Ok(v, rest) {
      Sound(f, selector, b);
    }
    if ok && b == bytes + rest {
      Complete(f, selector, v, rest);
    }
  }

  /** A length of two octets, then the octets. */
  function Two(s: Bytes): Bytes {
    Octets(2, |s|) + s
  }

  lemma Widths()
    ensures Pow256(1) == 0x100 && Pow256(2) == 0x1_0000 && Pow256(4) == 0x1_0000_0000
    ensures Pow256(8) == 0x1_0000_0000_0000_0000
  {
  }

  lemma ScalarLaid(w: nat, test: Test, selector: nat, n: nat)
    ensures Laid(UInt(w, test), selector, Num(n), n < Pow256(w) && test.Passes(n), Octets(w, n))
  {
    ScalarFits(w, test, selector, n);
  }

  lemma SizedLaid(w: nat, capacity: nat, error: Rc, selector: nat, s: Bytes)
    ensures Laid(Sized(w, capacity, error), selector, Blob(s), |s| <= capacity && |s| < Pow256(w), Octets(w, |s|) + s)
  {
    SizedFits(w, capacity, error, selector, s);
  }

  lemma TwoLaid(capacity: nat, selector: nat, s: Bytes)
    requires capacity < 0x1_0000
    ensures Laid(S.Tpm2b(capacity), selector, Blob(s), |s| <= capacity, Two(s))
  {
    Widths();
    SizedLaid(2, capacity, SIZE, selector, s);
  }

  lemma FixedLaid(n: nat, selector: nat, s: Bytes)
    ensures Laid(Fixed(n), selector, Blob(s), |s| == n, s)
  {
  }

  lemma ArmLaid(f: Format, selector: nat, v: Value, ok: bool, bytes: Bytes)
    requires f.Union? && (selector in f.arms ==> Laid(f.arms[selector], selector, v, ok, bytes))
    ensures Laid(f, selector, v, selector in f.arms && ok, bytes)
  {
  }

  // Records

  /** Field `i` of a record whose first fields are `items`. */
  ghost predicate FieldLaid(f: Format, items: seq<Value>, oks: seq<bool>, parts: seq<Bytes>, i: nat)
    requires f.Record? && i < |items| == |oks| == |parts| <= |f.fields|
  {
    Laid(f.fields[i].format, Selector(f.fields[i], items[..i]), items[i], oks[i], parts[i])
  }

  ghost predicate Every(oks: seq<bool>) {
    forall i :: 0 <= i < |oks| ==> oks[i]
  }

  /** A record is its fields, one after the other. */
  lemma RecordLaid(f: Format, selector: nat, items: seq<Value>, oks: seq<bool>, parts: seq<Bytes>)
    requires f.Record? && |items| == |oks| == |parts| == |f.fields|
    requires forall i :: 0 <= i < |items| ==> FieldLaid(f, items, oks, parts, i)
    ensures Laid(f, selector, Many(items), Every(oks), Flat(parts))
  {
    hide Fits, Encode, Flat;
    RecordFits(f, selector, items);
    FieldsLaid(f, items, oks, parts, 0);
    assert parts[0..] == parts && oks[0..] == oks;
  }

  lemma {:induction false} FieldsLaid(f: Format, items: seq<Value>, oks: seq<bool>, parts: seq<Bytes>, i: nat)
    requires f.Record? && i <= |items| == |oks| == |parts| == |f.fields|
    requires forall k :: 0 <= k < |items| ==> FieldLaid(f, items, oks, parts, k)
    ensures FieldsFit(f, items, i) <==> Every(oks[i..])
    ensures Every(oks[i..]) ==> EncodeFields(f, items, i) == Flat(parts[i..])
    decreases |items| - i
  {
    hide Fits, Encode;
    if i < |items| {
      FieldsLaid(f, items, oks, parts, i + 1);
      assert FieldLaid(f, items, oks, parts, i);
      assert parts[i..][1..] == parts[i + 1..];
      EveryFrom(oks, i);
    }
  }

  lemma EveryFrom(oks: seq<bool>, i: nat)
    requires i < |oks|
    ensures Every(oks[i..]) <==> oks[i] && Every(oks[i + 1..])
  {
    if Every(oks[i..]) {
      assert oks[i..][0];
      var rest := oks[i + 1..];
      forall k | 0 <= k < |rest|
        ensures rest[k]
      {
        assert oks[i..][k + 1];
      }
    }
  }

  lemma Record2(f: Format, selector: nat, items: seq<Value>, oks: seq<bool>, parts: seq<Bytes>)
    requires f.Record? && |items| == |oks| == |parts| == |f.fields| == 2
    requires FieldLaid(f, items, oks, parts, 0) && FieldLaid(f, items, oks, parts, 1)
    ensures Laid(f, selector, Many(items), oks[0] && oks[1], Flat(parts))
  {
    hide Laid;
    RecordLaid(f, selector, items, oks, parts);
    assert Every(oks) <==> oks[0] && oks[1];
  }

  lemma Record3(f: Format, selector: nat, items: seq<Value>, oks: seq<bool>, parts: seq<Bytes>)
    requires f.Record? && |items| == |oks| == |parts| == |f.fields| == 3
    requires FieldLaid(f, items, oks, parts, 0) && FieldLaid(f, items, oks, parts, 1)
    requires FieldLaid(f, items, oks, parts, 2)
    ensures Laid(f, selector, Many(items), oks[0] && oks[1] && oks[2], Flat(parts))
  {
    hide Laid;
    RecordLaid(f, selector, items, oks, parts);
    assert Every(oks) <==> oks[0] && oks[1] && oks[2];
  }

  lemma Record4(f: Format, selector: nat, items: seq<Value>, oks: seq<bool>, parts: seq<Bytes>)
    requires f.Record? && |items| == |oks| == |parts| == |f.fields| == 4
    requires FieldLaid(f, items, oks, parts, 0) && FieldLaid(f, items, oks, parts, 1)
    requires FieldLaid(f, items, oks, parts, 2) && FieldLaid(f, items, oks, parts, 3)
    ensures Laid(f, selector, Many(items), oks[0] && oks[1] && oks[2] && oks[3], Flat(parts))
  {
    hide Laid;
    RecordLaid(f, selector, items, oks, parts);
    assert Every(oks) <==> oks[0] && oks[1] && oks[2] && oks[3];
  }

  lemma Record5(f: Format, selector: nat, items: seq<Value>, oks: seq<bool>, parts: seq<Bytes>)
    requires f.Record? && |items| == |oks| == |parts| == |f.fields| == 5
    requires FieldLaid(f, items, oks, parts, 0) && FieldLaid(f, items, oks, parts, 1)
    requires FieldLaid(f, items, oks, parts, 2) && FieldLaid(f, items, oks, parts, 3)
    requires FieldLaid(f, items, oks, parts, 4)
    ensures Laid(f, selector, Many(items), oks[0] && oks[1] && oks[2] && oks[3] && oks[4], Flat(parts))
  {
    hide Laid;
    RecordLaid(f, selector, items, oks, parts);
    assert Every(oks) <==> oks[0] && oks[1] && oks[2] && oks[3] && oks[4];
  }

  lemma Record6(f: Format, selector: nat, items: seq<Value>, oks: seq<bool>, parts: seq<Bytes>)
    requires f.Record? && |items| == |oks| == |parts| == |f.fields| == 6
    requires FieldLaid(f, items, oks, parts, 0) && FieldLaid(f, items, oks, parts, 1)
    requires FieldLaid(f, items, oks, parts, 2) && FieldLaid(f, items, oks, parts, 3)
    requires FieldLaid(f, items, oks, parts, 4) && FieldLaid(f, items, oks, parts, 5)
    ensures Laid(f, selector, Many(items), oks[0] && oks[1] && oks[2] && oks[3] && oks[4] && oks[5], Flat(parts))
  {
    hide Laid;
    RecordLaid(f, selector, items, oks, parts);
    assert Every(oks) <==> oks[0] && oks[1] && oks[2] && oks[3] && oks[4] && oks[5];
  }

  lemma Record7(f: Format, selector: nat, items: seq<Value>, oks: seq<bool>, parts: seq<Bytes>)
    requires f.Record? && |items| == |oks| == |parts| == |f.fields| == 7
    requires FieldLaid(f, items, oks, parts, 0) && FieldLaid(f, items, oks, parts, 1)
    requires FieldLaid(f, items, oks, parts, 2) && FieldLaid(f, items, oks, parts, 3)
    requires FieldLaid(f, items, oks, parts, 4) && FieldLaid(f, items, oks, parts, 5)
    requires FieldLaid(f, items, oks, parts, 6)
    ensures Laid(f, selector, Many(items),
                 oks[0] && oks[1] && oks[2] && oks[3] && oks[4] && oks[5] && oks[6], Flat(parts))
  {
    hide Laid;
    RecordLaid(f, selector, items, oks, parts);
    assert Every(oks) <==> oks[0] && oks[1] && oks[2] && oks[3] && oks[4] && oks[5] && oks[6];
  }

  lemma Record9(f: Format, selector: nat, items: seq<Value>, oks: seq<bool>, parts: seq<Bytes>)
    requires f.Record? && |items| == |oks| == |parts| == |f.fields| == 9
    requires FieldLaid(f, items, oks, parts, 0) && FieldLaid(f, items, oks, parts, 1)
    requires FieldLaid(f, items, oks, parts, 2) && FieldLaid(f, items, oks, parts, 3)
    requires FieldLaid(f, items, oks, parts, 4) && FieldLaid(f, items, oks, parts, 5)
    requires FieldLaid(f, items, oks, parts, 6) && FieldLaid(f, items, oks, parts, 7)
    requires FieldLaid(f, items, oks, parts, 8)
    ensures Laid(f, selector, Many(items),
                 oks[0] && oks[1] && oks[2] && oks[3] && oks[4] && oks[5] && oks[6] && oks[7] && oks[8], Flat(parts))
  {
    hide Laid;
    RecordLaid(f, selector, items, oks, parts);
    assert Every(oks) <==> oks[0] && oks[1] && oks[2] && oks[3] && oks[4] && oks[5] && oks[6] && oks[7] && oks[8];
  }

  /** The fields of a record that fits. */
  lemma FieldsOf(f: Format, selector: nat, v: Value)
    requires f.Record? && Fits(f, selector, v)
    ensures v.Many? && |v.items| == |f.fields|
    ensures forall i :: 0 <= i < |v.items| ==> FieldFits(f, v.items, i)
  {
    FieldsFrom(f, v.items, 0);
  }

  lemma AtArm(f: Format, selector: nat, v: Value)
    requires f.Union? && Fits(f, selector, v)
    ensures selector in f.arms && Fits(f.arms[selector], selector, v)
  {
  }

  lemma ScalarOf(v: Value, w: nat, test: Test, selector: nat)
    requires Fits(UInt(w, test), selector, v)
    ensures v.Num? && v.n < Pow256(w) && test.Passes(v.n)
  {
  }

  lemma SizedOf(v: Value, w: nat, capacity: nat, error: Rc, selector: nat)
    requires Fits(Sized(w, capacity, error), selector, v)
    ensures v.Blob?
  {
  }

  lemma FixedOf(v: Value, n: nat, selector: nat)
    requires Fits(Fixed(n), selector, v)
    ensures v.Blob?
  {
  }

  ghost predicate FieldFits(f: Format, items: seq<Value>, i: nat)
    requires f.Record? && i < |items| == |f.fields|
  {
    Fits(f.fields[i].format, Selector(f.fields[i], items[..i]), items[i])
  }

  lemma {:induction false} FieldsFrom(f: Format, items: seq<Value>, i: nat)
    requires f.Record? && i <= |items| == |f.fields| && FieldsFit(f, items, i)
    ensures forall k :: i <= k < |items| ==> FieldFits(f, items, k)
    decreases |items| - i
  {
    if i < |items| {
      FieldsFrom(f, items, i + 1);
    }
  }

  /** Two byte strings, each behind its length. */
  lemma TwoPairLaid(capacity: nat, capacity': nat, selector: nat, x: Bytes, y: Bytes)
    requires capacity < 0x1_0000 && capacity' < 0x1_0000
    ensures Laid(Record([Plain(S.Tpm2b(capacity)), Plain(S.Tpm2b(capacity'))]), selector, Many([Blob(x), Blob(y)]),
                 |x| <= capacity && |y| <= capacity', Two(x) + Two(y))
  {
    hide Laid, S.Tpm2b, Two, Flat;
    var f := Record([Plain(S.Tpm2b(capacity)), Plain(S.Tpm2b(capacity'))]);
    var items, oks, parts := [Blob(x), Blob(y)], [|x| <= capacity, |y| <= capacity'], [Two(x), Two(y)];
    TwoLaid(capacity, 0, x);
    TwoLaid(capacity', 0, y);
    Record2(f, selector, items, oks, parts);
    Flat2(parts[0], parts[1]);
  }

  lemma TwoPairOf(capacity: nat, capacity': nat, selector: nat, v: Value)
    requires Fits(Record([Plain(S.Tpm2b(capacity)), Plain(S.Tpm2b(capacity'))]), selector, v)
    ensures v.Many? && |v.items| == 2 && v.items[0].Blob? && v.items[1].Blob? && v == Many([v.items[0], v.items[1]])
  {
    hide Fits;
    var f := Record([Plain(S.Tpm2b(capacity)), Plain(S.Tpm2b(capacity'))]);
    FieldsOf(f, selector, v);
    assert FieldFits(f, v.items, 0) && FieldFits(f, v.items, 1);
    SizedOf(v.items[0], 2, capacity, SIZE, 0);
    SizedOf(v.items[1], 2, capacity', SIZE, 0);
  }

  // Boxes

  lemma BoxLaid(f: Format, selector: nat, v: Value, ok: bool, bytes: Bytes)
    requires f.Boxed? && Laid(f.content, selector, v, ok, bytes)
    ensures Laid(f, selector, Box(v), ok && 0 < |bytes| < Pow256(f.width), Octets(f.width, |bytes|) + bytes)
  {
  }

  lemma BoxContent(f: Format, content: Format, v: Value)
    requires f.Boxed? && f.content == content && !f.optional && Fits(f, 0, v)
    ensures v.Box? && Fits(content, 0, v.content)
  {
  }

  lemma OptionalContent(f: Format, content: Format, v: Value)
    requires f == Boxed(2, content, true) && Fits(f, 0, v)
    ensures v.Absent? || (v.Box? && Fits(content, 0, v.content))
    ensures v.Absent? ==> Encode(f, 0, v) == [0, 0]
  {
  }

  // Errors

  /**
    Reading stops at the first bad field: if the first fields are good and the next one is not, the
    record is rejected with the code of that field, at the place where it was found.
  */
  lemma Stops(f: Format, selector: nat, items: seq<Value>, oks: seq<bool>, parts: seq<Bytes>, s: Bytes)
    requires f.Record? && |items| == |oks| == |parts| < |f.fields|
    requires forall i :: 0 <= i < |items| ==> FieldLaid(f, items, oks, parts, i) && oks[i]
    requires Parse(f.fields[|items|].format, Selector(f.fields[|items|], items), s).Err?
    ensures Parse(f, selector, Flat(parts) + s)
            == Parse(f.fields[|items|].format, Selector(f.fields[|items|], items), s)
  {
    FieldsRead(f, items, oks, parts, 0, s);
    assert items[..0] == [] && parts[0..] == parts;
  }

  lemma FirstStops(f: Format, selector: nat, b: Bytes)
    requires f.Record? && |f.fields| > 0 && Parse(f.fields[0].format, 0, b).Err?
    requires f.fields[0].Plain?
    ensures Parse(f, selector, b) == Parse(f.fields[0].format, 0, b)
  {
  }

  lemma {:induction false} FieldsRead(f: Format, items: seq<Value>, oks: seq<bool>, parts: seq<Bytes>, i: nat, s: Bytes)
    requires f.Record? && i <= |items| == |oks| == |parts| <= |f.fields|
    requires forall k :: 0 <= k < |items| ==> FieldLaid(f, items, oks, parts, k) && oks[k]
    ensures ParseFields(f, items[..i], Flat(parts[i..]) + s) == ParseFields(f, items, s)
    decreases |items| - i
  {
    hide Parse, Fits, Encode;
    if i == |items| {
      assert items[..i] == items && Flat(parts[i..]) + s == s;
    } else {
      assert FieldLaid(f, items, oks, parts, i) && oks[i];
      var field, tail := f.fields[i], Flat(parts[i + 1..]) + s;
      Complete(field.format, Selector(field, items[..i]), items[i], tail);
      assert parts[i..][1..] == parts[i + 1..];
      assert Flat(parts[i..]) + s == parts[i] + tail;
      assert items[..i] + [items[i]] == items[..i + 1];
      FieldsRead(f, items, oks, parts, i + 1, s);
    }
  }

  /** The scalar tests and their response codes, found behind the scalar. */
  lemma TestedScalar(w: nat, test: Test, selector: nat, b: Bytes)
    requires |b| >= w
    ensures var r, n := Parse(UInt(w, test), selector, b), Number(b[..w]);
            && (test.Any? ==> r == Ok(Num(n), b[w..]))
            && (test.Exactly? ==> r == if n == test.n then Ok(Num(n), b[w..]) else Err(VALUE, b[w..]))
            && (test.Between? ==> r == if n < test.lo || test.hi < n then Err(VALUE, b[w..]) else Ok(Num(n), b[w..]))
            && (test.Unreserved? ==>
                  r == if And(n, test.mask) != 0 then Err(RESERVED_BITS, b[w..]) else Ok(Num(n), b[w..]))
  {
  }

  lemma TestedNumber(w: nat, test: Test, selector: nat, n: nat, s: Bytes)
    requires n < Pow256(w) && !test.Passes(n)
    ensures Parse(UInt(w, test), selector, Octets(w, n) + s)
            == Err(if test.Unreserved? then RESERVED_BITS else VALUE, s)
  {
    NumberComplete(w, n, s);
  }

  lemma ShortScalar(w: nat, test: Test, selector: nat, b: Bytes)
    requires |b| < w
    ensures Parse(UInt(w, test), selector, b) == Err(INSUFFICIENT, b)
  {
  }

  lemma LengthRefused(w: nat, capacity: nat, error: Rc, n: nat, s: Bytes)
    requires capacity < n < Pow256(w)
    ensures Parse(Sized(w, capacity, error), 0, Octets(w, n) + s) == Err(error, s)
  {
    NumberComplete(w, n, s);
  }

  /** A TPM2B that is longer than its buffer is refused behind its length. */
  lemma StringTooLong(capacity: nat, b: Bytes)
    requires |b| >= 2 && Number(b[..2]) > capacity
    ensures Parse(S.Tpm2b(capacity), 0, b) == Err(SIZE, b[2..])
  {
    Refusals(S.Tpm2b(capacity), 0, b);
  }

  /** The response codes of lengths, counts and selectors. */
  lemma Refusals(f: Format, selector: nat, b: Bytes)
    ensures f.Sized? && |b| >= f.width && Number(b[..f.width]) > f.capacity ==>
              Parse(f, selector, b) == Err(f.error, b[f.width..])
    ensures f.List? && |b| >= 4 && Number(b[..4]) > f.capacity ==> Parse(f, selector, b) == Err(SIZE, b[4..])
    ensures f.Union? && selector !in f.arms ==> Parse(f, selector, b) == Err(SELECTOR, b)
    ensures f.Boxed? && |b| >= f.width && Number(b[..f.width]) == 0 ==>
              Parse(f, selector, b) == if f.optional then Ok(Absent, b[f.width..]) else Err(SIZE, b[f.width..])
  {
  }

  /** A structure behind a length that is not its own is refused behind the structure. */
  lemma WrongLength(f: Format, selector: nat, v: Value, n: nat, s: Bytes)
    requires f.Boxed? && 0 < n < Pow256(f.width) && Fits(f.content, selector, v)
    requires n != |Encode(f.content, selector, v)|
    ensures Parse(f, selector, Octets(f.width, n) + (Encode(f.content, selector, v) + s)) == Err(SIZE, s)
  {
    hide Encode, Fits, Octets;
    var e := Encode(f.content, selector, v);
    NumberComplete(f.width, n, e + s);
    Complete(f.content, selector, v, s);
  }

  lemma Flat2(a: Bytes, b: Bytes)
    ensures Flat([a, b]) == a + b
  {
    FlatOne(b);
    assert [a, b][1..] == [b];
  }

  lemma Flat3(a: Bytes, b: Bytes, c: Bytes)
    ensures Flat([a, b, c]) == a + b + c
  {
    Flat2(b, c);
    assert [a, b, c][1..] == [b, c];
  }

  lemma {:induction false} FlatBound(ps: seq<Bytes>, n: nat)
    requires forall i :: 0 <= i < |ps| ==> |ps[i]| <= n
    ensures |Flat(ps)| <= |ps| * n && (ps != [] ==> |Flat(ps)| >= |ps[0]|)
  {
    if ps != [] {
      FlatBound(ps[1..], n);
    }
  }

  lemma FlatLength(ps: seq<Bytes>)
    ensures |ps| == 4 ==> |Flat(ps)| == |ps[0]| + |ps[1]| + |ps[2]| + |ps[3]|
    ensures |ps| == 6 ==> |Flat(ps)| == |ps[0]| + |ps[1]| + |ps[2]| + |ps[3]| + |ps[4]| + |ps[5]|
  {
    if |ps| == 6 {
      FlatLength(ps[2..]);
      assert ps[1..][1..] == ps[2..];
    } else if |ps| == 4 {
      Flat2(ps[2], ps[3]);
      assert ps[1..][1..] == ps[2..] == [ps[2], ps[3]];
    }
  }
}
