/**
  What the marshalling functions of `tssmarshal.c` are asked to write: a structure as the sequence of
  its scalars and arrays, each of which is stored whole or not at all.
*/
module MarshalPlan {
  import opened BigEndian
  import opened WireFormat

  /** `*size`, or no limit if `size` is NULL. */
  datatype Limit = Unlimited | AtMost(n: nat)
  {
    predicate Allows(k: nat) {
      Unlimited? || k <= n
    }

    function Less(k: nat): Limit
      requires Allows(k)
    {
      if Unlimited? then Unlimited else AtMost(n - k)
    }
  }

  /** The bytes that are stored before the first scalar or array that does not fit. */
  function Fitting(ps: seq<Bytes>, limit: Limit): Bytes {
    if ps == [] || !limit.Allows(|ps[0]|) then [] else ps[0] + Fitting(ps[1..], limit.Less(|ps[0]|))
  }

  /** Everything fits exactly if the whole does. */
  lemma {:induction false} FittingAll(ps: seq<Bytes>, limit: Limit)
    ensures limit.Allows(|Flat(ps)|) ==> Fitting(ps, limit) == Flat(ps)
    ensures |Fitting(ps, limit)| <= |Flat(ps)| && limit.Allows(|Fitting(ps, limit)|)
    decreases |ps|
  {
    if ps != [] && limit.Allows(|ps[0]|) {
      FittingAll(ps[1..], limit.Less(|ps[0]|));
    }
  }

  lemma {:induction false} FittingAppend(a: seq<Bytes>, b: seq<Bytes>, limit: Limit)
    ensures limit.Allows(|Flat(a)|) ==> Fitting(a + b, limit) == Flat(a) + Fitting(b, limit.Less(|Flat(a)|))
    ensures !limit.Allows(|Flat(a)|) ==> Fitting(a + b, limit) == Fitting(a, limit)
    decreases |a|
  {
    if a == [] {
      assert a + b == b;
    } else {
      assert (a + b)[0] == a[0] && (a + b)[1..] == a[1..] + b;
      if limit.Allows(|a[0]|) {
        var rest := limit.Less(|a[0]|);
        FittingAppend(a[1..], b, rest);
        assert rest.Allows(|Flat(a[1..])|) <==> limit.Allows(|Flat(a)|);
      }
    }
  }

  /** What holds when more is to be written behind `a`. */
  lemma Behind(a: seq<Bytes>, b: seq<Bytes>, limit: Limit)
    ensures |Fitting(a, limit)| <= |Fitting(a + b, limit)|
    ensures !limit.Allows(|Flat(a)|) ==>
              !limit.Allows(|Flat(a + b)|) && Fitting(a + b, limit) == Fitting(a, limit)
  {
    FlatAppend(a, b);
    FittingAppend(a, b, limit);
    FittingAll(a, limit);
  }

  // Structures

  /** `ok` is false if an unknown selector ends the function behind `puts`. */
  datatype Plan = Plan(puts: seq<Bytes>, ok: bool)

  function Then(ps: seq<Bytes>, q: Plan): Plan {
    Plan(ps + q.puts, q.ok)
  }

  /**
    `v` has the C type of format `f`, whatever its contents: lengths may exceed capacities, reserved
    bits may be set and selectors may be unknown.  Lists and boxes have functions of their own.
  */
  predicate Typed(f: Format, selector: nat, v: Value)
    decreases f, 1, 0
  {
    match f
    case UInt(w, _) => v.Num? && v.n < Pow256(w)
    case Sized(w, _, _) => v.Blob? && |v.bytes| < Pow256(w)
    case Fixed(n) => v.Blob? && |v.bytes| == n
    case Record(_) => v.Many? && |v.items| == |f.fields| && FieldsTyped(f, v.items, 0)
    case Union(arms) => selector in arms ==> Typed(arms[selector], selector, v)
    case List(_, _) => false
    case Boxed(_, _, _) => false
  }

  predicate FieldsTyped(f: Format, items: seq<Value>, i: nat)
    requires f.Record? && i <= |items| == |f.fields|
    decreases f, 0, |items| - i
  {
    || i == |items|
    || (Typed(f.fields[i].format, Selector(f.fields[i], items[..i]), items[i]) && FieldsTyped(f, items, i + 1))
  }

  function PlanOf(f: Format, selector: nat, v: Value): Plan
    requires Typed(f, selector, v)
    decreases f, 3, 0
  {
    match f
    case UInt(w, _) => Plan([Octets(w, v.n)], true)
    case Sized(w, _, _) => Plan([Octets(w, |v.bytes|), v.bytes], true)
    case Fixed(_) => Plan([v.bytes], true)
    case Record(_) => PlanFields(f, v.items, 0)
    case Union(arms) => if selector in arms then PlanOf(arms[selector], selector, v) else Plan([], false)
  }

  function PlanFields(f: Format, items: seq<Value>, i: nat): Plan
    requires f.Record? && i <= |items| == |f.fields| && FieldsTyped(f, items, i)
    decreases f, 2, |items| - i
  {
    if i == |items| then Plan([], true)
    else
      var first := PlanOf(f.fields[i].format, Selector(f.fields[i], items[..i]), items[i]);
      if first.ok then Then(first.puts, PlanFields(f, items, i + 1)) else first
  }

  /** Well-formed values are planned completely, and the plan is their encoding. */
  lemma {:induction false} PlanEncodes(f: Format, selector: nat, v: Value)
    requires Typed(f, selector, v) && Fits(f, selector, v)
    ensures PlanOf(f, selector, v).ok && Flat(PlanOf(f, selector, v).puts) == Encode(f, selector, v)
    decreases f, 1, 0
  {
    match f
    case UInt(w, _) => FlatOne(Octets(w, v.n));
    case Sized(w, _, _) =>
      var length := Octets(w, |v.bytes|);
      FlatAppend([length], [v.bytes]);
      FlatOne(length);
      FlatOne(v.bytes);
      assert [length] + [v.bytes] == [length, v.bytes];
    case Fixed(_) => FlatOne(v.bytes);
    case Record(_) => PlanEncodesFields(f, v.items, 0);
    case Union(arms) => PlanEncodes(arms[selector], selector, v);
  }

  lemma {:induction false} PlanEncodesFields(f: Format, items: seq<Value>, i: nat)
    requires f.Record? && i <= |items| == |f.fields| && FieldsTyped(f, items, i) && FieldsFit(f, items, i)
    ensures PlanFields(f, items, i).ok && Flat(PlanFields(f, items, i).puts) == EncodeFields(f, items, i)
    decreases f, 0, |items| - i
  {
    hide PlanOf, Typed, Fits, Encode;
    if i < |items| {
      var sel := Selector(f.fields[i], items[..i]);
      PlanEncodes(f.fields[i].format, sel, items[i]);
      PlanEncodesFields(f, items, i + 1);
      FlatAppend(PlanOf(f.fields[i].format, sel, items[i]).puts, PlanFields(f, items, i + 1).puts);
    }
  }

  /** Formats without lists and boxes. */
  predicate Plainly(f: Format)
    decreases f
  {
    match f
    case Record(fields) => forall i :: 0 <= i < |fields| ==> Plainly(fields[i].format)
    case Union(arms) => forall t :: t in arms ==> Plainly(arms[t])
    case List(_, _) => false
    case Boxed(_, _, _) => false
    case _ => true
  }

  lemma {:induction false} FitsTyped(f: Format, selector: nat, v: Value)
    requires Plainly(f) && Fits(f, selector, v)
    ensures Typed(f, selector, v)
    decreases f, 1, 0
  {
    match f
    case Record(_) => FieldsFitTyped(f, v.items, 0);
    case Union(arms) => FitsTyped(arms[selector], selector, v);
    case _ =>
  }

  lemma {:induction false} FieldsFitTyped(f: Format, items: seq<Value>, i: nat)
    requires f.Record? && Plainly(f) && i <= |items| == |f.fields| && FieldsFit(f, items, i)
    ensures FieldsTyped(f, items, i)
    decreases f, 0, |items| - i
  {
    if i < |items| {
      FitsTyped(f.fields[i].format, Selector(f.fields[i], items[..i]), items[i]);
      FieldsFitTyped(f, items, i + 1);
    }
  }

  // Structures behind their length

  /** What a sized structure stores: all of it, or what fits of its content, behind a gap for the size. */
  datatype Stores = Stores(gap: nat, bytes: Bytes)

  /** The size is filled in behind the content, and its room is asked for only then. */
  function BoxStores(q: Plan, limit: Limit): Stores {
    var c := Flat(q.puts);
    if q.ok && limit.Allows(|c| + 2) then Stores(0, Octets(2, |c| % 0x1_0000) + c)
    else Stores(2, Fitting(q.puts, limit))
  }

  /** Memory with `e` stored at `start`; storing nothing changes nothing, wherever it is. */
  function Image(before: Bytes, start: nat, e: Bytes): (m: Bytes)
    requires Inside(|before|, start, e)
    ensures |m| == |before|
  {
    if e == [] then before else before[..start] + e + before[start + |e|..]
  }

  /** `e` can be stored at `start` in `length` bytes of memory. */
  predicate Inside(length: nat, start: nat, e: Bytes) {
    e == [] || start + |e| <= length
  }

  predicate BoxInside(length: nat, start: nat, q: Plan, limit: Limit) {
    var s := BoxStores(q, limit);
    Inside(length, start + s.gap, s.bytes)
  }

  function BoxImage(before: Bytes, start: nat, q: Plan, limit: Limit): (m: Bytes)
    requires BoxInside(|before|, start, q, limit)
    ensures |m| == |before|
  {
    var s := BoxStores(q, limit);
    Image(before, start + s.gap, s.bytes)
  }

  /** A sized structure that fits its room stays in it. */
  lemma FittingBoxInside(length: nat, start: nat, q: Plan, limit: Limit)
    requires q.ok && limit.Allows(|Flat(q.puts)| + 2) && start + |Flat(q.puts)| + 2 <= length
    ensures BoxInside(length, start, q, limit)
  {
  }

  /** Some of the content's scalars and arrays, from the first on, take all of the room or all but one byte. */
  ghost predicate Crowds(ps: seq<Bytes>, n: nat) {
    exists k: nat :: k <= |ps| && 0 < |Flat(ps[..k])| && n - 1 <= |Flat(ps[..k])| <= n
  }

  /**
    A sized structure is to stay in the `n` bytes it is given, and the source does not ensure it: its
    stores leave the room exactly if the content crowds it.
  */
  lemma LeavesRoomIff(q: Plan, start: nat, n: nat)
    ensures !BoxInside(start + n, start, q, AtMost(n)) <==> Crowds(q.puts, n)
  {
    var ps, limit := q.puts, AtMost(n);
    var k := FittingIsPrefix(ps, limit);
    FittingAll(ps, limit);
    if !BoxInside(start + n, start, q, limit) {
      assert Crowds(ps, n);
    }
    if Crowds(ps, n) {
      var j: nat :| j <= |ps| && 0 < |Flat(ps[..j])| && n - 1 <= |Flat(ps[..j])| <= n;
      assert ps == ps[..j] + ps[j..];
      FittingAppend(ps[..j], ps[j..], limit);
      FlatAppend(ps[..j], ps[j..]);
    }
  }

  lemma {:induction false} FittingIsPrefix(ps: seq<Bytes>, limit: Limit) returns (k: nat)
    ensures k <= |ps| && Fitting(ps, limit) == Flat(ps[..k])
    decreases |ps|
  {
    if ps == [] || !limit.Allows(|ps[0]|) {
      k := 0;
    } else {
      var j := FittingIsPrefix(ps[1..], limit.Less(|ps[0]|));
      k := j + 1;
      assert ps[..k][0] == ps[0] && ps[..k][1..] == ps[1..][..j];
    }
  }

  /** A room that holds a structure with its size is never crowded by its content. */
  lemma NeverWhenItFits(q: Plan, n: nat)
    requires |Flat(q.puts)| + 2 <= n
    ensures !Crowds(q.puts, n)
  {
    forall k: nat | k <= |q.puts|
      ensures |Flat(q.puts[..k])| <= |Flat(q.puts)|
    {
      assert q.puts == q.puts[..k] + q.puts[k..];
      FlatAppend(q.puts[..k], q.puts[k..]);
    }
  }
}
