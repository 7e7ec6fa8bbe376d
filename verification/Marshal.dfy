/** The TPM2B_PUBLIC family of `tssmarshal.c`, one method each, over a moving output position. */
module Marshal {
  import opened BigEndian
  import opened Wrappers
  import opened WireFormat
  import opened MarshalPlan
  import opened Unmarshal
  import S = TpmStructures

  /** The new value of the caller's counter, or an error. */
  datatype Emission = Written(count: nat) | NoRoom | BadSelector
  {
    predicate IsFailure() { !Written? }
    function PropagateFailure(): Emission requires !Written? { this }
    function Extract(): nat requires Written? { count }
  }

  /** Where a call began: the output position, the memory, the room left and the caller's counter. */
  datatype Base = Base(start: nat, before: Bytes, size: Limit, count: nat)

  class Writer {
    const buffer: array<Byte>
    /** `buffer == NULL`: bytes are only counted. */
    const counting: bool
    var pos: nat
    var size: Limit

    constructor (buffer: array<Byte>, size: Limit, counting: bool)
      ensures this.buffer == buffer && this.size == size && this.counting == counting && pos == 0
    {
      this.buffer, this.size, this.counting, pos := buffer, size, counting, 0;
    }

    /** The writer as a call finds it. */
    ghost function Here(count: nat): Base
      reads this, buffer
    {
      Base(pos, buffer[..], size, count)
    }

    /** What is stored for `ps` lies inside the buffer. */
    ghost predicate Roomy(b: Base, ps: seq<Bytes>) {
      counting || Inside(buffer.Length, b.start, Fitting(ps, b.size))
    }

    /** `ps` has been written, or counted, since `b`, and nothing else has changed. */
    ghost predicate At(b: Base, ps: seq<Bytes>, count: nat)
      reads this, buffer
    {
      var e := Flat(ps);
      && count == Count(b.count, |e|) && |b.before| == buffer.Length
      && if counting then buffer[..] == b.before && pos == b.start && size == b.size
         else
           && b.size.Allows(|e|) && size == b.size.Less(|e|) && pos == b.start + |e|
           && Inside(buffer.Length, b.start, e) && buffer[..] == Image(b.before, b.start, e)
    }

    /** How a call ends that is to bring what was written since `b` to `q`. */
    ghost predicate Ends(o: Emission, b: Base, q: Plan)
      reads this, buffer
    {
      match o
      case Written(count) => q.ok && At(b, q.puts, count)
      case NoRoom =>
        && !counting && !b.size.Allows(|Flat(q.puts)|) && |b.before| == buffer.Length
        && Inside(buffer.Length, b.start, Fitting(q.puts, b.size))
        && buffer[..] == Image(b.before, b.start, Fitting(q.puts, b.size))
      case BadSelector => !q.ok && exists count :: At(b, q.puts, count)
    }

    // Scalars and byte strings

    /** `memcpy` to the output position. */
    method Store(bytes: Bytes)
      requires Inside(buffer.Length, pos, bytes)
      modifies buffer
      ensures buffer[..] == Image(old(buffer[..]), pos, bytes)
    {
      forall i | 0 <= i < |bytes| {
        buffer[pos + i] := bytes[i];
      }
    }

    /** One scalar or array: all of it or nothing. */
    method Put(bytes: Bytes, count: nat, ghost b: Base, ghost ps: seq<Bytes>) returns (o: Emission)
      requires At(b, ps, count) && Roomy(b, ps + [bytes])
      modifies this, buffer
      ensures Ends(o, b, Plan(ps + [bytes], true))
    {
      hide Flat, Fitting, Image, Count, At, Ends;
      PutStart(bytes, count, b, ps);
      ghost var m := buffer[..];
      if !counting {
        if size.AtMost? && size.n < |bytes| {
          PutRefused(bytes, count, b, ps);
          return NoRoom;
        }
        Store(bytes);
        pos, size := pos + |bytes|, size.Less(|bytes|);
      }
      PutDone(bytes, count, b, ps, m);
      return Written(Count(count, |bytes|));
    }

    /** The parts of `At`, and that there is memory for bytes that fit. */
    lemma PutStart(bytes: Bytes, count: nat, b: Base, ps: seq<Bytes>)
      requires At(b, ps, count) && Roomy(b, ps + [bytes])
      ensures |b.before| == buffer.Length && count == Count(b.count, |Flat(ps)|)
      ensures counting ==> buffer[..] == b.before && pos == b.start && size == b.size
      ensures !counting ==>
                && b.size.Allows(|Flat(ps)|) && size == b.size.Less(|Flat(ps)|) && pos == b.start + |Flat(ps)|
                && Inside(buffer.Length, b.start, Flat(ps)) && buffer[..] == Image(b.before, b.start, Flat(ps))
                && (size.Allows(|bytes|) ==>
                      Inside(buffer.Length, pos, bytes) && Inside(buffer.Length, b.start, Flat(ps) + bytes))
    {
      hide Flat, Fitting, Image;
      OneMore(ps, bytes, b.size);
    }

    lemma PutRefused(bytes: Bytes, count: nat, b: Base, ps: seq<Bytes>)
      requires At(b, ps, count) && !counting && size.AtMost? && size.n < |bytes|
      ensures Ends(NoRoom, b, Plan(ps + [bytes], true))
    {
      hide Flat, Fitting, Image;
      OneMore(ps, bytes, b.size);
    }

    lemma PutDone(bytes: Bytes, count: nat, b: Base, ps: seq<Bytes>, m: Bytes)
      requires |b.before| == buffer.Length && count == Count(b.count, |Flat(ps)|)
      requires counting ==> buffer[..] == b.before && pos == b.start && size == b.size
      requires !counting ==>
                 var n := |Flat(ps)|;
                 && b.size.Allows(n + |bytes|) && size == b.size.Less(n + |bytes|) && pos == b.start + n + |bytes|
                 && Inside(buffer.Length, b.start, Flat(ps)) && m == Image(b.before, b.start, Flat(ps))
                 && Inside(buffer.Length, b.start + n, bytes) && Inside(buffer.Length, b.start, Flat(ps) + bytes)
                 && buffer[..] == Image(m, b.start + n, bytes)
      ensures Ends(Written(Count(count, |bytes|)), b, Plan(ps + [bytes], true))
    {
      hide Flat, Fitting, Image, Count;
      OneMore(ps, bytes, b.size);
      CountUp(b.count, |Flat(ps)|, |bytes|);
      if !counting {
        Stored(b.before, b.start, Flat(ps), bytes);
      }
    }

    method UInt16(v: Value, count: nat, ghost b: Base, ghost ps: seq<Bytes>) returns (o: Emission)
      requires At(b, ps, count) && Typed(S.U16(), 0, v) && Roomy(b, Then(ps, PlanOf(S.U16(), 0, v)).puts)
      modifies this, buffer
      ensures Ends(o, b, Then(ps, PlanOf(S.U16(), 0, v))) && v.Num?
    {
      Octets2(v.n);
      o := Put([v.n / 0x100 % 0x100, v.n % 0x100], count, b, ps);
    }

    method UInt32(ghost test: Test, v: Value, count: nat, ghost b: Base, ghost ps: seq<Bytes>) returns (o: Emission)
      requires At(b, ps, count) && Typed(UInt(4, test), 0, v) && Roomy(b, Then(ps, PlanOf(UInt(4, test), 0, v)).puts)
      modifies this, buffer
      ensures Ends(o, b, Then(ps, PlanOf(UInt(4, test), 0, v)))
    {
      Octets4(v.n);
      o := Put([v.n / 0x100_0000 % 0x100, v.n / 0x1_0000 % 0x100, v.n / 0x100 % 0x100, v.n % 0x100], count, b, ps);
    }

    method Tpm2b(ghost capacity: nat, v: Value, count: nat, ghost b: Base, ghost ps: seq<Bytes>) returns (o: Emission)
      requires At(b, ps, count) && Typed(S.Tpm2b(capacity), 0, v)
      requires Roomy(b, Then(ps, PlanOf(S.Tpm2b(capacity), 0, v)).puts)
      modifies this, buffer
      ensures Ends(o, b, Then(ps, PlanOf(S.Tpm2b(capacity), 0, v)))
    {
      ghost var length, q := Octets(2, |v.bytes|), Then(ps, PlanOf(S.Tpm2b(capacity), 0, v));
      assert q == Plan((ps + [length]) + [v.bytes], true);
      hide PlanOf, Octets, Flat, Fitting;
      Behind(ps + [length], [v.bytes], b.size);
      var n :- Length(|v.bytes|, count, b, ps);
      o := Put(v.bytes, n, b, ps + [length]);
    }

    method Length(n: nat, count: nat, ghost b: Base, ghost ps: seq<Bytes>) returns (o: Emission)
      requires At(b, ps, count) && n < 0x1_0000 && Roomy(b, ps + [Octets(2, n)])
      modifies this, buffer
      ensures Ends(o, b, Plan(ps + [Octets(2, n)], true))
    {
      Octets2(n);
      o := Put([n / 0x100 % 0x100, n % 0x100], count, b, ps);
    }

    // Symmetric algorithms and schemes

    method SymKeyBits(v: Value, selector: nat, count: nat, ghost b: Base, ghost ps: seq<Bytes>) returns (o: Emission)
      requires At(b, ps, count) && Typed(S.SymKeyBits(), selector, v)
      requires Roomy(b, Then(ps, PlanOf(S.SymKeyBits(), selector, v)).puts)
      modifies this, buffer
      ensures selector in S.SymKeyBits().arms ==> Ends(o, b, Then(ps, PlanOf(S.SymKeyBits(), selector, v)))
      ensures selector !in S.SymKeyBits().arms ==> Ends(o, b, Plan(ps, true))
    {
      hide Typed, PlanOf, Flat, Fitting, At, Image;
      AtArm(S.SymKeyBits(), selector, v, ps);
      if selector == S.ALG_AES || selector == S.ALG_SM4 || selector == S.ALG_CAMELLIA ||
         selector == S.ALG_XOR {
        o := UInt16(v, count, b, ps);
      } else if selector == S.ALG_NULL {
        o := Written(count);
      } else {
        o := Written(count);
      }
    }

    method SymMode(v: Value, selector: nat, count: nat, ghost b: Base, ghost ps: seq<Bytes>) returns (o: Emission)
      requires At(b, ps, count) && Typed(S.SymMode(), selector, v)
      requires Roomy(b, Then(ps, PlanOf(S.SymMode(), selector, v)).puts)
      modifies this, buffer
      ensures Ends(o, b, Then(ps, PlanOf(S.SymMode(), selector, v)))
    {
      hide Typed, PlanOf, Flat, Fitting, At, Image;
      AtArm(S.SymMode(), selector, v, ps);
      if selector == S.ALG_AES || selector == S.ALG_SM4 || selector == S.ALG_CAMELLIA {
        o := UInt16(v, count, b, ps);
      } else if selector == S.ALG_XOR || selector == S.ALG_NULL {
        o := Written(count);
      } else {
        o := BadSelector;
      }
    }

    method SymDefObject(v: Value, count: nat, ghost b: Base, ghost ps: seq<Bytes>) returns (o: Emission)
      requires At(b, ps, count) && Typed(S.SymDefObject(), 0, v)
      requires Roomy(b, Then(ps, PlanOf(S.SymDefObject(), 0, v)).puts)
      modifies this, buffer
      ensures Ends(o, b, Then(ps, PlanOf(S.SymDefObject(), 0, v)))
    {
      hide Typed, PlanOf, FieldsTyped, PlanFields, Flat, Fitting, At, Image;
      ghost var f, p, q := S.SymDefObject(), ps, Then(ps, PlanOf(S.SymDefObject(), 0, v));
      StartRecord(f, v, ps);
      var n := count;
      AtField(f, v.items, 0, p, q, b.size);
      n :- UInt16(v.items[0], n, b, p);
      p := Grown(f, v.items, 0, p);
      AtField(f, v.items, 1, p, q, b.size);
      AtArm(S.SymKeyBits(), v.items[0].n, v.items[1], p);
      n :- SymKeyBits(v.items[1], v.items[0].n, n, b, p);
      p := Grown(f, v.items, 1, p);
      if v.items[0].n !in S.SymKeyBits().arms {
        UnknownAlgorithm(v, p, q);
      }
      AtField(f, v.items, 2, p, q, b.size);
      n :- SymMode(v.items[2], v.items[0].n, n, b, p);
      p := Grown(f, v.items, 2, p);
      AtField(f, v.items, 3, p, q, b.size);
      return Written(n);
    }

    method SchemeEcdaa(v: Value, count: nat, ghost b: Base, ghost ps: seq<Bytes>) returns (o: Emission)
      requires At(b, ps, count) && Typed(S.SchemeEcdaa(), 0, v)
      requires Roomy(b, Then(ps, PlanOf(S.SchemeEcdaa(), 0, v)).puts)
      modifies this, buffer
      ensures Ends(o, b, Then(ps, PlanOf(S.SchemeEcdaa(), 0, v)))
    {
      hide Typed, PlanOf, FieldsTyped, PlanFields, Flat, Fitting, At, Image;
      ghost var f, p, q := S.SchemeEcdaa(), ps, Then(ps, PlanOf(S.SchemeEcdaa(), 0, v));
      StartRecord(f, v, ps);
      var n := count;
      AtField(f, v.items, 0, p, q, b.size);
      n :- UInt16(v.items[0], n, b, p);
      p := Grown(f, v.items, 0, p);
      AtField(f, v.items, 1, p, q, b.size);
      n :- UInt16(v.items[1], n, b, p);
      p := Grown(f, v.items, 1, p);
      AtField(f, v.items, 2, p, q, b.size);
      return Written(n);
    }

    method SchemeXor(v: Value, count: nat, ghost b: Base, ghost ps: seq<Bytes>) returns (o: Emission)
      requires At(b, ps, count) && Typed(S.SchemeXor(), 0, v) && Roomy(b, Then(ps, PlanOf(S.SchemeXor(), 0, v)).puts)
      modifies this, buffer
      ensures Ends(o, b, Then(ps, PlanOf(S.SchemeXor(), 0, v)))
    {
      hide Typed, PlanOf, FieldsTyped, PlanFields, Flat, Fitting, At, Image;
      ghost var f, p, q := S.SchemeXor(), ps, Then(ps, PlanOf(S.SchemeXor(), 0, v));
      StartRecord(f, v, ps);
      var n := count;
      AtField(f, v.items, 0, p, q, b.size);
      n :- UInt16(v.items[0], n, b, p);
      p := Grown(f, v.items, 0, p);
      AtField(f, v.items, 1, p, q, b.size);
      n :- UInt16(v.items[1], n, b, p);
      p := Grown(f, v.items, 1, p);
      AtField(f, v.items, 2, p, q, b.size);
      return Written(n);
    }

    method SchemeKeyedHash(v: Value, selector: nat, count: nat, ghost b: Base, ghost ps: seq<Bytes>)
      returns (o: Emission)
      requires At(b, ps, count) && Typed(S.SchemeKeyedHash(), selector, v)
      requires Roomy(b, Then(ps, PlanOf(S.SchemeKeyedHash(), selector, v)).puts)
      modifies this, buffer
      ensures Ends(o, b, Then(ps, PlanOf(S.SchemeKeyedHash(), selector, v)))
    {
      hide Typed, PlanOf, Flat, Fitting, At, Image;
      AtArm(S.SchemeKeyedHash(), selector, v, ps);
      if selector == S.ALG_HMAC {
        o := UInt16(v, count, b, ps);
      } else if selector == S.ALG_XOR {
        o := SchemeXor(v, count, b, ps);
      } else if selector == S.ALG_NULL {
        o := Written(count);
      } else {
        o := BadSelector;
      }
    }

    method KeyedHashScheme(v: Value, count: nat, ghost b: Base, ghost ps: seq<Bytes>) returns (o: Emission)
      requires At(b, ps, count) && Typed(S.KeyedHashScheme(), 0, v)
      requires Roomy(b, Then(ps, PlanOf(S.KeyedHashScheme(), 0, v)).puts)
      modifies this, buffer
      ensures Ends(o, b, Then(ps, PlanOf(S.KeyedHashScheme(), 0, v)))
    {
      hide Typed, PlanOf, FieldsTyped, PlanFields, Flat, Fitting, At, Image, S.SchemeKeyedHash;
      ghost var f, p, q := S.KeyedHashScheme(), ps, Then(ps, PlanOf(S.KeyedHashScheme(), 0, v));
      StartRecord(f, v, ps);
      var n := count;
      AtField(f, v.items, 0, p, q, b.size);
      n :- UInt16(v.items[0], n, b, p);
      p := Grown(f, v.items, 0, p);
      AtField(f, v.items, 1, p, q, b.size);
      n :- SchemeKeyedHash(v.items[1], v.items[0].n, n, b, p);
      p := Grown(f, v.items, 1, p);
      AtField(f, v.items, 2, p, q, b.size);
      return Written(n);
    }

    method KdfDetails(v: Value, selector: nat, count: nat, ghost b: Base, ghost ps: seq<Bytes>) returns (o: Emission)
      requires At(b, ps, count) && Typed(S.KdfDetails(), selector, v)
      requires Roomy(b, Then(ps, PlanOf(S.KdfDetails(), selector, v)).puts)
      modifies this, buffer
      ensures Ends(o, b, Then(ps, PlanOf(S.KdfDetails(), selector, v)))
    {
      hide Typed, PlanOf, Flat, Fitting, At, Image;
      AtArm(S.KdfDetails(), selector, v, ps);
      if selector == S.ALG_MGF1 || selector == S.ALG_KDF1_SP800_56A || selector == S.ALG_KDF2 ||
         selector == S.ALG_KDF1_SP800_108 {
        o := UInt16(v, count, b, ps);
      } else if selector == S.ALG_NULL {
        o := Written(count);
      } else {
        o := BadSelector;
      }
    }

    method KdfScheme(v: Value, count: nat, ghost b: Base, ghost ps: seq<Bytes>) returns (o: Emission)
      requires At(b, ps, count) && Typed(S.KdfScheme(), 0, v) && Roomy(b, Then(ps, PlanOf(S.KdfScheme(), 0, v)).puts)
      modifies this, buffer
      ensures Ends(o, b, Then(ps, PlanOf(S.KdfScheme(), 0, v)))
    {
      hide Typed, PlanOf, FieldsTyped, PlanFields, Flat, Fitting, At, Image, S.KdfDetails;
      ghost var f, p, q := S.KdfScheme(), ps, Then(ps, PlanOf(S.KdfScheme(), 0, v));
      StartRecord(f, v, ps);
      var n := count;
      AtField(f, v.items, 0, p, q, b.size);
      n :- UInt16(v.items[0], n, b, p);
      p := Grown(f, v.items, 0, p);
      AtField(f, v.items, 1, p, q, b.size);
      n :- KdfDetails(v.items[1], v.items[0].n, n, b, p);
      p := Grown(f, v.items, 1, p);
      AtField(f, v.items, 2, p, q, b.size);
      return Written(n);
    }

    method AsymDetails(v: Value, selector: nat, count: nat, ghost b: Base, ghost ps: seq<Bytes>) returns (o: Emission)
      requires At(b, ps, count) && Typed(S.AsymDetails(), selector, v)
      requires Roomy(b, Then(ps, PlanOf(S.AsymDetails(), selector, v)).puts)
      modifies this, buffer
      ensures Ends(o, b, Then(ps, PlanOf(S.AsymDetails(), selector, v)))
    {
      hide Typed, PlanOf, Flat, Fitting, At, Image;
      AtArm(S.AsymDetails(), selector, v, ps);
      if selector == S.ALG_ECDH || selector == S.ALG_ECMQV || selector == S.ALG_RSASSA ||
         selector == S.ALG_RSAPSS || selector == S.ALG_ECDSA || selector == S.ALG_SM2 ||
         selector == S.ALG_ECSCHNORR || selector == S.ALG_OAEP {
        o := UInt16(v, count, b, ps);
      } else if selector == S.ALG_ECDAA {
        o := SchemeEcdaa(v, count, b, ps);
      } else if selector == S.ALG_RSAES || selector == S.ALG_NULL {
        o := Written(count);
      } else {
        o := BadSelector;
      }
    }

    method AsymScheme(v: Value, count: nat, ghost b: Base, ghost ps: seq<Bytes>) returns (o: Emission)
      requires At(b, ps, count) && Typed(S.AsymScheme(), 0, v) && Roomy(b, Then(ps, PlanOf(S.AsymScheme(), 0, v)).puts)
      modifies this, buffer
      ensures Ends(o, b, Then(ps, PlanOf(S.AsymScheme(), 0, v)))
    {
      hide Typed, PlanOf, FieldsTyped, PlanFields, Flat, Fitting, At, Image, S.AsymDetails;
      ghost var f, p, q := S.AsymScheme(), ps, Then(ps, PlanOf(S.AsymScheme(), 0, v));
      StartRecord(f, v, ps);
      var n := count;
      AtField(f, v.items, 0, p, q, b.size);
      n :- UInt16(v.items[0], n, b, p);
      p := Grown(f, v.items, 0, p);
      AtField(f, v.items, 1, p, q, b.size);
      n :- AsymDetails(v.items[1], v.items[0].n, n, b, p);
      p := Grown(f, v.items, 1, p);
      AtField(f, v.items, 2, p, q, b.size);
      return Written(n);
    }

    // Public area

    method EccPoint(v: Value, count: nat, ghost b: Base, ghost ps: seq<Bytes>) returns (o: Emission)
      requires At(b, ps, count) && Typed(S.EccPoint(), 0, v) && Roomy(b, Then(ps, PlanOf(S.EccPoint(), 0, v)).puts)
      modifies this, buffer
      ensures Ends(o, b, Then(ps, PlanOf(S.EccPoint(), 0, v)))
    {
      hide Typed, PlanOf, FieldsTyped, PlanFields, Flat, Fitting, At, Image, S.Tpm2b;
      ghost var f, p, q := S.EccPoint(), ps, Then(ps, PlanOf(S.EccPoint(), 0, v));
      StartRecord(f, v, ps);
      var n := count;
      AtField(f, v.items, 0, p, q, b.size);
      n :- Tpm2b(S.ECC_PARAMETER_MAX, v.items[0], n, b, p);
      p := Grown(f, v.items, 0, p);
      AtField(f, v.items, 1, p, q, b.size);
      n :- Tpm2b(S.ECC_PARAMETER_MAX, v.items[1], n, b, p);
      p := Grown(f, v.items, 1, p);
      AtField(f, v.items, 2, p, q, b.size);
      return Written(n);
    }

    method RsaParms(v: Value, count: nat, ghost b: Base, ghost ps: seq<Bytes>) returns (o: Emission)
      requires At(b, ps, count) && Typed(S.RsaParms(), 0, v) && Roomy(b, Then(ps, PlanOf(S.RsaParms(), 0, v)).puts)
      modifies this, buffer
      ensures Ends(o, b, Then(ps, PlanOf(S.RsaParms(), 0, v)))
    {
      hide Typed, PlanOf, FieldsTyped, PlanFields, Flat, Fitting, At, Image, S.SymDefObject, S.AsymScheme;
      ghost var f, p, q := S.RsaParms(), ps, Then(ps, PlanOf(S.RsaParms(), 0, v));
      StartRecord(f, v, ps);
      var n := count;
      AtField(f, v.items, 0, p, q, b.size);
      n :- SymDefObject(v.items[0], n, b, p);
      p := Grown(f, v.items, 0, p);
      AtField(f, v.items, 1, p, q, b.size);
      n :- AsymScheme(v.items[1], n, b, p);
      p := Grown(f, v.items, 1, p);
      AtField(f, v.items, 2, p, q, b.size);
      n :- UInt16(v.items[2], n, b, p);
      p := Grown(f, v.items, 2, p);
      AtField(f, v.items, 3, p, q, b.size);
      n :- UInt32(Any, v.items[3], n, b, p);
      p := Grown(f, v.items, 3, p);
      AtField(f, v.items, 4, p, q, b.size);
      return Written(n);
    }

    method EccParms(v: Value, count: nat, ghost b: Base, ghost ps: seq<Bytes>) returns (o: Emission)
      requires At(b, ps, count) && Typed(S.EccParms(), 0, v) && Roomy(b, Then(ps, PlanOf(S.EccParms(), 0, v)).puts)
      modifies this, buffer
      ensures Ends(o, b, Then(ps, PlanOf(S.EccParms(), 0, v)))
    {
      hide Typed, PlanOf, FieldsTyped, PlanFields, Flat, Fitting, At, Image, S.SymDefObject, S.AsymScheme, S.KdfScheme;
      ghost var f, p, q := S.EccParms(), ps, Then(ps, PlanOf(S.EccParms(), 0, v));
      StartRecord(f, v, ps);
      var n := count;
      AtField(f, v.items, 0, p, q, b.size);
      n :- SymDefObject(v.items[0], n, b, p);
      p := Grown(f, v.items, 0, p);
      AtField(f, v.items, 1, p, q, b.size);
      n :- AsymScheme(v.items[1], n, b, p);
      p := Grown(f, v.items, 1, p);
      AtField(f, v.items, 2, p, q, b.size);
      n :- UInt16(v.items[2], n, b, p);
      p := Grown(f, v.items, 2, p);
      AtField(f, v.items, 3, p, q, b.size);
      n :- KdfScheme(v.items[3], n, b, p);
      p := Grown(f, v.items, 3, p);
      AtField(f, v.items, 4, p, q, b.size);
      return Written(n);
    }

    method PublicParms(v: Value, selector: nat, count: nat, ghost b: Base, ghost ps: seq<Bytes>) returns (o: Emission)
      requires At(b, ps, count) && Typed(S.PublicParms(), selector, v)
      requires Roomy(b, Then(ps, PlanOf(S.PublicParms(), selector, v)).puts)
      modifies this, buffer
      ensures Ends(o, b, Then(ps, PlanOf(S.PublicParms(), selector, v)))
    {
      hide Typed, PlanOf, Flat, Fitting, At, Image;
      AtArm(S.PublicParms(), selector, v, ps);
      if selector == S.ALG_KEYEDHASH {
        o := KeyedHashScheme(v, count, b, ps);
      } else if selector == S.ALG_SYMCIPHER {
        o := SymDefObject(v, count, b, ps);
      } else if selector == S.ALG_RSA {
        o := RsaParms(v, count, b, ps);
      } else if selector == S.ALG_ECC {
        o := EccParms(v, count, b, ps);
      } else {
        o := BadSelector;
      }
    }

    method PublicId(v: Value, selector: nat, count: nat, ghost b: Base, ghost ps: seq<Bytes>) returns (o: Emission)
      requires At(b, ps, count) && Typed(S.PublicId(), selector, v)
      requires Roomy(b, Then(ps, PlanOf(S.PublicId(), selector, v)).puts)
      modifies this, buffer
      ensures Ends(o, b, Then(ps, PlanOf(S.PublicId(), selector, v)))
    {
      hide Typed, PlanOf, Flat, Fitting, At, Image;
      AtArm(S.PublicId(), selector, v, ps);
      if selector == S.ALG_KEYEDHASH || selector == S.ALG_SYMCIPHER {
        o := Tpm2b(S.DIGEST_MAX, v, count, b, ps);
      } else if selector == S.ALG_RSA {
        o := Tpm2b(S.RSA_PUBLIC_MAX, v, count, b, ps);
      } else if selector == S.ALG_ECC {
        o := EccPoint(v, count, b, ps);
      } else {
        o := BadSelector;
      }
    }

    method Public(v: Value, count: nat, ghost b: Base, ghost ps: seq<Bytes>) returns (o: Emission)
      requires At(b, ps, count) && Typed(S.Public(), 0, v) && Roomy(b, Then(ps, PlanOf(S.Public(), 0, v)).puts)
      modifies this, buffer
      ensures Ends(o, b, Then(ps, PlanOf(S.Public(), 0, v)))
    {
      hide Typed, PlanOf, FieldsTyped, PlanFields, Flat, Fitting, At, Image, S.Tpm2b, S.PublicParms, S.PublicId;
      ghost var f, p, q := S.Public(), ps, Then(ps, PlanOf(S.Public(), 0, v));
      StartRecord(f, v, ps);
      var n := count;
      AtField(f, v.items, 0, p, q, b.size);
      n :- UInt16(v.items[0], n, b, p);
      p := Grown(f, v.items, 0, p);
      AtField(f, v.items, 1, p, q, b.size);
      n :- UInt16(v.items[1], n, b, p);
      p := Grown(f, v.items, 1, p);
      AtField(f, v.items, 2, p, q, b.size);
      n :- UInt32(Unreserved(S.OBJECT_RESERVED), v.items[2], n, b, p);
      p := Grown(f, v.items, 2, p);
      AtField(f, v.items, 3, p, q, b.size);
      n :- Tpm2b(S.DIGEST_MAX, v.items[3], n, b, p);
      p := Grown(f, v.items, 3, p);
      AtField(f, v.items, 4, p, q, b.size);
      n :- PublicParms(v.items[4], v.items[0].n, n, b, p);
      p := Grown(f, v.items, 4, p);
      AtField(f, v.items, 5, p, q, b.size);
      n :- PublicId(v.items[5], v.items[0].n, n, b, p);
      p := Grown(f, v.items, 5, p);
      AtField(f, v.items, 6, p, q, b.size);
      return Written(n);
    }

    // Structures behind their length

    /** How a sized structure with content `q` ends. */
    ghost predicate BoxEnds(o: Emission, b: Base, q: Plan)
      reads this, buffer
    {
      var c := Flat(q.puts);
      && |b.before| == buffer.Length
      && if counting then
           && buffer[..] == b.before && pos == b.start && size == b.size
           && o == if q.ok then Written(Count(b.count, |c| + 2)) else BadSelector
         else
           && BoxInside(buffer.Length, b.start, q, b.size) && buffer[..] == BoxImage(b.before, b.start, q, b.size)
           && if !b.size.Allows(|c|) then o == NoRoom
              else if !q.ok then o == BadSelector
              else if !b.size.Allows(|c| + 2) then o == NoRoom
              else
                && o == Written(Count(b.count, |c| + 2))
                && pos == b.start + 2 + |c| && size == b.size.Less(|c| + 2)
    }

    lemma Begin()
      ensures At(Here(0), [], 0)
    {
    }

    lemma ContentFailed(o: Emission, inner: Base, b: Base, q: Plan)
      requires !o.Written? && Ends(o, inner, q)
      requires inner == Base(if counting then b.start else b.start + 2, b.before, b.size, 0)
      ensures BoxEnds(o, b, q)
    {
      hide Flat, Fitting, Image;
      FittingAll(q.puts, b.size);
    }

    /** `TSS_UINT16_Marshalu` on the place that was left for the size. */
    method BackPatch(sizePos: nat, sizeWritten: nat, count: nat, ghost b: Base, ghost q: Plan) returns (o: Emission)
      requires q.ok && sizePos == b.start && count == Count(b.count, sizeWritten)
      requires At(Base(if counting then b.start else b.start + 2, b.before, b.size, 0), q.puts, sizeWritten)
      requires counting || BoxInside(buffer.Length, b.start, q, b.size)
      modifies this, buffer
      ensures BoxEnds(o, b, q)
    {
      hide Flat, Fitting, Image, Count, Octets, BoxStores, BoxInside, BoxEnds, At;
      ContentDone(b, q, sizeWritten);
      ghost var m := buffer[..];
      if !counting {
        if size.AtMost? && size.n < 2 {
          NoRoomForSize(b, q);
          return NoRoom;
        }
        StoreSize(sizePos, sizeWritten);
        size := size.Less(2);
      }
      o := Written(Count(count, 2));
      Closed(b, q, m, sizeWritten);
    }

    /** The state between content and size. */
    ghost predicate Waiting(b: Base, q: Plan)
      reads this, buffer
    {
      var c := Flat(q.puts);
      && q.ok && |b.before| == buffer.Length
      && if counting then buffer[..] == b.before && pos == b.start && size == b.size
         else
           && BoxInside(buffer.Length, b.start, q, b.size) && b.size.Allows(|c|) && size == b.size.Less(|c|)
           && pos == b.start + 2 + |c| && Inside(buffer.Length, b.start + 2, c)
           && buffer[..] == Image(b.before, b.start + 2, c)
    }

    lemma ContentDone(b: Base, q: Plan, n: nat)
      requires q.ok && (counting || BoxInside(buffer.Length, b.start, q, b.size))
      requires At(Base(if counting then b.start else b.start + 2, b.before, b.size, 0), q.puts, n)
      ensures Waiting(b, q) && n == Count(0, |Flat(q.puts)|) < 0x1_0000
      ensures !counting && !(size.AtMost? && size.n < 2) ==> b.start + 2 + |Flat(q.puts)| <= buffer.Length
    {
      hide Flat, Fitting, Image;
      FittingAll(q.puts, b.size);
    }

    lemma NoRoomForSize(b: Base, q: Plan)
      requires Waiting(b, q) && !counting && size.AtMost? && size.n < 2
      ensures BoxEnds(NoRoom, b, q)
    {
      hide Flat, Fitting, Image;
      FittingAll(q.puts, b.size);
    }

    lemma Closed(b: Base, q: Plan, m: Bytes, n: nat)
      requires q.ok && n == Count(0, |Flat(q.puts)|) < 0x1_0000 && |b.before| == buffer.Length
      requires counting ==> buffer[..] == b.before && pos == b.start && size == b.size
      requires !counting ==>
                 var c := Flat(q.puts);
                 && b.size.Allows(|c| + 2) && size == b.size.Less(|c| + 2) && pos == b.start + 2 + |c|
                 && b.start + 2 + |c| <= buffer.Length && m == Image(b.before, b.start + 2, c)
                 && buffer[..] == Image(m, b.start, Octets(2, n))
      ensures BoxEnds(Written(Count(Count(b.count, n), 2)), b, q)
    {
      hide Octets, Flat, Fitting, Image, Count;
      CountTwice(b.count, |Flat(q.puts)|);
      if !counting {
        GapFilled(b.before, b.start, Flat(q.puts), Octets(2, n));
      }
    }

    method StoreSize(sizePos: nat, n: nat)
      requires n < 0x1_0000 && sizePos + 2 <= buffer.Length
      modifies buffer
      ensures buffer[..] == Image(old(buffer[..]), sizePos, Octets(2, n))
    {
      TwoBytes(n);
      hide Octets;
      buffer[sizePos] := n / 0x100;
      buffer[sizePos + 1] := n % 0x100;
    }

    method Tpm2bPublic(v: Value, count: nat) returns (o: Emission)
      requires v.Box? && Typed(S.Public(), 0, v.content)
      requires counting || BoxInside(buffer.Length, pos, PlanOf(S.Public(), 0, v.content), size)
      modifies this, buffer
      ensures BoxEnds(o, old(Here(count)), PlanOf(S.Public(), 0, v.content))
    {
      hide Typed, PlanOf, S.Public, Octets, Flat, Fitting, Image, At, BoxEnds;
      ghost var b, q := Here(count), PlanOf(S.Public(), 0, v.content);
      BoxStart(b, q);
      var sizePos := pos;
      if !counting {
        pos := pos + 2;
      }
      ghost var inner := Here(0);
      Begin();
      o := Public(v.content, 0, inner, []);
      if o.IsFailure() {
        ContentFailed(o, inner, b, q);
        return;
      }
      o := BackPatch(sizePos, o.count, Count(count, o.count), b, q);
    }

    method Tpm2bEccPoint(v: Value, count: nat) returns (o: Emission)
      requires v.Box? && Typed(S.EccPoint(), 0, v.content)
      requires counting || BoxInside(buffer.Length, pos, PlanOf(S.EccPoint(), 0, v.content), size)
      modifies this, buffer
      ensures BoxEnds(o, old(Here(count)), PlanOf(S.EccPoint(), 0, v.content))
    {
      hide Typed, PlanOf, S.EccPoint, Octets, Flat, Fitting, Image, At, BoxEnds;
      ghost var b, q := Here(count), PlanOf(S.EccPoint(), 0, v.content);
      BoxStart(b, q);
      var sizePos := pos;
      if !counting {
        pos := pos + 2;
      }
      ghost var inner := Here(0);
      Begin();
      o := EccPoint(v.content, 0, inner, []);
      if o.IsFailure() {
        ContentFailed(o, inner, b, q);
        return;
      }
      o := BackPatch(sizePos, o.count, Count(count, o.count), b, q);
    }
  }

  /** `*written += n`, a 16-bit counter. */
  function Count(written: nat, n: nat): nat {
    (written + n) % 0x1_0000
  }

  lemma CountUp(start: nat, a: nat, n: nat)
    ensures Count(Count(start, a), n) == Count(start, a + n)
  {
  }

  lemma Octets2(n: nat)
    requires n < Pow256(2)
    ensures Octets(2, n) == [n / 0x100 % 0x100, n % 0x100]
  {
    assert Octets(1, n / 0x100) == [n / 0x100 % 0x100];
  }

  lemma Octets4(n: nat)
    requires n < Pow256(4)
    ensures Octets(4, n) == [n / 0x100_0000 % 0x100, n / 0x1_0000 % 0x100, n / 0x100 % 0x100, n % 0x100]
  {
    assert Octets(1, n / 0x100_0000) == [n / 0x100_0000 % 0x100];
    assert Octets(2, n / 0x1_0000) == [n / 0x100_0000 % 0x100, n / 0x1_0000 % 0x100];
    assert Octets(3, n / 0x100) == Octets(2, n / 0x1_0000) + [n / 0x100 % 0x100];
  }

  lemma OneMore(ps: seq<Bytes>, x: Bytes, limit: Limit)
    ensures Flat(ps + [x]) == Flat(ps) + x
    ensures limit.Allows(|Flat(ps)|) ==>
              Fitting(ps + [x], limit) == if limit.Allows(|Flat(ps)| + |x|) then Flat(ps) + x else Flat(ps)
  {
    FlatAppend(ps, [x]);
    FlatOne(x);
    FittingAppend(ps, [x], limit);
    if limit.Allows(|Flat(ps)|) {
      FittingAll([x], limit.Less(|Flat(ps)|));
      assert Flat(ps) + [] == Flat(ps);
    }
  }

  /** A store behind a store. */
  lemma Stored(before: Bytes, start: nat, e: Bytes, x: Bytes)
    requires Inside(|before|, start, e + x) && Inside(|before|, start, e) && Inside(|before|, start + |e|, x)
    ensures Image(Image(before, start, e), start + |e|, x) == Image(before, start, e + x)
  {
    if e == [] {
      assert e + x == x;
    } else if x == [] {
      assert e + x == e;
    } else {
      var once, both := Image(Image(before, start, e), start + |e|, x), Image(before, start, e + x);
      forall i | 0 <= i < |before|
        ensures once[i] == both[i]
      {
      }
    }
  }

  /** What is written up to and including field `i`. */
  ghost function Grown(f: Format, items: seq<Value>, i: nat, ps: seq<Bytes>): seq<Bytes>
    requires f.Record? && i < |items| == |f.fields|
    requires Typed(f.fields[i].format, Selector(f.fields[i], items[..i]), items[i])
  {
    ps + PlanOf(f.fields[i].format, Selector(f.fields[i], items[..i]), items[i]).puts
  }

  lemma StartRecord(f: Format, v: Value, ps: seq<Bytes>)
    requires f.Record? && Typed(f, 0, v)
    ensures v.Many? && |v.items| == |f.fields| && FieldsTyped(f, v.items, 0)
    ensures Then(ps, PlanOf(f, 0, v)) == Then(ps, PlanFields(f, v.items, 0))
  {
  }

  /** What is left of a record whose writing is to bring `ps` to `q`. */
  lemma AtField(f: Format, items: seq<Value>, i: nat, ps: seq<Bytes>, q: Plan, limit: Limit)
    requires f.Record? && i <= |items| == |f.fields| && FieldsTyped(f, items, i)
    requires Then(ps, PlanFields(f, items, i)) == q
    ensures i == |items| ==> q == Plan(ps, true)
    ensures i < |items| ==>
              && Typed(f.fields[i].format, Selector(f.fields[i], items[..i]), items[i]) && FieldsTyped(f, items, i + 1)
              && var first := PlanOf(f.fields[i].format, Selector(f.fields[i], items[..i]), items[i]);
              && var now := Then(ps, first);
              && now.puts == Grown(f, items, i, ps)
              && (if first.ok then Then(now.puts, PlanFields(f, items, i + 1)) == q else now == q)
              && |Fitting(now.puts, limit)| <= |Fitting(q.puts, limit)|
              && (!limit.Allows(|Flat(now.puts)|) ==>
                    !limit.Allows(|Flat(q.puts)|) && Fitting(q.puts, limit) == Fitting(now.puts, limit))
  {
    hide Typed, PlanOf, Flat, Fitting;
    if i == |items| {
      assert ps + [] == ps;
    } else {
      var first := PlanOf(f.fields[i].format, Selector(f.fields[i], items[..i]), items[i]);
      if first.ok {
        var rest := PlanFields(f, items, i + 1).puts;
        assert ps + (first.puts + rest) == (ps + first.puts) + rest;
        Behind(ps + first.puts, rest, limit);
      }
    }
  }

  /** For an unknown algorithm the key bits are passed over and the mode ends the function. */
  lemma UnknownAlgorithm(v: Value, ps: seq<Bytes>, q: Plan)
    requires v.Many? && |v.items| == 3 && v.items[0].Num? && FieldsTyped(S.SymDefObject(), v.items, 2)
    requires v.items[0].n !in S.SymKeyBits().arms && q == Plan(ps, false)
    ensures Then(ps, PlanFields(S.SymDefObject(), v.items, 2)) == q
  {
  }

  /** The arm of a union; no arm is a union itself. */
  lemma AtArm(f: Format, selector: nat, v: Value, ps: seq<Bytes>)
    requires f.Union? && Typed(f, selector, v)
    ensures selector in f.arms ==>
              var arm := f.arms[selector];
              && (!arm.Union? ==> Typed(arm, 0, v) && PlanOf(f, selector, v) == PlanOf(arm, 0, v))
              && (arm == S.Empty() ==> Then(ps, PlanOf(f, selector, v)) == Plan(ps, true))
    ensures selector !in f.arms ==> Then(ps, PlanOf(f, selector, v)) == Plan(ps, false)
  {
    assert ps + [] == ps;
  }

  lemma TwoBytes(n: nat)
    requires n < 0x1_0000
    ensures Octets(2, n) == [n / 0x100, n % 0x100]
  {
    Octets2(n);
  }

  lemma CountRange(n: nat)
    ensures Count(0, n) < 0x1_0000 && (n < 0x1_0000 ==> Count(0, n) == n)
  {
  }

  lemma CountTwice(start: nat, n: nat)
    ensures Count(0, n) == n % 0x1_0000 < 0x1_0000
    ensures Count(Count(start, Count(0, n)), 2) == Count(start, n + 2)
  {
  }

  /** The size is stored in the gap in front of the content. */
  lemma GapFilled(before: Bytes, start: nat, c: Bytes, length: Bytes)
    requires start + 2 + |c| <= |before| && |length| == 2
    ensures Image(Image(before, start + 2, c), start, length) == Image(before, start, length + c)
  {
    var m := Image(before, start + 2, c);
    var x, y := Image(m, start, length), Image(before, start, length + c);
    forall i | 0 <= i < |before|
      ensures x[i] == y[i]
    {
    }
  }

  /** The content of a sized structure is written behind the gap. */
  lemma BoxStart(b: Base, q: Plan)
    ensures Then([], q) == q && Flat([]) == []
    ensures BoxInside(|b.before|, b.start, q, b.size) ==> Inside(|b.before|, b.start + 2, Fitting(q.puts, b.size))
  {
    FittingAll(q.puts, b.size);
    assert [] + q.puts == q.puts;
  }

  // Both directions

  lemma PublicIsPlain()
    ensures Plainly(S.Public()) && Plainly(S.EccPoint())
  {
    SchemesArePlain();
    ParmsArePlain();
    hide S.PublicParms, S.PublicId;
  }

  lemma SchemesArePlain()
    ensures Plainly(S.SymDefObject()) && Plainly(S.KdfScheme()) && Plainly(S.AsymScheme())
    ensures Plainly(S.KeyedHashScheme())
  {
    hide S.SymKeyBits, S.SymMode, S.KdfDetails, S.AsymDetails, S.SchemeKeyedHash;
    SymmetricIsPlain();
    DetailsArePlain();
  }

  lemma SymmetricIsPlain()
    ensures Plainly(S.SymKeyBits()) && Plainly(S.SymMode())
  {
    assert Plainly(S.Empty()) && Plainly(S.U16());
    hide S.Empty, S.U16;
  }

  lemma DetailsArePlain()
    ensures Plainly(S.KdfDetails()) && Plainly(S.SchemeKeyedHash()) && Plainly(S.AsymDetails())
  {
    assert Plainly(S.Empty()) && Plainly(S.U16());
    assert Plainly(S.SchemeEcdaa()) && Plainly(S.SchemeXor());
    hide S.Empty, S.U16, S.SchemeEcdaa, S.SchemeXor;
  }

  lemma ParmsArePlain()
    ensures Plainly(S.PublicParms()) && Plainly(S.PublicId()) && Plainly(S.EccPoint())
  {
    hide S.SymDefObject, S.KdfScheme, S.AsymScheme, S.KeyedHashScheme;
    SchemesArePlain();
    assert Plainly(S.EccPoint()) && Plainly(S.RsaParms()) && Plainly(S.EccParms());
    hide S.EccPoint, S.RsaParms, S.EccParms;
  }

  /** The content of a well-formed sized structure is planned as its encoding. */
  lemma BoxPlan(f: Format, v: Value)
    requires f.Boxed? && f.width == 2 && !f.optional && Plainly(f.content) && Fits(f, 0, v)
    ensures v.Box? && Typed(f.content, 0, v.content)
    ensures var q := PlanOf(f.content, 0, v.content);
            && q.ok && |Flat(q.puts)| < 0x1_0000
            && Encode(f, 0, v) == Octets(2, |Flat(q.puts)| % 0x1_0000) + Flat(q.puts)
  {
    hide Fits, Encode, Octets, PlanOf, Typed, Flat, Plainly;
    BoxParts(f, v);
    FitsTyped(f.content, 0, v.content);
    PlanEncodes(f.content, 0, v.content);
  }

  lemma BoxParts(f: Format, v: Value)
    requires f.Boxed? && f.width == 2 && !f.optional && Fits(f, 0, v)
    ensures v.Box? && Fits(f.content, 0, v.content)
    ensures var c := Encode(f.content, 0, v.content); |c| < 0x1_0000 && Encode(f, 0, v) == Octets(2, |c|) + c
  {
  }

  /**
    Code against code: what `TSS_TPM2B_PUBLIC_Marshalu` writes, followed by anything, is what
    `TSS_TPM2B_PUBLIC_Unmarshalu` reads back.  Marshalling succeeds exactly if the encoding fits.  If it
    does not fit, the stores are to stay in the buffer; `MarshalPlan.LeavesRoomIff` says when they do.
  */
  method MarshalThenUnmarshal(v: Value, buffer: array<Byte>, size: nat, tail: Bytes)
    returns (marshalled: bool, o: Outcome, left: nat)
    requires Fits(S.Tpm2bPublic(), 0, v) && size <= buffer.Length && size + |tail| < 0x1_0000_0000
    requires |Encode(S.Tpm2bPublic(), 0, v)| <= size || StaysInside(v, buffer.Length, size)
    modifies buffer
    ensures marshalled <==> |Encode(S.Tpm2bPublic(), 0, v)| <= size
    ensures marshalled ==> Encode(S.Tpm2bPublic(), 0, v) <= buffer[..] && o == Done(v) && left == |tail|
  {
    ghost var e := Encode(S.Tpm2bPublic(), 0, v);
    PublicIsPlain();
    BoxPlan(S.Tpm2bPublic(), v);
    hide Fits, Encode, S.Public, Inverts, Typed, PlanOf, Flat, Fitting, Octets, Plainly;
    ghost var q, m := PlanOf(S.Public(), 0, v.content), buffer[..];
    if |e| <= size {
      FittingBoxInside(buffer.Length, 0, q, AtMost(size));
    }
    var w := new Writer(buffer, AtMost(size), false);
    var count := w.Tpm2bPublic(v, 0);
    o, left := Fail(INSUFFICIENT), 0;
    marshalled := count.Written?;
    if marshalled {
      Front(m, e);
      var c := new Cursor(buffer[..w.pos] + tail);
      o := c.Tpm2bPublic();
      FromEncoding(S.Tpm2bPublic(), e, tail, v, o, c.Rest());
      left := c.size;
    }
  }

  /** The stores for `v` in `size` bytes of room stay in `length` bytes of buffer. */
  ghost predicate StaysInside(v: Value, length: nat, size: nat) {
    v.Box? && Typed(S.Public(), 0, v.content) && BoxInside(length, 0, PlanOf(S.Public(), 0, v.content), AtMost(size))
  }

  lemma Front(before: Bytes, e: Bytes)
    requires 0 < |e| <= |before|
    ensures Image(before, 0, e)[..|e|] == e
  {
  }

  lemma FromEncoding(f: Format, e: Bytes, tail: Bytes, v: Value, o: Outcome, rest: Bytes)
    requires Fits(f, 0, v) && e == Encode(f, 0, v) && Inverts(f, 0, e + tail, o, rest)
    ensures o == Done(v) && rest == tail
  {
  }

  /**
    `TSS_Structure_Marshal` of a TPM2B_PUBLIC: count, allocate that many bytes, fill them.  The buffer is
    filled exactly, with the structure and its size.  `memory` says whether `malloc` succeeds.
  */
  method StructureMarshal(v: Value, memory: bool) returns (r: Option<array<Byte>>)
    requires v.Box? && Typed(S.Public(), 0, v.content) && CountHolds(PlanOf(S.Public(), 0, v.content))
    ensures var q := PlanOf(S.Public(), 0, v.content);
            && (r.Some? <==> memory && q.ok && |Flat(q.puts)| + 2 < 0x1_0000)
            && (r.Some? ==> fresh(r.value) && r.value[..] == Octets(2, |Flat(q.puts)|) + Flat(q.puts))
  {
    ghost var q := PlanOf(S.Public(), 0, v.content);
    hide Typed, PlanOf, S.Public, Flat, Fitting, Octets, BoxInside, BoxImage, Image, Count;
    CountHoldsIff(q);
    CountRange(|Flat(q.puts)| + 2);
    var nothing := new Byte[0];
    var counter := new Writer(nothing, Unlimited, true);
    var counted := counter.Tpm2bPublic(v, 0);
    if counted.IsFailure() {
      return None;
    }
    if counted.count == 0 || !memory {
      return None;
    }
    var buffer := new Byte[counted.count](_ => 0);
    var w := new Writer(buffer, Unlimited, false);
    ghost var m := buffer[..];
    var filled := w.Tpm2bPublic(v, 0);
    ExactImage(m, q);
    return Some(buffer);
  }

  /** `TSS_File_ReadStructure` of a TPM2B_PUBLIC, from the contents of the file. */
  method ReadStructure(file: Bytes) returns (o: Outcome, rest: Bytes)
    requires |file| < 0x1_0000_0000
    ensures Inverts(S.Tpm2bPublic(), 0, file, o, rest)
  {
    hide Inverts, S.Tpm2bPublic;
    var c := new Cursor(file);
    o := c.Tpm2bPublic();
    rest := c.data[c.pos..];
  }

  /**
    `TSS_File_WriteStructure`, then `TSS_File_ReadStructure`: what is read from the file is what was
    written.
  */
  method WriteThenRead(v: Value, memory: bool) returns (written: bool, o: Outcome, rest: Bytes)
    requires Fits(S.Tpm2bPublic(), 0, v) && |Encode(S.Tpm2bPublic(), 0, v)| != 0x1_0001
    ensures written <==> memory && |Encode(S.Tpm2bPublic(), 0, v)| < 0x1_0000
    ensures written ==> o == Done(v) && rest == []
  {
    PublicIsPlain();
    BoxPlan(S.Tpm2bPublic(), v);
    hide Fits, Encode, S.Public, Inverts, Typed, PlanOf, Flat, Octets, Plainly;
    var stream := StructureMarshal(v, memory);
    written, o, rest := stream.Some?, Fail(INSUFFICIENT), [];
    if written {
      var file := stream.value[..];
      o, rest := ReadStructure(file);
      assert file + [] == file;
      FromEncoding(S.Tpm2bPublic(), file, [], v, o, rest);
    }
  }

  /**
    The 16-bit count is the length of the structure, or zero, which allocation refuses.  In every other
    case it is too small: see `CountHoldsIff`.
  */
  ghost predicate CountHolds(q: Plan) {
    q.ok ==> |Flat(q.puts)| + 2 < 0x1_0000 || Count(0, |Flat(q.puts)| + 2) == 0
  }

  /** Filling stays in the counted buffer, if one is allocated, exactly if the count holds. */
  lemma CountHoldsIff(q: Plan)
    ensures var n := Count(0, |Flat(q.puts)| + 2);
            q.ok ==> (CountHolds(q) <==> n == 0 || BoxInside(n, 0, q, Unlimited))
  {
    hide Flat, Fitting, Octets;
  }

  lemma ExactImage(before: Bytes, q: Plan)
    requires q.ok && |before| == |Flat(q.puts)| + 2 < 0x1_0000 && BoxInside(|before|, 0, q, Unlimited)
    ensures BoxImage(before, 0, q, Unlimited) == Octets(2, |Flat(q.puts)|) + Flat(q.puts)
  {
    hide Flat, Fitting, Octets;
  }

  /** A point of two empty coordinates. */
  function EmptyPoint(): Value {
    Box(Many([Blob([]), Blob([])]))
  }

  /**
    The room is left in this case: with four bytes of room the function reports that there is none, and
    has stored two bytes behind it.
  */
  lemma EmptyPointLeavesRoom(before: Bytes)
    requires |before| >= 6
    ensures Fits(S.Tpm2bEccPoint(), 0, EmptyPoint()) && Typed(S.EccPoint(), 0, EmptyPoint().content)
    ensures var q := PlanOf(S.EccPoint(), 0, EmptyPoint().content);
            && !BoxInside(4, 0, q, AtMost(4)) && !AtMost(4).Allows(|Flat(q.puts)| + 2)
            && BoxInside(|before|, 0, q, AtMost(4)) && BoxImage(before, 0, q, AtMost(4))[4..6] == [0, 0]
  {
    EmptyPointFits();
    PublicIsPlain();
    BoxPlan(S.Tpm2bEccPoint(), EmptyPoint());
    PlanEncodes(S.EccPoint(), 0, EmptyPoint().content);
    hide Fits, Typed, PlanOf, Encode, Flat, Fitting, Octets, Plainly, S.EccPoint, Image;
    var q := PlanOf(S.EccPoint(), 0, EmptyPoint().content);
    FittingAll(q.puts, AtMost(4));
    Behind4(before);
  }

  lemma Behind4(before: Bytes)
    requires |before| >= 6
    ensures Image(before, 2, [0, 0, 0, 0])[4..6] == [0, 0]
  {
  }

  lemma EmptyPointFits()
    ensures Fits(S.EccPoint(), 0, EmptyPoint().content) && Encode(S.EccPoint(), 0, EmptyPoint().content) == [0, 0, 0, 0]
    ensures Fits(S.Tpm2bEccPoint(), 0, EmptyPoint())
  {
    var f, items := S.EccPoint(), EmptyPoint().content.items;
    SizedFits(2, S.ECC_PARAMETER_MAX, SIZE, 0, []);
    FieldsDone(f, items);
    FieldFirst(f, items, 1);
    FieldFirst(f, items, 0);
    RecordFits(f, 0, items);
    assert Octets(2, 0) == [0, 0] by { Octets2(0); }
  }
}
