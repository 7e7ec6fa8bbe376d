/** The unmarshalling functions of `Unmarshal.c`, one method each, over a moving cursor. */
module Unmarshal {
  import opened BigEndian
  import opened WireFormat
  import S = TpmStructures

  /** The target of a call, or its error code. */
  datatype Outcome = Done(v: Value) | Fail(rc: Rc)
  {
    predicate IsFailure() { Fail? }
    function PropagateFailure(): Outcome requires Fail? { this }
    function Extract(): Value requires Done? { v }

    /** The outcome together with the bytes not consumed. */
    function With(rest: Bytes): Result {
      if Done? then Ok(v, rest) else Err(rc, rest)
    }
  }

  /**
    A call is the inverse of the encoding: a success has consumed the encoding of the result, and from
    the encoding of a value, followed by anything, the call returns the value and leaves the rest.
  */
  ghost predicate Inverts(f: Format, selector: nat, before: Bytes, o: Outcome, after: Bytes) {
    && (o.Done? ==> Fits(f, selector, o.v) && before == Encode(f, selector, o.v) + after)
    && forall v, s :: Fits(f, selector, v) && before == Encode(f, selector, v) + s ==> o == Done(v) && after == s
  }

  /** What holds of every method below that reads a format. */
  lemma ReadingInverts(f: Format, selector: nat, before: Bytes, o: Outcome, after: Bytes)
    requires o.With(after) == Parse(f, selector, before)
    ensures Inverts(f, selector, before, o, after)
  {
    hide Parse, Fits, Encode;
    if o.Done? {
      Sound(f, selector, before);
    }
    forall v, s | Fits(f, selector, v) && before == Encode(f, selector, v) + s
      ensures o == Done(v) && after == s
    {
      Complete(f, selector, v, s);
    }
  }

  class Cursor {
    const data: Bytes
    var pos: nat
    var size: nat

    ghost predicate Valid()
      reads this
    {
      pos + size == |data| < 0x1_0000_0000
    }

    ghost function Rest(): Bytes
      requires Valid()
      reads this
    {
      data[pos..]
    }

    constructor (data: Bytes)
      requires |data| < 0x1_0000_0000
      ensures Valid() && Rest() == data
    {
      this.data := data;
      pos, size := 0, |data|;
    }

    /** The call consumed an encoding of format `f`, or failed, exactly as `Parse` does. */
    twostate predicate Reads(f: Format, selector: nat, o: Outcome)
      requires old(Valid())
      reads this
    {
      Valid() && o.With(Rest()) == Parse(f, selector, old(Rest()))
    }

    /** The fields of record `f` read so far, and what is left to do for the bytes `b`. */
    ghost predicate Reading(f: Format, b: Bytes, target: seq<Value>)
      reads this
    {
      && Valid() && f.Record? && |target| <= |f.fields|
      && if |target| == |f.fields| then Parse(f, 0, b) == Ok(Many(target), Rest())
         else
           var r := Parse(f.fields[|target|].format, Selector(f.fields[|target|], target), Rest());
           Parse(f, 0, b) == if r.Err? then r else ParseFields(f, target + [r.v], r.rest)
    }

    function Start(ghost f: Format): (target: seq<Value>)
      requires Valid() && f.Record?
      reads this
      ensures target == [] && Reading(f, Rest(), target)
    {
      []
    }

    /** Stores one more field. */
    function Store(ghost f: Format, ghost b: Bytes, before: seq<Value>, v: Value): (target: seq<Value>)
      requires Valid() && f.Record? && |before| < |f.fields|
      requires Parse(f, 0, b) == ParseFields(f, before + [v], Rest())
      reads this
      ensures target == before + [v] && Reading(f, b, target)
    {
      before + [v]
    }

    method Advance(n: nat)
      requires Valid() && n <= size
      modifies this
      ensures Valid() && |old(Rest())| >= n && Rest() == old(Rest())[n..]
    {
      pos, size := pos + n, size - n;
    }

    method UInt8() returns (o: Outcome)
      requires Valid()
      modifies this
      ensures Reads(S.U8(), 0, o)
      ensures o.Done? ==> o.v.Num?
    {
      if size < 1 {
        return Fail(INSUFFICIENT);
      }
      o := Done(Num(data[pos]));
      Number1(Rest());
      Advance(1);
    }

    method UInt16() returns (o: Outcome)
      requires Valid()
      modifies this
      ensures Reads(S.U16(), 0, o)
      ensures o.Done? ==> o.v.Num?
    {
      if size < 2 {
        return Fail(INSUFFICIENT);
      }
      o := Done(Num(0x100 * (data[pos] as nat) + data[pos + 1]));
      Number2(Rest());
      Advance(2);
    }

    method UInt32() returns (o: Outcome)
      requires Valid()
      modifies this
      ensures Reads(S.U32(), 0, o)
      ensures o.Done? ==> o.v.Num?
    {
      if size < 4 {
        return Fail(INSUFFICIENT);
      }
      o := Done(Num(0x100_0000 * (data[pos] as nat) + 0x1_0000 * (data[pos + 1] as nat)
                    + 0x100 * (data[pos + 2] as nat) + data[pos + 3]));
      Number4(Rest());
      Advance(4);
    }

    method UInt64() returns (o: Outcome)
      requires Valid()
      modifies this
      ensures Reads(S.U64(), 0, o)
      ensures o.Done? ==> o.v.Num?
    {
      if size < 8 {
        return Fail(INSUFFICIENT);
      }
      o := Done(Num(0x100_0000_0000_0000 * (data[pos] as nat) + 0x1_0000_0000_0000 * (data[pos + 1] as nat)
                    + 0x100_0000_0000 * (data[pos + 2] as nat) + 0x1_0000_0000 * (data[pos + 3] as nat)
                    + 0x100_0000 * (data[pos + 4] as nat) + 0x1_0000 * (data[pos + 5] as nat)
                    + 0x100 * (data[pos + 6] as nat) + data[pos + 7]));
      Number4(Rest());
      Number8(Rest());
      Advance(8);
    }

    /** A 32-bit word whose value is then tested: `TPMA_OBJECT`, `TPMA_NV`, `TPMI_RH_NV_INDEX`, `TPM_GENERATED`. */
    method Checked32(test: Test) returns (o: Outcome)
      requires Valid()
      modifies this
      ensures Reads(UInt(4, test), 0, o)
    {
      var n :- UInt32();
      if !test.Passes(n.n) {
        return Fail(test.Error());
      }
      return Done(n);
    }

    method Array(n: nat) returns (o: Outcome)
      requires Valid()
      modifies this
      ensures Reads(Fixed(n), 0, o)
    {
      if size < n {
        return Fail(INSUFFICIENT);
      }
      o := Done(Blob(data[pos..pos + n]));
      assert o.v.bytes == Rest()[..n];
      Advance(n);
    }

    method Tpm2b(capacity: nat) returns (o: Outcome)
      requires Valid()
      modifies this
      ensures Reads(S.Tpm2b(capacity), 0, o)
    {
      var n :- UInt16();
      if n.n > capacity {
        return Fail(SIZE);
      }
      o := Array(n.n);
    }

    /** The selection bitmap of `TPMS_PCR_SELECTION`. */
    method Sized8(capacity: nat) returns (o: Outcome)
      requires Valid()
      modifies this
      ensures Reads(Sized(1, capacity, VALUE), 0, o)
    {
      var n :- UInt8();
      if n.n > capacity {
        return Fail(VALUE);
      }
      o := Array(n.n);
    }

    /** A byte string behind a 32-bit length, in TPM 1.2 structures. */
    method Sized32(capacity: nat) returns (o: Outcome)
      requires Valid()
      modifies this
      ensures Reads(Sized(4, capacity, SIZE), 0, o)
    {
      var n :- UInt32();
      if n.n > capacity {
        return Fail(SIZE);
      }
      o := Array(n.n);
    }

    /** A structure behind its length. */
    lemma AtBox(f: Format, selector: nat)
      requires Valid() && f.Boxed?
      ensures var r := Parse(UInt(f.width, Any), 0, Rest());
              Parse(f, selector, Rest()) ==
                if r.Err? then r
                else if r.v.n == 0 then if f.optional then Ok(Absent, r.rest) else Err(SIZE, r.rest)
                else
                  var inner := Parse(f.content, selector, r.rest);
                  if inner.Err? then inner
                  else if |r.rest| - |inner.rest| != r.v.n then Err(SIZE, inner.rest)
                  else Ok(Box(inner.v), inner.rest)
    {
    }

    /** The arm of a union; the arms are no unions themselves. */
    lemma AtUnion(f: Format, selector: nat)
      requires Valid() && f.Union?
      ensures selector !in f.arms ==> Parse(f, selector, Rest()) == Err(SELECTOR, Rest())
      ensures selector in f.arms ==>
                var arm := f.arms[selector];
                && Parse(f, selector, Rest()) == Parse(arm, selector, Rest())
                && (!arm.Union? && !arm.Boxed? ==> Parse(arm, selector, Rest()) == Parse(arm, 0, Rest()))
                && (arm == S.Empty() ==> Parse(arm, selector, Rest()) == Ok(Many([]), Rest()))
    {
    }

    /** A list behind its element count. */
    lemma AtList(f: Format, selector: nat)
      requires Valid() && f.List?
      ensures var r := Parse(S.U32(), 0, Rest());
              Parse(f, selector, Rest()) ==
                if r.Err? then r
                else if r.v.n > f.capacity then Err(SIZE, r.rest)
                else ParseItems(f, r.v.n, [], r.rest)
    {
    }

    // Symmetric algorithms and schemes

    method SymKeyBits(selector: nat) returns (o: Outcome)
      requires Valid()
      modifies this
      ensures Reads(S.SymKeyBits(), selector, o)
    {
      hide Parse;
      AtUnion(S.SymKeyBits(), selector);
      if selector == S.ALG_AES || selector == S.ALG_SM4 || selector == S.ALG_CAMELLIA || selector == S.ALG_XOR {
        o := UInt16();
      } else if selector == S.ALG_NULL {
        o := Done(Many([]));
      } else {
        o := Fail(SELECTOR);
      }
    }

    method SymMode(selector: nat) returns (o: Outcome)
      requires Valid()
      modifies this
      ensures Reads(S.SymMode(), selector, o)
    {
      hide Parse;
      AtUnion(S.SymMode(), selector);
      if selector == S.ALG_AES || selector == S.ALG_SM4 || selector == S.ALG_CAMELLIA {
        o := UInt16();
      } else if selector == S.ALG_XOR || selector == S.ALG_NULL {
        o := Done(Many([]));
      } else {
        o := Fail(SELECTOR);
      }
    }

    method SymDefObject() returns (o: Outcome)
      requires Valid()
      modifies this
      ensures Reads(S.SymDefObject(), 0, o)
    {
      hide Parse, ParseFields, S.SymKeyBits, S.SymMode;
      ghost var f, b := S.SymDefObject(), Rest();
      var target := Start(f);
      var algorithm :- UInt16();
      target := Store(f, b, target, algorithm);
      var keyBits :- SymKeyBits(algorithm.n);
      target := Store(f, b, target, keyBits);
      var mode :- SymMode(algorithm.n);
      target := Store(f, b, target, mode);
      return Done(Many(target));
    }

    method SchemeEcdaa() returns (o: Outcome)
      requires Valid()
      modifies this
      ensures Reads(S.SchemeEcdaa(), 0, o)
    {
      hide Parse, ParseFields;
      ghost var f, b := S.SchemeEcdaa(), Rest();
      var target := Start(f);
      var hashAlg :- UInt16();
      target := Store(f, b, target, hashAlg);
      var count :- UInt16();
      target := Store(f, b, target, count);
      return Done(Many(target));
    }

    method SchemeXor() returns (o: Outcome)
      requires Valid()
      modifies this
      ensures Reads(S.SchemeXor(), 0, o)
    {
      hide Parse, ParseFields;
      ghost var f, b := S.SchemeXor(), Rest();
      var target := Start(f);
      var hashAlg :- UInt16();
      target := Store(f, b, target, hashAlg);
      var kdf :- UInt16();
      target := Store(f, b, target, kdf);
      return Done(Many(target));
    }

    method SchemeKeyedHash(selector: nat) returns (o: Outcome)
      requires Valid()
      modifies this
      ensures Reads(S.SchemeKeyedHash(), selector, o)
    {
      hide Parse;
      AtUnion(S.SchemeKeyedHash(), selector);
      if selector == S.ALG_HMAC {
        o := UInt16();
      } else if selector == S.ALG_XOR {
        o := SchemeXor();
      } else if selector == S.ALG_NULL {
        o := Done(Many([]));
      } else {
        o := Fail(SELECTOR);
      }
    }

    method KeyedHashScheme() returns (o: Outcome)
      requires Valid()
      modifies this
      ensures Reads(S.KeyedHashScheme(), 0, o)
    {
      hide Parse, ParseFields, S.SchemeKeyedHash;
      ghost var f, b := S.KeyedHashScheme(), Rest();
      var target := Start(f);
      var scheme :- UInt16();
      target := Store(f, b, target, scheme);
      var details :- SchemeKeyedHash(scheme.n);
      target := Store(f, b, target, details);
      return Done(Many(target));
    }

    method KdfDetails(selector: nat) returns (o: Outcome)
      requires Valid()
      modifies this
      ensures Reads(S.KdfDetails(), selector, o)
    {
      hide Parse;
      AtUnion(S.KdfDetails(), selector);
      if selector == S.ALG_MGF1 || selector == S.ALG_KDF1_SP800_56A || selector == S.ALG_KDF2 ||
         selector == S.ALG_KDF1_SP800_108 {
        o := UInt16();
      } else if selector == S.ALG_NULL {
        o := Done(Many([]));
      } else {
        o := Fail(SELECTOR);
      }
    }

    method KdfScheme() returns (o: Outcome)
      requires Valid()
      modifies this
      ensures Reads(S.KdfScheme(), 0, o)
    {
      hide Parse, ParseFields, S.KdfDetails;
      ghost var f, b := S.KdfScheme(), Rest();
      var target := Start(f);
      var scheme :- UInt16();
      target := Store(f, b, target, scheme);
      var details :- KdfDetails(scheme.n);
      target := Store(f, b, target, details);
      return Done(Many(target));
    }

    method AsymDetails(selector: nat) returns (o: Outcome)
      requires Valid()
      modifies this
      ensures Reads(S.AsymDetails(), selector, o)
    {
      hide Parse;
      AtUnion(S.AsymDetails(), selector);
      if selector == S.ALG_ECDH || selector == S.ALG_ECMQV || selector == S.ALG_RSASSA || selector == S.ALG_RSAPSS ||
         selector == S.ALG_ECDSA || selector == S.ALG_SM2 || selector == S.ALG_ECSCHNORR || selector == S.ALG_OAEP {
        o := UInt16();
      } else if selector == S.ALG_ECDAA {
        o := SchemeEcdaa();
      } else if selector == S.ALG_RSAES || selector == S.ALG_NULL {
        o := Done(Many([]));
      } else {
        o := Fail(SELECTOR);
      }
    }

    method AsymScheme() returns (o: Outcome)
      requires Valid()
      modifies this
      ensures Reads(S.AsymScheme(), 0, o)
    {
      hide Parse, ParseFields, S.AsymDetails;
      ghost var f, b := S.AsymScheme(), Rest();
      var target := Start(f);
      var scheme :- UInt16();
      target := Store(f, b, target, scheme);
      var details :- AsymDetails(scheme.n);
      target := Store(f, b, target, details);
      return Done(Many(target));
    }

    // Public area

    method EccPoint() returns (o: Outcome)
      requires Valid()
      modifies this
      ensures Reads(S.EccPoint(), 0, o)
    {
      hide Parse, ParseFields, S.Tpm2b;
      ghost var f, b := S.EccPoint(), Rest();
      var target := Start(f);
      var x :- Tpm2b(S.ECC_PARAMETER_MAX);
      target := Store(f, b, target, x);
      var y :- Tpm2b(S.ECC_PARAMETER_MAX);
      target := Store(f, b, target, y);
      return Done(Many(target));
    }

    method RsaParms() returns (o: Outcome)
      requires Valid()
      modifies this
      ensures Reads(S.RsaParms(), 0, o)
    {
      hide Parse, ParseFields, S.SymDefObject, S.AsymScheme;
      ghost var f, b := S.RsaParms(), Rest();
      var target := Start(f);
      var symmetric :- SymDefObject();
      target := Store(f, b, target, symmetric);
      var scheme :- AsymScheme();
      target := Store(f, b, target, scheme);
      var keyBits :- UInt16();
      target := Store(f, b, target, keyBits);
      var exponent :- UInt32();
      target := Store(f, b, target, exponent);
      return Done(Many(target));
    }

    method EccParms() returns (o: Outcome)
      requires Valid()
      modifies this
      ensures Reads(S.EccParms(), 0, o)
    {
      hide Parse, ParseFields, S.SymDefObject, S.AsymScheme, S.KdfScheme;
      ghost var f, b := S.EccParms(), Rest();
      var target := Start(f);
      var symmetric :- SymDefObject();
      target := Store(f, b, target, symmetric);
      var scheme :- AsymScheme();
      target := Store(f, b, target, scheme);
      var curve :- UInt16();
      target := Store(f, b, target, curve);
      var kdf :- KdfScheme();
      target := Store(f, b, target, kdf);
      return Done(Many(target));
    }

    method PublicParms(selector: nat) returns (o: Outcome)
      requires Valid()
      modifies this
      ensures Reads(S.PublicParms(), selector, o)
    {
      hide Parse;
      AtUnion(S.PublicParms(), selector);
      if selector == S.ALG_KEYEDHASH {
        o := KeyedHashScheme();
      } else if selector == S.ALG_SYMCIPHER {
        o := SymDefObject();
      } else if selector == S.ALG_RSA {
        o := RsaParms();
      } else if selector == S.ALG_ECC {
        o := EccParms();
      } else {
        o := Fail(SELECTOR);
      }
    }

    method PublicId(selector: nat) returns (o: Outcome)
      requires Valid()
      modifies this
      ensures Reads(S.PublicId(), selector, o)
    {
      hide Parse;
      AtUnion(S.PublicId(), selector);
      if selector == S.ALG_KEYEDHASH || selector == S.ALG_SYMCIPHER {
        o := Tpm2b(S.DIGEST_MAX);
      } else if selector == S.ALG_RSA {
        o := Tpm2b(S.RSA_PUBLIC_MAX);
      } else if selector == S.ALG_ECC {
        o := EccPoint();
      } else {
        o := Fail(SELECTOR);
      }
    }

    method Public() returns (o: Outcome)
      requires Valid()
      modifies this
      ensures Reads(S.Public(), 0, o)
    {
      hide Parse, ParseFields, S.Tpm2b, S.PublicParms, S.PublicId;
      ghost var f, b := S.Public(), Rest();
      var target := Start(f);
      var kind :- UInt16();
      target := Store(f, b, target, kind);
      var nameAlg :- UInt16();
      target := Store(f, b, target, nameAlg);
      var attributes :- Checked32(Unreserved(S.OBJECT_RESERVED));
      target := Store(f, b, target, attributes);
      var authPolicy :- Tpm2b(S.DIGEST_MAX);
      target := Store(f, b, target, authPolicy);
      var parameters :- PublicParms(kind.n);
      target := Store(f, b, target, parameters);
      var unique :- PublicId(kind.n);
      target := Store(f, b, target, unique);
      return Done(Many(target));
    }

    method Tpm2bPublic() returns (o: Outcome)
      requires Valid()
      modifies this
      ensures Reads(S.Tpm2bPublic(), 0, o)
      ensures Inverts(S.Tpm2bPublic(), 0, old(Rest()), o, Rest())
    {
      hide Parse, S.Public, Fits, Encode, Inverts;
      ghost var b := Rest();
      o := Tpm2bPublicArea();
      ReadingInverts(S.Tpm2bPublic(), 0, b, o, Rest());
    }

    method Tpm2bPublicArea() returns (o: Outcome)
      requires Valid()
      modifies this
      ensures Reads(S.Tpm2bPublic(), 0, o)
    {
      hide Parse, S.Public;
      AtBox(S.Tpm2bPublic(), 0);
      var n :- UInt16();
      if n.n == 0 {
        return Fail(SIZE);
      }
      var startSize := size;
      var v :- Public();
      if n.n != startSize - size {
        return Fail(SIZE);
      }
      return Done(Box(v));
    }

    method Tpm2bEccPoint() returns (o: Outcome)
      requires Valid()
      modifies this
      ensures Reads(S.Tpm2bEccPoint(), 0, o)
    {
      hide Parse, S.EccPoint;
      AtBox(S.Tpm2bEccPoint(), 0);
      var n :- UInt16();
      if n.n == 0 {
        return Fail(SIZE);
      }
      var startSize := size;
      var v :- EccPoint();
      if n.n != startSize - size {
        return Fail(SIZE);
      }
      return Done(Box(v));
    }

    // Sensitive area

    method SensitiveCreate() returns (o: Outcome)
      requires Valid()
      modifies this
      ensures Reads(S.SensitiveCreate(), 0, o)
    {
      hide Parse, ParseFields, S.Tpm2b;
      ghost var f, b := S.SensitiveCreate(), Rest();
      var target := Start(f);
      var userAuth :- Tpm2b(S.AUTH_MAX);
      target := Store(f, b, target, userAuth);
      var sensitiveData :- Tpm2b(S.SENSITIVE_DATA_MAX);
      target := Store(f, b, target, sensitiveData);
      return Done(Many(target));
    }

    method Tpm2bSensitiveCreate() returns (o: Outcome)
      requires Valid()
      modifies this
      ensures Reads(S.Tpm2bSensitiveCreate(), 0, o)
    {
      hide Parse, S.SensitiveCreate;
      AtBox(S.Tpm2bSensitiveCreate(), 0);
      var n :- UInt16();
      if n.n == 0 {
        return Fail(SIZE);
      }
      var startSize := size;
      var v :- SensitiveCreate();
      if n.n != startSize - size {
        return Fail(SIZE);
      }
      return Done(Box(v));
    }

    method SensitiveComposite(selector: nat) returns (o: Outcome)
      requires Valid()
      modifies this
      ensures Reads(S.SensitiveComposite(), selector, o)
    {
      hide Parse;
      AtUnion(S.SensitiveComposite(), selector);
      if selector == S.ALG_RSA {
        o := Tpm2b(S.RSA_PRIVATE_MAX);
      } else if selector == S.ALG_ECC {
        o := Tpm2b(S.ECC_PARAMETER_MAX);
      } else if selector == S.ALG_KEYEDHASH {
        o := Tpm2b(S.SENSITIVE_DATA_MAX);
      } else if selector == S.ALG_SYMCIPHER {
        o := Tpm2b(S.SYM_KEY_MAX);
      } else {
        o := Fail(SELECTOR);
      }
    }

    method Sensitive() returns (o: Outcome)
      requires Valid()
      modifies this
      ensures Reads(S.Sensitive(), 0, o)
    {
      hide Parse, ParseFields, S.Tpm2b, S.SensitiveComposite;
      ghost var f, b := S.Sensitive(), Rest();
      var target := Start(f);
      var kind :- UInt16();
      target := Store(f, b, target, kind);
      var authValue :- Tpm2b(S.AUTH_MAX);
      target := Store(f, b, target, authValue);
      var seedValue :- Tpm2b(S.DIGEST_MAX);
      target := Store(f, b, target, seedValue);
      var sensitive :- SensitiveComposite(kind.n);
      target := Store(f, b, target, sensitive);
      return Done(Many(target));
    }

    method Tpm2bSensitive() returns (o: Outcome)
      requires Valid()
      modifies this
      ensures Reads(S.Tpm2bSensitive(), 0, o)
    {
      hide Parse, S.Sensitive;
      AtBox(S.Tpm2bSensitive(), 0);
      var n :- UInt16();
      if n.n != 0 {
        var startSize := size;
        var v :- Sensitive();
        if n.n != startSize - size {
          return Fail(SIZE);
        }
        return Done(Box(v));
      }
      return Done(Absent);
    }

    // Non-volatile storage

    method NvPublic() returns (o: Outcome)
      requires Valid()
      modifies this
      ensures Reads(S.NvPublic(), 0, o)
    {
      hide Parse, ParseFields, S.Tpm2b;
      ghost var f, b := S.NvPublic(), Rest();
      var target := Start(f);
      var nvIndex :- Checked32(Between(S.NV_INDEX_FIRST, S.NV_INDEX_LAST));
      target := Store(f, b, target, nvIndex);
      var nameAlg :- UInt16();
      target := Store(f, b, target, nameAlg);
      var attributes :- Checked32(Unreserved(S.NV_RESERVED));
      target := Store(f, b, target, attributes);
      var authPolicy :- Tpm2b(S.DIGEST_MAX);
      target := Store(f, b, target, authPolicy);
      var dataSize :- UInt16();
      target := Store(f, b, target, dataSize);
      return Done(Many(target));
    }

    method Tpm2bNvPublic() returns (o: Outcome)
      requires Valid()
      modifies this
      ensures Reads(S.Tpm2bNvPublic(), 0, o)
    {
      hide Parse, S.NvPublic;
      AtBox(S.Tpm2bNvPublic(), 0);
      var n :- UInt16();
      if n.n == 0 {
        return Fail(SIZE);
      }
      var startSize := size;
      var v :- NvPublic();
      if n.n != startSize - size {
        return Fail(SIZE);
      }
      return Done(Box(v));
    }

    // Creation data and attestation

    method PcrSelection() returns (o: Outcome)
      requires Valid()
      modifies this
      ensures Reads(S.PcrSelection(), 0, o)
    {
      hide Parse, ParseFields;
      ghost var f, b := S.PcrSelection(), Rest();
      var target := Start(f);
      var hash :- UInt16();
      target := Store(f, b, target, hash);
      var pcrSelect :- Sized8(S.PCR_SELECT_MAX);
      target := Store(f, b, target, pcrSelect);
      return Done(Many(target));
    }

    method PcrSelections() returns (o: Outcome)
      requires Valid()
      modifies this
      ensures Reads(S.PcrSelections(), 0, o)
    {
      hide Parse, S.PcrSelection;
      ghost var f := S.PcrSelections();
      AtList(f, 0);
      var count :- UInt32();
      if count.n > S.HASH_COUNT {
        return Fail(SIZE);
      }
      ghost var all := ParseItems(f, count.n, [], Rest());
      var i, items := 0, [];
      while i < count.n
        invariant Valid() && i <= count.n
        invariant all == ParseItems(f, count.n - i, items, Rest())
      {
        var item :- PcrSelection();
        i, items := i + 1, items + [item];
      }
      return Done(Many(items));
    }

    method CreationData() returns (o: Outcome)
      requires Valid()
      modifies this
      ensures Reads(S.CreationData(), 0, o)
    {
      hide Parse, ParseFields, S.Tpm2b, S.PcrSelections;
      ghost var f, b := S.CreationData(), Rest();
      var target := Start(f);
      var pcrSelect :- PcrSelections();
      target := Store(f, b, target, pcrSelect);
      var pcrDigest :- Tpm2b(S.DIGEST_MAX);
      target := Store(f, b, target, pcrDigest);
      var locality :- UInt8();
      target := Store(f, b, target, locality);
      var parentNameAlg :- UInt16();
      target := Store(f, b, target, parentNameAlg);
      var parentName :- Tpm2b(S.NAME_MAX);
      target := Store(f, b, target, parentName);
      var parentQualifiedName :- Tpm2b(S.NAME_MAX);
      target := Store(f, b, target, parentQualifiedName);
      var outsideInfo :- Tpm2b(S.DATA_MAX);
      target := Store(f, b, target, outsideInfo);
      return Done(Many(target));
    }

    method Tpm2bCreationData() returns (o: Outcome)
      requires Valid()
      modifies this
      ensures Reads(S.Tpm2bCreationData(), 0, o)
    {
      hide Parse, S.CreationData;
      AtBox(S.Tpm2bCreationData(), 0);
      var n :- UInt16();
      if n.n == 0 {
        return Fail(SIZE);
      }
      var startSize := size;
      var v :- CreationData();
      if n.n != startSize - size {
        return Fail(SIZE);
      }
      return Done(Box(v));
    }

    method ClockInfo() returns (o: Outcome)
      requires Valid()
      modifies this
      ensures Reads(S.ClockInfo(), 0, o)
    {
      hide Parse, ParseFields;
      ghost var f, b := S.ClockInfo(), Rest();
      var target := Start(f);
      var clock :- UInt64();
      target := Store(f, b, target, clock);
      var resetCount :- UInt32();
      target := Store(f, b, target, resetCount);
      var restartCount :- UInt32();
      target := Store(f, b, target, restartCount);
      var safe :- UInt8();
      target := Store(f, b, target, safe);
      return Done(Many(target));
    }

    method TimeInfo() returns (o: Outcome)
      requires Valid()
      modifies this
      ensures Reads(S.TimeInfo(), 0, o)
    {
      hide Parse, ParseFields, S.ClockInfo;
      ghost var f, b := S.TimeInfo(), Rest();
      var target := Start(f);
      var time :- UInt64();
      target := Store(f, b, target, time);
      var clockInfo :- ClockInfo();
      target := Store(f, b, target, clockInfo);
      return Done(Many(target));
    }

    method TimeAttestInfo() returns (o: Outcome)
      requires Valid()
      modifies this
      ensures Reads(S.TimeAttestInfo(), 0, o)
    {
      hide Parse, ParseFields, S.TimeInfo;
      ghost var f, b := S.TimeAttestInfo(), Rest();
      var target := Start(f);
      var time :- TimeInfo();
      target := Store(f, b, target, time);
      var firmwareVersion :- UInt64();
      target := Store(f, b, target, firmwareVersion);
      return Done(Many(target));
    }

    method CertifyInfo() returns (o: Outcome)
      requires Valid()
      modifies this
      ensures Reads(S.CertifyInfo(), 0, o)
    {
      hide Parse, ParseFields, S.Tpm2b;
      ghost var f, b := S.CertifyInfo(), Rest();
      var target := Start(f);
      var name :- Tpm2b(S.NAME_MAX);
      target := Store(f, b, target, name);
      var qualifiedName :- Tpm2b(S.NAME_MAX);
      target := Store(f, b, target, qualifiedName);
      return Done(Many(target));
    }

    method QuoteInfo() returns (o: Outcome)
      requires Valid()
      modifies this
      ensures Reads(S.QuoteInfo(), 0, o)
    {
      hide Parse, ParseFields, S.Tpm2b, S.PcrSelections;
      ghost var f, b := S.QuoteInfo(), Rest();
      var target := Start(f);
      var pcrSelect :- PcrSelections();
      target := Store(f, b, target, pcrSelect);
      var pcrDigest :- Tpm2b(S.DIGEST_MAX);
      target := Store(f, b, target, pcrDigest);
      return Done(Many(target));
    }

    method CommandAuditInfo() returns (o: Outcome)
      requires Valid()
      modifies this
      ensures Reads(S.CommandAuditInfo(), 0, o)
    {
      hide Parse, ParseFields, S.Tpm2b;
      ghost var f, b := S.CommandAuditInfo(), Rest();
      var target := Start(f);
      var auditCounter :- UInt64();
      target := Store(f, b, target, auditCounter);
      var digestAlg :- UInt16();
      target := Store(f, b, target, digestAlg);
      var auditDigest :- Tpm2b(S.DIGEST_MAX);
      target := Store(f, b, target, auditDigest);
      var commandDigest :- Tpm2b(S.DIGEST_MAX);
      target := Store(f, b, target, commandDigest);
      return Done(Many(target));
    }

    method SessionAuditInfo() returns (o: Outcome)
      requires Valid()
      modifies this
      ensures Reads(S.SessionAuditInfo(), 0, o)
    {
      hide Parse, ParseFields, S.Tpm2b;
      ghost var f, b := S.SessionAuditInfo(), Rest();
      var target := Start(f);
      var exclusiveSession :- UInt8();
      target := Store(f, b, target, exclusiveSession);
      var sessionDigest :- Tpm2b(S.DIGEST_MAX);
      target := Store(f, b, target, sessionDigest);
      return Done(Many(target));
    }

    method CreationInfo() returns (o: Outcome)
      requires Valid()
      modifies this
      ensures Reads(S.CreationInfo(), 0, o)
    {
      hide Parse, ParseFields, S.Tpm2b;
      ghost var f, b := S.CreationInfo(), Rest();
      var target := Start(f);
      var objectName :- Tpm2b(S.NAME_MAX);
      target := Store(f, b, target, objectName);
      var creationHash :- Tpm2b(S.DIGEST_MAX);
      target := Store(f, b, target, creationHash);
      return Done(Many(target));
    }

    method NvCertifyInfo() returns (o: Outcome)
      requires Valid()
      modifies this
      ensures Reads(S.NvCertifyInfo(), 0, o)
    {
      hide Parse, ParseFields, S.Tpm2b;
      ghost var f, b := S.NvCertifyInfo(), Rest();
      var target := Start(f);
      var indexName :- Tpm2b(S.NAME_MAX);
      target := Store(f, b, target, indexName);
      var offset :- UInt16();
      target := Store(f, b, target, offset);
      var nvContents :- Tpm2b(S.NV_BUFFER_MAX);
      target := Store(f, b, target, nvContents);
      return Done(Many(target));
    }

    method NvDigestCertifyInfo() returns (o: Outcome)
      requires Valid()
      modifies this
      ensures Reads(S.NvDigestCertifyInfo(), 0, o)
    {
      hide Parse, ParseFields, S.Tpm2b;
      ghost var f, b := S.NvDigestCertifyInfo(), Rest();
      var target := Start(f);
      var indexName :- Tpm2b(S.NAME_MAX);
      target := Store(f, b, target, indexName);
      var nvDigest :- Tpm2b(S.DIGEST_MAX);
      target := Store(f, b, target, nvDigest);
      return Done(Many(target));
    }

    method AttestInfo(selector: nat) returns (o: Outcome)
      requires Valid()
      modifies this
      ensures Reads(S.AttestInfo(), selector, o)
    {
      hide Parse;
      AtUnion(S.AttestInfo(), selector);
      if selector == S.ST_ATTEST_CERTIFY {
        o := CertifyInfo();
      } else if selector == S.ST_ATTEST_CREATION {
        o := CreationInfo();
      } else if selector == S.ST_ATTEST_QUOTE {
        o := QuoteInfo();
      } else if selector == S.ST_ATTEST_COMMAND_AUDIT {
        o := CommandAuditInfo();
      } else if selector == S.ST_ATTEST_SESSION_AUDIT {
        o := SessionAuditInfo();
      } else if selector == S.ST_ATTEST_TIME {
        o := TimeAttestInfo();
      } else if selector == S.ST_ATTEST_NV {
        o := NvCertifyInfo();
      } else if selector == S.ST_ATTEST_NV_DIGEST {
        o := NvDigestCertifyInfo();
      } else {
        o := Fail(SELECTOR);
      }
    }

    method Attest() returns (o: Outcome)
      requires Valid()
      modifies this
      ensures Reads(S.Attest(), 0, o)
    {
      hide Parse, ParseFields, S.Tpm2b, S.ClockInfo, S.AttestInfo;
      ghost var f, b := S.Attest(), Rest();
      var target := Start(f);
      var magic :- Checked32(Exactly(S.GENERATED_VALUE));
      target := Store(f, b, target, magic);
      var kind :- UInt16();
      target := Store(f, b, target, kind);
      var qualifiedSigner :- Tpm2b(S.NAME_MAX);
      target := Store(f, b, target, qualifiedSigner);
      var extraData :- Tpm2b(S.DATA_MAX);
      target := Store(f, b, target, extraData);
      var clockInfo :- ClockInfo();
      target := Store(f, b, target, clockInfo);
      var firmwareVersion :- UInt64();
      target := Store(f, b, target, firmwareVersion);
      var attested :- AttestInfo(kind.n);
      target := Store(f, b, target, attested);
      return Done(Many(target));
    }

    // TPM 1.2

    method PcrSelection12() returns (o: Outcome)
      requires Valid()
      modifies this
      ensures Reads(S.PcrSelection12(), 0, o)
    {
      o := Tpm2b(S.PCR_SELECT12_MAX);
    }

    method PcrInfoLong() returns (o: Outcome)
      requires Valid()
      modifies this
      ensures Reads(S.PcrInfoLong(), 0, o)
    {
      hide Parse, ParseFields, S.PcrSelection12;
      ghost var f, b := S.PcrInfoLong(), Rest();
      var target := Start(f);
      var tag :- UInt16();
      target := Store(f, b, target, tag);
      var localityAtCreation :- UInt8();
      target := Store(f, b, target, localityAtCreation);
      var localityAtRelease :- UInt8();
      target := Store(f, b, target, localityAtRelease);
      var creationSelection :- PcrSelection12();
      target := Store(f, b, target, creationSelection);
      var releaseSelection :- PcrSelection12();
      target := Store(f, b, target, releaseSelection);
      var digestAtCreation :- Array(S.SHA1_DIGEST_SIZE);
      target := Store(f, b, target, digestAtCreation);
      var digestAtRelease :- Array(S.SHA1_DIGEST_SIZE);
      target := Store(f, b, target, digestAtRelease);
      return Done(Many(target));
    }

    method Tpm4bPcrInfoLong() returns (o: Outcome)
      requires Valid()
      modifies this
      ensures Reads(S.Tpm4bPcrInfoLong(), 0, o)
    {
      hide Parse, S.PcrInfoLong;
      AtBox(S.Tpm4bPcrInfoLong(), 0);
      var n :- UInt32();
      if n.n == 0 {
        return Fail(SIZE);
      }
      var startSize := size;
      var v :- PcrInfoLong();
      if n.n != startSize - size {
        return Fail(SIZE);
      }
      return Done(Box(v));
    }

    method RsaKeyParms() returns (o: Outcome)
      requires Valid()
      modifies this
      ensures Reads(S.RsaKeyParms(), 0, o)
    {
      hide Parse, ParseFields;
      ghost var f, b := S.RsaKeyParms(), Rest();
      var target := Start(f);
      var keyLength :- UInt32();
      target := Store(f, b, target, keyLength);
      var numPrimes :- UInt32();
      target := Store(f, b, target, numPrimes);
      var exponent :- Sized32(S.RSA_EXPONENT12_MAX);
      target := Store(f, b, target, exponent);
      return Done(Many(target));
    }

    method Parms12(selector: nat) returns (o: Outcome)
      requires Valid()
      modifies this
      ensures Reads(S.Parms12(), selector, o)
    {
      hide Parse;
      AtUnion(S.Parms12(), selector);
      if selector == S.ALG_RSA {
        o := RsaKeyParms();
      } else {
        o := Fail(SELECTOR);
      }
    }

    method Tpm4bParms12(selector: nat) returns (o: Outcome)
      requires Valid()
      modifies this
      ensures Reads(S.Tpm4bParms12(), selector, o)
    {
      hide Parse, S.Parms12;
      AtBox(S.Tpm4bParms12(), selector);
      var n :- UInt32();
      if n.n == 0 {
        return Fail(SIZE);
      }
      var startSize := size;
      var v :- Parms12(selector);
      if n.n != startSize - size {
        return Fail(SIZE);
      }
      return Done(Box(v));
    }

    method KeyParms() returns (o: Outcome)
      requires Valid()
      modifies this
      ensures Reads(S.KeyParms(), 0, o)
    {
      hide Parse, ParseFields, S.Tpm4bParms12;
      ghost var f, b := S.KeyParms(), Rest();
      var target := Start(f);
      var algorithmID :- UInt32();
      target := Store(f, b, target, algorithmID);
      var encScheme :- UInt16();
      target := Store(f, b, target, encScheme);
      var sigScheme :- UInt16();
      target := Store(f, b, target, sigScheme);
      var parms :- Tpm4bParms12(algorithmID.n);
      target := Store(f, b, target, parms);
      return Done(Many(target));
    }

    method Key12() returns (o: Outcome)
      requires Valid()
      modifies this
      ensures Reads(S.Key12(), 0, o)
    {
      hide Parse, ParseFields, S.KeyParms, S.Tpm4bPcrInfoLong;
      ghost var f, b := S.Key12(), Rest();
      var target := Start(f);
      var tag :- UInt16();
      target := Store(f, b, target, tag);
      var fill :- UInt16();
      target := Store(f, b, target, fill);
      var keyUsage :- UInt16();
      target := Store(f, b, target, keyUsage);
      var keyFlags :- UInt32();
      target := Store(f, b, target, keyFlags);
      var authDataUsage :- UInt8();
      target := Store(f, b, target, authDataUsage);
      var algorithmParms :- KeyParms();
      target := Store(f, b, target, algorithmParms);
      var pcrInfo :- Tpm4bPcrInfoLong();
      target := Store(f, b, target, pcrInfo);
      var pubKey :- Sized32(S.STORE_PUBKEY12_MAX);
      target := Store(f, b, target, pubKey);
      var encData :- Sized32(S.STORE_PUBKEY12_MAX);
      target := Store(f, b, target, encData);
      return Done(Many(target));
    }
  }

  lemma Number1(b: Bytes)
    requires |b| >= 1
    ensures Number(b[..1]) == b[0]
  {
    assert b[..1][..0] == [];
  }

  lemma Number2(b: Bytes)
    requires |b| >= 2
    ensures Number(b[..2]) == 0x100 * (b[0] as nat) + b[1]
  {
    assert b[..2][..1] == b[..1];
    Number1(b);
  }

  lemma Number4(b: Bytes)
    requires |b| >= 4
    ensures Number(b[..4]) == 0x100_0000 * (b[0] as nat) + 0x1_0000 * (b[1] as nat) + 0x100 * (b[2] as nat) + b[3]
  {
    assert b[..4][..3] == b[..3] && b[..3][..2] == b[..2];
    Number2(b);
  }

  lemma Number8(b: Bytes)
    requires |b| >= 8
    ensures Number(b[..8]) == 0x1_0000_0000 * Number(b[..4])
                              + 0x100_0000 * (b[4] as nat) + 0x1_0000 * (b[5] as nat) + 0x100 * (b[6] as nat) + b[7]
  {
    assert b[..8][..7] == b[..7] && b[..7][..6] == b[..6];
    assert Number(b[..6]) == 0x1_0000 * Number(b[..4]) + 0x100 * (b[4] as nat) + b[5] by {
      assert b[..6][..5] == b[..5] && b[..5][..4] == b[..4];
    }
  }
}
