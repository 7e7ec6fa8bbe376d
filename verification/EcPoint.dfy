/** An elliptic-curve public point on its way from two integers to a TPM public area. */
module EcPoint {
  import opened BigEndian
  import opened Bitwise
  import opened Layout
  import opened WireFormat
  import opened Wrappers
  import Marshal
  import A = AreaLayout
  import S = TpmStructures

  const NIST_P192 := 1
  const NIST_P224 := 2
  const NIST_P256 := 3
  const NIST_P384 := 4

  datatype Curve = Curve(id: nat, bytes: nat)

  /** `getEcCurve` */
  function GetEcCurve(name: string): Option<Curve> {
    if name == "prime256v1" then Some(Curve(NIST_P256, 32))
    else if name == "secp384r1" then Some(Curve(NIST_P384, 48))
    else None
  }

  /** The two names that are known, with the curves' numbers and widths. */
  lemma Curves(name: string)
    ensures GetEcCurve("prime256v1") == Some(Curve(3, 256 / 8)) && GetEcCurve("secp384r1") == Some(Curve(4, 384 / 8))
    ensures name !in {"prime256v1", "secp384r1"} ==> GetEcCurve(name) == None
  {
  }

  datatype Sizes = Sizes(modulusBytes: nat, pointBytes: nat)

  /** `getEcModulusBytes` */
  function GetEcModulusBytes(curveID: nat): (r: Option<Sizes>)
    ensures r.Some? ==> r.value.modulusBytes == 1 + 2 * r.value.pointBytes
  {
    if curveID == NIST_P192 then Some(Sizes(49, 24))
    else if curveID == NIST_P224 then Some(Sizes(57, 28))
    else if curveID == NIST_P256 then Some(Sizes(65, 32))
    else if curveID == NIST_P384 then Some(Sizes(97, 48))
    else None
  }

  /** The coordinates of curve 1, 2, 3 and 4 have 192, 224, 256 and 384 bits; other curves are unknown. */
  lemma ModulusSizes(curveID: nat)
    ensures GetEcModulusBytes(curveID).Some? <==> curveID in {1, 2, 3, 4}
    ensures curveID in {1, 2, 3, 4} ==>
              8 * GetEcModulusBytes(curveID).value.pointBytes == [192, 224, 256, 384][curveID - 1]
  {
  }

  // Integers as octet strings

  /** `BN_num_bytes` */
  function NumBytes(n: nat): nat {
    if n == 0 then 0 else 1 + NumBytes(n / 256)
  }

  lemma {:induction false} NumBytesBound(n: nat, w: nat)
    requires n < Pow256(w)
    ensures NumBytes(n) <= w && n < Pow256(NumBytes(n))
  {
    if n > 0 {
      NumBytesBound(n / 256, w - 1);
    }
  }

  /** Zeros in front do not change what an octet string denotes. */
  lemma {:induction false} Padded(k: nat, s: Bytes)
    ensures Number(Zeros(k) + s) == Number(s)
  {
    if s == [] {
      assert Zeros(k) + s == Zeros(k);
      NumberOfZeros(k);
    } else {
      Padded(k, s[..|s| - 1]);
      assert (Zeros(k) + s)[..k + |s| - 1] == Zeros(k) + s[..|s| - 1];
    }
  }

  function Zeros(k: nat): Bytes {
    seq(k, _ => 0)
  }

  lemma {:induction false} NumberOfZeros(k: nat)
    ensures Number(Zeros(k)) == 0
  {
    if k > 0 {
      NumberOfZeros(k - 1);
      assert Zeros(k)[..k - 1] == Zeros(k - 1);
    }
  }

  /** The minimal octets of `n`, right-aligned in `w` zero bytes, are its octet string of length `w`. */
  lemma RightAligned(n: nat, w: nat)
    requires n < Pow256(w)
    ensures NumBytes(n) <= w && Zeros(w - NumBytes(n)) + Octets(NumBytes(n), n) == Octets(w, n)
  {
    NumBytesBound(n, w);
    var k := NumBytes(n);
    Padded(w - k, Octets(k, n));
    NumberOfOctets(k, n);
    NumberOfOctets(w, n);
    NumberInjective(Zeros(w - k) + Octets(k, n), Octets(w, n));
  }

  // The public area around the point

  const ALG_CFB := 0x0043
  const OBJECT_USERWITHAUTH := 0x40
  const OBJECT_NODA := 0x400
  const OBJECT_RESTRICTED := 0x1_0000
  const OBJECT_DECRYPT := 0x2_0000
  const OBJECT_SIGN := 0x4_0000

  /** For other types the switch leaves the symmetric algorithm, the scheme and its counter as they were. */
  datatype KeyType = TYPE_SI | TYPE_ST | TYPE_DEN | OTHER(symmetric: Value, scheme: nat, count: nat)

  function Attributes(key: KeyType): nat {
    OBJECT_NODA + OBJECT_USERWITHAUTH
    + match key
      case TYPE_SI => OBJECT_SIGN
      case TYPE_ST => OBJECT_DECRYPT + OBJECT_RESTRICTED
      case TYPE_DEN => OBJECT_DECRYPT
      case OTHER(_, _, _) => 0
  }

  function Symmetric(key: KeyType): Value {
    match key
    case TYPE_ST => Many([Num(S.ALG_AES), Num(128), Num(ALG_CFB)])
    case OTHER(symmetric, _, _) => symmetric
    case _ => Many([Num(S.ALG_NULL), Many([]), Many([])])
  }

  function Scheme(key: KeyType, halg: nat): Value {
    match key
    case TYPE_SI => Many([Num(S.ALG_ECDSA), Num(halg)])
    case TYPE_ST => Many([Num(S.ALG_NULL), Many([])])
    case TYPE_DEN => Many([Num(S.ALG_ECDH), Num(halg)])
    case OTHER(_, scheme, count) => Many([Num(scheme), Details(scheme, halg, count)])
  }

  /** The scheme's details once `details.ecdsa.hashAlg`, the first field of every arm, is `halg`. */
  function Details(scheme: nat, halg: nat, count: nat): Value {
    if scheme == S.ALG_NULL || scheme == S.ALG_RSAES then Many([])
    else if scheme == S.ALG_ECDAA then Many([Num(halg), Num(count)])
    else Num(halg)
  }

  function EccDetail(key: KeyType, halg: nat, curveID: nat): Value {
    Many([Symmetric(key), Scheme(key, halg), Num(curveID), Many([Num(S.ALG_NULL), Many([])])])
  }

  /** The public area that `convertEcPublicKeyBinToPublic` builds. */
  function PublicArea(key: KeyType, nalg: nat, halg: nat, curveID: nat, point: Value): Value {
    Many([Num(S.ALG_ECC), Num(nalg), Num(Attributes(key)), Blob([]), EccDetail(key, halg, curveID), point])
  }

  /** The public areas that are expected, in numbers: a signing key, a storage key and a decryption key. */
  function KeyArea(key: KeyType, nalg: nat, halg: nat, curveID: nat, x: Bytes, y: Bytes): A.Public
    requires !key.OTHER?
  {
    match key
    case TYPE_SI =>
      A.Public(nalg, 0x0004_0440, [], A.EccDetail(A.NoSym, A.Hashed(0x0018, halg), curveID, A.NoKdf), A.Point(x, y))
    case TYPE_ST =>
      A.Public(nalg, 0x0003_0440, [], A.EccDetail(A.Block(0x0006, 128, 0x0043), A.NoScheme, curveID, A.NoKdf),
               A.Point(x, y))
    case TYPE_DEN =>
      A.Public(nalg, 0x0002_0440, [], A.EccDetail(A.NoSym, A.Hashed(0x0019, halg), curveID, A.NoKdf), A.Point(x, y))
  }

  lemma AreaInNumbers(key: KeyType, nalg: nat, halg: nat, curveID: nat, x: Bytes, y: Bytes)
    ensures !key.OTHER? ==>
              PublicArea(key, nalg, halg, curveID, Many([Blob(x), Blob(y)]))
              == A.PublicValue(KeyArea(key, nalg, halg, curveID, x, y))
    ensures key.OTHER? ==>
              PublicArea(key, nalg, halg, curveID, Many([Blob(x), Blob(y)]))
              == Many([Num(0x0023), Num(nalg), Num(0x0440), Blob([]),
                       Many([key.symmetric, Many([Num(key.scheme), Details(key.scheme, halg, key.count)]), Num(curveID),
                             Many([Num(0x0010), Many([])])]),
                       Many([Blob(x), Blob(y)])])
  {
  }

  // The two conversions

  /** The uncompressed point of section 2.3.3 of SEC 1. */
  function Uncompressed(w: nat, x: nat, y: nat): (s: Bytes)
    ensures |s| == 2 * w + 1
  {
    [0x04] + Octets(w, x) + Octets(w, y)
  }

  /** The coordinates are as wide as the curve, as those of its points are. */
  ghost predicate Fit(w: nat, x: nat, y: nat) {
    x < Pow256(w) && y < Pow256(w)
  }

  /** The octets of both integers end where they belong and begin inside the buffer. */
  predicate InBuffer(w: nat, x: nat, y: nat) {
    NumBytes(x) <= w + 1 && NumBytes(y) <= w + w + 1
  }

  /**
    The public part of `getEccKeyParts`: zero fill, then the minimal octets of x and y at their
    offsets.  Wider coordinates are only reported by the source; the buffer holds the point exactly if
    there are none.
  */
  method GetEccPublic(curveName: string, x: nat, y: nat) returns (pub: Option<Bytes>)
    requires GetEcCurve(curveName).Some? ==> InBuffer(GetEcCurve(curveName).value.bytes, x, y)
    ensures pub.Some? <==> GetEcCurve(curveName).Some?
    ensures pub.Some? ==>
              var w := GetEcCurve(curveName).value.bytes;
              && |pub.value| == 2 * w + 1
              && (Fit(w, x, y) ==> pub.value == Uncompressed(w, x, y))
              && (Fit(w, x, y) <==> Number(pub.value[1..1 + w]) == x && Number(pub.value[1 + w..]) == y)
  {
    var curve := GetEcCurve(curveName);
    if curve.None? {
      return None;
    }
    var buffer := FillPoint(curve.value.bytes, x, y);
    return Some(buffer);
  }

  method FillPoint(w: nat, x: nat, y: nat) returns (pub: Bytes)
    requires InBuffer(w, x, y)
    ensures |pub| == 2 * w + 1 && (Fit(w, x, y) ==> pub == Uncompressed(w, x, y))
    ensures Fit(w, x, y) <==> Number(pub[1..1 + w]) == x && Number(pub[1 + w..]) == y
  {
    hide Octets, Pow256, NumBytes, Number, Zeros;
    var bnxBytes, bnyBytes := NumBytes(x), NumBytes(y);
    var buffer := new Byte[w + w + 1](_ => 0);
    buffer[0] := 0x04;
    BnToBin(x, buffer, 1 + w - bnxBytes);
    ghost var before := buffer[..];
    BnToBin(y, buffer, 1 + w + w - bnyBytes);
    pub := buffer[..];
    if Fit(w, x, y) {
      Filled(w, x, y);
      TwoHalves(w, Octets(bnxBytes, x), Octets(bnyBytes, y), before, pub);
    } else {
      NumberBound(pub[1..1 + w]);
      NumberBound(pub[1 + w..]);
    }
  }

  lemma ZerosInFront(s: Bytes, at: nat, w: nat, e: Bytes)
    requires at + w <= |s| && |e| <= w && s[at + w - |e|..at + w] == e
    requires forall i :: at <= i < at + w - |e| ==> s[i] == 0
    ensures s[at..at + w] == Zeros(w - |e|) + e
  {
    assert s[at..at + w] == s[at..at + w - |e|] + s[at + w - |e|..at + w];
  }

  /** The point that both writes together make. */
  lemma Filled(w: nat, x: nat, y: nat)
    requires Fit(w, x, y)
    ensures NumBytes(x) <= w && NumBytes(y) <= w
    ensures Zeros(w - NumBytes(x)) + Octets(NumBytes(x), x) == Octets(w, x) && Number(Octets(w, x)) == x
    ensures Zeros(w - NumBytes(y)) + Octets(NumBytes(y), y) == Octets(w, y) && Number(Octets(w, y)) == y
  {
    hide Octets, Pow256, NumBytes, Number, Zeros;
    RightAligned(x, w);
    RightAligned(y, w);
    NumberOfOctets(w, x);
    NumberOfOctets(w, y);
  }

  lemma TwoHalves(w: nat, x: Bytes, y: Bytes, first: Bytes, pub: Bytes)
    requires |first| == |pub| == w + w + 1 && |x| <= w && |y| <= w && first[1 + w - |x|..1 + w] == x
    requires forall i :: 0 <= i < |first| && !(1 + w - |x| <= i < 1 + w) ==> first[i] == if i == 0 then 0x04 else 0
    requires pub[1 + w + w - |y|..1 + w + w] == y
    requires forall i :: 0 <= i < |pub| && !(1 + w + w - |y| <= i < 1 + w + w) ==> pub[i] == first[i]
    ensures pub[1..1 + w] == Zeros(w - |x|) + x && pub[1 + w..] == Zeros(w - |y|) + y
    ensures pub == [0x04] + (Zeros(w - |x|) + x) + (Zeros(w - |y|) + y)
  {
    ZerosInFront(first, 1, w, x);
    ZerosInFront(pub, 1 + w, w, y);
    hide Zeros;
    assert pub[1..1 + w] == first[1..1 + w];
    assert pub[1 + w..] == pub[1 + w..1 + w + w];
    assert pub == [pub[0]] + pub[1..1 + w] + pub[1 + w..];
  }

  /** `BN_bn2bin` */
  method BnToBin(n: nat, a: array<Byte>, offset: nat)
    requires offset + NumBytes(n) <= a.Length
    modifies a
    ensures a[offset..offset + NumBytes(n)] == Octets(NumBytes(n), n)
    ensures forall i :: 0 <= i < a.Length && !(offset <= i < offset + NumBytes(n)) ==> a[i] == old(a[i])
  {
    var octets := Octets(NumBytes(n), n);
    forall i | 0 <= i < |octets| {
      a[offset + i] := octets[i];
    }
  }

  /** `convertEcPublicKeyBinToPublic`; the attribute bits are distinct, so `|=` is addition. */
  method ConvertEcPublic(key: KeyType, nalg: nat, halg: nat, curveID: nat, modulusBin: Bytes)
    returns (area: Option<Value>)
    ensures area.Some? <==>
              GetEcModulusBytes(curveID).Some? && |modulusBin| == GetEcModulusBytes(curveID).value.modulusBytes
    ensures area.Some? ==>
              var w := GetEcModulusBytes(curveID).value.pointBytes;
              && area.value == PublicArea(key, nalg, halg, curveID,
                                          Many([Blob(modulusBin[1..1 + w]), Blob(modulusBin[1 + w..])]))
              && (!key.OTHER? ==>
                    area.value == A.PublicValue(KeyArea(key, nalg, halg, curveID, modulusBin[1..1 + w],
                                                        modulusBin[1 + w..])))
  {
    var sizes := GetEcModulusBytes(curveID);
    if sizes.None? {
      return None;
    }
    if |modulusBin| != sizes.value.modulusBytes {
      return None;
    }
    var attributes := OBJECT_NODA;
    attributes := attributes + OBJECT_USERWITHAUTH;
    var symmetric, scheme, count := Many([Num(S.ALG_NULL), Many([]), Many([])]), S.ALG_NULL, 0;
    match key {
      case TYPE_SI =>
        attributes := attributes + OBJECT_SIGN;
        scheme := S.ALG_ECDSA;
      case TYPE_ST =>
        attributes := attributes + OBJECT_DECRYPT;
        attributes := attributes + OBJECT_RESTRICTED;
        symmetric := Many([Num(S.ALG_AES), Num(128), Num(ALG_CFB)]);
        scheme := S.ALG_NULL;
      case TYPE_DEN =>
        attributes := attributes + OBJECT_DECRYPT;
        scheme := S.ALG_ECDH;
      case OTHER(s, n, c) =>
        symmetric, scheme, count := s, n, c;
    }
    var details := Details(scheme, halg, count);
    AreaInNumbers(key, nalg, halg, curveID, modulusBin[1..1 + sizes.value.pointBytes],
                  modulusBin[1 + sizes.value.pointBytes..]);
    var detail := Many([symmetric, Many([Num(scheme), details]), Num(curveID), Many([Num(S.ALG_NULL), Many([])])]);
    var w := sizes.value.pointBytes;
    var x, y := modulusBin[1..1 + w], modulusBin[1 + w..1 + w + w];
    assert y == modulusBin[1 + w..];
    return Some(Many([Num(S.ALG_ECC), Num(nalg), Num(attributes), Blob([]), detail, Many([Blob(x), Blob(y)])]));
  }

  /** A point as a structure of two coordinates of full width. */
  function Coordinates(w: nat, x: nat, y: nat): Value {
    Many([Blob(Octets(w, x)), Blob(Octets(w, y))])
  }

  /**
    From the key to the TPM's public area: for both curves the two coordinates denote the integers the
    key was made of exactly if these are as wide as the curve, as they are for every point of it.
  */
  method KeyToPublic(curveName: string, x: nat, y: nat, key: KeyType, nalg: nat, halg: nat)
    returns (area: Option<Value>)
    requires GetEcCurve(curveName).Some? ==> InBuffer(GetEcCurve(curveName).value.bytes, x, y)
    ensures area.Some? <==> GetEcCurve(curveName).Some?
    ensures area.Some? ==>
              var curve := GetEcCurve(curveName).value;
              && IsArea(area.value) && area.value.items[4] == EccDetail(key, halg, curve.id)
              && (Fit(curve.bytes, x, y) ==>
                    area.value == PublicArea(key, nalg, halg, curve.id, Coordinates(curve.bytes, x, y)))
              && (Fit(curve.bytes, x, y) <==>
                    Number(PointX(area.value)) == x && Number(PointY(area.value)) == y)
  {
    hide Octets, Pow256, EccDetail, Number;
    var pub := GetEccPublic(curveName, x, y);
    if pub.None? {
      return None;
    }
    var curve := GetEcCurve(curveName).value;
    area := ConvertEcPublic(key, nalg, halg, curve.id, pub.value);
    Halved(curve.bytes, x, y);
  }

  ghost predicate IsArea(v: Value) {
    && v.Many? && |v.items| == 6 && v.items[5].Many? && |v.items[5].items| == 2
    && v.items[5].items[0].Blob? && v.items[5].items[1].Blob?
  }

  ghost function PointX(v: Value): Bytes
    requires IsArea(v)
  {
    v.items[5].items[0].bytes
  }

  ghost function PointY(v: Value): Bytes
    requires IsArea(v)
  {
    v.items[5].items[1].bytes
  }

  lemma Halved(w: nat, x: nat, y: nat)
    ensures Uncompressed(w, x, y)[1..1 + w] == Octets(w, x) && Uncompressed(w, x, y)[1 + w..] == Octets(w, y)
  {
  }

  /** Different points have different octet strings. */
  lemma UncompressedInjective(w: nat, x: nat, y: nat, x': nat, y': nat)
    requires x < Pow256(w) && y < Pow256(w) && x' < Pow256(w) && y' < Pow256(w)
    requires Uncompressed(w, x, y) == Uncompressed(w, x', y')
    ensures x == x' && y == y'
  {
    var s := Uncompressed(w, x, y);
    assert s[1..1 + w] == Octets(w, x) == Octets(w, x');
    assert s[1 + w..] == Octets(w, y) == Octets(w, y');
    NumberOfOctets(w, x);
    NumberOfOctets(w, x');
    NumberOfOctets(w, y);
    NumberOfOctets(w, y');
  }

  // The area on the wire

  lemma PublicAreaFits(key: KeyType, nalg: nat, halg: nat, curveID: nat, w: nat, x: nat, y: nat)
    requires nalg < 0x1_0000 && halg < 0x1_0000 && curveID < 0x1_0000 && !key.OTHER?
    requires w <= S.ECC_PARAMETER_MAX && And(Attributes(key), S.OBJECT_RESERVED) == 0
    ensures var v := PublicArea(key, nalg, halg, curveID, Coordinates(w, x, y));
            && v == A.PublicValue(KeyArea(key, nalg, halg, curveID, Octets(w, x), Octets(w, y)))
            && Fits(S.Public(), 0, v) && 0 < |Encode(S.Public(), 0, v)| <= 2 * w + 28
  {
    hide Fits, Encode, And, Octets, Flat, S.Public, A.PublicBytes;
    var p := KeyArea(key, nalg, halg, curveID, Octets(w, x), Octets(w, y));
    AreaInNumbers(key, nalg, halg, curveID, Octets(w, x), Octets(w, y));
    A.PublicLaid(p);
    AreaLength(p, w);
  }

  lemma AreaLength(p: A.Public, w: nat)
    requires p.parameters.EccDetail? && p.parameters.kdf.NoKdf? && p.authPolicy == []
    requires p.parameters.scheme.Hashed? || p.parameters.scheme.NoScheme?
    requires p.unique.Point? && |p.unique.x| == |p.unique.y| == w
    ensures 0 < |A.PublicBytes(p)| <= 2 * w + 28
  {
    hide Flat, Octets;
    var c, kind := p.parameters, A.ParmsType(p.parameters);
    FlatLength([A.SymBytes(c.symmetric), A.SchemeBytes(c.scheme), Octets(2, c.curveID), A.KdfBytes(c.kdf)]);
    FlatLength([Octets(2, kind), Octets(2, p.nameAlg), Octets(4, p.objectAttributes), Two(p.authPolicy),
                A.ParmsBytes(c), A.UniqueBytes(p.unique)]);
  }

  /**
    The area built for a P-256 or P-384 key is a well-formed TPM2B_PUBLIC: what is marshalled for it,
    followed by anything, is read back as the same area, and its coordinates still denote the key's point.
  */
  lemma PointSurvivesTheWire(key: KeyType, nalg: nat, halg: nat, curve: Curve, x: nat, y: nat, s: Bytes)
    requires nalg < 0x1_0000 && halg < 0x1_0000 && !key.OTHER?
    requires curve in {Curve(NIST_P256, 32), Curve(NIST_P384, 48)} && curve.bytes <= S.ECC_PARAMETER_MAX
    requires x < Pow256(curve.bytes) && y < Pow256(curve.bytes) && And(Attributes(key), S.OBJECT_RESERVED) == 0
    ensures var v := Box(PublicArea(key, nalg, halg, curve.id, Coordinates(curve.bytes, x, y)));
            && Fits(S.Tpm2bPublic(), 0, v)
            && var r := Parse(S.Tpm2bPublic(), 0, Encode(S.Tpm2bPublic(), 0, v) + s);
               && r == Ok(v, s)
               && Number(r.v.content.items[5].items[0].bytes) == x && Number(r.v.content.items[5].items[1].bytes) == y
  {
    hide Pow256, Octets, S.Public, Attributes;
    var v := PublicArea(key, nalg, halg, curve.id, Coordinates(curve.bytes, x, y));
    PublicAreaFits(key, nalg, halg, curve.id, curve.bytes, x, y);
    TwoOctets();
    Complete(S.Tpm2bPublic(), 0, Box(v), s);
    NumberOfOctets(curve.bytes, x);
    NumberOfOctets(curve.bytes, y);
  }

  lemma TwoOctets()
    ensures Pow256(2) == 0x1_0000
  {
  }

  /**
    The whole way in code: the key's point is put in a public area, marshalled and unmarshalled, and
    the area that arrives is the one expected, and holds the key's point.
  */
  method SendKey(curveName: string, x: nat, y: nat, key: KeyType, nalg: nat, halg: nat,
                 buffer: array<Byte>, tail: Bytes)
    returns (area: Value)
    requires GetEcCurve(curveName).Some? && nalg < 0x1_0000 && halg < 0x1_0000 && !key.OTHER?
    requires And(Attributes(key), S.OBJECT_RESERVED) == 0
    requires var w := GetEcCurve(curveName).value.bytes;
             Fit(w, x, y) && w <= S.ECC_PARAMETER_MAX && 2 * w + 30 <= buffer.Length
    requires buffer.Length + |tail| < 0x1_0000_0000
    modifies buffer
    ensures IsArea(area) && Number(PointX(area)) == x && Number(PointY(area)) == y
    ensures var curve := GetEcCurve(curveName).value;
            area == A.PublicValue(KeyArea(key, nalg, halg, curve.id, Octets(curve.bytes, x), Octets(curve.bytes, y)))
  {
    var curve := GetEcCurve(curveName).value;
    NumBytesBound(x, curve.bytes);
    NumBytesBound(y, curve.bytes);
    area := SendArea(curve, curveName, x, y, key, nalg, halg, buffer, tail);
  }

  method SendArea(curve: Curve, curveName: string, x: nat, y: nat, key: KeyType, nalg: nat, halg: nat,
                  buffer: array<Byte>, tail: Bytes)
    returns (area: Value)
    requires GetEcCurve(curveName) == Some(curve) && curve.id < 0x1_0000 && curve.bytes < 100
    requires nalg < 0x1_0000 && halg < 0x1_0000 && !key.OTHER? && And(Attributes(key), S.OBJECT_RESERVED) == 0
    requires Fit(curve.bytes, x, y) && InBuffer(curve.bytes, x, y) && curve.bytes <= S.ECC_PARAMETER_MAX
    requires 2 * curve.bytes + 30 <= buffer.Length && buffer.Length + |tail| < 0x1_0000_0000
    modifies buffer
    ensures IsArea(area) && Number(PointX(area)) == x && Number(PointY(area)) == y
    ensures var curve := GetEcCurve(curveName).value;
            area == A.PublicValue(KeyArea(key, nalg, halg, curve.id, Octets(curve.bytes, x), Octets(curve.bytes, y)))
  {
    hide *;
    var built := KeyToPublic(curveName, x, y, key, nalg, halg);
    area := built.value;
    PublicAreaFits(key, nalg, halg, curve.id, curve.bytes, x, y);
    BoxFits(area);
    var marshalled, o, left := Marshal.MarshalThenUnmarshal(Box(area), buffer, buffer.Length, tail);
    area := o.v.content;
  }

  lemma BoxFits(area: Value)
    requires Fits(S.Public(), 0, area) && 0 < |Encode(S.Public(), 0, area)| < 0x1_0000
    ensures Fits(S.Tpm2bPublic(), 0, Box(area))
    ensures |Encode(S.Tpm2bPublic(), 0, Box(area))| == |Encode(S.Public(), 0, area)| + 2
  {
    TwoOctets();
    hide Pow256, S.Public;
  }
}
