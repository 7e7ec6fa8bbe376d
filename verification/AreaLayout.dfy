/**
  Public and sensitive areas as C structures, with their fields by name and their bytes
  written out.  Every number stands for itself.
*/
module AreaLayout {
  import opened BigEndian
  import opened Bitwise
  import opened WireFormat
  import opened MarshalPlan
  import opened Unmarshal
  import opened Layout
  import opened Wrappers
  import Marshal
  import S = TpmStructures

  // TPMT_SYM_DEF_OBJECT

  datatype Sym = Block(algorithm: nat, keyBits: nat, mode: nat) | XorSym(hashAlg: nat) | NoSym

  function SymValue(x: Sym): Value {
    match x
    case Block(algorithm, keyBits, mode) => Many([Num(algorithm), Num(keyBits), Num(mode)])
    case XorSym(hashAlg) => Many([Num(0x000A), Num(hashAlg), Many([])])
    case NoSym => Many([Num(0x0010), Many([]), Many([])])
  }

  predicate SymOk(x: Sym) {
    match x
    case Block(algorithm, keyBits, mode) =>
      algorithm in {0x0006, 0x0013, 0x0026} && keyBits < 0x1_0000 && mode < 0x1_0000
    case XorSym(hashAlg) => hashAlg < 0x1_0000
    case NoSym => true
  }

  function SymBytes(x: Sym): Bytes {
    match x
    case Block(algorithm, keyBits, mode) => Octets(2, algorithm) + Octets(2, keyBits) + Octets(2, mode)
    case XorSym(hashAlg) => Octets(2, 0x000A) + Octets(2, hashAlg)
    case NoSym => Octets(2, 0x0010)
  }

  lemma SymKeyBitsLaid(selector: nat, n: nat)
    ensures Laid(S.SymKeyBits(), selector, Num(n), selector in {0x0006, 0x000A, 0x0013, 0x0026} && n < 0x1_0000,
                 Octets(2, n))
    ensures Laid(S.SymKeyBits(), selector, Many([]), selector == 0x0010, [])
  {
    Widths();
  }

  lemma SymModeLaid(selector: nat, n: nat)
    ensures Laid(S.SymMode(), selector, Num(n), selector in {0x0006, 0x0013, 0x0026} && n < 0x1_0000, Octets(2, n))
    ensures Laid(S.SymMode(), selector, Many([]), selector in {0x000A, 0x0010}, [])
  {
    Widths();
  }

  lemma SymLaid(x: Sym, selector: nat)
    ensures Laid(S.SymDefObject(), selector, SymValue(x), SymOk(x), SymBytes(x))
  {
    match x
    case Block(algorithm, keyBits, mode) =>
      SymKeyBitsLaid(algorithm, keyBits);
      SymModeLaid(algorithm, mode);
      SymFieldsLaid(selector, algorithm, Num(keyBits), Num(mode),
                    algorithm in {0x0006, 0x000A, 0x0013, 0x0026} && keyBits < 0x1_0000,
                    algorithm in {0x0006, 0x0013, 0x0026} && mode < 0x1_0000, Octets(2, keyBits), Octets(2, mode));
    case XorSym(hashAlg) =>
      SymKeyBitsLaid(0x000A, hashAlg);
      SymModeLaid(0x000A, 0);
      SymFieldsLaid(selector, 0x000A, Num(hashAlg), Many([]), hashAlg < 0x1_0000, true, Octets(2, hashAlg), []);
    case NoSym =>
      SymKeyBitsLaid(0x0010, 0);
      SymModeLaid(0x0010, 0);
      SymFieldsLaid(selector, 0x0010, Many([]), Many([]), true, true, [], []);
  }

  lemma SymFieldsLaid(selector: nat, algorithm: nat, keyBits: Value, mode: Value, ok1: bool, ok2: bool,
                      part1: Bytes, part2: Bytes)
    requires Laid(S.SymKeyBits(), algorithm, keyBits, ok1, part1) && Laid(S.SymMode(), algorithm, mode, ok2, part2)
    ensures Laid(S.SymDefObject(), selector, Many([Num(algorithm), keyBits, mode]),
                 algorithm < 0x1_0000 && ok1 && ok2, Octets(2, algorithm) + part1 + part2)
  {
    hide Laid, S.SymKeyBits, S.SymMode, Octets, Flat, Pow256;
    Widths();
    var f, items, oks := S.SymDefObject(), [Num(algorithm), keyBits, mode], [algorithm < 0x1_0000, ok1, ok2];
    var parts := [Octets(2, algorithm), part1, part2];
    ScalarLaid(2, Any, 0, algorithm);
    Record3(f, selector, items, oks, parts);
    Flat3(parts[0], parts[1], parts[2]);
  }

  /** Every value that fits is one of these structures. */
  lemma SymOf(v: Value, selector: nat) returns (x: Sym)
    requires Fits(S.SymDefObject(), selector, v)
    ensures v == SymValue(x)
  {
    var f := S.SymDefObject();
    hide Fits, S.SymKeyBits, S.SymMode;
    FieldsOf(f, selector, v);
    var items := v.items;
    assert FieldFits(f, items, 0) && FieldFits(f, items, 1) && FieldFits(f, items, 2);
    ScalarOf(items[0], 2, Any, 0);
    SymArmsOf(items[0].n, items[1], items[2]);
    assert v.items == [items[0], items[1], items[2]];
    x := if items[0].n == 0x000A then XorSym(items[1].n)
         else if items[0].n == 0x0010 then NoSym
         else Block(items[0].n, items[1].n, items[2].n);
  }

  lemma SymArmsOf(algorithm: nat, keyBits: Value, mode: Value)
    requires Fits(S.SymKeyBits(), algorithm, keyBits) && Fits(S.SymMode(), algorithm, mode)
    ensures algorithm in {0x0006, 0x000A, 0x0010, 0x0013, 0x0026}
    ensures if algorithm == 0x0010 then keyBits == Many([]) else keyBits.Num?
    ensures if algorithm in {0x000A, 0x0010} then mode == Many([]) else mode.Num?
  {
  }

  // Schemes: a number, and what it selects

  lemma TaggedLaid(f: Format, details: Format, selector: nat, tag: nat, v: Value, ok: bool, part: Bytes)
    requires f == Record([Plain(S.U16()), S.ByType(details)]) && Laid(details, tag, v, ok, part)
    ensures Laid(f, selector, Many([Num(tag), v]), tag < 0x1_0000 && ok, Octets(2, tag) + part)
  {
    hide Laid, Octets, Flat, Pow256;
    Widths();
    var items, oks, parts := [Num(tag), v], [tag < 0x1_0000, ok], [Octets(2, tag), part];
    ScalarLaid(2, Any, 0, tag);
    Record2(f, selector, items, oks, parts);
    Flat2(parts[0], parts[1]);
  }

  lemma TaggedOf(f: Format, details: Format, selector: nat, v: Value)
    requires f == Record([Plain(S.U16()), S.ByType(details)]) && Fits(f, selector, v)
    ensures v.Many? && |v.items| == 2 && v.items[0].Num? && Fits(details, v.items[0].n, v.items[1])
    ensures v == Many([v.items[0], v.items[1]])
  {
    hide Fits;
    FieldsOf(f, selector, v);
    assert FieldFits(f, v.items, 0) && FieldFits(f, v.items, 1);
    ScalarOf(v.items[0], 2, Any, 0);
  }

  /** TPMT_KDF_SCHEME */
  datatype Kdf = Kdf(scheme: nat, hashAlg: nat) | NoKdf

  function KdfValue(x: Kdf): Value {
    if x.NoKdf? then Many([Num(0x0010), Many([])]) else Many([Num(x.scheme), Num(x.hashAlg)])
  }

  predicate KdfOk(x: Kdf) {
    x.Kdf? ==> x.scheme in {0x0007, 0x0020, 0x0021, 0x0022} && x.hashAlg < 0x1_0000
  }

  function KdfBytes(x: Kdf): Bytes {
    if x.NoKdf? then Octets(2, 0x0010) else Octets(2, x.scheme) + Octets(2, x.hashAlg)
  }

  lemma KdfDetailsLaid(selector: nat, n: nat)
    ensures Laid(S.KdfDetails(), selector, Num(n), selector in {0x0007, 0x0020, 0x0021, 0x0022} && n < 0x1_0000,
                 Octets(2, n))
    ensures Laid(S.KdfDetails(), selector, Many([]), selector == 0x0010, [])
  {
    Widths();
  }

  lemma KdfLaid(x: Kdf, selector: nat)
    ensures Laid(S.KdfScheme(), selector, KdfValue(x), KdfOk(x), KdfBytes(x))
  {
    hide S.KdfDetails, Octets;
    var f, details := S.KdfScheme(), S.KdfDetails();
    if x.NoKdf? {
      KdfDetailsLaid(0x0010, 0);
      TaggedLaid(f, details, selector, 0x0010, Many([]), true, []);
    } else {
      KdfDetailsLaid(x.scheme, x.hashAlg);
      TaggedLaid(f, details, selector, x.scheme, Num(x.hashAlg),
                 x.scheme in {0x0007, 0x0020, 0x0021, 0x0022} && x.hashAlg < 0x1_0000, Octets(2, x.hashAlg));
    }
  }

  lemma KdfOf(v: Value, selector: nat) returns (x: Kdf)
    requires Fits(S.KdfScheme(), selector, v)
    ensures v == KdfValue(x)
  {
    hide Fits, S.KdfDetails;
    TaggedOf(S.KdfScheme(), S.KdfDetails(), selector, v);
    KdfDetailsOf(v.items[0].n, v.items[1]);
    x := if v.items[1].Num? then Kdf(v.items[0].n, v.items[1].n) else NoKdf;
  }

  lemma KdfDetailsOf(scheme: nat, v: Value)
    requires Fits(S.KdfDetails(), scheme, v)
    ensures v.Num? || (scheme == 0x0010 && v == Many([]))
  {
  }

  /** TPMT_ASYM_SCHEME, which TPMT_RSA_SCHEME and TPMT_ECC_SCHEME are read as */
  datatype Scheme = Hashed(scheme: nat, hashAlg: nat) | Ecdaa(hashAlg: nat, count: nat) | Rsaes | NoScheme

  function SchemeValue(x: Scheme): Value {
    match x
    case Hashed(scheme, hashAlg) => Many([Num(scheme), Num(hashAlg)])
    case Ecdaa(hashAlg, count) => Many([Num(0x001A), Many([Num(hashAlg), Num(count)])])
    case Rsaes => Many([Num(0x0015), Many([])])
    case NoScheme => Many([Num(0x0010), Many([])])
  }

  predicate SchemeOk(x: Scheme) {
    match x
    case Hashed(scheme, hashAlg) =>
      scheme in {0x0014, 0x0016, 0x0017, 0x0018, 0x0019, 0x001B, 0x001C, 0x001D} && hashAlg < 0x1_0000
    case Ecdaa(hashAlg, count) => hashAlg < 0x1_0000 && count < 0x1_0000
    case Rsaes => true
    case NoScheme => true
  }

  function SchemeBytes(x: Scheme): Bytes {
    match x
    case Hashed(scheme, hashAlg) => Octets(2, scheme) + Octets(2, hashAlg)
    case Ecdaa(hashAlg, count) => Octets(2, 0x001A) + (Octets(2, hashAlg) + Octets(2, count))
    case Rsaes => Octets(2, 0x0015)
    case NoScheme => Octets(2, 0x0010)
  }

  /** Two 16-bit numbers. */
  lemma PairLaid(selector: nat, a: nat, b: nat)
    ensures Laid(Record([Plain(S.U16()), Plain(S.U16())]), selector, Many([Num(a), Num(b)]),
                 a < 0x1_0000 && b < 0x1_0000, Octets(2, a) + Octets(2, b))
  {
    hide Laid, Octets, Flat, Pow256;
    Widths();
    var f := Record([Plain(S.U16()), Plain(S.U16())]);
    var items, oks, parts := [Num(a), Num(b)], [a < 0x1_0000, b < 0x1_0000], [Octets(2, a), Octets(2, b)];
    ScalarLaid(2, Any, 0, a);
    ScalarLaid(2, Any, 0, b);
    Record2(f, selector, items, oks, parts);
    Flat2(parts[0], parts[1]);
  }

  lemma PairOf(selector: nat, v: Value)
    requires Fits(Record([Plain(S.U16()), Plain(S.U16())]), selector, v)
    ensures v.Many? && |v.items| == 2 && v.items[0].Num? && v.items[1].Num? && v == Many([v.items[0], v.items[1]])
  {
    hide Fits;
    var f := Record([Plain(S.U16()), Plain(S.U16())]);
    FieldsOf(f, selector, v);
    assert FieldFits(f, v.items, 0) && FieldFits(f, v.items, 1);
    ScalarOf(v.items[0], 2, Any, 0);
    ScalarOf(v.items[1], 2, Any, 0);
  }

  lemma HashedLaid(selector: nat, n: nat)
    ensures Laid(S.AsymDetails(), selector, Num(n),
                 && selector in {0x0014, 0x0016, 0x0017, 0x0018, 0x0019, 0x001B, 0x001C, 0x001D} && n < 0x1_0000,
                 Octets(2, n))
    ensures Laid(S.AsymDetails(), selector, Many([]), selector in {0x0010, 0x0015}, [])
  {
    Widths();
  }

  lemma EcdaaLaid(hashAlg: nat, count: nat)
    ensures Laid(S.AsymDetails(), 0x001A, Many([Num(hashAlg), Num(count)]), hashAlg < 0x1_0000 && count < 0x1_0000,
                 Octets(2, hashAlg) + Octets(2, count))
  {
    hide Laid;
    PairLaid(0x001A, hashAlg, count);
    ArmLaid(S.AsymDetails(), 0x001A, Many([Num(hashAlg), Num(count)]), hashAlg < 0x1_0000 && count < 0x1_0000,
            Octets(2, hashAlg) + Octets(2, count));
  }

  lemma SchemeLaid(x: Scheme, selector: nat)
    ensures Laid(S.AsymScheme(), selector, SchemeValue(x), SchemeOk(x), SchemeBytes(x))
  {
    hide S.AsymDetails, Octets;
    var f, details := S.AsymScheme(), S.AsymDetails();
    match x
    case Hashed(scheme, hashAlg) =>
      HashedLaid(scheme, hashAlg);
      TaggedLaid(f, details, selector, scheme, Num(hashAlg),
                 && scheme in {0x0014, 0x0016, 0x0017, 0x0018, 0x0019, 0x001B, 0x001C, 0x001D} && hashAlg < 0x1_0000,
                 Octets(2, hashAlg));
    case Ecdaa(hashAlg, count) =>
      EcdaaLaid(hashAlg, count);
      TaggedLaid(f, details, selector, 0x001A, Many([Num(hashAlg), Num(count)]),
                 hashAlg < 0x1_0000 && count < 0x1_0000, Octets(2, hashAlg) + Octets(2, count));
    case Rsaes =>
      HashedLaid(0x0015, 0);
      TaggedLaid(f, details, selector, 0x0015, Many([]), true, []);
    case NoScheme =>
      HashedLaid(0x0010, 0);
      TaggedLaid(f, details, selector, 0x0010, Many([]), true, []);
  }

  lemma SchemeOf(v: Value, selector: nat) returns (x: Scheme)
    requires Fits(S.AsymScheme(), selector, v)
    ensures v == SchemeValue(x)
  {
    hide Fits, S.AsymDetails;
    TaggedOf(S.AsymScheme(), S.AsymDetails(), selector, v);
    var scheme, d := v.items[0].n, v.items[1];
    SchemeDetailsOf(scheme, d);
    x := if d.Num? then Hashed(scheme, d.n)
         else if scheme == 0x001A then Ecdaa(d.items[0].n, d.items[1].n)
         else if scheme == 0x0015 then Rsaes
         else NoScheme;
  }

  lemma SchemeDetailsOf(scheme: nat, v: Value)
    requires Fits(S.AsymDetails(), scheme, v)
    ensures || v.Num? || (scheme in {0x0010, 0x0015} && v == Many([]))
            || (scheme == 0x001A && v.Many? && |v.items| == 2 && v.items[0].Num? && v.items[1].Num?
                && v == Many([v.items[0], v.items[1]]))
  {
    if scheme == 0x001A {
      hide Fits;
      AtArm(S.AsymDetails(), scheme, v);
      PairOf(scheme, v);
    }
  }

  /** TPMT_KEYEDHASH_SCHEME */
  datatype KeyedHash = Hmac(hashAlg: nat) | XorHash(hashAlg: nat, kdf: nat) | NoHash

  function KeyedHashValue(x: KeyedHash): Value {
    match x
    case Hmac(hashAlg) => Many([Num(0x0005), Num(hashAlg)])
    case XorHash(hashAlg, kdf) => Many([Num(0x000A), Many([Num(hashAlg), Num(kdf)])])
    case NoHash => Many([Num(0x0010), Many([])])
  }

  predicate KeyedHashOk(x: KeyedHash) {
    match x
    case Hmac(hashAlg) => hashAlg < 0x1_0000
    case XorHash(hashAlg, kdf) => hashAlg < 0x1_0000 && kdf < 0x1_0000
    case NoHash => true
  }

  function KeyedHashBytes(x: KeyedHash): Bytes {
    match x
    case Hmac(hashAlg) => Octets(2, 0x0005) + Octets(2, hashAlg)
    case XorHash(hashAlg, kdf) => Octets(2, 0x000A) + (Octets(2, hashAlg) + Octets(2, kdf))
    case NoHash => Octets(2, 0x0010)
  }

  lemma HmacLaid(selector: nat, n: nat)
    ensures Laid(S.SchemeKeyedHash(), selector, Num(n), selector == 0x0005 && n < 0x1_0000, Octets(2, n))
    ensures Laid(S.SchemeKeyedHash(), selector, Many([]), selector == 0x0010, [])
  {
    Widths();
  }

  lemma XorHashLaid(hashAlg: nat, kdf: nat)
    ensures Laid(S.SchemeKeyedHash(), 0x000A, Many([Num(hashAlg), Num(kdf)]), hashAlg < 0x1_0000 && kdf < 0x1_0000,
                 Octets(2, hashAlg) + Octets(2, kdf))
  {
    hide Laid;
    PairLaid(0x000A, hashAlg, kdf);
    ArmLaid(S.SchemeKeyedHash(), 0x000A, Many([Num(hashAlg), Num(kdf)]), hashAlg < 0x1_0000 && kdf < 0x1_0000,
            Octets(2, hashAlg) + Octets(2, kdf));
  }

  lemma KeyedHashLaid(x: KeyedHash, selector: nat)
    ensures Laid(S.KeyedHashScheme(), selector, KeyedHashValue(x), KeyedHashOk(x), KeyedHashBytes(x))
  {
    hide S.SchemeKeyedHash, Octets;
    var f, details := S.KeyedHashScheme(), S.SchemeKeyedHash();
    match x
    case Hmac(hashAlg) =>
      HmacLaid(0x0005, hashAlg);
      TaggedLaid(f, details, selector, 0x0005, Num(hashAlg), hashAlg < 0x1_0000, Octets(2, hashAlg));
    case XorHash(hashAlg, kdf) =>
      XorHashLaid(hashAlg, kdf);
      TaggedLaid(f, details, selector, 0x000A, Many([Num(hashAlg), Num(kdf)]), hashAlg < 0x1_0000 && kdf < 0x1_0000,
                 Octets(2, hashAlg) + Octets(2, kdf));
    case NoHash =>
      HmacLaid(0x0010, 0);
      TaggedLaid(f, details, selector, 0x0010, Many([]), true, []);
  }

  lemma KeyedHashOf(v: Value, selector: nat) returns (x: KeyedHash)
    requires Fits(S.KeyedHashScheme(), selector, v)
    ensures v == KeyedHashValue(x)
  {
    hide Fits, S.SchemeKeyedHash;
    TaggedOf(S.KeyedHashScheme(), S.SchemeKeyedHash(), selector, v);
    var scheme, d := v.items[0].n, v.items[1];
    KeyedHashDetailsOf(scheme, d);
    x := if d.Num? then Hmac(d.n) else if scheme == 0x000A then XorHash(d.items[0].n, d.items[1].n) else NoHash;
  }

  lemma KeyedHashDetailsOf(scheme: nat, v: Value)
    requires Fits(S.SchemeKeyedHash(), scheme, v)
    ensures || (scheme == 0x0005 && v.Num?) || (scheme == 0x0010 && v == Many([]))
            || (scheme == 0x000A && v.Many? && |v.items| == 2 && v.items[0].Num? && v.items[1].Num?
                && v == Many([v.items[0], v.items[1]]))
  {
    if scheme == 0x000A {
      hide Fits;
      AtArm(S.SchemeKeyedHash(), scheme, v);
      PairOf(scheme, v);
    }
  }

  // TPMU_PUBLIC_PARMS

  datatype Parms =
    | KeyedHashDetail(keyedHash: KeyedHash)
    | SymDetail(sym: Sym)
    | RsaDetail(symmetric: Sym, scheme: Scheme, keyBits: nat, exponent: nat)
    | EccDetail(symmetric: Sym, scheme: Scheme, curveID: nat, kdf: Kdf)

  function ParmsValue(x: Parms): Value {
    match x
    case KeyedHashDetail(keyedHash) => KeyedHashValue(keyedHash)
    case SymDetail(sym) => SymValue(sym)
    case RsaDetail(symmetric, scheme, keyBits, exponent) =>
      Many([SymValue(symmetric), SchemeValue(scheme), Num(keyBits), Num(exponent)])
    case EccDetail(symmetric, scheme, curveID, kdf) =>
      Many([SymValue(symmetric), SchemeValue(scheme), Num(curveID), KdfValue(kdf)])
  }

  /** The type that goes with the parameters. */
  function ParmsType(x: Parms): nat {
    match x
    case KeyedHashDetail(_) => 0x0008
    case SymDetail(_) => 0x0025
    case RsaDetail(_, _, _, _) => 0x0001
    case EccDetail(_, _, _, _) => 0x0023
  }

  predicate ParmsOk(x: Parms) {
    match x
    case KeyedHashDetail(keyedHash) => KeyedHashOk(keyedHash)
    case SymDetail(sym) => SymOk(sym)
    case RsaDetail(symmetric, scheme, keyBits, exponent) =>
      SymOk(symmetric) && SchemeOk(scheme) && keyBits < 0x1_0000 && exponent < 0x1_0000_0000
    case EccDetail(symmetric, scheme, curveID, kdf) =>
      SymOk(symmetric) && SchemeOk(scheme) && curveID < 0x1_0000 && KdfOk(kdf)
  }

  function ParmsBytes(x: Parms): Bytes {
    match x
    case KeyedHashDetail(keyedHash) => KeyedHashBytes(keyedHash)
    case SymDetail(sym) => SymBytes(sym)
    case RsaDetail(symmetric, scheme, keyBits, exponent) =>
      Flat([SymBytes(symmetric), SchemeBytes(scheme), Octets(2, keyBits), Octets(4, exponent)])
    case EccDetail(symmetric, scheme, curveID, kdf) =>
      Flat([SymBytes(symmetric), SchemeBytes(scheme), Octets(2, curveID), KdfBytes(kdf)])
  }

  lemma RsaLaid(x: Parms, selector: nat)
    requires x.RsaDetail?
    ensures Laid(S.RsaParms(), selector, ParmsValue(x), ParmsOk(x), ParmsBytes(x))
  {
    hide Laid, S.SymDefObject, S.AsymScheme, SymValue, SchemeValue, SymBytes, SchemeBytes, SymOk, SchemeOk;
    hide Octets, Flat, Pow256;
    Widths();
    var f, items := S.RsaParms(), ParmsValue(x).items;
    var oks := [SymOk(x.symmetric), SchemeOk(x.scheme), x.keyBits < 0x1_0000, x.exponent < 0x1_0000_0000];
    var parts := [SymBytes(x.symmetric), SchemeBytes(x.scheme), Octets(2, x.keyBits), Octets(4, x.exponent)];
    SymLaid(x.symmetric, 0);
    SchemeLaid(x.scheme, 0);
    ScalarLaid(2, Any, 0, x.keyBits);
    ScalarLaid(4, Any, 0, x.exponent);
    Record4(f, selector, items, oks, parts);
  }

  lemma EccLaid(x: Parms, selector: nat)
    requires x.EccDetail?
    ensures Laid(S.EccParms(), selector, ParmsValue(x), ParmsOk(x), ParmsBytes(x))
  {
    hide Laid, S.SymDefObject, S.AsymScheme, SymValue, SchemeValue, SymBytes, SchemeBytes, SymOk, SchemeOk;
    hide S.KdfScheme, KdfValue, KdfBytes, KdfOk, Octets, Flat, Pow256;
    Widths();
    var f, items := S.EccParms(), ParmsValue(x).items;
    var oks := [SymOk(x.symmetric), SchemeOk(x.scheme), x.curveID < 0x1_0000, KdfOk(x.kdf)];
    var parts := [SymBytes(x.symmetric), SchemeBytes(x.scheme), Octets(2, x.curveID), KdfBytes(x.kdf)];
    SymLaid(x.symmetric, 0);
    SchemeLaid(x.scheme, 0);
    ScalarLaid(2, Any, 0, x.curveID);
    KdfLaid(x.kdf, 0);
    Record4(f, selector, items, oks, parts);
  }

  lemma ParmsLaid(x: Parms)
    ensures Laid(S.PublicParms(), ParmsType(x), ParmsValue(x), ParmsOk(x), ParmsBytes(x))
  {
    hide Laid, ParmsValue, ParmsOk, ParmsBytes, S.KeyedHashScheme, S.SymDefObject, S.RsaParms, S.EccParms;
    var kind := ParmsType(x);
    if x.RsaDetail? {
      RsaLaid(x, kind);
    } else if x.EccDetail? {
      EccLaid(x, kind);
    } else {
      SmallParmsLaid(x, kind);
    }
    ArmLaid(S.PublicParms(), kind, ParmsValue(x), ParmsOk(x), ParmsBytes(x));
  }

  lemma SmallParmsLaid(x: Parms, selector: nat)
    ensures x.KeyedHashDetail? ==> Laid(S.KeyedHashScheme(), selector, ParmsValue(x), ParmsOk(x), ParmsBytes(x))
    ensures x.SymDetail? ==> Laid(S.SymDefObject(), selector, ParmsValue(x), ParmsOk(x), ParmsBytes(x))
  {
    hide Laid, S.KeyedHashScheme, S.SymDefObject;
    if x.KeyedHashDetail? {
      KeyedHashLaid(x.keyedHash, selector);
    } else if x.SymDetail? {
      SymLaid(x.sym, selector);
    }
  }

  lemma ParmsOf(kind: nat, v: Value) returns (x: Parms)
    requires Fits(S.PublicParms(), kind, v)
    ensures v == ParmsValue(x) && kind == ParmsType(x)
  {
    AtArm(S.PublicParms(), kind, v);
    hide Fits, S.KeyedHashScheme, S.SymDefObject, S.RsaParms, S.EccParms, SymValue, KeyedHashValue;
    if kind == 0x0008 {
      var k := KeyedHashOf(v, kind);
      x := KeyedHashDetail(k);
    } else if kind == 0x0025 {
      var s := SymOf(v, kind);
      x := SymDetail(s);
    } else if kind == 0x0001 {
      x := RsaOf(v, kind);
    } else {
      x := EccOf(v, kind);
    }
  }

  lemma RsaOf(v: Value, selector: nat) returns (x: Parms)
    requires Fits(S.RsaParms(), selector, v)
    ensures x.RsaDetail? && v == ParmsValue(x)
  {
    hide Fits, S.SymDefObject, S.AsymScheme, SymValue, SchemeValue;
    var f := S.RsaParms();
    FieldsOf(f, selector, v);
    var items := v.items;
    assert FieldFits(f, items, 0) && FieldFits(f, items, 1) && FieldFits(f, items, 2) && FieldFits(f, items, 3);
    var symmetric := SymOf(items[0], 0);
    var scheme := SchemeOf(items[1], 0);
    ScalarOf(items[2], 2, Any, 0);
    ScalarOf(items[3], 4, Any, 0);
    x := RsaDetail(symmetric, scheme, items[2].n, items[3].n);
    assert items == [items[0], items[1], items[2], items[3]];
  }

  lemma EccOf(v: Value, selector: nat) returns (x: Parms)
    requires Fits(S.EccParms(), selector, v)
    ensures x.EccDetail? && v == ParmsValue(x)
  {
    hide Fits, S.SymDefObject, S.AsymScheme, S.KdfScheme, SymValue, SchemeValue, KdfValue;
    var f := S.EccParms();
    FieldsOf(f, selector, v);
    var items := v.items;
    assert FieldFits(f, items, 0) && FieldFits(f, items, 1) && FieldFits(f, items, 2) && FieldFits(f, items, 3);
    var symmetric := SymOf(items[0], 0);
    var scheme := SchemeOf(items[1], 0);
    ScalarOf(items[2], 2, Any, 0);
    var kdf := KdfOf(items[3], 0);
    x := EccDetail(symmetric, scheme, items[2].n, kdf);
    assert items == [items[0], items[1], items[2], items[3]];
  }

  // TPMU_PUBLIC_ID

  datatype Unique = Buffer(bytes: Bytes) | Point(x: Bytes, y: Bytes)

  function UniqueValue(u: Unique): Value {
    if u.Buffer? then Blob(u.bytes) else Many([Blob(u.x), Blob(u.y)])
  }

  predicate UniqueOk(kind: nat, u: Unique) {
    || (kind in {0x0008, 0x0025} && u.Buffer? && |u.bytes| <= S.DIGEST_MAX)
    || (kind == 0x0001 && u.Buffer? && |u.bytes| <= S.RSA_PUBLIC_MAX)
    || (kind == 0x0023 && u.Point? && |u.x| <= S.ECC_PARAMETER_MAX && |u.y| <= S.ECC_PARAMETER_MAX)
  }

  function UniqueBytes(u: Unique): Bytes {
    if u.Buffer? then Two(u.bytes) else Two(u.x) + Two(u.y)
  }

  lemma PointLaid(selector: nat, x: Bytes, y: Bytes)
    ensures Laid(S.EccPoint(), selector, Many([Blob(x), Blob(y)]),
                 |x| <= S.ECC_PARAMETER_MAX && |y| <= S.ECC_PARAMETER_MAX, Two(x) + Two(y))
  {
    TwoPairLaid(S.ECC_PARAMETER_MAX, S.ECC_PARAMETER_MAX, selector, x, y);
  }

  /** A TPM2B_ECC_POINT is read exactly from its bytes. */
  lemma PointReadIff(x: Bytes, y: Bytes, b: Bytes, rest: Bytes)
    ensures Parse(S.Tpm2bEccPoint(), 0, b) == Ok(Box(Many([Blob(x), Blob(y)])), rest) <==>
            && |x| <= S.ECC_PARAMETER_MAX && |y| <= S.ECC_PARAMETER_MAX && |x| + |y| + 4 < 0x1_0000
            && b == Two(Two(x) + Two(y)) + rest
  {
    Widths();
    hide Parse, Fits, Encode;
    var f, v, e := S.Tpm2bEccPoint(), Many([Blob(x), Blob(y)]), Two(x) + Two(y);
    var ok := |x| <= S.ECC_PARAMETER_MAX && |y| <= S.ECC_PARAMETER_MAX;
    PointLaid(0, x, y);
    BoxLaid(f, 0, v, ok, e);
    ReadIff(f, 0, Box(v), ok && 0 < |e| < 0x1_0000, Two(e), b, rest);
  }

  lemma UniqueLaid(kind: nat, u: Unique)
    ensures Laid(S.PublicId(), kind, UniqueValue(u), UniqueOk(kind, u), UniqueBytes(u))
  {
    if u.Buffer? {
      BufferLaid(kind, u);
    } else {
      PointIdLaid(kind, u);
    }
  }

  lemma BufferLaid(kind: nat, u: Unique)
    requires u.Buffer?
    ensures Laid(S.PublicId(), kind, UniqueValue(u), UniqueOk(kind, u), UniqueBytes(u))
  {
    Widths();
    hide Octets, Pow256;
  }

  lemma PointIdLaid(kind: nat, u: Unique)
    requires u.Point?
    ensures Laid(S.PublicId(), kind, UniqueValue(u), UniqueOk(kind, u), UniqueBytes(u))
  {
    if kind == 0x0023 {
      hide Laid, Two, S.EccPoint;
      PointLaid(kind, u.x, u.y);
      ArmLaid(S.PublicId(), kind, UniqueValue(u), UniqueOk(kind, u), UniqueBytes(u));
    }
  }

  lemma UniqueOf(kind: nat, v: Value) returns (u: Unique)
    requires Fits(S.PublicId(), kind, v)
    ensures v == UniqueValue(u)
  {
    AtArm(S.PublicId(), kind, v);
    if kind == 0x0023 {
      hide Fits;
      TwoPairOf(S.ECC_PARAMETER_MAX, S.ECC_PARAMETER_MAX, kind, v);
      u := Point(v.items[0].bytes, v.items[1].bytes);
    } else {
      u := Buffer(v.bytes);
    }
  }

  // TPMT_PUBLIC

  /** The type is that of the parameters. */
  datatype Public = Public(nameAlg: nat, objectAttributes: nat, authPolicy: Bytes, parameters: Parms, unique: Unique)

  function PublicValue(x: Public): Value {
    Many([Num(ParmsType(x.parameters)), Num(x.nameAlg), Num(x.objectAttributes), Blob(x.authPolicy),
          ParmsValue(x.parameters), UniqueValue(x.unique)])
  }

  predicate PublicOk(x: Public) {
    && x.nameAlg < 0x1_0000 && x.objectAttributes < 0x1_0000_0000
    && And(x.objectAttributes, S.OBJECT_RESERVED) == 0 && |x.authPolicy| <= S.DIGEST_MAX
    && ParmsOk(x.parameters) && UniqueOk(ParmsType(x.parameters), x.unique)
  }

  function PublicBytes(x: Public): Bytes {
    Flat([Octets(2, ParmsType(x.parameters)), Octets(2, x.nameAlg), Octets(4, x.objectAttributes), Two(x.authPolicy),
          ParmsBytes(x.parameters), UniqueBytes(x.unique)])
  }

  lemma PublicLaid(x: Public)
    ensures Laid(S.Public(), 0, PublicValue(x), PublicOk(x), PublicBytes(x))
  {
    hide Laid, S.PublicParms, S.PublicId, ParmsValue, ParmsOk, ParmsBytes, UniqueValue, UniqueOk, UniqueBytes;
    hide S.Tpm2b, Two, And, Octets, Flat, Pow256;
    Widths();
    var f, items, kind := S.Public(), PublicValue(x).items, ParmsType(x.parameters);
    var oks := [true, x.nameAlg < 0x1_0000,
                x.objectAttributes < 0x1_0000_0000 && And(x.objectAttributes, S.OBJECT_RESERVED) == 0,
                |x.authPolicy| <= S.DIGEST_MAX, ParmsOk(x.parameters), UniqueOk(kind, x.unique)];
    var parts := [Octets(2, kind), Octets(2, x.nameAlg), Octets(4, x.objectAttributes), Two(x.authPolicy),
                  ParmsBytes(x.parameters), UniqueBytes(x.unique)];
    ScalarLaid(2, Any, 0, kind);
    ScalarLaid(2, Any, 0, x.nameAlg);
    ScalarLaid(4, Unreserved(S.OBJECT_RESERVED), 0, x.objectAttributes);
    TwoLaid(S.DIGEST_MAX, 0, x.authPolicy);
    ParmsLaid(x.parameters);
    UniqueLaid(kind, x.unique);
    Record6(f, 0, items, oks, parts);
  }

  lemma PublicOf(v: Value) returns (x: Public)
    requires Fits(S.Public(), 0, v)
    ensures v == PublicValue(x)
  {
    hide Fits, S.PublicParms, S.PublicId, ParmsValue, UniqueValue;
    var f := S.Public();
    FieldsOf(f, 0, v);
    var items := v.items;
    assert FieldFits(f, items, 0) && FieldFits(f, items, 1) && FieldFits(f, items, 2);
    assert FieldFits(f, items, 3) && FieldFits(f, items, 4) && FieldFits(f, items, 5);
    ScalarOf(items[0], 2, Any, 0);
    ScalarOf(items[1], 2, Any, 0);
    ScalarOf(items[2], 4, Unreserved(S.OBJECT_RESERVED), 0);
    SizedOf(items[3], 2, S.DIGEST_MAX, SIZE, 0);
    var parameters := ParmsOf(items[0].n, items[4]);
    var unique := UniqueOf(items[0].n, items[5]);
    x := Public(items[1].n, items[2].n, items[3].bytes, parameters, unique);
    assert items == [items[0], items[1], items[2], items[3], items[4], items[5]];
  }

  /** A TPM2B_PUBLIC that can be sent. */
  predicate SizedPublicOk(x: Public) {
    PublicOk(x) && |PublicBytes(x)| < 0x1_0000
  }

  lemma SizedPublicLaid(x: Public)
    ensures Laid(S.Tpm2bPublic(), 0, Box(PublicValue(x)), SizedPublicOk(x), Two(PublicBytes(x)))
  {
    PublicLaid(x);
    Widths();
    assert |PublicBytes(x)| >= 2;
    hide S.Public, PublicValue, PublicOk, PublicBytes;
    BoxLaid(S.Tpm2bPublic(), 0, PublicValue(x), PublicOk(x), PublicBytes(x));
  }

  /** A public area is read exactly from its bytes. */
  lemma PublicReadIff(x: Public, b: Bytes, rest: Bytes)
    ensures Parse(S.Tpm2bPublic(), 0, b) == Ok(Box(PublicValue(x)), rest) <==>
            SizedPublicOk(x) && b == Two(PublicBytes(x)) + rest
  {
    hide *;
    SizedPublicLaid(x);
    ReadIff(S.Tpm2bPublic(), 0, Box(PublicValue(x)), SizedPublicOk(x), Two(PublicBytes(x)), b, rest);
  }

  /** Nothing but public areas is accepted. */
  lemma PublicRead(b: Bytes) returns (x: Public)
    requires Parse(S.Tpm2bPublic(), 0, b).Ok?
    ensures var r := Parse(S.Tpm2bPublic(), 0, b);
            r.v == Box(PublicValue(x)) && SizedPublicOk(x) && b == Two(PublicBytes(x)) + r.rest
  {
    hide Fits, Parse, Encode, S.Public, PublicValue, SizedPublicOk, PublicBytes, Two;
    var r := Parse(S.Tpm2bPublic(), 0, b);
    Sound(S.Tpm2bPublic(), 0, b);
    BoxContent(S.Tpm2bPublic(), S.Public(), r.v);
    x := PublicOf(r.v.content);
    PublicReadIff(x, b, r.rest);
  }

  /** The selectors of the unions of a public area. */
  lemma PublicSelectors(selector: nat)
    ensures selector in S.SymKeyBits().arms <==> selector in {0x0006, 0x000A, 0x0010, 0x0013, 0x0026}
    ensures selector in S.SymMode().arms <==> selector in {0x0006, 0x000A, 0x0010, 0x0013, 0x0026}
    ensures selector in S.SchemeKeyedHash().arms <==> selector in {0x0005, 0x000A, 0x0010}
    ensures selector in S.KdfDetails().arms <==> selector in {0x0007, 0x0010, 0x0020, 0x0021, 0x0022}
    ensures selector in S.AsymDetails().arms <==>
            selector in {0x0010, 0x0014, 0x0015, 0x0016, 0x0017, 0x0018, 0x0019, 0x001A, 0x001B, 0x001C, 0x001D}
    ensures selector in S.PublicParms().arms <==> selector in {0x0001, 0x0008, 0x0023, 0x0025}
    ensures selector in S.PublicId().arms <==> selector in {0x0001, 0x0008, 0x0023, 0x0025}
    ensures selector in S.SensitiveComposite().arms <==> selector in {0x0001, 0x0008, 0x0023, 0x0025}
  {
  }

  /** A public area of an unknown type is refused behind its policy. */
  lemma UnknownPublicType(kind: nat, nameAlg: nat, attributes: nat, policy: Bytes, s: Bytes)
    requires kind < 0x1_0000 && nameAlg < 0x1_0000 && attributes < 0x1_0000_0000 && |policy| <= S.DIGEST_MAX
    requires kind !in {0x0001, 0x0008, 0x0023, 0x0025} && And(attributes, S.OBJECT_RESERVED) == 0
    ensures Parse(S.Public(), 0,
                  Flat([Octets(2, kind), Octets(2, nameAlg), Octets(4, attributes), Two(policy)]) + s)
            == Err(SELECTOR, s)
  {
    PublicSelectors(kind);
    hide Laid, Parse, S.PublicParms, S.PublicId, S.Tpm2b, Two, And, Octets, Flat, Pow256;
    Widths();
    var f, items := S.Public(), [Num(kind), Num(nameAlg), Num(attributes), Blob(policy)];
    var oks, parts := [true, true, true, true],
                      [Octets(2, kind), Octets(2, nameAlg), Octets(4, attributes), Two(policy)];
    ScalarLaid(2, Any, 0, kind);
    ScalarLaid(2, Any, 0, nameAlg);
    ScalarLaid(4, Unreserved(S.OBJECT_RESERVED), 0, attributes);
    TwoLaid(S.DIGEST_MAX, 0, policy);
    assert FieldLaid(f, items, oks, parts, 0);
    assert FieldLaid(f, items, oks, parts, 1);
    assert FieldLaid(f, items, oks, parts, 2);
    assert FieldLaid(f, items, oks, parts, 3);
    ParmsIsUnion();
    Refusals(S.PublicParms(), kind, s);
    Stops(f, 0, items, oks, parts, s);
  }

  lemma ParmsIsUnion()
    ensures S.PublicParms().Union?
  {
  }

  /** Reserved attribute bits are refused behind the attributes. */
  lemma ReservedAttributes(kind: nat, nameAlg: nat, attributes: nat, s: Bytes)
    requires kind < 0x1_0000 && nameAlg < 0x1_0000 && attributes < 0x1_0000_0000
    requires And(attributes, S.OBJECT_RESERVED) != 0
    ensures Parse(S.Public(), 0, Flat([Octets(2, kind), Octets(2, nameAlg)]) + (Octets(4, attributes) + s))
            == Err(RESERVED_BITS, s)
  {
    hide Laid, Parse, And, Octets, Flat, Pow256, S.PublicParms, S.PublicId, S.Tpm2b;
    Widths();
    var f, items := S.Public(), [Num(kind), Num(nameAlg)];
    var oks, parts := [true, true], [Octets(2, kind), Octets(2, nameAlg)];
    ScalarLaid(2, Any, 0, kind);
    ScalarLaid(2, Any, 0, nameAlg);
    assert FieldLaid(f, items, oks, parts, 0);
    assert FieldLaid(f, items, oks, parts, 1);
    TestedNumber(4, Unreserved(S.OBJECT_RESERVED), 0, attributes, s);
    Stops(f, 0, items, oks, parts, Octets(4, attributes) + s);
  }

  // TPMS_SENSITIVE_CREATE and TPMT_SENSITIVE

  datatype SensitiveCreate = SensitiveCreate(userAuth: Bytes, data: Bytes)

  function SensitiveCreateValue(x: SensitiveCreate): Value {
    Many([Blob(x.userAuth), Blob(x.data)])
  }

  predicate SensitiveCreateOk(x: SensitiveCreate) {
    && |x.userAuth| <= S.AUTH_MAX && |x.data| <= S.SENSITIVE_DATA_MAX
    && |x.userAuth| + |x.data| + 4 < 0x1_0000
  }

  function SensitiveCreateBytes(x: SensitiveCreate): Bytes {
    Two(Two(x.userAuth) + Two(x.data))
  }

  lemma SensitiveCreateLaid(x: SensitiveCreate)
    ensures Laid(S.Tpm2bSensitiveCreate(), 0, Box(SensitiveCreateValue(x)), SensitiveCreateOk(x),
                 SensitiveCreateBytes(x))
  {
    Widths();
    TwoPairLaid(S.AUTH_MAX, S.SENSITIVE_DATA_MAX, 0, x.userAuth, x.data);
    BoxLaid(S.Tpm2bSensitiveCreate(), 0, SensitiveCreateValue(x),
            |x.userAuth| <= S.AUTH_MAX && |x.data| <= S.SENSITIVE_DATA_MAX, Two(x.userAuth) + Two(x.data));
  }

  lemma SensitiveCreateReadIff(x: SensitiveCreate, b: Bytes, rest: Bytes)
    ensures Parse(S.Tpm2bSensitiveCreate(), 0, b) == Ok(Box(SensitiveCreateValue(x)), rest) <==>
            SensitiveCreateOk(x) && b == SensitiveCreateBytes(x) + rest
  {
    hide *;
    SensitiveCreateLaid(x);
    ReadIff(S.Tpm2bSensitiveCreate(), 0, Box(SensitiveCreateValue(x)), SensitiveCreateOk(x), SensitiveCreateBytes(x),
            b, rest);
  }

  lemma SensitiveCreateRead(b: Bytes) returns (x: SensitiveCreate)
    requires Parse(S.Tpm2bSensitiveCreate(), 0, b).Ok?
    ensures var r := Parse(S.Tpm2bSensitiveCreate(), 0, b);
            r.v == Box(SensitiveCreateValue(x)) && SensitiveCreateOk(x) && b == SensitiveCreateBytes(x) + r.rest
  {
    hide Fits, Parse, Encode, S.Tpm2b, SensitiveCreateOk, SensitiveCreateBytes;
    var r := Parse(S.Tpm2bSensitiveCreate(), 0, b);
    Sound(S.Tpm2bSensitiveCreate(), 0, b);
    BoxContent(S.Tpm2bSensitiveCreate(), S.SensitiveCreate(), r.v);
    TwoPairOf(S.AUTH_MAX, S.SENSITIVE_DATA_MAX, 0, r.v.content);
    x := SensitiveCreate(r.v.content.items[0].bytes, r.v.content.items[1].bytes);
    SensitiveCreateReadIff(x, b, r.rest);
  }

  /** The composite is the private key, seed or secret that goes with the type. */
  datatype Sensitive = Sensitive(sensitiveType: nat, authValue: Bytes, seedValue: Bytes, sensitive: Bytes)

  function SensitiveValue(x: Sensitive): Value {
    Many([Num(x.sensitiveType), Blob(x.authValue), Blob(x.seedValue), Blob(x.sensitive)])
  }

  predicate CompositeOk(kind: nat, s: Bytes) {
    || (kind == 0x0001 && |s| <= S.RSA_PRIVATE_MAX) || (kind == 0x0023 && |s| <= S.ECC_PARAMETER_MAX)
    || (kind == 0x0008 && |s| <= S.SENSITIVE_DATA_MAX) || (kind == 0x0025 && |s| <= S.SYM_KEY_MAX)
  }

  predicate SensitiveOk(x: Sensitive) {
    && x.sensitiveType < 0x1_0000 && |x.authValue| <= S.AUTH_MAX && |x.seedValue| <= S.DIGEST_MAX
    && CompositeOk(x.sensitiveType, x.sensitive)
  }

  function SensitiveBytes(x: Sensitive): Bytes {
    Flat([Octets(2, x.sensitiveType), Two(x.authValue), Two(x.seedValue), Two(x.sensitive)])
  }

  lemma CompositeLaid(kind: nat, s: Bytes)
    ensures Laid(S.SensitiveComposite(), kind, Blob(s), CompositeOk(kind, s), Two(s))
  {
    Widths();
    hide Octets, Pow256;
  }

  lemma SensitiveLaid(x: Sensitive)
    ensures Laid(S.Sensitive(), 0, SensitiveValue(x), SensitiveOk(x), SensitiveBytes(x))
  {
    hide Laid, S.SensitiveComposite, CompositeOk, S.Tpm2b, Two, Octets, Flat, Pow256;
    Widths();
    var f, items := S.Sensitive(), SensitiveValue(x).items;
    var oks := [x.sensitiveType < 0x1_0000, |x.authValue| <= S.AUTH_MAX, |x.seedValue| <= S.DIGEST_MAX,
                CompositeOk(x.sensitiveType, x.sensitive)];
    var parts := [Octets(2, x.sensitiveType), Two(x.authValue), Two(x.seedValue), Two(x.sensitive)];
    ScalarLaid(2, Any, 0, x.sensitiveType);
    TwoLaid(S.AUTH_MAX, 0, x.authValue);
    TwoLaid(S.DIGEST_MAX, 0, x.seedValue);
    CompositeLaid(x.sensitiveType, x.sensitive);
    Record4(f, 0, items, oks, parts);
  }

  lemma SensitiveOf(v: Value) returns (x: Sensitive)
    requires Fits(S.Sensitive(), 0, v)
    ensures v == SensitiveValue(x)
  {
    hide Fits, S.SensitiveComposite;
    var f := S.Sensitive();
    FieldsOf(f, 0, v);
    var items := v.items;
    assert FieldFits(f, items, 0) && FieldFits(f, items, 1) && FieldFits(f, items, 2) && FieldFits(f, items, 3);
    ScalarOf(items[0], 2, Any, 0);
    SizedOf(items[1], 2, S.AUTH_MAX, SIZE, 0);
    SizedOf(items[2], 2, S.DIGEST_MAX, SIZE, 0);
    CompositeOf(items[0].n, items[3]);
    x := Sensitive(items[0].n, items[1].bytes, items[2].bytes, items[3].bytes);
    assert items == [items[0], items[1], items[2], items[3]];
  }

  lemma CompositeOf(kind: nat, v: Value)
    requires Fits(S.SensitiveComposite(), kind, v)
    ensures v.Blob?
  {
  }

  predicate SizedSensitiveOk(x: Sensitive) {
    SensitiveOk(x) && |SensitiveBytes(x)| < 0x1_0000
  }

  lemma SizedSensitiveLaid(x: Sensitive)
    ensures Laid(S.Tpm2bSensitive(), 0, Box(SensitiveValue(x)), SizedSensitiveOk(x), Two(SensitiveBytes(x)))
  {
    SensitiveLaid(x);
    Widths();
    assert |SensitiveBytes(x)| >= 2;
    hide S.Sensitive, SensitiveValue, SensitiveOk, SensitiveBytes;
    BoxLaid(S.Tpm2bSensitive(), 0, SensitiveValue(x), SensitiveOk(x), SensitiveBytes(x));
  }

  lemma SensitiveReadIff(x: Sensitive, b: Bytes, rest: Bytes)
    ensures Parse(S.Tpm2bSensitive(), 0, b) == Ok(Box(SensitiveValue(x)), rest) <==>
            SizedSensitiveOk(x) && b == Two(SensitiveBytes(x)) + rest
  {
    hide *;
    SizedSensitiveLaid(x);
    ReadIff(S.Tpm2bSensitive(), 0, Box(SensitiveValue(x)), SizedSensitiveOk(x), Two(SensitiveBytes(x)), b, rest);
  }

  /** What is accepted is a sensitive area, or two zero octets for none. */
  lemma SensitiveRead(b: Bytes) returns (x: Sensitive)
    requires Parse(S.Tpm2bSensitive(), 0, b).Ok?
    ensures var r := Parse(S.Tpm2bSensitive(), 0, b);
            if r.v.Absent? then b == [0, 0] + r.rest
            else r.v == Box(SensitiveValue(x)) && SizedSensitiveOk(x) && b == Two(SensitiveBytes(x)) + r.rest
  {
    var r := Parse(S.Tpm2bSensitive(), 0, b);
    Sound(S.Tpm2bSensitive(), 0, b);
    OptionalContent(S.Tpm2bSensitive(), S.Sensitive(), r.v);
    hide Fits, Parse, Encode, S.Sensitive, SensitiveValue, SizedSensitiveOk, SensitiveBytes, Two;
    x := Sensitive(0, [], [], []);
    if r.v.Box? {
      x := SensitiveOf(r.v.content);
      SensitiveReadIff(x, b, r.rest);
    }
  }

  /** No sensitive area is two zero octets; an empty area of the other structures is refused. */
  lemma EmptyBoxes(s: Bytes)
    ensures Parse(S.Tpm2bSensitive(), 0, [0, 0] + s) == Ok(Absent, s)
    ensures Parse(S.Tpm2bPublic(), 0, [0, 0] + s) == Err(SIZE, s)
    ensures Parse(S.Tpm2bSensitiveCreate(), 0, [0, 0] + s) == Err(SIZE, s)
    ensures Parse(S.Tpm2bNvPublic(), 0, [0, 0] + s) == Err(SIZE, s)
    ensures Parse(S.Tpm2bCreationData(), 0, [0, 0] + s) == Err(SIZE, s)
    ensures Parse(S.Tpm2bEccPoint(), 0, [0, 0] + s) == Err(SIZE, s)
  {
    hide Parse, S.Sensitive, S.Public, S.SensitiveCreate, S.NvPublic, S.CreationData, S.EccPoint;
    var b := [0, 0] + s;
    assert Number(b[..2]) == 0 by { assert b[..2] == [0, 0] && [0, 0][..1] == [0]; }
    assert b[2..] == s;
    Refusals(S.Tpm2bSensitive(), 0, b);
    Refusals(S.Tpm2bPublic(), 0, b);
    Refusals(S.Tpm2bSensitiveCreate(), 0, b);
    Refusals(S.Tpm2bNvPublic(), 0, b);
    Refusals(S.Tpm2bCreationData(), 0, b);
    Refusals(S.Tpm2bEccPoint(), 0, b);
  }

  // The code and the bytes

  /** What the marshaller stores for a public area is its bytes. */
  lemma PublicPlan(x: Public)
    requires PublicOk(x)
    ensures Typed(S.Public(), 0, PublicValue(x))
    ensures PlanOf(S.Public(), 0, PublicValue(x)).ok
    ensures Flat(PlanOf(S.Public(), 0, PublicValue(x)).puts) == PublicBytes(x)
  {
    hide Fits, Encode, Typed, PlanOf, Plainly, S.Public, PublicValue, PublicBytes;
    PublicLaid(x);
    Marshal.PublicIsPlain();
    FitsTyped(S.Public(), 0, PublicValue(x));
    PlanEncodes(S.Public(), 0, PublicValue(x));
  }

  /** What `TSS_Structure_Marshal` returns for a public area is its bytes behind their length. */
  method MarshalPublic(x: Public, memory: bool) returns (r: Option<array<Byte>>)
    requires SizedPublicOk(x) && |PublicBytes(x)| != 0xFFFF
    ensures r.Some? <==> memory && |PublicBytes(x)| + 2 < 0x1_0000
    ensures r.Some? ==> fresh(r.value) && r.value[..] == Two(PublicBytes(x))
  {
    hide Typed, PlanOf, S.Public, Flat, Octets, PublicValue, PublicOk, PublicBytes;
    PublicPlan(x);
    r := Marshal.StructureMarshal(Box(PublicValue(x)), memory);
  }

  /** `TSS_TPM2B_PUBLIC_Unmarshalu` succeeds exactly on the bytes of a public area, and returns it. */
  method UnmarshalPublic(b: Bytes) returns (o: Outcome, rest: Bytes, ghost x: Public)
    requires |b| < 0x1_0000_0000
    ensures o.Done? ==> o.v == Box(PublicValue(x)) && SizedPublicOk(x) && b == Two(PublicBytes(x)) + rest
    ensures o.Fail? ==> forall y, s :: SizedPublicOk(y) ==> b != Two(PublicBytes(y)) + s
  {
    hide Fits, Encode, S.Public, PublicValue, SizedPublicOk, PublicBytes, Two;
    o, rest := Marshal.ReadStructure(b);
    x := Public(0, 0, [], SymDetail(NoSym), Buffer([]));
    if o.Done? {
      BoxContent(S.Tpm2bPublic(), S.Public(), o.v);
      x := PublicOf(o.v.content);
      SizedPublicLaid(x);
    } else {
      forall y, s | SizedPublicOk(y)
        ensures b != Two(PublicBytes(y)) + s
      {
        SizedPublicLaid(y);
      }
    }
  }
}
