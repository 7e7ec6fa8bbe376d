/**
  The TPM 1.2 key as C structures, with their fields by name and their bytes written out.
  Every number stands for itself.
*/
module Key12Layout {
  import opened BigEndian
  import opened WireFormat
  import opened Layout
  import S = TpmStructures

  /** A length of four octets, then the octets. */
  function Four(s: Bytes): Bytes {
    Octets(4, |s|) + s
  }

  lemma FourLaid(capacity: nat, selector: nat, s: Bytes)
    requires capacity < 0x1_0000
    ensures Laid(Sized(4, capacity, SIZE), selector, Blob(s), |s| <= capacity, Four(s))
  {
    Widths();
    SizedLaid(4, capacity, SIZE, selector, s);
  }

  /** The structure of a box is not too long for its length. */
  lemma FourBoxLaid(f: Format, selector: nat, v: Value, ok: bool, bytes: Bytes)
    requires f.Boxed? && f.width == 4 && Laid(f.content, selector, v, ok, bytes)
    requires ok ==> 0 < |bytes| < 0x1_0000_0000
    ensures Laid(f, selector, Box(v), ok, Four(bytes))
  {
    Widths();
    hide Octets, Pow256;
    BoxLaid(f, selector, v, ok, bytes);
  }

  // TPM_RSA_KEY_PARMS

  datatype RsaKeyParms = RsaKeyParms(keyLength: nat, numPrimes: nat, exponent: Bytes)

  function RsaKeyParmsValue(x: RsaKeyParms): Value {
    Many([Num(x.keyLength), Num(x.numPrimes), Blob(x.exponent)])
  }

  predicate RsaKeyParmsOk(x: RsaKeyParms) {
    x.keyLength < 0x1_0000_0000 && x.numPrimes < 0x1_0000_0000 && |x.exponent| <= S.RSA_EXPONENT12_MAX
  }

  function RsaKeyParmsBytes(x: RsaKeyParms): Bytes {
    Flat([Octets(4, x.keyLength), Octets(4, x.numPrimes), Four(x.exponent)])
  }

  lemma RsaKeyParmsLaid(x: RsaKeyParms, selector: nat)
    ensures Laid(S.RsaKeyParms(), selector, RsaKeyParmsValue(x), RsaKeyParmsOk(x), RsaKeyParmsBytes(x))
  {
    hide Laid, Octets, Flat, Pow256, Four;
    Widths();
    var f, items := S.RsaKeyParms(), RsaKeyParmsValue(x).items;
    var oks := [x.keyLength < 0x1_0000_0000, x.numPrimes < 0x1_0000_0000, |x.exponent| <= S.RSA_EXPONENT12_MAX];
    var parts := [Octets(4, x.keyLength), Octets(4, x.numPrimes), Four(x.exponent)];
    ScalarLaid(4, Any, 0, x.keyLength);
    ScalarLaid(4, Any, 0, x.numPrimes);
    FourLaid(S.RSA_EXPONENT12_MAX, 0, x.exponent);
    Record3(f, selector, items, oks, parts);
  }

  lemma RsaKeyParmsOf(v: Value, selector: nat) returns (x: RsaKeyParms)
    requires Fits(S.RsaKeyParms(), selector, v)
    ensures v == RsaKeyParmsValue(x)
  {
    hide Fits;
    var f := S.RsaKeyParms();
    FieldsOf(f, selector, v);
    var items := v.items;
    assert FieldFits(f, items, 0) && FieldFits(f, items, 1) && FieldFits(f, items, 2);
    ScalarOf(items[0], 4, Any, 0);
    ScalarOf(items[1], 4, Any, 0);
    SizedOf(items[2], 4, S.RSA_EXPONENT12_MAX, SIZE, 0);
    x := RsaKeyParms(items[0].n, items[1].n, items[2].bytes);
    assert items == [items[0], items[1], items[2]];
  }

  lemma RsaKeyParmsLength(x: RsaKeyParms)
    requires RsaKeyParmsOk(x)
    ensures 0 < |RsaKeyParmsBytes(x)| < 0x1_0000_0000
  {
    Flat3(Octets(4, x.keyLength), Octets(4, x.numPrimes), Four(x.exponent));
  }

  /** The parameters behind their length, for the one algorithm that is known. */
  lemma ParmsLaid(x: RsaKeyParms, selector: nat)
    requires selector == 1
    ensures Laid(S.Tpm4bParms12(), selector, Box(RsaKeyParmsValue(x)), RsaKeyParmsOk(x), Four(RsaKeyParmsBytes(x)))
  {
    hide Laid, S.RsaKeyParms, RsaKeyParmsValue, RsaKeyParmsOk, RsaKeyParmsBytes, Four;
    RsaKeyParmsLaid(x, 1);
    ArmLaid(S.Parms12(), 1, RsaKeyParmsValue(x), RsaKeyParmsOk(x), RsaKeyParmsBytes(x));
    if RsaKeyParmsOk(x) {
      RsaKeyParmsLength(x);
    }
    FourBoxLaid(S.Tpm4bParms12(), 1, RsaKeyParmsValue(x), RsaKeyParmsOk(x), RsaKeyParmsBytes(x));
  }

  lemma ParmsOf(v: Value, selector: nat) returns (x: RsaKeyParms)
    requires Fits(S.Tpm4bParms12(), selector, v)
    ensures selector == 1 && v == Box(RsaKeyParmsValue(x))
  {
    AtArm(S.Parms12(), selector, v.content);
    hide Fits, S.RsaKeyParms, RsaKeyParmsValue;
    x := RsaKeyParmsOf(v.content, selector);
  }

  // TPM_KEY_PARMS

  /** The algorithm is RSA, number 1. */
  datatype KeyParms = KeyParms(encScheme: nat, sigScheme: nat, parms: RsaKeyParms)

  function KeyParmsValue(x: KeyParms): Value {
    Many([Num(1), Num(x.encScheme), Num(x.sigScheme), Box(RsaKeyParmsValue(x.parms))])
  }

  predicate KeyParmsOk(x: KeyParms) {
    x.encScheme < 0x1_0000 && x.sigScheme < 0x1_0000 && RsaKeyParmsOk(x.parms)
  }

  function KeyParmsBytes(x: KeyParms): Bytes {
    Flat([Octets(4, 1), Octets(2, x.encScheme), Octets(2, x.sigScheme), Four(RsaKeyParmsBytes(x.parms))])
  }

  lemma KeyParmsLaid(x: KeyParms, selector: nat)
    ensures Laid(S.KeyParms(), selector, KeyParmsValue(x), KeyParmsOk(x), KeyParmsBytes(x))
  {
    hide Laid, Octets, Flat, Pow256, S.Tpm4bParms12, RsaKeyParmsValue, RsaKeyParmsOk, RsaKeyParmsBytes, Four;
    Widths();
    var f, items := S.KeyParms(), KeyParmsValue(x).items;
    var oks := [true, x.encScheme < 0x1_0000, x.sigScheme < 0x1_0000, RsaKeyParmsOk(x.parms)];
    var parts := [Octets(4, 1), Octets(2, x.encScheme), Octets(2, x.sigScheme), Four(RsaKeyParmsBytes(x.parms))];
    ScalarLaid(4, Any, 0, 1);
    ScalarLaid(2, Any, 0, x.encScheme);
    ScalarLaid(2, Any, 0, x.sigScheme);
    ParmsLaid(x.parms, 1);
    Record4(f, selector, items, oks, parts);
  }

  lemma KeyParmsOf(v: Value, selector: nat) returns (x: KeyParms)
    requires Fits(S.KeyParms(), selector, v)
    ensures v == KeyParmsValue(x)
  {
    hide Fits, S.Tpm4bParms12, RsaKeyParmsValue;
    var f := S.KeyParms();
    FieldsOf(f, selector, v);
    var items := v.items;
    assert FieldFits(f, items, 0) && FieldFits(f, items, 1) && FieldFits(f, items, 2);
    assert FieldFits(f, items, 3);
    ScalarOf(items[0], 4, Any, 0);
    ScalarOf(items[1], 2, Any, 0);
    ScalarOf(items[2], 2, Any, 0);
    var parms := ParmsOf(items[3], items[0].n);
    x := KeyParms(items[1].n, items[2].n, parms);
    assert items == [items[0], items[1], items[2], items[3]];
  }

  /** Another algorithm is refused behind the length of its parameters. */
  lemma UnknownAlgorithm(algorithmID: nat, encScheme: nat, sigScheme: nat, n: nat, s: Bytes)
    requires algorithmID < 0x1_0000_0000 && algorithmID != 1 && encScheme < 0x1_0000 && sigScheme < 0x1_0000
    requires 0 < n < 0x1_0000_0000
    ensures Parse(S.KeyParms(), 0,
                  Flat([Octets(4, algorithmID), Octets(2, encScheme), Octets(2, sigScheme)]) + (Octets(4, n) + s))
            == Err(SELECTOR, s)
  {
    BoxSelector(algorithmID, n, s);
    hide Laid, Parse, S.Tpm4bParms12, Octets, Flat, Pow256;
    Widths();
    var f, items := S.KeyParms(), [Num(algorithmID), Num(encScheme), Num(sigScheme)];
    var oks, parts := [true, true, true], [Octets(4, algorithmID), Octets(2, encScheme), Octets(2, sigScheme)];
    ScalarLaid(4, Any, 0, algorithmID);
    ScalarLaid(2, Any, 0, encScheme);
    ScalarLaid(2, Any, 0, sigScheme);
    assert FieldLaid(f, items, oks, parts, 0) && FieldLaid(f, items, oks, parts, 1);
    assert FieldLaid(f, items, oks, parts, 2);
    Stops(f, 0, items, oks, parts, Octets(4, n) + s);
  }

  lemma BoxSelector(algorithmID: nat, n: nat, s: Bytes)
    requires algorithmID != 1 && 0 < n < 0x1_0000_0000
    ensures Parse(S.Tpm4bParms12(), algorithmID, Octets(4, n) + s) == Err(SELECTOR, s)
  {
    hide S.RsaKeyParms, Octets;
    Widths();
    NumberComplete(4, n, s);
  }

  // TPM_PCR_INFO_LONG

  datatype PcrInfoLong = PcrInfoLong(tag: nat, localityAtCreation: nat, localityAtRelease: nat,
    creationPCRSelection: Bytes, releasePCRSelection: Bytes, digestAtCreation: Bytes, digestAtRelease: Bytes)

  function PcrInfoLongValue(x: PcrInfoLong): Value {
    Many([Num(x.tag), Num(x.localityAtCreation), Num(x.localityAtRelease), Blob(x.creationPCRSelection),
          Blob(x.releasePCRSelection), Blob(x.digestAtCreation), Blob(x.digestAtRelease)])
  }

  predicate PcrInfoLongOk(x: PcrInfoLong) {
    && x.tag < 0x1_0000
    && x.localityAtCreation < 0x100
    && x.localityAtRelease < 0x100
    && |x.creationPCRSelection| <= S.PCR_SELECT12_MAX
    && |x.releasePCRSelection| <= S.PCR_SELECT12_MAX
    && |x.digestAtCreation| == 20
    && |x.digestAtRelease| == 20
  }

  function PcrInfoLongBytes(x: PcrInfoLong): Bytes {
    Flat([Octets(2, x.tag), Octets(1, x.localityAtCreation), Octets(1, x.localityAtRelease),
          Two(x.creationPCRSelection), Two(x.releasePCRSelection), x.digestAtCreation, x.digestAtRelease])
  }

  lemma PcrInfoLongLaid(x: PcrInfoLong, selector: nat)
    ensures Laid(S.PcrInfoLong(), selector, PcrInfoLongValue(x), PcrInfoLongOk(x), PcrInfoLongBytes(x))
  {
    hide Laid, Octets, Flat, Pow256, Two;
    Widths();
    var f, items := S.PcrInfoLong(), PcrInfoLongValue(x).items;
    var oks := [x.tag < 0x1_0000, x.localityAtCreation < 0x100, x.localityAtRelease < 0x100,
               |x.creationPCRSelection| <= S.PCR_SELECT12_MAX, |x.releasePCRSelection| <= S.PCR_SELECT12_MAX,
               |x.digestAtCreation| == 20, |x.digestAtRelease| == 20];
    var parts := [Octets(2, x.tag), Octets(1, x.localityAtCreation), Octets(1, x.localityAtRelease),
                 Two(x.creationPCRSelection), Two(x.releasePCRSelection), x.digestAtCreation, x.digestAtRelease];
    ScalarLaid(2, Any, 0, x.tag);
    ScalarLaid(1, Any, 0, x.localityAtCreation);
    ScalarLaid(1, Any, 0, x.localityAtRelease);
    TwoLaid(S.PCR_SELECT12_MAX, 0, x.creationPCRSelection);
    TwoLaid(S.PCR_SELECT12_MAX, 0, x.releasePCRSelection);
    FixedLaid(20, 0, x.digestAtCreation);
    FixedLaid(20, 0, x.digestAtRelease);
    Record7(f, selector, items, oks, parts);
  }

  lemma PcrInfoLongOf(v: Value, selector: nat) returns (x: PcrInfoLong)
    requires Fits(S.PcrInfoLong(), selector, v)
    ensures v == PcrInfoLongValue(x)
  {
    hide Fits;
    var f := S.PcrInfoLong();
    FieldsOf(f, selector, v);
    var items := v.items;
    assert FieldFits(f, items, 0) && FieldFits(f, items, 1) && FieldFits(f, items, 2);
    assert FieldFits(f, items, 3) && FieldFits(f, items, 4) && FieldFits(f, items, 5);
    assert FieldFits(f, items, 6);
    ScalarOf(items[0], 2, Any, 0);
    ScalarOf(items[1], 1, Any, 0);
    ScalarOf(items[2], 1, Any, 0);
    SizedOf(items[3], 2, S.PCR_SELECT12_MAX, SIZE, 0);
    SizedOf(items[4], 2, S.PCR_SELECT12_MAX, SIZE, 0);
    FixedOf(items[5], 20, 0);
    FixedOf(items[6], 20, 0);
    x := PcrInfoLong(items[0].n, items[1].n, items[2].n, items[3].bytes, items[4].bytes, items[5].bytes,
         items[6].bytes);
    assert items == [items[0], items[1], items[2], items[3], items[4], items[5], items[6]];
  }

  lemma PcrInfoLongLength(x: PcrInfoLong)
    requires PcrInfoLongOk(x)
    ensures 0 < |PcrInfoLongBytes(x)| < 0x1_0000_0000
  {
    var parts := [Octets(2, x.tag), Octets(1, x.localityAtCreation), Octets(1, x.localityAtRelease),
                  Two(x.creationPCRSelection), Two(x.releasePCRSelection), x.digestAtCreation, x.digestAtRelease];
    FlatBound(parts, 0x2_0000);
  }

  /** The structure behind its length. */
  lemma PcrInfoLaid(x: PcrInfoLong, selector: nat)
    ensures Laid(S.Tpm4bPcrInfoLong(), selector, Box(PcrInfoLongValue(x)), PcrInfoLongOk(x),
                 Four(PcrInfoLongBytes(x)))
  {
    hide Laid, S.PcrInfoLong, PcrInfoLongValue, PcrInfoLongOk, PcrInfoLongBytes, Four;
    PcrInfoLongLaid(x, selector);
    if PcrInfoLongOk(x) {
      PcrInfoLongLength(x);
    }
    FourBoxLaid(S.Tpm4bPcrInfoLong(), selector, PcrInfoLongValue(x), PcrInfoLongOk(x), PcrInfoLongBytes(x));
  }

  lemma PcrInfoOf(v: Value) returns (x: PcrInfoLong)
    requires Fits(S.Tpm4bPcrInfoLong(), 0, v)
    ensures v == Box(PcrInfoLongValue(x))
  {
    hide Fits, S.PcrInfoLong, PcrInfoLongValue;
    BoxContent(S.Tpm4bPcrInfoLong(), S.PcrInfoLong(), v);
    x := PcrInfoLongOf(v.content, 0);
  }

  // TPM_KEY12

  datatype Key12 = Key12(tag: nat, fill: nat, keyUsage: nat, keyFlags: nat, authDataUsage: nat,
    algorithmParms: KeyParms, pcrInfo: PcrInfoLong, pubKey: Bytes, encData: Bytes)

  function Key12Value(x: Key12): Value {
    Many([Num(x.tag), Num(x.fill), Num(x.keyUsage), Num(x.keyFlags), Num(x.authDataUsage),
          KeyParmsValue(x.algorithmParms), Box(PcrInfoLongValue(x.pcrInfo)), Blob(x.pubKey), Blob(x.encData)])
  }

  predicate Key12Ok(x: Key12) {
    && x.tag < 0x1_0000
    && x.fill < 0x1_0000
    && x.keyUsage < 0x1_0000
    && x.keyFlags < 0x1_0000_0000
    && x.authDataUsage < 0x100
    && KeyParmsOk(x.algorithmParms)
    && PcrInfoLongOk(x.pcrInfo)
    && |x.pubKey| <= S.STORE_PUBKEY12_MAX
    && |x.encData| <= S.STORE_PUBKEY12_MAX
  }

  function Key12Parts(x: Key12): (parts: seq<Bytes>)
    ensures |parts| == 9
  {
    [Octets(2, x.tag), Octets(2, x.fill), Octets(2, x.keyUsage), Octets(4, x.keyFlags), Octets(1, x.authDataUsage),
     KeyParmsBytes(x.algorithmParms), Four(PcrInfoLongBytes(x.pcrInfo)), Four(x.pubKey), Four(x.encData)]
  }

  function Key12Bytes(x: Key12): Bytes {
    Flat(Key12Parts(x))
  }

  function Key12Oks(x: Key12): (oks: seq<bool>)
    ensures |oks| == 9
  {
    [x.tag < 0x1_0000, x.fill < 0x1_0000, x.keyUsage < 0x1_0000, x.keyFlags < 0x1_0000_0000, x.authDataUsage < 0x100,
     KeyParmsOk(x.algorithmParms), PcrInfoLongOk(x.pcrInfo), |x.pubKey| <= S.STORE_PUBKEY12_MAX,
     |x.encData| <= S.STORE_PUBKEY12_MAX]
  }

  lemma Key12Head(x: Key12)
    ensures var f, items, oks, parts := S.Key12(), Key12Value(x).items, Key12Oks(x), Key12Parts(x);
            && f.Record? && |items| == |f.fields| == 9 && FieldLaid(f, items, oks, parts, 0)
            && FieldLaid(f, items, oks, parts, 1) && FieldLaid(f, items, oks, parts, 2)
            && FieldLaid(f, items, oks, parts, 3) && FieldLaid(f, items, oks, parts, 4)
  {
    hide Laid, Octets, Pow256, Four, S.KeyParms, S.Tpm4bPcrInfoLong, S.StorePubkey;
    hide KeyParmsValue, KeyParmsOk, KeyParmsBytes, PcrInfoLongValue, PcrInfoLongOk, PcrInfoLongBytes;
    Widths();
    ScalarLaid(2, Any, 0, x.tag);
    ScalarLaid(2, Any, 0, x.fill);
    ScalarLaid(2, Any, 0, x.keyUsage);
    ScalarLaid(4, Any, 0, x.keyFlags);
    ScalarLaid(1, Any, 0, x.authDataUsage);
  }

  lemma Key12Tail(x: Key12)
    ensures var f, items, oks, parts := S.Key12(), Key12Value(x).items, Key12Oks(x), Key12Parts(x);
            && f.Record? && |items| == |f.fields| == 9 && FieldLaid(f, items, oks, parts, 5)
            && FieldLaid(f, items, oks, parts, 6) && FieldLaid(f, items, oks, parts, 7)
            && FieldLaid(f, items, oks, parts, 8)
  {
    hide Laid, Octets, Four, S.KeyParms, S.Tpm4bPcrInfoLong;
    hide KeyParmsValue, KeyParmsOk, KeyParmsBytes, PcrInfoLongValue, PcrInfoLongOk, PcrInfoLongBytes;
    KeyParmsLaid(x.algorithmParms, 0);
    PcrInfoLaid(x.pcrInfo, 0);
    FourLaid(S.STORE_PUBKEY12_MAX, 0, x.pubKey);
    FourLaid(S.STORE_PUBKEY12_MAX, 0, x.encData);
  }

  lemma Key12Laid(x: Key12, selector: nat)
    ensures Laid(S.Key12(), selector, Key12Value(x), Key12Ok(x), Key12Bytes(x))
  {
    var oks := Key12Oks(x);
    assert Key12Ok(x) == (oks[0] && oks[1] && oks[2] && oks[3] && oks[4] && oks[5] && oks[6] && oks[7] && oks[8]);
    hide Laid, FieldLaid, Flat, S.Key12, Key12Oks, Key12Ok, Key12Parts;
    Key12Head(x);
    Key12Tail(x);
    Record9(S.Key12(), selector, Key12Value(x).items, oks, Key12Parts(x));
  }

  lemma Key12Of(v: Value, selector: nat) returns (x: Key12)
    requires Fits(S.Key12(), selector, v)
    ensures v == Key12Value(x)
  {
    hide Fits, S.KeyParms, KeyParmsValue, S.Tpm4bPcrInfoLong, PcrInfoLongValue;
    var f := S.Key12();
    FieldsOf(f, selector, v);
    var items := v.items;
    assert FieldFits(f, items, 0) && FieldFits(f, items, 1) && FieldFits(f, items, 2);
    assert FieldFits(f, items, 3) && FieldFits(f, items, 4) && FieldFits(f, items, 5);
    assert FieldFits(f, items, 6) && FieldFits(f, items, 7) && FieldFits(f, items, 8);
    ScalarOf(items[0], 2, Any, 0);
    ScalarOf(items[1], 2, Any, 0);
    ScalarOf(items[2], 2, Any, 0);
    ScalarOf(items[3], 4, Any, 0);
    ScalarOf(items[4], 1, Any, 0);
    var algorithmParms := KeyParmsOf(items[5], 0);
    var pcrInfo := PcrInfoOf(items[6]);
    SizedOf(items[7], 4, S.STORE_PUBKEY12_MAX, SIZE, 0);
    SizedOf(items[8], 4, S.STORE_PUBKEY12_MAX, SIZE, 0);
    x := Key12(items[0].n, items[1].n, items[2].n, items[3].n, items[4].n, algorithmParms, pcrInfo, items[7].bytes,
         items[8].bytes);
    assert items == [items[0], items[1], items[2], items[3], items[4], items[5], items[6], items[7], items[8]];
  }

  /** Keys, encrypted data and exponents that are longer than their buffers are refused behind their length. */
  lemma StringTooLong12(b: Bytes)
    requires |b| >= 4
    ensures Number(b[..4]) > S.STORE_PUBKEY12_MAX ==> Parse(S.StorePubkey(), 0, b) == Err(SIZE, b[4..])
    ensures Number(b[..4]) > S.RSA_EXPONENT12_MAX ==>
              Parse(S.RsaKeyParms().fields[2].format, 0, b) == Err(SIZE, b[4..])
  {
    Refusals(S.StorePubkey(), 0, b);
    Refusals(S.RsaKeyParms().fields[2].format, 0, b);
  }

  /** A TPM_KEY12 is read exactly from its bytes. */
  lemma Key12ReadIff(x: Key12, b: Bytes, rest: Bytes)
    ensures Parse(S.Key12(), 0, b) == Ok(Key12Value(x), rest) <==> Key12Ok(x) && b == Key12Bytes(x) + rest
  {
    hide *;
    Key12Laid(x, 0);
    ReadIff(S.Key12(), 0, Key12Value(x), Key12Ok(x), Key12Bytes(x), b, rest);
  }

  /** Nothing else is accepted as a TPM_KEY12. */
  lemma Key12Read(b: Bytes) returns (x: Key12)
    requires Parse(S.Key12(), 0, b).Ok?
    ensures var r := Parse(S.Key12(), 0, b);
            r.v == Key12Value(x) && Key12Ok(x) && b == Key12Bytes(x) + r.rest
  {
    hide *;
    var r := Parse(S.Key12(), 0, b);
    Sound(S.Key12(), 0, b);
    x := Key12Of(r.v, 0);
    Key12ReadIff(x, b, r.rest);
  }
}
