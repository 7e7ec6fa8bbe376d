/**
  NV public areas, creation data and attestation data as C structures, with their fields
  by name and their bytes written out.  Every number stands for itself.
*/
module AttestLayout {
  import opened BigEndian
  import opened Bitwise
  import opened WireFormat
  import opened Layout
  import S = TpmStructures

  // TPMS_NV_PUBLIC

  datatype NvPublic = NvPublic(nvIndex: nat, nameAlg: nat, attributes: nat, authPolicy: Bytes, dataSize: nat)

  function NvPublicValue(x: NvPublic): Value {
    Many([Num(x.nvIndex), Num(x.nameAlg), Num(x.attributes), Blob(x.authPolicy), Num(x.dataSize)])
  }

  predicate NvPublicOk(x: NvPublic) {
    && 0x0100_0000 <= x.nvIndex <= 0x01FF_FFFF
    && x.nameAlg < 0x1_0000
    && x.attributes < 0x1_0000_0000 && And(x.attributes, S.NV_RESERVED) == 0
    && |x.authPolicy| <= S.DIGEST_MAX
    && x.dataSize < 0x1_0000
  }

  function NvPublicBytes(x: NvPublic): Bytes {
    Flat([Octets(4, x.nvIndex), Octets(2, x.nameAlg), Octets(4, x.attributes), Two(x.authPolicy),
          Octets(2, x.dataSize)])
  }

  lemma NvPublicLaid(x: NvPublic, selector: nat)
    ensures Laid(S.NvPublic(), selector, NvPublicValue(x), NvPublicOk(x), NvPublicBytes(x))
  {
    hide Laid, Octets, Flat, Pow256, S.Tpm2b, Two;
    Widths();
    var f, items := S.NvPublic(), NvPublicValue(x).items;
    var oks := [0x0100_0000 <= x.nvIndex <= 0x01FF_FFFF, x.nameAlg < 0x1_0000,
               x.attributes < 0x1_0000_0000 && And(x.attributes, S.NV_RESERVED) == 0, |x.authPolicy| <= S.DIGEST_MAX,
               x.dataSize < 0x1_0000];
    var parts := [Octets(4, x.nvIndex), Octets(2, x.nameAlg), Octets(4, x.attributes), Two(x.authPolicy),
                 Octets(2, x.dataSize)];
    ScalarLaid(4, Between(S.NV_INDEX_FIRST, S.NV_INDEX_LAST), 0, x.nvIndex);
    ScalarLaid(2, Any, 0, x.nameAlg);
    ScalarLaid(4, Unreserved(S.NV_RESERVED), 0, x.attributes);
    TwoLaid(S.DIGEST_MAX, 0, x.authPolicy);
    ScalarLaid(2, Any, 0, x.dataSize);
    Record5(f, selector, items, oks, parts);
  }

  lemma NvPublicOf(v: Value, selector: nat) returns (x: NvPublic)
    requires Fits(S.NvPublic(), selector, v)
    ensures v == NvPublicValue(x)
  {
    hide Fits;
    var f := S.NvPublic();
    FieldsOf(f, selector, v);
    var items := v.items;
    assert FieldFits(f, items, 0) && FieldFits(f, items, 1) && FieldFits(f, items, 2);
    assert FieldFits(f, items, 3) && FieldFits(f, items, 4);
    ScalarOf(items[0], 4, Between(S.NV_INDEX_FIRST, S.NV_INDEX_LAST), 0);
    ScalarOf(items[1], 2, Any, 0);
    ScalarOf(items[2], 4, Unreserved(S.NV_RESERVED), 0);
    SizedOf(items[3], 2, S.DIGEST_MAX, SIZE, 0);
    ScalarOf(items[4], 2, Any, 0);
    x := NvPublic(items[0].n, items[1].n, items[2].n, items[3].bytes, items[4].n);
    assert items == [items[0], items[1], items[2], items[3], items[4]];
  }

  predicate SizedNvPublicOk(x: NvPublic) {
    NvPublicOk(x) && |NvPublicBytes(x)| < 0x1_0000
  }

  lemma SizedNvPublicLaid(x: NvPublic)
    ensures Laid(S.Tpm2bNvPublic(), 0, Box(NvPublicValue(x)), SizedNvPublicOk(x), Two(NvPublicBytes(x)))
  {
    NvPublicLaid(x, 0);
    Widths();
    assert |NvPublicBytes(x)| >= 4;
    hide S.NvPublic, NvPublicValue, NvPublicOk, NvPublicBytes;
    BoxLaid(S.Tpm2bNvPublic(), 0, NvPublicValue(x), NvPublicOk(x), NvPublicBytes(x));
  }

  /** A TPM2B_NV_PUBLIC is read exactly from its bytes. */
  lemma NvPublicReadIff(x: NvPublic, b: Bytes, rest: Bytes)
    ensures Parse(S.Tpm2bNvPublic(), 0, b) == Ok(Box(NvPublicValue(x)), rest) <==>
            SizedNvPublicOk(x) && b == Two(NvPublicBytes(x)) + rest
  {
    hide *;
    SizedNvPublicLaid(x);
    ReadIff(S.Tpm2bNvPublic(), 0, Box(NvPublicValue(x)), SizedNvPublicOk(x), Two(NvPublicBytes(x)), b, rest);
  }

  /** Nothing else is accepted as a TPM2B_NV_PUBLIC. */
  lemma NvPublicRead(b: Bytes) returns (x: NvPublic)
    requires Parse(S.Tpm2bNvPublic(), 0, b).Ok?
    ensures var r := Parse(S.Tpm2bNvPublic(), 0, b);
            r.v == Box(NvPublicValue(x)) && SizedNvPublicOk(x) && b == Two(NvPublicBytes(x)) + r.rest
  {
    hide Fits, Parse, Encode, S.NvPublic, NvPublicValue, SizedNvPublicOk, NvPublicBytes, Two;
    var r := Parse(S.Tpm2bNvPublic(), 0, b);
    Sound(S.Tpm2bNvPublic(), 0, b);
    BoxContent(S.Tpm2bNvPublic(), S.NvPublic(), r.v);
    x := NvPublicOf(r.v.content, 0);
    NvPublicReadIff(x, b, r.rest);
  }

  /** An index outside the NV range is refused behind the index. */
  lemma NvIndexRange(b: Bytes)
    requires |b| >= 4 && !(0x0100_0000 <= Number(b[..4]) <= 0x01FF_FFFF)
    ensures Parse(S.NvPublic(), 0, b) == Err(VALUE, b[4..])
  {
    hide Parse, Number, S.Tpm2b;
    TestedScalar(4, Between(S.NV_INDEX_FIRST, S.NV_INDEX_LAST), 0, b);
    FirstStops(S.NvPublic(), 0, b);
  }

  /** Reserved attribute bits are refused behind the attributes. */
  lemma NvReservedBits(nvIndex: nat, nameAlg: nat, attributes: nat, s: Bytes)
    requires 0x0100_0000 <= nvIndex <= 0x01FF_FFFF && nameAlg < 0x1_0000 && attributes < 0x1_0000_0000
    requires And(attributes, S.NV_RESERVED) != 0
    ensures Parse(S.NvPublic(), 0, Flat([Octets(4, nvIndex), Octets(2, nameAlg)]) + (Octets(4, attributes) + s))
            == Err(RESERVED_BITS, s)
  {
    hide Laid, Parse, And, Octets, Flat, Pow256, S.Tpm2b;
    Widths();
    var f, items := S.NvPublic(), [Num(nvIndex), Num(nameAlg)];
    var oks, parts := [true, true], [Octets(4, nvIndex), Octets(2, nameAlg)];
    ScalarLaid(4, Between(S.NV_INDEX_FIRST, S.NV_INDEX_LAST), 0, nvIndex);
    ScalarLaid(2, Any, 0, nameAlg);
    assert FieldLaid(f, items, oks, parts, 0) && FieldLaid(f, items, oks, parts, 1);
    TestedNumber(4, Unreserved(S.NV_RESERVED), 0, attributes, s);
    Stops(f, 0, items, oks, parts, Octets(4, attributes) + s);
  }

  // TPML_PCR_SELECTION

  datatype Selection = Selection(hash: nat, pcrSelect: Bytes)

  function SelectionValue(x: Selection): Value {
    Many([Num(x.hash), Blob(x.pcrSelect)])
  }

  predicate SelectionOk(x: Selection) {
    x.hash < 0x1_0000 && |x.pcrSelect| <= S.PCR_SELECT_MAX && |x.pcrSelect| < 0x100
  }

  function SelectionBytes(x: Selection): Bytes {
    Flat([Octets(2, x.hash), Octets(1, |x.pcrSelect|) + x.pcrSelect])
  }

  lemma SelectionLaid(x: Selection, selector: nat)
    ensures Laid(S.PcrSelection(), selector, SelectionValue(x), SelectionOk(x), SelectionBytes(x))
  {
    hide Laid, Octets, Flat, Pow256;
    Widths();
    var f, items := S.PcrSelection(), SelectionValue(x).items;
    var oks := [x.hash < 0x1_0000, |x.pcrSelect| <= S.PCR_SELECT_MAX && |x.pcrSelect| < 0x100];
    var parts := [Octets(2, x.hash), Octets(1, |x.pcrSelect|) + x.pcrSelect];
    ScalarLaid(2, Any, 0, x.hash);
    SizedLaid(1, S.PCR_SELECT_MAX, VALUE, 0, x.pcrSelect);
    Record2(f, selector, items, oks, parts);
  }

  lemma SelectionOf(v: Value, selector: nat) returns (x: Selection)
    requires Fits(S.PcrSelection(), selector, v)
    ensures v == SelectionValue(x)
  {
    hide Fits;
    var f := S.PcrSelection();
    FieldsOf(f, selector, v);
    var items := v.items;
    assert FieldFits(f, items, 0) && FieldFits(f, items, 1);
    ScalarOf(items[0], 2, Any, 0);
    SizedOf(items[1], 1, S.PCR_SELECT_MAX, VALUE, 0);
    x := Selection(items[0].n, items[1].bytes);
    assert items == [items[0], items[1]];
  }

  function SelectionValues(xs: seq<Selection>): (vs: seq<Value>)
    ensures |vs| == |xs|
  {
    if xs == [] then [] else [SelectionValue(xs[0])] + SelectionValues(xs[1..])
  }

  function SelectionsValue(xs: seq<Selection>): Value {
    Many(SelectionValues(xs))
  }

  predicate SelectionsOk(xs: seq<Selection>) {
    |xs| <= S.HASH_COUNT && |xs| < 0x1_0000_0000 && forall i :: 0 <= i < |xs| ==> SelectionOk(xs[i])
  }

  function SelectionBytesOf(xs: seq<Selection>): Bytes {
    if xs == [] then [] else SelectionBytes(xs[0]) + SelectionBytesOf(xs[1..])
  }

  function SelectionsBytes(xs: seq<Selection>): Bytes {
    Octets(4, |xs|) + SelectionBytesOf(xs)
  }

  lemma {:induction false} SelectionAt(xs: seq<Selection>, i: nat)
    requires i < |xs|
    ensures SelectionValues(xs)[i] == SelectionValue(xs[i])
  {
    if i > 0 {
      SelectionAt(xs[1..], i - 1);
    }
  }

  lemma {:induction false} ItemsLaid(xs: seq<Selection>)
    requires forall i :: 0 <= i < |xs| ==> SelectionOk(xs[i])
    ensures forall i :: 0 <= i < |xs| ==> Fits(S.PcrSelection(), 0, SelectionValues(xs)[i])
    ensures EncodeItems(S.PcrSelections(), SelectionValues(xs)) == SelectionBytesOf(xs)
  {
    hide Fits, Encode, S.PcrSelection, SelectionValue, SelectionOk, SelectionBytes;
    var vs := SelectionValues(xs);
    forall i | 0 <= i < |xs|
      ensures Fits(S.PcrSelection(), 0, vs[i])
    {
      SelectionAt(xs, i);
      SelectionLaid(xs[i], 0);
    }
    if xs != [] {
      SelectionLaid(xs[0], 0);
      ItemsLaid(xs[1..]);
      assert vs[1..] == SelectionValues(xs[1..]);
    }
  }

  lemma SelectionsLaid(xs: seq<Selection>, selector: nat)
    ensures Laid(S.PcrSelections(), selector, SelectionsValue(xs), SelectionsOk(xs), SelectionsBytes(xs))
  {
    hide S.PcrSelection, SelectionValue, SelectionOk, SelectionBytes, SelectionValues;
    Widths();
    if SelectionsOk(xs) {
      ItemsLaid(xs);
    } else if Fits(S.PcrSelections(), selector, SelectionsValue(xs)) {
      forall i | 0 <= i < |xs|
        ensures SelectionOk(xs[i])
      {
        SelectionAt(xs, i);
        SelectionLaid(xs[i], 0);
      }
      assert false;
    }
  }

  lemma SelectionsOf(v: Value, selector: nat) returns (xs: seq<Selection>)
    requires Fits(S.PcrSelections(), selector, v)
    ensures v == SelectionsValue(xs)
  {
    xs := ItemsOf(v.items);
  }

  lemma {:induction false} ItemsOf(vs: seq<Value>) returns (xs: seq<Selection>)
    requires forall i :: 0 <= i < |vs| ==> Fits(S.PcrSelection(), 0, vs[i])
    ensures SelectionValues(xs) == vs
  {
    hide Fits, S.PcrSelection, SelectionValue;
    if vs == [] {
      xs := [];
    } else {
      var first := SelectionOf(vs[0], 0);
      var rest := ItemsOf(vs[1..]);
      xs := [first] + rest;
      assert xs[1..] == rest && vs == [vs[0]] + vs[1..];
    }
  }

  /** More selections than there are hash algorithms are refused behind their count. */
  lemma TooManySelections(b: Bytes)
    requires |b| >= 4 && Number(b[..4]) > S.HASH_COUNT
    ensures Parse(S.PcrSelections(), 0, b) == Err(SIZE, b[4..])
  {
    hide Parse, S.PcrSelection;
    Refusals(S.PcrSelections(), 0, b);
  }

  /** A selection that is too long is refused behind its length, with the code of a bad value. */
  lemma SelectionTooLong(hash: nat, n: nat, s: Bytes)
    requires hash < 0x1_0000 && S.PCR_SELECT_MAX < n < 0x100
    ensures Parse(S.PcrSelection(), 0, Flat([Octets(2, hash)]) + (Octets(1, n) + s)) == Err(VALUE, s)
  {
    hide Laid, Parse, Octets, Flat, Pow256, Number;
    Widths();
    var f, items, oks, parts := S.PcrSelection(), [Num(hash)], [true], [Octets(2, hash)];
    ScalarLaid(2, Any, 0, hash);
    assert FieldLaid(f, items, oks, parts, 0);
    LengthRefused(1, S.PCR_SELECT_MAX, VALUE, n, s);
    Stops(f, 0, items, oks, parts, Octets(1, n) + s);
  }

  // TPMS_CREATION_DATA

  datatype CreationData = CreationData(pcrSelect: seq<Selection>, pcrDigest: Bytes, locality: nat, parentNameAlg: nat,
    parentName: Bytes, parentQualifiedName: Bytes, outsideInfo: Bytes)

  function CreationDataValue(x: CreationData): Value {
    Many([SelectionsValue(x.pcrSelect), Blob(x.pcrDigest), Num(x.locality), Num(x.parentNameAlg), Blob(x.parentName),
          Blob(x.parentQualifiedName), Blob(x.outsideInfo)])
  }

  predicate CreationDataOk(x: CreationData) {
    && SelectionsOk(x.pcrSelect)
    && |x.pcrDigest| <= S.DIGEST_MAX
    && x.locality < 0x100
    && x.parentNameAlg < 0x1_0000
    && |x.parentName| <= S.NAME_MAX
    && |x.parentQualifiedName| <= S.NAME_MAX
    && |x.outsideInfo| <= S.DATA_MAX
  }

  function CreationDataBytes(x: CreationData): Bytes {
    Flat([SelectionsBytes(x.pcrSelect), Two(x.pcrDigest), Octets(1, x.locality), Octets(2, x.parentNameAlg),
          Two(x.parentName), Two(x.parentQualifiedName), Two(x.outsideInfo)])
  }

  lemma CreationDataLaid(x: CreationData, selector: nat)
    ensures Laid(S.CreationData(), selector, CreationDataValue(x), CreationDataOk(x), CreationDataBytes(x))
  {
    hide Laid, Octets, Flat, Pow256, S.PcrSelections, SelectionsValue, SelectionsOk, SelectionsBytes, S.Tpm2b, Two;
    Widths();
    var f, items := S.CreationData(), CreationDataValue(x).items;
    var oks := [SelectionsOk(x.pcrSelect), |x.pcrDigest| <= S.DIGEST_MAX, x.locality < 0x100,
               x.parentNameAlg < 0x1_0000, |x.parentName| <= S.NAME_MAX, |x.parentQualifiedName| <= S.NAME_MAX,
               |x.outsideInfo| <= S.DATA_MAX];
    var parts := [SelectionsBytes(x.pcrSelect), Two(x.pcrDigest), Octets(1, x.locality), Octets(2, x.parentNameAlg),
                 Two(x.parentName), Two(x.parentQualifiedName), Two(x.outsideInfo)];
    SelectionsLaid(x.pcrSelect, 0);
    TwoLaid(S.DIGEST_MAX, 0, x.pcrDigest);
    ScalarLaid(1, Any, 0, x.locality);
    ScalarLaid(2, Any, 0, x.parentNameAlg);
    TwoLaid(S.NAME_MAX, 0, x.parentName);
    TwoLaid(S.NAME_MAX, 0, x.parentQualifiedName);
    TwoLaid(S.DATA_MAX, 0, x.outsideInfo);
    Record7(f, selector, items, oks, parts);
  }

  lemma CreationDataOf(v: Value, selector: nat) returns (x: CreationData)
    requires Fits(S.CreationData(), selector, v)
    ensures v == CreationDataValue(x)
  {
    hide Fits, S.PcrSelections, SelectionsValue;
    var f := S.CreationData();
    FieldsOf(f, selector, v);
    var items := v.items;
    assert FieldFits(f, items, 0) && FieldFits(f, items, 1) && FieldFits(f, items, 2);
    assert FieldFits(f, items, 3) && FieldFits(f, items, 4) && FieldFits(f, items, 5);
    assert FieldFits(f, items, 6);
    var pcrSelect := SelectionsOf(items[0], 0);
    SizedOf(items[1], 2, S.DIGEST_MAX, SIZE, 0);
    ScalarOf(items[2], 1, Any, 0);
    ScalarOf(items[3], 2, Any, 0);
    SizedOf(items[4], 2, S.NAME_MAX, SIZE, 0);
    SizedOf(items[5], 2, S.NAME_MAX, SIZE, 0);
    SizedOf(items[6], 2, S.DATA_MAX, SIZE, 0);
    x := CreationData(pcrSelect, items[1].bytes, items[2].n, items[3].n, items[4].bytes, items[5].bytes,
         items[6].bytes);
    assert items == [items[0], items[1], items[2], items[3], items[4], items[5], items[6]];
  }

  predicate SizedCreationDataOk(x: CreationData) {
    CreationDataOk(x) && |CreationDataBytes(x)| < 0x1_0000
  }

  lemma SizedCreationDataLaid(x: CreationData)
    ensures Laid(S.Tpm2bCreationData(), 0, Box(CreationDataValue(x)), SizedCreationDataOk(x), Two(CreationDataBytes(x)))
  {
    CreationDataLaid(x, 0);
    Widths();
    assert |CreationDataBytes(x)| >= 4;
    hide S.CreationData, CreationDataValue, CreationDataOk, CreationDataBytes;
    BoxLaid(S.Tpm2bCreationData(), 0, CreationDataValue(x), CreationDataOk(x), CreationDataBytes(x));
  }

  /** A TPM2B_CREATION_DATA is read exactly from its bytes. */
  lemma CreationDataReadIff(x: CreationData, b: Bytes, rest: Bytes)
    ensures Parse(S.Tpm2bCreationData(), 0, b) == Ok(Box(CreationDataValue(x)), rest) <==>
            SizedCreationDataOk(x) && b == Two(CreationDataBytes(x)) + rest
  {
    hide *;
    SizedCreationDataLaid(x);
    ReadIff(S.Tpm2bCreationData(), 0, Box(CreationDataValue(x)), SizedCreationDataOk(x), Two(CreationDataBytes(x)),
            b, rest);
  }

  /** Nothing else is accepted as a TPM2B_CREATION_DATA. */
  lemma CreationDataRead(b: Bytes) returns (x: CreationData)
    requires Parse(S.Tpm2bCreationData(), 0, b).Ok?
    ensures var r := Parse(S.Tpm2bCreationData(), 0, b);
            r.v == Box(CreationDataValue(x)) && SizedCreationDataOk(x) && b == Two(CreationDataBytes(x)) + r.rest
  {
    hide Fits, Parse, Encode, S.CreationData, CreationDataValue, SizedCreationDataOk, CreationDataBytes, Two;
    var r := Parse(S.Tpm2bCreationData(), 0, b);
    Sound(S.Tpm2bCreationData(), 0, b);
    BoxContent(S.Tpm2bCreationData(), S.CreationData(), r.v);
    x := CreationDataOf(r.v.content, 0);
    CreationDataReadIff(x, b, r.rest);
  }

  // The attested structures

  datatype ClockInfo = ClockInfo(clock: nat, resetCount: nat, restartCount: nat, safe: nat)

  function ClockInfoValue(x: ClockInfo): Value {
    Many([Num(x.clock), Num(x.resetCount), Num(x.restartCount), Num(x.safe)])
  }

  predicate ClockInfoOk(x: ClockInfo) {
    && x.clock < 0x1_0000_0000_0000_0000
    && x.resetCount < 0x1_0000_0000
    && x.restartCount < 0x1_0000_0000
    && x.safe < 0x100
  }

  function ClockInfoBytes(x: ClockInfo): Bytes {
    Flat([Octets(8, x.clock), Octets(4, x.resetCount), Octets(4, x.restartCount), Octets(1, x.safe)])
  }

  lemma ClockInfoLaid(x: ClockInfo, selector: nat)
    ensures Laid(S.ClockInfo(), selector, ClockInfoValue(x), ClockInfoOk(x), ClockInfoBytes(x))
  {
    hide Laid, Octets, Flat, Pow256;
    Widths();
    var f, items := S.ClockInfo(), ClockInfoValue(x).items;
    var oks := [x.clock < 0x1_0000_0000_0000_0000, x.resetCount < 0x1_0000_0000, x.restartCount < 0x1_0000_0000,
               x.safe < 0x100];
    var parts := [Octets(8, x.clock), Octets(4, x.resetCount), Octets(4, x.restartCount), Octets(1, x.safe)];
    ScalarLaid(8, Any, 0, x.clock);
    ScalarLaid(4, Any, 0, x.resetCount);
    ScalarLaid(4, Any, 0, x.restartCount);
    ScalarLaid(1, Any, 0, x.safe);
    Record4(f, selector, items, oks, parts);
  }

  lemma ClockInfoOf(v: Value, selector: nat) returns (x: ClockInfo)
    requires Fits(S.ClockInfo(), selector, v)
    ensures v == ClockInfoValue(x)
  {
    hide Fits;
    var f := S.ClockInfo();
    FieldsOf(f, selector, v);
    var items := v.items;
    assert FieldFits(f, items, 0) && FieldFits(f, items, 1) && FieldFits(f, items, 2);
    assert FieldFits(f, items, 3);
    ScalarOf(items[0], 8, Any, 0);
    ScalarOf(items[1], 4, Any, 0);
    ScalarOf(items[2], 4, Any, 0);
    ScalarOf(items[3], 1, Any, 0);
    x := ClockInfo(items[0].n, items[1].n, items[2].n, items[3].n);
    assert items == [items[0], items[1], items[2], items[3]];
  }

  datatype TimeInfo = TimeInfo(time: nat, clockInfo: ClockInfo)

  function TimeInfoValue(x: TimeInfo): Value {
    Many([Num(x.time), ClockInfoValue(x.clockInfo)])
  }

  predicate TimeInfoOk(x: TimeInfo) {
    x.time < 0x1_0000_0000_0000_0000 && ClockInfoOk(x.clockInfo)
  }

  function TimeInfoBytes(x: TimeInfo): Bytes {
    Flat([Octets(8, x.time), ClockInfoBytes(x.clockInfo)])
  }

  lemma TimeInfoLaid(x: TimeInfo, selector: nat)
    ensures Laid(S.TimeInfo(), selector, TimeInfoValue(x), TimeInfoOk(x), TimeInfoBytes(x))
  {
    hide Laid, Octets, Flat, Pow256, S.ClockInfo, ClockInfoValue, ClockInfoOk, ClockInfoBytes;
    Widths();
    var f, items := S.TimeInfo(), TimeInfoValue(x).items;
    var oks := [x.time < 0x1_0000_0000_0000_0000, ClockInfoOk(x.clockInfo)];
    var parts := [Octets(8, x.time), ClockInfoBytes(x.clockInfo)];
    ScalarLaid(8, Any, 0, x.time);
    ClockInfoLaid(x.clockInfo, 0);
    Record2(f, selector, items, oks, parts);
  }

  lemma TimeInfoOf(v: Value, selector: nat) returns (x: TimeInfo)
    requires Fits(S.TimeInfo(), selector, v)
    ensures v == TimeInfoValue(x)
  {
    hide Fits, S.ClockInfo, ClockInfoValue;
    var f := S.TimeInfo();
    FieldsOf(f, selector, v);
    var items := v.items;
    assert FieldFits(f, items, 0) && FieldFits(f, items, 1);
    ScalarOf(items[0], 8, Any, 0);
    var clockInfo := ClockInfoOf(items[1], 0);
    x := TimeInfo(items[0].n, clockInfo);
    assert items == [items[0], items[1]];
  }

  datatype TimeAttestInfo = TimeAttestInfo(time: TimeInfo, firmwareVersion: nat)

  function TimeAttestInfoValue(x: TimeAttestInfo): Value {
    Many([TimeInfoValue(x.time), Num(x.firmwareVersion)])
  }

  predicate TimeAttestInfoOk(x: TimeAttestInfo) {
    TimeInfoOk(x.time) && x.firmwareVersion < 0x1_0000_0000_0000_0000
  }

  function TimeAttestInfoBytes(x: TimeAttestInfo): Bytes {
    Flat([TimeInfoBytes(x.time), Octets(8, x.firmwareVersion)])
  }

  lemma TimeAttestInfoLaid(x: TimeAttestInfo, selector: nat)
    ensures Laid(S.TimeAttestInfo(), selector, TimeAttestInfoValue(x), TimeAttestInfoOk(x), TimeAttestInfoBytes(x))
  {
    hide Laid, Octets, Flat, Pow256, S.TimeInfo, TimeInfoValue, TimeInfoOk, TimeInfoBytes;
    Widths();
    var f, items := S.TimeAttestInfo(), TimeAttestInfoValue(x).items;
    var oks := [TimeInfoOk(x.time), x.firmwareVersion < 0x1_0000_0000_0000_0000];
    var parts := [TimeInfoBytes(x.time), Octets(8, x.firmwareVersion)];
    TimeInfoLaid(x.time, 0);
    ScalarLaid(8, Any, 0, x.firmwareVersion);
    Record2(f, selector, items, oks, parts);
  }

  lemma TimeAttestInfoOf(v: Value, selector: nat) returns (x: TimeAttestInfo)
    requires Fits(S.TimeAttestInfo(), selector, v)
    ensures v == TimeAttestInfoValue(x)
  {
    hide Fits, S.TimeInfo, TimeInfoValue;
    var f := S.TimeAttestInfo();
    FieldsOf(f, selector, v);
    var items := v.items;
    assert FieldFits(f, items, 0) && FieldFits(f, items, 1);
    var time := TimeInfoOf(items[0], 0);
    ScalarOf(items[1], 8, Any, 0);
    x := TimeAttestInfo(time, items[1].n);
    assert items == [items[0], items[1]];
  }

  datatype CertifyInfo = CertifyInfo(name: Bytes, qualifiedName: Bytes)

  function CertifyInfoValue(x: CertifyInfo): Value {
    Many([Blob(x.name), Blob(x.qualifiedName)])
  }

  predicate CertifyInfoOk(x: CertifyInfo) {
    |x.name| <= S.NAME_MAX && |x.qualifiedName| <= S.NAME_MAX
  }

  function CertifyInfoBytes(x: CertifyInfo): Bytes {
    Two(x.name) + Two(x.qualifiedName)
  }

  lemma CertifyInfoLaid(x: CertifyInfo, selector: nat)
    ensures Laid(S.CertifyInfo(), selector, CertifyInfoValue(x), CertifyInfoOk(x), CertifyInfoBytes(x))
  {
    TwoPairLaid(S.NAME_MAX, S.NAME_MAX, selector, x.name, x.qualifiedName);
  }

  lemma CertifyInfoOf(v: Value, selector: nat) returns (x: CertifyInfo)
    requires Fits(S.CertifyInfo(), selector, v)
    ensures v == CertifyInfoValue(x)
  {
    TwoPairOf(S.NAME_MAX, S.NAME_MAX, selector, v);
    x := CertifyInfo(v.items[0].bytes, v.items[1].bytes);
  }

  datatype QuoteInfo = QuoteInfo(pcrSelect: seq<Selection>, pcrDigest: Bytes)

  function QuoteInfoValue(x: QuoteInfo): Value {
    Many([SelectionsValue(x.pcrSelect), Blob(x.pcrDigest)])
  }

  predicate QuoteInfoOk(x: QuoteInfo) {
    SelectionsOk(x.pcrSelect) && |x.pcrDigest| <= S.DIGEST_MAX
  }

  function QuoteInfoBytes(x: QuoteInfo): Bytes {
    Flat([SelectionsBytes(x.pcrSelect), Two(x.pcrDigest)])
  }

  lemma QuoteInfoLaid(x: QuoteInfo, selector: nat)
    ensures Laid(S.QuoteInfo(), selector, QuoteInfoValue(x), QuoteInfoOk(x), QuoteInfoBytes(x))
  {
    hide Laid, Octets, Flat, Pow256, S.PcrSelections, SelectionsValue, SelectionsOk, SelectionsBytes, S.Tpm2b, Two;
    Widths();
    var f, items := S.QuoteInfo(), QuoteInfoValue(x).items;
    var oks := [SelectionsOk(x.pcrSelect), |x.pcrDigest| <= S.DIGEST_MAX];
    var parts := [SelectionsBytes(x.pcrSelect), Two(x.pcrDigest)];
    SelectionsLaid(x.pcrSelect, 0);
    TwoLaid(S.DIGEST_MAX, 0, x.pcrDigest);
    Record2(f, selector, items, oks, parts);
  }

  lemma QuoteInfoOf(v: Value, selector: nat) returns (x: QuoteInfo)
    requires Fits(S.QuoteInfo(), selector, v)
    ensures v == QuoteInfoValue(x)
  {
    hide Fits, S.PcrSelections, SelectionsValue;
    var f := S.QuoteInfo();
    FieldsOf(f, selector, v);
    var items := v.items;
    assert FieldFits(f, items, 0) && FieldFits(f, items, 1);
    var pcrSelect := SelectionsOf(items[0], 0);
    SizedOf(items[1], 2, S.DIGEST_MAX, SIZE, 0);
    x := QuoteInfo(pcrSelect, items[1].bytes);
    assert items == [items[0], items[1]];
  }

  datatype CommandAuditInfo = CommandAuditInfo(auditCounter: nat, digestAlg: nat, auditDigest: Bytes,
    commandDigest: Bytes)

  function CommandAuditInfoValue(x: CommandAuditInfo): Value {
    Many([Num(x.auditCounter), Num(x.digestAlg), Blob(x.auditDigest), Blob(x.commandDigest)])
  }

  predicate CommandAuditInfoOk(x: CommandAuditInfo) {
    && x.auditCounter < 0x1_0000_0000_0000_0000
    && x.digestAlg < 0x1_0000
    && |x.auditDigest| <= S.DIGEST_MAX
    && |x.commandDigest| <= S.DIGEST_MAX
  }

  function CommandAuditInfoBytes(x: CommandAuditInfo): Bytes {
    Flat([Octets(8, x.auditCounter), Octets(2, x.digestAlg), Two(x.auditDigest), Two(x.commandDigest)])
  }

  lemma CommandAuditInfoLaid(x: CommandAuditInfo, selector: nat)
    ensures Laid(S.CommandAuditInfo(), selector, CommandAuditInfoValue(x), CommandAuditInfoOk(x),
                 CommandAuditInfoBytes(x))
  {
    hide Laid, Octets, Flat, Pow256, S.Tpm2b, Two;
    Widths();
    var f, items := S.CommandAuditInfo(), CommandAuditInfoValue(x).items;
    var oks := [x.auditCounter < 0x1_0000_0000_0000_0000, x.digestAlg < 0x1_0000, |x.auditDigest| <= S.DIGEST_MAX,
               |x.commandDigest| <= S.DIGEST_MAX];
    var parts := [Octets(8, x.auditCounter), Octets(2, x.digestAlg), Two(x.auditDigest), Two(x.commandDigest)];
    ScalarLaid(8, Any, 0, x.auditCounter);
    ScalarLaid(2, Any, 0, x.digestAlg);
    TwoLaid(S.DIGEST_MAX, 0, x.auditDigest);
    TwoLaid(S.DIGEST_MAX, 0, x.commandDigest);
    Record4(f, selector, items, oks, parts);
  }

  lemma CommandAuditInfoOf(v: Value, selector: nat) returns (x: CommandAuditInfo)
    requires Fits(S.CommandAuditInfo(), selector, v)
    ensures v == CommandAuditInfoValue(x)
  {
    hide Fits;
    var f := S.CommandAuditInfo();
    FieldsOf(f, selector, v);
    var items := v.items;
    assert FieldFits(f, items, 0) && FieldFits(f, items, 1) && FieldFits(f, items, 2);
    assert FieldFits(f, items, 3);
    ScalarOf(items[0], 8, Any, 0);
    ScalarOf(items[1], 2, Any, 0);
    SizedOf(items[2], 2, S.DIGEST_MAX, SIZE, 0);
    SizedOf(items[3], 2, S.DIGEST_MAX, SIZE, 0);
    x := CommandAuditInfo(items[0].n, items[1].n, items[2].bytes, items[3].bytes);
    assert items == [items[0], items[1], items[2], items[3]];
  }

  datatype SessionAuditInfo = SessionAuditInfo(exclusiveSession: nat, sessionDigest: Bytes)

  function SessionAuditInfoValue(x: SessionAuditInfo): Value {
    Many([Num(x.exclusiveSession), Blob(x.sessionDigest)])
  }

  predicate SessionAuditInfoOk(x: SessionAuditInfo) {
    x.exclusiveSession < 0x100 && |x.sessionDigest| <= S.DIGEST_MAX
  }

  function SessionAuditInfoBytes(x: SessionAuditInfo): Bytes {
    Flat([Octets(1, x.exclusiveSession), Two(x.sessionDigest)])
  }

  lemma SessionAuditInfoLaid(x: SessionAuditInfo, selector: nat)
    ensures Laid(S.SessionAuditInfo(), selector, SessionAuditInfoValue(x), SessionAuditInfoOk(x),
                 SessionAuditInfoBytes(x))
  {
    hide Laid, Octets, Flat, Pow256, S.Tpm2b, Two;
    Widths();
    var f, items := S.SessionAuditInfo(), SessionAuditInfoValue(x).items;
    var oks := [x.exclusiveSession < 0x100, |x.sessionDigest| <= S.DIGEST_MAX];
    var parts := [Octets(1, x.exclusiveSession), Two(x.sessionDigest)];
    ScalarLaid(1, Any, 0, x.exclusiveSession);
    TwoLaid(S.DIGEST_MAX, 0, x.sessionDigest);
    Record2(f, selector, items, oks, parts);
  }

  lemma SessionAuditInfoOf(v: Value, selector: nat) returns (x: SessionAuditInfo)
    requires Fits(S.SessionAuditInfo(), selector, v)
    ensures v == SessionAuditInfoValue(x)
  {
    hide Fits;
    var f := S.SessionAuditInfo();
    FieldsOf(f, selector, v);
    var items := v.items;
    assert FieldFits(f, items, 0) && FieldFits(f, items, 1);
    ScalarOf(items[0], 1, Any, 0);
    SizedOf(items[1], 2, S.DIGEST_MAX, SIZE, 0);
    x := SessionAuditInfo(items[0].n, items[1].bytes);
    assert items == [items[0], items[1]];
  }

  datatype CreationInfo = CreationInfo(objectName: Bytes, creationHash: Bytes)

  function CreationInfoValue(x: CreationInfo): Value {
    Many([Blob(x.objectName), Blob(x.creationHash)])
  }

  predicate CreationInfoOk(x: CreationInfo) {
    |x.objectName| <= S.NAME_MAX && |x.creationHash| <= S.DIGEST_MAX
  }

  function CreationInfoBytes(x: CreationInfo): Bytes {
    Two(x.objectName) + Two(x.creationHash)
  }

  lemma CreationInfoLaid(x: CreationInfo, selector: nat)
    ensures Laid(S.CreationInfo(), selector, CreationInfoValue(x), CreationInfoOk(x), CreationInfoBytes(x))
  {
    TwoPairLaid(S.NAME_MAX, S.DIGEST_MAX, selector, x.objectName, x.creationHash);
  }

  lemma CreationInfoOf(v: Value, selector: nat) returns (x: CreationInfo)
    requires Fits(S.CreationInfo(), selector, v)
    ensures v == CreationInfoValue(x)
  {
    TwoPairOf(S.NAME_MAX, S.DIGEST_MAX, selector, v);
    x := CreationInfo(v.items[0].bytes, v.items[1].bytes);
  }

  datatype NvCertifyInfo = NvCertifyInfo(indexName: Bytes, offset: nat, nvContents: Bytes)

  function NvCertifyInfoValue(x: NvCertifyInfo): Value {
    Many([Blob(x.indexName), Num(x.offset), Blob(x.nvContents)])
  }

  predicate NvCertifyInfoOk(x: NvCertifyInfo) {
    |x.indexName| <= S.NAME_MAX && x.offset < 0x1_0000 && |x.nvContents| <= S.NV_BUFFER_MAX
  }

  function NvCertifyInfoBytes(x: NvCertifyInfo): Bytes {
    Flat([Two(x.indexName), Octets(2, x.offset), Two(x.nvContents)])
  }

  lemma NvCertifyInfoLaid(x: NvCertifyInfo, selector: nat)
    ensures Laid(S.NvCertifyInfo(), selector, NvCertifyInfoValue(x), NvCertifyInfoOk(x), NvCertifyInfoBytes(x))
  {
    hide Laid, Octets, Flat, Pow256, S.Tpm2b, Two;
    Widths();
    var f, items := S.NvCertifyInfo(), NvCertifyInfoValue(x).items;
    var oks := [|x.indexName| <= S.NAME_MAX, x.offset < 0x1_0000, |x.nvContents| <= S.NV_BUFFER_MAX];
    var parts := [Two(x.indexName), Octets(2, x.offset), Two(x.nvContents)];
    TwoLaid(S.NAME_MAX, 0, x.indexName);
    ScalarLaid(2, Any, 0, x.offset);
    TwoLaid(S.NV_BUFFER_MAX, 0, x.nvContents);
    Record3(f, selector, items, oks, parts);
  }

  lemma NvCertifyInfoOf(v: Value, selector: nat) returns (x: NvCertifyInfo)
    requires Fits(S.NvCertifyInfo(), selector, v)
    ensures v == NvCertifyInfoValue(x)
  {
    hide Fits;
    var f := S.NvCertifyInfo();
    FieldsOf(f, selector, v);
    var items := v.items;
    assert FieldFits(f, items, 0) && FieldFits(f, items, 1) && FieldFits(f, items, 2);
    SizedOf(items[0], 2, S.NAME_MAX, SIZE, 0);
    ScalarOf(items[1], 2, Any, 0);
    SizedOf(items[2], 2, S.NV_BUFFER_MAX, SIZE, 0);
    x := NvCertifyInfo(items[0].bytes, items[1].n, items[2].bytes);
    assert items == [items[0], items[1], items[2]];
  }

  datatype NvDigestCertifyInfo = NvDigestCertifyInfo(indexName: Bytes, nvDigest: Bytes)

  function NvDigestCertifyInfoValue(x: NvDigestCertifyInfo): Value {
    Many([Blob(x.indexName), Blob(x.nvDigest)])
  }

  predicate NvDigestCertifyInfoOk(x: NvDigestCertifyInfo) {
    |x.indexName| <= S.NAME_MAX && |x.nvDigest| <= S.DIGEST_MAX
  }

  function NvDigestCertifyInfoBytes(x: NvDigestCertifyInfo): Bytes {
    Two(x.indexName) + Two(x.nvDigest)
  }

  lemma NvDigestCertifyInfoLaid(x: NvDigestCertifyInfo, selector: nat)
    ensures Laid(S.NvDigestCertifyInfo(), selector, NvDigestCertifyInfoValue(x),
                 NvDigestCertifyInfoOk(x),
                 NvDigestCertifyInfoBytes(x))
  {
    TwoPairLaid(S.NAME_MAX, S.DIGEST_MAX, selector, x.indexName, x.nvDigest);
  }

  lemma NvDigestCertifyInfoOf(v: Value, selector: nat) returns (x: NvDigestCertifyInfo)
    requires Fits(S.NvDigestCertifyInfo(), selector, v)
    ensures v == NvDigestCertifyInfoValue(x)
  {
    TwoPairOf(S.NAME_MAX, S.DIGEST_MAX, selector, v);
    x := NvDigestCertifyInfo(v.items[0].bytes, v.items[1].bytes);
  }

  // TPMU_ATTEST

  datatype Attested =
    | Nv(nv: NvCertifyInfo)
    | CommandAudit(commandAudit: CommandAuditInfo)
    | SessionAudit(sessionAudit: SessionAuditInfo)
    | Certify(certify: CertifyInfo)
    | Quote(quote: QuoteInfo)
    | Time(time: TimeAttestInfo)
    | Creation(creation: CreationInfo)
    | NvDigest(nvDigest: NvDigestCertifyInfo)

  /** The type that goes with the attested data. */
  function AttestedType(x: Attested): nat {
    match x
    case Nv(_) => 0x8014
    case CommandAudit(_) => 0x8015
    case SessionAudit(_) => 0x8016
    case Certify(_) => 0x8017
    case Quote(_) => 0x8018
    case Time(_) => 0x8019
    case Creation(_) => 0x801A
    case NvDigest(_) => 0x801C
  }

  function AttestedValue(x: Attested): Value {
    match x
    case Nv(nv) => NvCertifyInfoValue(nv)
    case CommandAudit(commandAudit) => CommandAuditInfoValue(commandAudit)
    case SessionAudit(sessionAudit) => SessionAuditInfoValue(sessionAudit)
    case Certify(certify) => CertifyInfoValue(certify)
    case Quote(quote) => QuoteInfoValue(quote)
    case Time(time) => TimeAttestInfoValue(time)
    case Creation(creation) => CreationInfoValue(creation)
    case NvDigest(nvDigest) => NvDigestCertifyInfoValue(nvDigest)
  }

  predicate AttestedOk(x: Attested) {
    match x
    case Nv(nv) => NvCertifyInfoOk(nv)
    case CommandAudit(commandAudit) => CommandAuditInfoOk(commandAudit)
    case SessionAudit(sessionAudit) => SessionAuditInfoOk(sessionAudit)
    case Certify(certify) => CertifyInfoOk(certify)
    case Quote(quote) => QuoteInfoOk(quote)
    case Time(time) => TimeAttestInfoOk(time)
    case Creation(creation) => CreationInfoOk(creation)
    case NvDigest(nvDigest) => NvDigestCertifyInfoOk(nvDigest)
  }

  function AttestedBytes(x: Attested): Bytes {
    match x
    case Nv(nv) => NvCertifyInfoBytes(nv)
    case CommandAudit(commandAudit) => CommandAuditInfoBytes(commandAudit)
    case SessionAudit(sessionAudit) => SessionAuditInfoBytes(sessionAudit)
    case Certify(certify) => CertifyInfoBytes(certify)
    case Quote(quote) => QuoteInfoBytes(quote)
    case Time(time) => TimeAttestInfoBytes(time)
    case Creation(creation) => CreationInfoBytes(creation)
    case NvDigest(nvDigest) => NvDigestCertifyInfoBytes(nvDigest)
  }

  lemma AttestedLaid(x: Attested)
    ensures Laid(S.AttestInfo(), AttestedType(x), AttestedValue(x), AttestedOk(x), AttestedBytes(x))
  {
    hide Laid, S.NvCertifyInfo, S.CommandAuditInfo, S.SessionAuditInfo, S.CertifyInfo, S.QuoteInfo, S.TimeAttestInfo,
         S.CreationInfo, S.NvDigestCertifyInfo, NvCertifyInfoValue, NvCertifyInfoOk, NvCertifyInfoBytes,
         CommandAuditInfoValue, CommandAuditInfoOk, CommandAuditInfoBytes, SessionAuditInfoValue, SessionAuditInfoOk,
         SessionAuditInfoBytes, CertifyInfoValue, CertifyInfoOk, CertifyInfoBytes, QuoteInfoValue, QuoteInfoOk,
         QuoteInfoBytes, TimeAttestInfoValue, TimeAttestInfoOk, TimeAttestInfoBytes, CreationInfoValue,
         CreationInfoOk, CreationInfoBytes, NvDigestCertifyInfoValue, NvDigestCertifyInfoOk, NvDigestCertifyInfoBytes;
    var selector := AttestedType(x);
    match x {
      case Nv(nv) => NvCertifyInfoLaid(nv, selector);
      case CommandAudit(commandAudit) => CommandAuditInfoLaid(commandAudit, selector);
      case SessionAudit(sessionAudit) => SessionAuditInfoLaid(sessionAudit, selector);
      case Certify(certify) => CertifyInfoLaid(certify, selector);
      case Quote(quote) => QuoteInfoLaid(quote, selector);
      case Time(time) => TimeAttestInfoLaid(time, selector);
      case Creation(creation) => CreationInfoLaid(creation, selector);
      case NvDigest(nvDigest) => NvDigestCertifyInfoLaid(nvDigest, selector);
    }
    ArmLaid(S.AttestInfo(), selector, AttestedValue(x), AttestedOk(x), AttestedBytes(x));
  }

  /** The types, and the structures that they select. */
  lemma AttestArm(selector: nat)
    ensures selector in S.AttestInfo().arms <==>
            selector in {0x8014, 0x8015, 0x8016, 0x8017, 0x8018, 0x8019, 0x801A, 0x801C}
    ensures selector in S.AttestInfo().arms ==>
              S.AttestInfo().arms[selector]
              == match selector
                 case 0x8014 => S.NvCertifyInfo()
                 case 0x8015 => S.CommandAuditInfo()
                 case 0x8016 => S.SessionAuditInfo()
                 case 0x8017 => S.CertifyInfo()
                 case 0x8018 => S.QuoteInfo()
                 case 0x8019 => S.TimeAttestInfo()
                 case 0x801A => S.CreationInfo()
                 case _ => S.NvDigestCertifyInfo()
  {
    hide S.NvCertifyInfo, S.CommandAuditInfo, S.SessionAuditInfo, S.CertifyInfo, S.QuoteInfo, S.TimeAttestInfo,
         S.CreationInfo, S.NvDigestCertifyInfo;
  }

  lemma AttestedOf(selector: nat, v: Value) returns (x: Attested)
    requires Fits(S.AttestInfo(), selector, v)
    ensures v == AttestedValue(x) && selector == AttestedType(x)
  {
    AtArm(S.AttestInfo(), selector, v);
    AttestArm(selector);
    hide Fits, S.AttestInfo, S.NvCertifyInfo, S.CommandAuditInfo, S.SessionAuditInfo, S.CertifyInfo, S.QuoteInfo,
         S.TimeAttestInfo, S.CreationInfo, S.NvDigestCertifyInfo, NvCertifyInfoValue, CommandAuditInfoValue,
         SessionAuditInfoValue, CertifyInfoValue, QuoteInfoValue, TimeAttestInfoValue, CreationInfoValue,
         NvDigestCertifyInfoValue;
    if selector == 0x8014 {
      var y := NvCertifyInfoOf(v, selector);
      x := Nv(y);
    } else if selector == 0x8015 {
      var y := CommandAuditInfoOf(v, selector);
      x := CommandAudit(y);
    } else if selector == 0x8016 {
      var y := SessionAuditInfoOf(v, selector);
      x := SessionAudit(y);
    } else if selector == 0x8017 {
      var y := CertifyInfoOf(v, selector);
      x := Certify(y);
    } else if selector == 0x8018 {
      var y := QuoteInfoOf(v, selector);
      x := Quote(y);
    } else if selector == 0x8019 {
      var y := TimeAttestInfoOf(v, selector);
      x := Time(y);
    } else if selector == 0x801A {
      var y := CreationInfoOf(v, selector);
      x := Creation(y);
    } else {
      var y := NvDigestCertifyInfoOf(v, selector);
      x := NvDigest(y);
    }
  }

  // TPMS_ATTEST

  /** The magic number and the type are implied. */
  datatype Attest = Attest(qualifiedSigner: Bytes, extraData: Bytes, clockInfo: ClockInfo, firmwareVersion: nat,
                           attested: Attested)

  function AttestValue(x: Attest): Value {
    Many([Num(0xFF54_4347), Num(AttestedType(x.attested)), Blob(x.qualifiedSigner), Blob(x.extraData),
          ClockInfoValue(x.clockInfo), Num(x.firmwareVersion), AttestedValue(x.attested)])
  }

  predicate AttestOk(x: Attest) {
    && |x.qualifiedSigner| <= S.NAME_MAX && |x.extraData| <= S.DATA_MAX && ClockInfoOk(x.clockInfo)
    && x.firmwareVersion < 0x1_0000_0000_0000_0000 && AttestedOk(x.attested)
  }

  function AttestBytes(x: Attest): Bytes {
    Flat([Octets(4, 0xFF54_4347), Octets(2, AttestedType(x.attested)), Two(x.qualifiedSigner), Two(x.extraData),
          ClockInfoBytes(x.clockInfo), Octets(8, x.firmwareVersion), AttestedBytes(x.attested)])
  }

  lemma AttestLaid(x: Attest, selector: nat)
    ensures Laid(S.Attest(), selector, AttestValue(x), AttestOk(x), AttestBytes(x))
  {
    hide Laid, Octets, Flat, Pow256, S.Tpm2b, Two, S.ClockInfo, ClockInfoValue, ClockInfoOk, ClockInfoBytes,
         S.AttestInfo, AttestedValue, AttestedOk, AttestedBytes;
    Widths();
    var f, items := S.Attest(), AttestValue(x).items;
    var oks := [true, true, |x.qualifiedSigner| <= S.NAME_MAX, |x.extraData| <= S.DATA_MAX, ClockInfoOk(x.clockInfo),
               x.firmwareVersion < 0x1_0000_0000_0000_0000, AttestedOk(x.attested)];
    var parts := [Octets(4, 0xFF54_4347), Octets(2, AttestedType(x.attested)), Two(x.qualifiedSigner),
                 Two(x.extraData), ClockInfoBytes(x.clockInfo), Octets(8, x.firmwareVersion),
                 AttestedBytes(x.attested)];
    ScalarLaid(4, Exactly(S.GENERATED_VALUE), 0, 0xFF54_4347);
    ScalarLaid(2, Any, 0, AttestedType(x.attested));
    TwoLaid(S.NAME_MAX, 0, x.qualifiedSigner);
    TwoLaid(S.DATA_MAX, 0, x.extraData);
    ClockInfoLaid(x.clockInfo, 0);
    ScalarLaid(8, Any, 0, x.firmwareVersion);
    AttestedLaid(x.attested);
    Record7(f, selector, items, oks, parts);
  }

  lemma AttestOf(v: Value, selector: nat) returns (x: Attest)
    requires Fits(S.Attest(), selector, v)
    ensures v == AttestValue(x)
  {
    hide Fits, S.ClockInfo, ClockInfoValue, S.AttestInfo, AttestedValue;
    var f := S.Attest();
    FieldsOf(f, selector, v);
    var items := v.items;
    assert FieldFits(f, items, 0) && FieldFits(f, items, 1) && FieldFits(f, items, 2);
    assert FieldFits(f, items, 3) && FieldFits(f, items, 4) && FieldFits(f, items, 5);
    assert FieldFits(f, items, 6);
    ScalarOf(items[0], 4, Exactly(S.GENERATED_VALUE), 0);
    ScalarOf(items[1], 2, Any, 0);
    SizedOf(items[2], 2, S.NAME_MAX, SIZE, 0);
    SizedOf(items[3], 2, S.DATA_MAX, SIZE, 0);
    var clockInfo := ClockInfoOf(items[4], 0);
    ScalarOf(items[5], 8, Any, 0);
    var attested := AttestedOf(items[1].n, items[6]);
    x := Attest(items[2].bytes, items[3].bytes, clockInfo, items[5].n, attested);
    assert items == [items[0], items[1], items[2], items[3], items[4], items[5], items[6]];
  }

  /** A TPMS_ATTEST is read exactly from its bytes. */
  lemma AttestReadIff(x: Attest, b: Bytes, rest: Bytes)
    ensures Parse(S.Attest(), 0, b) == Ok(AttestValue(x), rest) <==> AttestOk(x) && b == AttestBytes(x) + rest
  {
    hide *;
    AttestLaid(x, 0);
    ReadIff(S.Attest(), 0, AttestValue(x), AttestOk(x), AttestBytes(x), b, rest);
  }

  /** Nothing else is accepted as a TPMS_ATTEST. */
  lemma AttestRead(b: Bytes) returns (x: Attest)
    requires Parse(S.Attest(), 0, b).Ok?
    ensures var r := Parse(S.Attest(), 0, b);
            r.v == AttestValue(x) && AttestOk(x) && b == AttestBytes(x) + r.rest
  {
    hide *;
    var r := Parse(S.Attest(), 0, b);
    Sound(S.Attest(), 0, b);
    x := AttestOf(r.v, 0);
    AttestReadIff(x, b, r.rest);
  }

  /** What does not begin with the magic number is refused behind the first word. */
  lemma AttestMagic(b: Bytes)
    ensures |b| >= 4 && Number(b[..4]) != 0xFF54_4347 ==> Parse(S.Attest(), 0, b) == Err(VALUE, b[4..])
    ensures Parse(S.Attest(), 0, b).Ok? ==> |b| >= 4 && Number(b[..4]) == 0xFF54_4347
  {
    hide Parse, Number, S.Tpm2b, S.ClockInfo, S.AttestInfo;
    var f := S.Attest();
    if |b| < 4 {
      ShortScalar(4, Exactly(S.GENERATED_VALUE), 0, b);
      FirstStops(f, 0, b);
    } else if Number(b[..4]) != 0xFF54_4347 {
      TestedScalar(4, Exactly(S.GENERATED_VALUE), 0, b);
      FirstStops(f, 0, b);
    }
  }

  /** An unknown type is refused behind the header. */
  lemma UnknownAttestType(kind: nat, qualifiedSigner: Bytes, extraData: Bytes, clockInfo: ClockInfo,
                          firmwareVersion: nat, s: Bytes)
    requires kind < 0x1_0000 && kind !in {0x8014, 0x8015, 0x8016, 0x8017, 0x8018, 0x8019, 0x801A, 0x801C}
    requires |qualifiedSigner| <= S.NAME_MAX && |extraData| <= S.DATA_MAX && ClockInfoOk(clockInfo)
    requires firmwareVersion < 0x1_0000_0000_0000_0000
    ensures Parse(S.Attest(), 0,
                  Flat([Octets(4, 0xFF54_4347), Octets(2, kind), Two(qualifiedSigner), Two(extraData),
                        ClockInfoBytes(clockInfo), Octets(8, firmwareVersion)]) + s)
            == Err(SELECTOR, s)
  {
    AttestArm(kind);
    hide Laid, Parse, S.AttestInfo, S.ClockInfo, S.Tpm2b, ClockInfoValue, ClockInfoOk, ClockInfoBytes;
    hide Two, Octets, Flat, Pow256;
    Widths();
    var f, items := S.Attest(), [Num(0xFF54_4347), Num(kind), Blob(qualifiedSigner), Blob(extraData),
                                 ClockInfoValue(clockInfo), Num(firmwareVersion)];
    var oks := [true, true, true, true, true, true];
    var parts := [Octets(4, 0xFF54_4347), Octets(2, kind), Two(qualifiedSigner), Two(extraData),
                  ClockInfoBytes(clockInfo), Octets(8, firmwareVersion)];
    ScalarLaid(4, Exactly(S.GENERATED_VALUE), 0, 0xFF54_4347);
    ScalarLaid(2, Any, 0, kind);
    TwoLaid(S.NAME_MAX, 0, qualifiedSigner);
    TwoLaid(S.DATA_MAX, 0, extraData);
    ClockInfoLaid(clockInfo, 0);
    ScalarLaid(8, Any, 0, firmwareVersion);
    assert FieldLaid(f, items, oks, parts, 0) && FieldLaid(f, items, oks, parts, 1);
    assert FieldLaid(f, items, oks, parts, 2) && FieldLaid(f, items, oks, parts, 3);
    assert FieldLaid(f, items, oks, parts, 4) && FieldLaid(f, items, oks, parts, 5);
    AttestIsUnion();
    Refusals(S.AttestInfo(), kind, s);
    Stops(f, 0, items, oks, parts, s);
  }

  lemma AttestIsUnion()
    ensures S.AttestInfo().Union?
  {
  }
}
