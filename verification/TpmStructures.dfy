/**
  The structures of the TPM library, part 2, and of the TPM 1.2 main specification that the
  unmarshaller is modelled for.  Buffer capacities and reserved-bit masks are not fixed here.
*/
module TpmStructures {
  import opened BigEndian
  import opened WireFormat

  type Capacity = n: nat | n < 0x1_0000

  const DIGEST_MAX: Capacity
  const NAME_MAX: Capacity
  const DATA_MAX: Capacity
  const AUTH_MAX: Capacity
  const SENSITIVE_DATA_MAX: Capacity
  const SYM_KEY_MAX: Capacity
  const RSA_PUBLIC_MAX: Capacity
  const RSA_PRIVATE_MAX: Capacity
  const ECC_PARAMETER_MAX: Capacity
  const NV_BUFFER_MAX: Capacity
  const PCR_SELECT_MAX: Capacity
  const PCR_SELECT12_MAX: Capacity
  const RSA_EXPONENT12_MAX: Capacity
  const STORE_PUBKEY12_MAX: Capacity
  const HASH_COUNT: nat
  const OBJECT_RESERVED: nat
  const NV_RESERVED: nat

  const ALG_RSA := 0x0001
  const ALG_HMAC := 0x0005
  const ALG_AES := 0x0006
  const ALG_MGF1 := 0x0007
  const ALG_KEYEDHASH := 0x0008
  const ALG_XOR := 0x000A
  const ALG_NULL := 0x0010
  const ALG_SM4 := 0x0013
  const ALG_RSASSA := 0x0014
  const ALG_RSAES := 0x0015
  const ALG_RSAPSS := 0x0016
  const ALG_OAEP := 0x0017
  const ALG_ECDSA := 0x0018
  const ALG_ECDH := 0x0019
  const ALG_ECDAA := 0x001A
  const ALG_SM2 := 0x001B
  const ALG_ECSCHNORR := 0x001C
  const ALG_ECMQV := 0x001D
  const ALG_KDF1_SP800_56A := 0x0020
  const ALG_KDF2 := 0x0021
  const ALG_KDF1_SP800_108 := 0x0022
  const ALG_ECC := 0x0023
  const ALG_SYMCIPHER := 0x0025
  const ALG_CAMELLIA := 0x0026

  const ST_ATTEST_NV := 0x8014
  const ST_ATTEST_COMMAND_AUDIT := 0x8015
  const ST_ATTEST_SESSION_AUDIT := 0x8016
  const ST_ATTEST_CERTIFY := 0x8017
  const ST_ATTEST_QUOTE := 0x8018
  const ST_ATTEST_TIME := 0x8019
  const ST_ATTEST_CREATION := 0x801A
  const ST_ATTEST_NV_DIGEST := 0x801C

  const GENERATED_VALUE := 0xFF54_4347
  const NV_INDEX_FIRST := 0x0100_0000
  const NV_INDEX_LAST := 0x01FF_FFFF
  const SHA1_DIGEST_SIZE := 20

  function U8(): Format { UInt(1, Any) }
  function U16(): Format { UInt(2, Any) }
  function U32(): Format { UInt(4, Any) }
  function U64(): Format { UInt(8, Any) }
  function Tpm2b(capacity: nat): Format { Sized(2, capacity, SIZE) }
  function Empty(): Format { Record([]) }

  /** A field whose union arm is selected by the record's first field. */
  function ByType(f: Format): Field { Selected(f, 0) }

  // Symmetric algorithms

  function SymKeyBits(): Format {
    Union(map[ALG_AES := U16(), ALG_SM4 := U16(), ALG_CAMELLIA := U16(), ALG_XOR := U16(), ALG_NULL := Empty()])
  }

  function SymMode(): Format {
    Union(map[ALG_AES := U16(), ALG_SM4 := U16(), ALG_CAMELLIA := U16(), ALG_XOR := Empty(), ALG_NULL := Empty()])
  }

  function SymDefObject(): Format {
    Record([Plain(U16()), ByType(SymKeyBits()), ByType(SymMode())])
  }

  // Schemes

  function SchemeEcdaa(): Format { Record([Plain(U16()), Plain(U16())]) }
  function SchemeXor(): Format { Record([Plain(U16()), Plain(U16())]) }

  function SchemeKeyedHash(): Format {
    Union(map[ALG_HMAC := U16(), ALG_XOR := SchemeXor(), ALG_NULL := Empty()])
  }

  function KeyedHashScheme(): Format { Record([Plain(U16()), ByType(SchemeKeyedHash())]) }

  function KdfDetails(): Format {
    Union(map[ALG_MGF1 := U16(), ALG_KDF1_SP800_56A := U16(), ALG_KDF2 := U16(), ALG_KDF1_SP800_108 := U16(),
              ALG_NULL := Empty()])
  }

  function KdfScheme(): Format { Record([Plain(U16()), ByType(KdfDetails())]) }

  function AsymDetails(): Format {
    Union(map[ALG_ECDH := U16(), ALG_ECMQV := U16(), ALG_RSASSA := U16(), ALG_RSAPSS := U16(), ALG_ECDSA := U16(),
              ALG_ECDAA := SchemeEcdaa(), ALG_SM2 := U16(), ALG_ECSCHNORR := U16(), ALG_RSAES := Empty(),
              ALG_OAEP := U16(), ALG_NULL := Empty()])
  }

  function AsymScheme(): Format { Record([Plain(U16()), ByType(AsymDetails())]) }

  // Public area

  function EccPoint(): Format { Record([Plain(Tpm2b(ECC_PARAMETER_MAX)), Plain(Tpm2b(ECC_PARAMETER_MAX))]) }

  function RsaParms(): Format {
    Record([Plain(SymDefObject()), Plain(AsymScheme()), Plain(U16()), Plain(U32())])
  }

  function EccParms(): Format {
    Record([Plain(SymDefObject()), Plain(AsymScheme()), Plain(U16()), Plain(KdfScheme())])
  }

  function PublicParms(): Format {
    Union(map[ALG_KEYEDHASH := KeyedHashScheme(), ALG_SYMCIPHER := SymDefObject(), ALG_RSA := RsaParms(),
              ALG_ECC := EccParms()])
  }

  function PublicId(): Format {
    Union(map[ALG_KEYEDHASH := Tpm2b(DIGEST_MAX), ALG_SYMCIPHER := Tpm2b(DIGEST_MAX), ALG_RSA := Tpm2b(RSA_PUBLIC_MAX),
              ALG_ECC := EccPoint()])
  }

  function Public(): Format {
    Record([Plain(U16()), Plain(U16()), Plain(UInt(4, Unreserved(OBJECT_RESERVED))), Plain(Tpm2b(DIGEST_MAX)),
            ByType(PublicParms()), ByType(PublicId())])
  }

  function Tpm2bPublic(): Format { Boxed(2, Public(), false) }
  function Tpm2bEccPoint(): Format { Boxed(2, EccPoint(), false) }

  // Sensitive area

  function SensitiveCreate(): Format { Record([Plain(Tpm2b(AUTH_MAX)), Plain(Tpm2b(SENSITIVE_DATA_MAX))]) }
  function Tpm2bSensitiveCreate(): Format { Boxed(2, SensitiveCreate(), false) }

  function SensitiveComposite(): Format {
    Union(map[ALG_RSA := Tpm2b(RSA_PRIVATE_MAX), ALG_ECC := Tpm2b(ECC_PARAMETER_MAX),
              ALG_KEYEDHASH := Tpm2b(SENSITIVE_DATA_MAX), ALG_SYMCIPHER := Tpm2b(SYM_KEY_MAX)])
  }

  function Sensitive(): Format {
    Record([Plain(U16()), Plain(Tpm2b(AUTH_MAX)), Plain(Tpm2b(DIGEST_MAX)), ByType(SensitiveComposite())])
  }

  function Tpm2bSensitive(): Format { Boxed(2, Sensitive(), true) }

  // Non-volatile storage

  function NvPublic(): Format {
    Record([Plain(UInt(4, Between(NV_INDEX_FIRST, NV_INDEX_LAST))), Plain(U16()),
            Plain(UInt(4, Unreserved(NV_RESERVED))), Plain(Tpm2b(DIGEST_MAX)), Plain(U16())])
  }

  function Tpm2bNvPublic(): Format { Boxed(2, NvPublic(), false) }

  // Creation data and attestation

  function PcrSelection(): Format { Record([Plain(U16()), Plain(Sized(1, PCR_SELECT_MAX, VALUE))]) }
  function PcrSelections(): Format { List(HASH_COUNT, PcrSelection()) }

  function CreationData(): Format {
    Record([Plain(PcrSelections()), Plain(Tpm2b(DIGEST_MAX)), Plain(U8()), Plain(U16()), Plain(Tpm2b(NAME_MAX)),
            Plain(Tpm2b(NAME_MAX)), Plain(Tpm2b(DATA_MAX))])
  }

  function Tpm2bCreationData(): Format { Boxed(2, CreationData(), false) }

  function ClockInfo(): Format { Record([Plain(U64()), Plain(U32()), Plain(U32()), Plain(U8())]) }
  function TimeInfo(): Format { Record([Plain(U64()), Plain(ClockInfo())]) }
  function TimeAttestInfo(): Format { Record([Plain(TimeInfo()), Plain(U64())]) }
  function CertifyInfo(): Format { Record([Plain(Tpm2b(NAME_MAX)), Plain(Tpm2b(NAME_MAX))]) }
  function QuoteInfo(): Format { Record([Plain(PcrSelections()), Plain(Tpm2b(DIGEST_MAX))]) }

  function CommandAuditInfo(): Format {
    Record([Plain(U64()), Plain(U16()), Plain(Tpm2b(DIGEST_MAX)), Plain(Tpm2b(DIGEST_MAX))])
  }

  function SessionAuditInfo(): Format { Record([Plain(U8()), Plain(Tpm2b(DIGEST_MAX))]) }
  function CreationInfo(): Format { Record([Plain(Tpm2b(NAME_MAX)), Plain(Tpm2b(DIGEST_MAX))]) }
  function NvCertifyInfo(): Format { Record([Plain(Tpm2b(NAME_MAX)), Plain(U16()), Plain(Tpm2b(NV_BUFFER_MAX))]) }
  function NvDigestCertifyInfo(): Format { Record([Plain(Tpm2b(NAME_MAX)), Plain(Tpm2b(DIGEST_MAX))]) }

  function AttestInfo(): Format {
    Union(map[ST_ATTEST_CERTIFY := CertifyInfo(), ST_ATTEST_CREATION := CreationInfo(), ST_ATTEST_QUOTE := QuoteInfo(),
              ST_ATTEST_COMMAND_AUDIT := CommandAuditInfo(), ST_ATTEST_SESSION_AUDIT := SessionAuditInfo(),
              ST_ATTEST_TIME := TimeAttestInfo(), ST_ATTEST_NV := NvCertifyInfo(),
              ST_ATTEST_NV_DIGEST := NvDigestCertifyInfo()])
  }

  function Attest(): Format {
    Record([Plain(UInt(4, Exactly(GENERATED_VALUE))), Plain(U16()), Plain(Tpm2b(NAME_MAX)), Plain(Tpm2b(DATA_MAX)),
            Plain(ClockInfo()), Plain(U64()), Selected(AttestInfo(), 1)])
  }

  // TPM 1.2

  function PcrSelection12(): Format { Sized(2, PCR_SELECT12_MAX, SIZE) }

  function PcrInfoLong(): Format {
    Record([Plain(U16()), Plain(U8()), Plain(U8()), Plain(PcrSelection12()), Plain(PcrSelection12()),
            Plain(Fixed(SHA1_DIGEST_SIZE)), Plain(Fixed(SHA1_DIGEST_SIZE))])
  }

  function Tpm4bPcrInfoLong(): Format { Boxed(4, PcrInfoLong(), false) }
  function RsaKeyParms(): Format { Record([Plain(U32()), Plain(U32()), Plain(Sized(4, RSA_EXPONENT12_MAX, SIZE))]) }
  function Parms12(): Format { Union(map[ALG_RSA := RsaKeyParms()]) }
  function Tpm4bParms12(): Format { Boxed(4, Parms12(), false) }
  function KeyParms(): Format { Record([Plain(U32()), Plain(U16()), Plain(U16()), ByType(Tpm4bParms12())]) }
  function StorePubkey(): Format { Sized(4, STORE_PUBKEY12_MAX, SIZE) }

  function Key12(): Format {
    Record([Plain(U16()), Plain(U16()), Plain(U16()), Plain(U32()), Plain(U8()), Plain(KeyParms()),
            Plain(Tpm4bPcrInfoLong()), Plain(StorePubkey()), Plain(StorePubkey())])
  }
}
