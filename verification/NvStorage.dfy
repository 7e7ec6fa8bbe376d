/** Provisioning a certificate in an NV index and reading it back, in chunks. */
module NvStorage {
  import opened BigEndian
  import opened Wrappers

  type BufferSize = n: nat | 0 < n < 0x1_0000 witness 1

  /** `MAX_NV_BUFFER_SIZE`, the most that one command carries on the host's side. */
  const HOST_BUFFER_MAX: BufferSize

  /** An NV index as the TPM's commands present it. */
  class NvIndex {
    var defined: bool
    var contents: Bytes

    /** The most bytes that the TPM reads or writes in one command. */
    const limit: nat

    constructor (limit: nat)
      ensures !defined && contents == [] && this.limit == limit
    {
      this.limit := limit;
      defined, contents := false, [];
    }

    /** The data size of an index is a 16-bit field. */
    ghost predicate Valid()
      reads this
    {
      |contents| < 0x1_0000
    }

    /** NV_DefineSpace; the TPM may refuse. */
    method Define(size: nat, fill: Byte, accepted: bool) returns (ok: bool)
      requires Valid() && size < 0x1_0000
      modifies this
      ensures Valid() && ok == accepted
      ensures if ok then defined && |contents| == size else defined == old(defined) && contents == old(contents)
    {
      ok := accepted;
      if ok {
        defined, contents := true, seq(size, _ => fill);
      }
    }

    /** NV_Write */
    method Write(offset: nat, bytes: Bytes) returns (ok: bool)
      requires Valid()
      modifies this`contents
      ensures Valid() && |contents| == |old(contents)|
      ensures ok <==> defined && |bytes| <= limit && offset + |bytes| <= |old(contents)|
      ensures contents == if ok then Overwritten(old(contents), offset, bytes) else old(contents)
    {
      ok := defined && |bytes| <= limit && offset + |bytes| <= |contents|;
      if ok {
        contents := Overwritten(contents, offset, bytes);
      }
    }

    /** NV_Read */
    method Read(offset: nat, size: nat) returns (ok: bool, bytes: Bytes)
      requires Valid()
      ensures ok <==> defined && size <= limit && offset + size <= |contents|
      ensures ok ==> bytes == contents[offset..offset + size]
    {
      ok := defined && size <= limit && offset + size <= |contents|;
      bytes := if ok then contents[offset..offset + size] else [];
    }
  }

  function Overwritten(before: Bytes, offset: nat, bytes: Bytes): (r: Bytes)
    requires offset + |bytes| <= |before|
    ensures |r| == |before|
  {
    before[..offset] + bytes + before[offset + |bytes|..]
  }

  /** What TPM2_GetCapability says about the TPM's chunk size. */
  datatype Capability = QueryFailed | NotReported | Reported(value: nat)

  /** `readNvBufferMax` */
  function ReadNvBufferMax(c: Capability): (chunk: Option<nat>)
    ensures chunk.None? <==> c.QueryFailed?
    ensures chunk.Some? ==> chunk.value <= HOST_BUFFER_MAX && (chunk.value == 0 <==> c == Reported(0))
    ensures c.Reported? ==> chunk.value <= c.value && chunk.value in {c.value, HOST_BUFFER_MAX}
    ensures c.NotReported? ==> chunk.value <= 512 && chunk.value in {512, HOST_BUFFER_MAX}
  {
    match c
    case QueryFailed => None
    case NotReported => Some(if 512 > HOST_BUFFER_MAX then HOST_BUFFER_MAX else 512)
    case Reported(value) => Some(if value > HOST_BUFFER_MAX then HOST_BUFFER_MAX else value)
  }

  /** Assignment to a 16-bit variable. */
  function Low16(n: nat): (r: nat)
    ensures r < 0x1_0000 && (n < 0x1_0000 ==> r == n)
  {
    n % 0x1_0000
  }

  function Min(a: nat, b: nat): nat {
    if a < b then a else b
  }

  /** The TPM takes the chunks in which `n` bytes are sent: the first one is the largest. */
  predicate Takes(limit: nat, c: Capability, n: nat) {
    ReadNvBufferMax(c).Some? && Min(ReadNvBufferMax(c).value, n) <= limit
  }

  lemma NoChunks(limit: nat, c: Capability, n: nat)
    requires ReadNvBufferMax(c).None?
    ensures !Takes(limit, c, n)
  {
  }

  /** `defineEKCertIndex`; `failed` says that reading the public area fails for a reason other than a missing index. */
  method DefineEkCertIndex(tpm: NvIndex, certLength: nat, failed: bool, fill: Byte, accepted: bool) returns (ok: bool)
    requires tpm.Valid() && certLength < 0x1_0000_0000
    modifies tpm
    ensures tpm.Valid()
    ensures ok <==> old(HasIndex(tpm, certLength, failed, accepted))
    ensures old(tpm.defined) || !ok ==> tpm.defined == old(tpm.defined) && tpm.contents == old(tpm.contents)
    ensures !old(tpm.defined) && ok ==>
              tpm.defined && |tpm.contents| == if certLength < 1000 then 1000 else Low16(certLength)
  {
    if failed {
      return false;
    }
    if tpm.defined {
      return |tpm.contents| >= certLength;
    }
    var dataSize;
    if certLength < 1000 {
      dataSize := 1000;
    } else {
      dataSize := Low16(certLength);
    }
    ok := tpm.Define(dataSize, fill, accepted);
  }

  /**
    `storeEkCertificate`.  It succeeds exactly for certificates that fit the index in chunks that the
    TPM takes, and whatever happens the index holds a part of the certificate from its start, followed
    by what was there before.  See `EndsIff` for the precondition.
  */
  method StoreEkCertificate(tpm: NvIndex, c: Capability, certificate: Bytes) returns (ok: bool)
    requires tpm.Valid() && |certificate| < 0x1_0000_0000
    requires c == Reported(0) ==> certificate == [] || !tpm.defined
    modifies tpm`contents
    ensures tpm.Valid() && |tpm.contents| == |old(tpm.contents)|
    ensures ok <==> tpm.defined && |certificate| <= |old(tpm.contents)| && Takes(tpm.limit, c, |certificate|)
    ensures ok ==> tpm.contents == Stored(certificate, |certificate|, old(tpm.contents))
    ensures exists n: nat | n <= |certificate| && n <= |old(tpm.contents)| ::
              tpm.contents == Stored(certificate, n, old(tpm.contents))
    ensures ReadNvBufferMax(c).Some? ==>
              exists k: nat :: EndsAt(old(Transfer(tpm, c, |certificate|)), k, ok)
  {
    hide Stored, Overwritten, Takes, After, Round, Low16, ReadNvBufferMax, EndsAt;
    var nvBufferMax := ReadNvBufferMax(c);
    ghost var before := tpm.contents;
    StoreChunk(certificate, 0, 0, before);
    if nvBufferMax.None? {
      NoChunks(tpm.limit, c, |certificate|);
      return false;
    }
    var bytesWritten: nat, done := 0, false;
    ok := true;
    ghost var job, k := Transfer(tpm, c, |certificate|), 0;
    Starts(job);
    while ok && !done
      invariant After(job, k) == Loop(ok, done, bytesWritten)
      invariant tpm.Valid() && |tpm.contents| == |before|
      invariant bytesWritten <= |certificate| && bytesWritten <= |before|
      invariant tpm.contents == Stored(certificate, bytesWritten, before)
      decreases ok, !done, |certificate| - bytesWritten
    {
      NextRound(job, k);
      k := k + 1;
      var writeBytes;
      if |certificate| - bytesWritten < nvBufferMax.value {
        writeBytes := Low16(|certificate| - bytesWritten);
      } else {
        writeBytes := Low16(nvBufferMax.value);
      }
      assert writeBytes == Due(job, bytesWritten);
      var chunk := certificate[bytesWritten..bytesWritten + writeBytes];
      ok := tpm.Write(bytesWritten, chunk);
      if ok {
        StoreChunk(certificate, bytesWritten, writeBytes, before);
        bytesWritten := Low16(bytesWritten + writeBytes);
        if bytesWritten == |certificate| {
          done := true;
        }
      }
    }
    Outcome(job, c, k);
  }

  /** The first `n` bytes of the certificate over the former contents. */
  function Stored(certificate: Bytes, n: nat, before: Bytes): (r: Bytes)
    requires n <= |certificate| && n <= |before|
    ensures |r| == |before|
  {
    certificate[..n] + before[n..]
  }

  lemma StoreChunk(certificate: Bytes, offset: nat, n: nat, before: Bytes)
    requires offset + n <= |certificate| && offset + n <= |before|
    ensures Stored(certificate, 0, before) == before
    ensures Overwritten(Stored(certificate, offset, before), offset, certificate[offset..offset + n])
            == Stored(certificate, offset + n, before)
  {
  }

  // When the loops end

  /** What the two loops depend on: the index, the length of the data and the chunk size. */
  datatype Job = Job(defined: bool, limit: nat, available: nat, length: nat, chunk: nat)

  ghost function Transfer(tpm: NvIndex, c: Capability, length: nat): Job
    requires ReadNvBufferMax(c).Some?
    reads tpm
  {
    Job(tpm.defined, tpm.limit, |tpm.contents|, length, ReadNvBufferMax(c).value)
  }

  /** The loops' variables: `rc == 0`, `done` and the 16-bit number of bytes moved. */
  datatype Loop = Loop(ok: bool, done: bool, moved: nat)

  function Due(j: Job, moved: nat): nat
    requires moved <= j.length
  {
    if j.length - moved < j.chunk then j.length - moved else j.chunk
  }

  /** One round of either loop. */
  function Round(j: Job, s: Loop): Loop
    requires s.moved <= j.length
  {
    var n := Due(j, s.moved);
    if j.defined && n <= j.limit && s.moved + n <= j.available then
      var moved := Low16(s.moved + n);
      Loop(true, moved == j.length, moved)
    else Loop(false, s.done, s.moved)
  }

  /** The loops' variables after at most `k` rounds. */
  function After(j: Job, k: nat): (s: Loop)
    requires j.available < 0x1_0000
    ensures s.moved <= j.length && s.moved <= j.available
  {
    if k == 0 then Loop(true, false, 0)
    else
      var s := After(j, k - 1);
      if s.ok && !s.done then Round(j, s) else s
  }

  /** The loop has ended after `k` rounds, without or with an error. */
  ghost predicate EndsAt(j: Job, k: nat, ok: bool) {
    j.available < 0x1_0000 && After(j, k).ok == ok && (ok ==> After(j, k).done)
  }

  lemma Starts(j: Job)
    requires j.available < 0x1_0000
    ensures After(j, 0) == Loop(true, false, 0)
  {
  }

  /** The transfer succeeds exactly if the data is there, or fits, and the TPM takes its chunks. */
  lemma Outcome(j: Job, c: Capability, k: nat)
    requires j.available < 0x1_0000 && ReadNvBufferMax(c) == Some(j.chunk)
    requires !After(j, k).ok || After(j, k).done
    ensures EndsAt(j, k, After(j, k).ok)
    ensures After(j, k).ok <==> j.defined && j.length <= j.available && Takes(j.limit, c, j.length)
    ensures After(j, k).ok ==> After(j, k).moved == j.length
  {
    Midway(j, k);
  }

  /** The first chunk is the largest. */
  lemma {:induction false} Midway(j: Job, k: nat)
    requires j.available < 0x1_0000
    ensures var s, taken := After(j, k), j.defined && Min(j.chunk, j.length) <= j.limit;
            && (s.ok && (s.done || s.moved > 0) ==> taken) && (s.done ==> s.ok && s.moved == j.length)
            && (!s.ok ==> !taken || j.length > j.available)
  {
    if k > 0 {
      Midway(j, k - 1);
      hide Round;
      if After(j, k - 1).ok && !After(j, k - 1).done {
        NextRound(j, k - 1);
      }
    }
  }

  lemma NextRound(j: Job, k: nat)
    requires j.available < 0x1_0000 && After(j, k).ok && !After(j, k).done
    ensures var s, n := After(j, k), Due(j, After(j, k).moved);
            After(j, k + 1)
            == if j.defined && n <= j.limit && s.moved + n <= j.available
               then Loop(true, s.moved + n == j.length, s.moved + n)
               else Loop(false, false, s.moved)
  {
  }

  /** The loops end exactly if the chunk size is positive, there is no data or there is no index. */
  lemma EndsIff(j: Job)
    requires j.available < 0x1_0000
    ensures (exists k: nat, ok: bool :: EndsAt(j, k, ok)) <==> j.chunk > 0 || j.length == 0 || !j.defined
  {
    if j.chunk > 0 {
      Advances(j, j.available + 1);
      assert EndsAt(j, j.available + 1, After(j, j.available + 1).ok);
    } else if j.length == 0 || !j.defined {
      Starts(j);
      NextRound(j, 0);
      assert EndsAt(j, 1, After(j, 1).ok);
    } else {
      forall k: nat, ok: bool
        ensures !EndsAt(j, k, ok)
      {
        Stalls(j, k);
      }
    }
  }

  lemma RoundAdvances(j: Job, s: Loop)
    requires j.available < 0x1_0000 && j.chunk > 0 && s.moved <= j.length && s.ok && !s.done
    ensures var r := Round(j, s); !r.ok || r.done || r.moved > s.moved
  {
  }

  lemma {:induction false} Advances(j: Job, k: nat)
    requires j.available < 0x1_0000 && j.chunk > 0
    ensures EndsAt(j, k, After(j, k).ok) || After(j, k).moved >= k
  {
    if k > 0 {
      Advances(j, k - 1);
      hide Round, Due;
      var s := After(j, k - 1);
      if s.ok && !s.done {
        RoundAdvances(j, s);
      }
    }
  }

  lemma {:induction false} Stalls(j: Job, k: nat)
    requires j.available < 0x1_0000 && j.chunk == 0 && j.length > 0 && j.defined
    ensures After(j, k) == Loop(true, false, 0)
  {
    if k > 0 {
      Stalls(j, k - 1);
    }
  }

  /** `getIndexData` */
  method GetIndexData(tpm: NvIndex, c: Capability, readDataSize: nat) returns (ok: bool, read: Bytes)
    requires tpm.Valid() && readDataSize < 0x1_0000
    requires c == Reported(0) ==> readDataSize == 0 || !tpm.defined
    ensures ok <==> tpm.defined && 0 < readDataSize <= |tpm.contents| && Takes(tpm.limit, c, readDataSize)
    ensures ok ==> read == tpm.contents[..readDataSize]
    ensures ReadNvBufferMax(c).Some? && readDataSize > 0 ==>
              exists k: nat :: EndsAt(Transfer(tpm, c, readDataSize), k, ok)
  {
    hide Takes, After, Round, Low16, ReadNvBufferMax, EndsAt;
    var nvBufferMax := ReadNvBufferMax(c);
    if nvBufferMax.None? {
      NoChunks(tpm.limit, c, readDataSize);
      return false, [];
    }
    if readDataSize == 0 {
      return false, [];
    }
    var readBuffer := new Byte[readDataSize](_ => 0);
    var bytesRead: nat, done := 0, false;
    ok := true;
    ghost var job, k := Transfer(tpm, c, readDataSize), 0;
    Starts(job);
    while ok && !done
      invariant After(job, k) == Loop(ok, done, bytesRead)
      invariant bytesRead <= readDataSize && bytesRead <= |tpm.contents|
      invariant readBuffer[..bytesRead] == tpm.contents[..bytesRead]
      decreases ok, !done, readDataSize - bytesRead
    {
      NextRound(job, k);
      k := k + 1;
      var size := if readDataSize - bytesRead < nvBufferMax.value then readDataSize - bytesRead else nvBufferMax.value;
      var bytes;
      ok, bytes := tpm.Read(bytesRead, size);
      if ok {
        CopyInto(readBuffer, bytesRead, bytes);
        Joined(tpm.contents, bytesRead, size);
        bytesRead := Low16(bytesRead + |bytes|);
        if bytesRead == readDataSize {
          done := true;
        }
      }
    }
    assert Transfer(tpm, c, readDataSize) == job;
    Outcome(job, c, k);
    read := readBuffer[..];
  }

  /** `memcpy` */
  method CopyInto(a: array<Byte>, offset: nat, bytes: Bytes)
    requires offset + |bytes| <= a.Length
    modifies a
    ensures a[..offset + |bytes|] == old(a[..offset]) + bytes
    ensures a[offset + |bytes|..] == old(a[offset + |bytes|..])
  {
    forall i | 0 <= i < |bytes| {
      a[offset + i] := bytes[i];
    }
  }

  lemma Joined(s: Bytes, k: nat, n: nat)
    requires k + n <= |s|
    ensures s[..k] + s[k..k + n] == s[..k + n]
  {
  }

  /** `getIndexContents`; `failed` says that reading the public area fails although the index is there. */
  method GetIndexContents(tpm: NvIndex, failed: bool, c: Capability) returns (ok: bool, read: Bytes)
    requires tpm.Valid()
    requires c == Reported(0) ==> failed || !tpm.defined || tpm.contents == []
    ensures ok <==> !failed && tpm.defined && tpm.contents != [] && Takes(tpm.limit, c, |tpm.contents|)
    ensures ok ==> read == tpm.contents
  {
    if failed || !tpm.defined {
      return false, [];
    }
    ok, read := GetIndexData(tpm, c, |tpm.contents|);
  }

  /** There is an index for `n` bytes, or the TPM accepts a new one. */
  predicate HasIndex(tpm: NvIndex, n: nat, failed: bool, accepted: bool)
    reads tpm
  {
    !failed && if tpm.defined then n <= |tpm.contents| else accepted
  }

  /**
    Provisioning, then reading with another chunk size.  Provisioning succeeds exactly if the index
    holds the certificate or can be defined for it, which is at most 65535 bytes long, in chunks that
    the TPM takes; what is read back then starts with the certificate.
  */
  method ProvisionAndRead(tpm: NvIndex, certificate: Bytes, failed: bool, fill: Byte, accepted: bool,
                          writing: Capability, reading: Capability)
    returns (stored: bool, found: bool, read: Bytes)
    requires tpm.Valid() && |certificate| < 0x1_0000_0000
    requires writing == Reported(0) ==> certificate == [] || !HasIndex(tpm, |certificate|, failed, accepted)
    requires reading == Reported(0) ==>
               || (tpm.defined && tpm.contents == []) || |certificate| >= 0x1_0000
               || !HasIndex(tpm, |certificate|, failed, accepted) || !Takes(tpm.limit, writing, |certificate|)
    modifies tpm
    ensures stored <==>
              && |certificate| < 0x1_0000 && Takes(tpm.limit, writing, |certificate|)
              && old(HasIndex(tpm, |certificate|, failed, accepted))
    ensures found <==> stored && tpm.contents != [] && Takes(tpm.limit, reading, |tpm.contents|)
    ensures found ==> certificate <= read == tpm.contents
    ensures stored && !old(tpm.defined) ==> |tpm.contents| == if |certificate| < 1000 then 1000 else |certificate|
  {
    stored := DefineEkCertIndex(tpm, |certificate|, failed, fill, accepted);
    found, read := false, [];
    if stored {
      stored := StoreEkCertificate(tpm, writing, certificate);
    }
    if stored {
      found, read := GetIndexContents(tpm, false, reading);
    }
  }
}
