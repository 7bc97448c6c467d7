/** The 64-byte marker that makes one generation log authoritative. */
module CommitMarker {
  import opened Bytes
  import opened Crc32

  const MAGIC: seq<byte> := [0x44, 0x42, 0x4c, 0x47, 0x43, 0x4d, 0x54, 0x00] // "DBLGCMT\0"
  const VERSION: u16 := 2
  const MARKER_LEN: u16 := 64
  const LOG_FORMAT_VERSION: u16 := 1
  const MIN_PREFIX_BYTES: u64 := 16

  datatype CommittedPrefix = CommittedPrefix(bytes: u64, crc32: Word32, recordCount: u64, nextSequence: u64)

  datatype Marker = Marker(generation: u64, logFormatVersion: u16, prefix: CommittedPrefix)

  datatype Error =
    | ZeroGeneration
    | Length
    | Magic
    | Checksum
    | Version
    | HeaderLength
    | GenerationMismatch
    | LogFormat
    | Reserved
    | PrefixTooShort
    | PrefixSequenceOverflow
    | PrefixSequence
    | Flags
    | Reserved2

  datatype Result<+T> = Ok(value: T) | Err(error: Error)

  /** `validate_committed_prefix`; `Ok` carries nothing of interest. */
  function ValidatePrefix(prefix: CommittedPrefix): Result<()> {
    if prefix.bytes < MIN_PREFIX_BYTES then Err(PrefixTooShort)
    else if prefix.recordCount + 1 >= U64_LIMIT then Err(PrefixSequenceOverflow)
    else if prefix.nextSequence != prefix.recordCount + 1 then Err(PrefixSequence)
    else Ok(())
  }

  /** Everything before the stored checksum. */
  function Payload(generation: u64, prefix: CommittedPrefix): (bytes: seq<byte>)
    ensures |bytes| == 60
  {
    MAGIC
    + LittleEndian(VERSION, 2)
    + LittleEndian(MARKER_LEN, 2)
    + LittleEndian(generation, 8)
    + LittleEndian(LOG_FORMAT_VERSION, 2)
    + LittleEndian(0, 2)
    + LittleEndian(prefix.bytes, 8)
    + Stored(prefix.crc32)
    + LittleEndian(0, 4)
    + LittleEndian(prefix.recordCount, 8)
    + LittleEndian(prefix.nextSequence, 8)
    + LittleEndian(0, 4)
  }

  function Encoded(generation: u64, prefix: CommittedPrefix): (bytes: seq<byte>)
    ensures |bytes| == 64
  {
    Payload(generation, prefix) + Stored(Crc32.Checksum(Payload(generation, prefix)))
  }

  predicate Encodable(generation: u64, prefix: CommittedPrefix) {
    generation != 0 && ValidatePrefix(prefix).Ok?
  }

  /** `encode_commit_marker`: validates, then fills a zeroed buffer field by field. */
  method EncodeCommitMarker(generation: u64, prefix: CommittedPrefix) returns (r: Result<seq<byte>>)
    ensures r.Ok? <==> Encodable(generation, prefix)
    ensures r.Ok? ==> r.value == Encoded(generation, prefix)
  {
    hide LittleEndian, Stored, Crc32.Checksum, ValidatePrefix;
    if generation == 0 {
      return Err(ZeroGeneration);
    }
    var valid := ValidatePrefix(prefix);
    if valid.Err? {
      return Err(valid.error);
    }
    var bytes := new byte[64](_ => 0);
    FillFields(bytes, generation, prefix);
    var crc := StreamedChecksum([bytes[..60]]);
    assert Flatten([bytes[..60]]) == bytes[..60];
    CopyInto(bytes, 60, Stored(crc));
    assert bytes[..64] == bytes[..];
    return Ok(bytes[..]);
  }

  /** The fields before the checksum, each copied to its place. */
  method FillFields(bytes: array<byte>, generation: u64, prefix: CommittedPrefix)
    requires bytes.Length == 64
    modifies bytes
    ensures bytes[..60] == Payload(generation, prefix)
  {
    hide LittleEndian, Stored;
    CopyInto(bytes, 0, MAGIC);
    CopyInto(bytes, 8, LittleEndian(VERSION, 2));
    CopyInto(bytes, 10, LittleEndian(MARKER_LEN, 2));
    CopyInto(bytes, 12, LittleEndian(generation, 8));
    CopyInto(bytes, 20, LittleEndian(LOG_FORMAT_VERSION, 2));
    CopyInto(bytes, 22, LittleEndian(0, 2));
    CopyInto(bytes, 24, LittleEndian(prefix.bytes, 8));
    CopyInto(bytes, 32, Stored(prefix.crc32));
    CopyInto(bytes, 36, LittleEndian(0, 4));
    CopyInto(bytes, 40, LittleEndian(prefix.recordCount, 8));
    CopyInto(bytes, 48, LittleEndian(prefix.nextSequence, 8));
    CopyInto(bytes, 56, LittleEndian(0, 4));
  }

  /** `decode_commit_marker`, checks in source order. */
  function Decode(bytes: seq<byte>, filenameGeneration: u64): Result<Marker> {
    if filenameGeneration == 0 then Err(ZeroGeneration)
    else if |bytes| != 64 then Err(Length)
    else if bytes[..8] != MAGIC then Err(Magic)
    else if FromStored(bytes[60..64]) != Crc32.Checksum(bytes[..60]) then Err(Checksum)
    else if U16(bytes[8..10]) != VERSION then Err(Version)
    else if U16(bytes[10..12]) != MARKER_LEN then Err(HeaderLength)
    else
      var generation := U64(bytes[12..20]);
      if generation == 0 || generation != filenameGeneration then Err(GenerationMismatch)
      else if U16(bytes[20..22]) != LOG_FORMAT_VERSION then Err(LogFormat)
      else if U16(bytes[22..24]) != 0 then Err(Reserved)
      else
        var prefix := CommittedPrefix(U64(bytes[24..32]), FromStored(bytes[32..36]),
                                      U64(bytes[40..48]), U64(bytes[48..56]));
        var valid := ValidatePrefix(prefix);
        if valid.Err? then Err(valid.error)
        else if U32(bytes[36..40]) != 0 then Err(Flags)
        else if U32(bytes[56..60]) != 0 then Err(Reserved2)
        else Ok(Marker(generation, U16(bytes[20..22]), prefix))
  }

  /** `bytes` holds the fields of the marker at their fixed offsets. */
  predicate HasFields(bytes: seq<byte>, generation: u64, prefix: CommittedPrefix) {
    && |bytes| == 64
    && bytes[..8] == MAGIC
    && bytes[8..10] == LittleEndian(VERSION, 2)
    && bytes[10..12] == LittleEndian(MARKER_LEN, 2)
    && bytes[12..20] == LittleEndian(generation, 8)
    && bytes[20..22] == LittleEndian(LOG_FORMAT_VERSION, 2)
    && bytes[22..24] == LittleEndian(0, 2)
    && bytes[24..32] == LittleEndian(prefix.bytes, 8)
    && bytes[32..36] == Stored(prefix.crc32)
    && bytes[36..40] == LittleEndian(0, 4)
    && bytes[40..48] == LittleEndian(prefix.recordCount, 8)
    && bytes[48..56] == LittleEndian(prefix.nextSequence, 8)
    && bytes[56..60] == LittleEndian(0, 4)
  }

  lemma Fields(bytes: seq<byte>, f0: seq<byte>, f1: seq<byte>, f2: seq<byte>, f3: seq<byte>, f4: seq<byte>,
               f5: seq<byte>, f6: seq<byte>, f7: seq<byte>, f8: seq<byte>, f9: seq<byte>, f10: seq<byte>,
               f11: seq<byte>, crc: seq<byte>)
    requires |f0| == 8 && |f1| == 2 && |f2| == 2 && |f3| == 8 && |f4| == 2 && |f5| == 2
    requires |f6| == 8 && |f7| == 4 && |f8| == 4 && |f9| == 8 && |f10| == 8 && |f11| == 4
    requires bytes == f0 + f1 + f2 + f3 + f4 + f5 + f6 + f7 + f8 + f9 + f10 + f11 + crc
    ensures bytes[..8] == f0 && bytes[8..10] == f1 && bytes[10..12] == f2 && bytes[12..20] == f3
    ensures bytes[20..22] == f4 && bytes[22..24] == f5 && bytes[24..32] == f6 && bytes[32..36] == f7
    ensures bytes[36..40] == f8 && bytes[40..48] == f9 && bytes[48..56] == f10 && bytes[56..60] == f11
  {
  }

  lemma EncodedFields(generation: u64, prefix: CommittedPrefix)
    ensures HasFields(Encoded(generation, prefix), generation, prefix)
  {
    Fields(Encoded(generation, prefix), MAGIC, LittleEndian(VERSION, 2), LittleEndian(MARKER_LEN, 2),
           LittleEndian(generation, 8), LittleEndian(LOG_FORMAT_VERSION, 2), LittleEndian(0, 2),
           LittleEndian(prefix.bytes, 8), Stored(prefix.crc32), LittleEndian(0, 4),
           LittleEndian(prefix.recordCount, 8), LittleEndian(prefix.nextSequence, 8), LittleEndian(0, 4),
           Stored(Crc32.Checksum(Payload(generation, prefix))));
  }

  lemma DecodeFields(bytes: seq<byte>, generation: u64, prefix: CommittedPrefix, filenameGeneration: u64)
    requires HasFields(bytes, generation, prefix) && Encodable(generation, prefix)
    requires FromStored(bytes[60..64]) == Crc32.Checksum(bytes[..60])
    ensures filenameGeneration == generation ==>
              Decode(bytes, filenameGeneration) == Ok(Marker(generation, LOG_FORMAT_VERSION, prefix))
    ensures filenameGeneration != generation ==> Decode(bytes, filenameGeneration).Err?
  {
    StoredDecodes(prefix.crc32);
    U16RoundTrip(VERSION);
    U16RoundTrip(MARKER_LEN);
    U16RoundTrip(LOG_FORMAT_VERSION);
    U16RoundTrip(0);
    U32RoundTrip(0);
    U64RoundTrip(generation);
    U64RoundTrip(prefix.bytes);
    U64RoundTrip(prefix.recordCount);
    U64RoundTrip(prefix.nextSequence);
  }

  lemma EncodedChecksum(generation: u64, prefix: CommittedPrefix)
    ensures var bytes := Encoded(generation, prefix);
            FromStored(bytes[60..64]) == Crc32.Checksum(bytes[..60])
  {
    var bytes := Encoded(generation, prefix);
    var payload := Payload(generation, prefix);
    assert bytes[..60] == payload;
    assert bytes[60..64] == Stored(Crc32.Checksum(payload));
    StoredDecodes(Crc32.Checksum(payload));
  }

  /** Decoding inverts encoding, for the filename generation it was written under and no other. */
  lemma DecodeInvertsEncode(generation: u64, prefix: CommittedPrefix, filenameGeneration: u64)
    requires Encodable(generation, prefix)
    ensures Decode(Encoded(generation, prefix), generation)
         == Ok(Marker(generation, LOG_FORMAT_VERSION, prefix))
    ensures filenameGeneration != generation ==> Decode(Encoded(generation, prefix), filenameGeneration).Err?
  {
    EncodedFields(generation, prefix);
    EncodedChecksum(generation, prefix);
    DecodeFields(Encoded(generation, prefix), generation, prefix, generation);
    DecodeFields(Encoded(generation, prefix), generation, prefix, filenameGeneration);
  }

  /** Re-encoding each decoded field gives back the bytes it was read from. */
  lemma CanonicalHead(bytes: seq<byte>)
    requires |bytes| == 64
    ensures bytes[8..10] == LittleEndian(U16(bytes[8..10]), 2)
    ensures bytes[10..12] == LittleEndian(U16(bytes[10..12]), 2)
    ensures bytes[12..20] == LittleEndian(U64(bytes[12..20]), 8)
    ensures bytes[20..22] == LittleEndian(U16(bytes[20..22]), 2)
    ensures bytes[22..24] == LittleEndian(U16(bytes[22..24]), 2)
  {
    U16Canonical(bytes[8..10]);
    U16Canonical(bytes[10..12]);
    U64Canonical(bytes[12..20]);
    U16Canonical(bytes[20..22]);
    U16Canonical(bytes[22..24]);
  }

  lemma CanonicalBody(bytes: seq<byte>)
    requires |bytes| == 64
    ensures bytes[24..32] == LittleEndian(U64(bytes[24..32]), 8)
    ensures bytes[32..36] == Stored(FromStored(bytes[32..36]))
    ensures bytes[36..40] == LittleEndian(U32(bytes[36..40]), 4)
    ensures bytes[40..48] == LittleEndian(U64(bytes[40..48]), 8)
    ensures bytes[48..56] == LittleEndian(U64(bytes[48..56]), 8)
    ensures bytes[56..60] == LittleEndian(U32(bytes[56..60]), 4)
    ensures bytes[60..64] == Stored(FromStored(bytes[60..64]))
  {
    U64Canonical(bytes[24..32]);
    StoredEncodes(bytes[32..36]);
    U32Canonical(bytes[36..40]);
    U64Canonical(bytes[40..48]);
    U64Canonical(bytes[48..56]);
    U32Canonical(bytes[56..60]);
    StoredEncodes(bytes[60..64]);
  }

  lemma AcceptedFields(bytes: seq<byte>, filenameGeneration: u64)
    requires Decode(bytes, filenameGeneration).Ok?
    ensures var marker := Decode(bytes, filenameGeneration).value;
            && marker.generation == filenameGeneration
            && Encodable(marker.generation, marker.prefix)
            && HasFields(bytes, marker.generation, marker.prefix)
            && bytes[60..64] == Stored(Crc32.Checksum(bytes[..60]))
  {
    hide LittleEndian, Stored, FromStored, Crc32.Checksum, ValidatePrefix, U16, U32, U64;
    CanonicalHead(bytes);
    CanonicalBody(bytes);
  }

  lemma Reassemble(bytes: seq<byte>)
    requires |bytes| == 64
    ensures bytes[..60] ==
            bytes[..8] + bytes[8..10] + bytes[10..12] + bytes[12..20] + bytes[20..22] + bytes[22..24]
            + bytes[24..32] + bytes[32..36] + bytes[36..40] + bytes[40..48] + bytes[48..56] + bytes[56..60]
    ensures bytes == bytes[..60] + bytes[60..64]
  {
  }

  lemma FieldsDetermine(bytes: seq<byte>, generation: u64, prefix: CommittedPrefix)
    requires HasFields(bytes, generation, prefix)
    requires bytes[60..64] == Stored(Crc32.Checksum(bytes[..60]))
    ensures bytes == Encoded(generation, prefix)
  {
    Reassemble(bytes);
    assert bytes[..60] == Payload(generation, prefix);
  }

  /** The decoder accepts nothing but encodings: every accepted block is the encoding of its result. */
  lemma DecodeAcceptsOnlyEncodings(bytes: seq<byte>, filenameGeneration: u64)
    requires Decode(bytes, filenameGeneration).Ok?
    ensures var marker := Decode(bytes, filenameGeneration).value;
            && marker.generation == filenameGeneration
            && Encodable(marker.generation, marker.prefix)
            && bytes == Encoded(marker.generation, marker.prefix)
  {
    AcceptedFields(bytes, filenameGeneration);
    var marker := Decode(bytes, filenameGeneration).value;
    FieldsDetermine(bytes, marker.generation, marker.prefix);
  }

  lemma EncodedIsSealed(generation: u64, prefix: CommittedPrefix)
    ensures Sealed(Encoded(generation, prefix))
  {
    var bytes := Encoded(generation, prefix);
    EncodedChecksum(generation, prefix);
    assert bytes[60..64] == bytes[60..];
  }

  lemma UnsealedIsRejected(bytes: seq<byte>, filenameGeneration: u64)
    requires |bytes| == 64 && !Sealed(bytes)
    ensures Decode(bytes, filenameGeneration).Err?
  {
    assert bytes[60..64] == bytes[60..];
  }

  /** An encoded marker changed anywhere within four consecutive bytes decodes to an error. */
  lemma TamperedMarkerIsRejected(generation: u64, prefix: CommittedPrefix, filenameGeneration: u64,
                                 head: seq<byte>, before: seq<byte>, after: seq<byte>, tail: seq<byte>)
    requires Encoded(generation, prefix) == head + before + tail
    requires |before| == |after| <= 4 && before != after
    ensures Decode(head + after + tail, filenameGeneration).Err?
  {
    EncodedIsSealed(generation, prefix);
    TamperedBlockIsRejected(head, before, after, tail);
    UnsealedIsRejected(head + after + tail, filenameGeneration);
  }
}
