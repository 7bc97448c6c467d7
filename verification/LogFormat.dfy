/** The append log's file header and record codec. */
module LogFormat {
  import opened Options
  import opened Bytes
  import opened Crc32

  const MAX_KEY_BYTES: nat := 4096
  const MAX_VALUE_BYTES: nat := 1048576

  const FILE_MAGIC: seq<byte> := [0x44, 0x42, 0x4c, 0x41, 0x42, 0x4b, 0x56, 0x00] // "DBLABKV\0"
  const FILE_VERSION: u16 := 1
  const FILE_HEADER_LEN: u16 := 16

  const RECORD_MAGIC: seq<byte> := [0x4b, 0x56, 0x4c, 0x47] // "KVLG"
  const RECORD_VERSION: byte := 1
  const RECORD_HEADER_LEN: nat := 32

  const KIND_PUT: byte := 1
  const KIND_DELETE: byte := 2

  type Key = seq<byte>
  type Value = seq<byte>

  /** One logical record: what the log says happened to one key. */
  datatype Mutation = Put(key: Key, value: Value) | Delete(key: Key)

  datatype Error =
    | InvalidInput
    | Corruption(offset: nat)
    | UnsupportedVersion(found: nat)
    | Poisoned
    | Io

  datatype Result<+T> = Ok(value: T) | Err(error: Error)

  function KindByte(m: Mutation): byte {
    if m.Put? then KIND_PUT else KIND_DELETE
  }

  function Payload(m: Mutation): seq<byte> {
    if m.Put? then m.key + m.value else m.key
  }

  function ValueLength(m: Mutation): nat {
    if m.Put? then |m.value| else 0
  }

  /** `validate_key_value`. */
  predicate Storable(m: Mutation) {
    |m.key| <= MAX_KEY_BYTES && ValueLength(m) <= MAX_VALUE_BYTES
  }

  // ---------- encoding ----------

  function EncodeFileHeader(): (header: seq<byte>)
    ensures |header| == 16
  {
    var front := FILE_MAGIC + LittleEndian(FILE_VERSION, 2) + LittleEndian(FILE_HEADER_LEN, 2);
    front + Stored(Checksum(front))
  }

  /** Header bytes 0..24: everything the header checksum covers. */
  function HeaderFront(m: Mutation, sequence: u64): (front: seq<byte>)
    ensures |front| == 24
  {
    RECORD_MAGIC + [RECORD_VERSION] + [KindByte(m)] + LittleEndian(0, 2) + LittleEndian(sequence, 8)
    + LittleEndian(|m.key|, 4) + LittleEndian(ValueLength(m), 4)
  }

  /** Header bytes 0..28: everything before the record checksum. */
  function HeaderSealed(m: Mutation, sequence: u64): (front: seq<byte>)
    ensures |front| == 28
  {
    HeaderFront(m, sequence) + Stored(Checksum(HeaderFront(m, sequence)))
  }

  function Header(m: Mutation, sequence: u64): (header: seq<byte>)
    ensures |header| == RECORD_HEADER_LEN
  {
    HeaderSealed(m, sequence) + Stored(Checksum(HeaderSealed(m, sequence) + Payload(m)))
  }

  function RecordBytes(m: Mutation, sequence: u64): (record: seq<byte>)
    ensures |record| == RECORD_HEADER_LEN + |m.key| + ValueLength(m)
  {
    Header(m, sequence) + Payload(m)
  }

  function EncodeRecord(m: Mutation, sequence: u64): Result<seq<byte>> {
    if Storable(m) then Ok(RecordBytes(m, sequence)) else Err(InvalidInput)
  }

  // ---------- header checks ----------

  function ValidateFileHeader(header: seq<byte>): Result<()>
    requires |header| == 16
  {
    if header[..8] != FILE_MAGIC then Err(Corruption(0))
    else if FromStored(header[12..16]) != Checksum(header[..12]) then Err(Corruption(12))
    else if U16(header[8..10]) != FILE_VERSION then Err(UnsupportedVersion(U16(header[8..10])))
    else if U16(header[10..12]) != FILE_HEADER_LEN then Err(Corruption(10))
    else Ok(())
  }

  datatype Metadata = Metadata(put: bool, keyLength: nat, valueLength: nat, recordCrc: Word32)

  /** `validate_record_lengths`, with `put` for the decoded record kind. */
  function ValidateLengths(put: bool, keyLength: nat, valueLength: nat, offset: nat): Result<()> {
    if keyLength > MAX_KEY_BYTES then Err(Corruption(offset + 16))
    else if valueLength > MAX_VALUE_BYTES then Err(Corruption(offset + 20))
    else if !put && valueLength != 0 then Err(Corruption(offset + 20))
    else Ok(())
  }

  predicate KnownKind(kind: byte) { kind == KIND_PUT || kind == KIND_DELETE }

  function ParseHeader(header: seq<byte>, offset: nat, expectedSequence: u64): Result<Metadata>
    requires |header| == RECORD_HEADER_LEN
  {
    if header[..4] != RECORD_MAGIC then Err(Corruption(offset))
    else if FromStored(header[24..28]) != Checksum(header[..24]) then Err(Corruption(offset + 24))
    else if header[4] != RECORD_VERSION then Err(UnsupportedVersion(header[4]))
    else if !KnownKind(header[5]) then Err(Corruption(offset + 5))
    else if U16(header[6..8]) != 0 then Err(Corruption(offset + 6))
    else if U64(header[8..16]) != expectedSequence then Err(Corruption(offset + 8))
    else
      var put := header[5] == KIND_PUT;
      var keyLength, valueLength := U32(header[16..20]), U32(header[20..24]);
      var lengths := ValidateLengths(put, keyLength, valueLength, offset);
      if lengths.Err? then Err(lengths.error)
      else Ok(Metadata(put, keyLength, valueLength, FromStored(header[28..32])))
  }

  /** Whether the bytes present at `at` agree with as much of `expected` as is available. */
  predicate PrefixAgrees(bytes: seq<byte>, at: nat, expected: seq<byte>) {
    |bytes| <= at ||
    var available := if |bytes| - at < |expected| then |bytes| - at else |expected|;
    bytes[at..at + available] == expected[..available]
  }

  /** `validate_partial_header`: what a final append cut inside its header may look like. */
  function ValidatePartialHeader(bytes: seq<byte>, offset: nat, expectedSequence: u64): Result<()>
    requires |bytes| < RECORD_HEADER_LEN
  {
    if !PrefixAgrees(bytes, 0, RECORD_MAGIC) then Err(Corruption(offset))
    else if |bytes| >= 5 && bytes[4] != RECORD_VERSION then Err(Corruption(offset + 4))
    else if |bytes| >= 6 && !KnownKind(bytes[5]) then Err(Corruption(offset + 5))
    else if !PrefixAgrees(bytes, 6, LittleEndian(0, 2)) then Err(Corruption(offset + 6))
    else if !PrefixAgrees(bytes, 8, LittleEndian(expectedSequence, 8)) then Err(Corruption(offset + 8))
    else if |bytes| >= 20 && U32(bytes[16..20]) > MAX_KEY_BYTES then Err(Corruption(offset + 16))
    else
      var lengths :=
        if |bytes| >= 24
        then ValidateLengths(bytes[5] == KIND_PUT, U32(bytes[16..20]), U32(bytes[20..24]), offset)
        else Ok(());
      if lengths.Err? then lengths
      else if |bytes| >= 28 && FromStored(bytes[24..28]) != Checksum(bytes[..24])
      then Err(Corruption(offset + 24))
      else Ok(())
  }

  /** What the scanner finds at a record boundary that is not the end of the file. */
  datatype Found =
    | Complete(mutation: Mutation, length: nat)
    | TornTail(required: Option<nat>)
    | Bad(error: Error)

  function NextRecord(rest: seq<byte>, offset: nat, expectedSequence: u64): Found
    requires rest != []
  {
    if |rest| < RECORD_HEADER_LEN then
      var partial := ValidatePartialHeader(rest, offset, expectedSequence);
      if partial.Err? then Bad(partial.error) else TornTail(None)
    else
      var parsed := ParseHeader(rest[..RECORD_HEADER_LEN], offset, expectedSequence);
      if parsed.Err? then Bad(parsed.error)
      else
        var meta := parsed.value;
        var total := RECORD_HEADER_LEN + meta.keyLength + meta.valueLength;
        if offset + total >= U64_LIMIT then Bad(Corruption(offset))
        else if total > |rest| then TornTail(Some(total))
        else
          var payload := rest[RECORD_HEADER_LEN..total];
          if Checksum(rest[..28] + payload) != meta.recordCrc then Bad(Corruption(offset))
          else
            var key, value := payload[..meta.keyLength], payload[meta.keyLength..];
            Complete(if meta.put then Put(key, value) else Delete(key), total)
  }

  // ---------- the codec is exact ----------

  /** The fields of a record header at their fixed offsets. */
  predicate HasHeader(bytes: seq<byte>, m: Mutation, sequence: u64) {
    && |bytes| >= RECORD_HEADER_LEN
    && bytes[..4] == RECORD_MAGIC
    && bytes[4] == RECORD_VERSION
    && bytes[5] == KindByte(m)
    && bytes[6..8] == LittleEndian(0, 2)
    && bytes[8..16] == LittleEndian(sequence, 8)
    && bytes[16..20] == LittleEndian(|m.key|, 4)
    && bytes[20..24] == LittleEndian(ValueLength(m), 4)
    && bytes[24..28] == Stored(Checksum(bytes[..24]))
    && bytes[28..32] == Stored(Checksum(bytes[..28] + Payload(m)))
  }

  lemma FrontFields(bytes: seq<byte>, f0: seq<byte>, version: byte, kind: byte, f1: seq<byte>, f2: seq<byte>,
                    f3: seq<byte>, f4: seq<byte>, rest: seq<byte>)
    requires |f0| == 4 && |f1| == 2 && |f2| == 8 && |f3| == 4 && |f4| == 4
    requires bytes == f0 + [version] + [kind] + f1 + f2 + f3 + f4 + rest
    ensures bytes[..4] == f0 && bytes[4] == version && bytes[5] == kind && bytes[6..8] == f1
    ensures bytes[8..16] == f2 && bytes[16..20] == f3 && bytes[20..24] == f4
    ensures bytes[..24] == f0 + [version] + [kind] + f1 + f2 + f3 + f4
  {
  }

  lemma RecordHasHeader(m: Mutation, sequence: u64, rest: seq<byte>)
    ensures HasHeader(RecordBytes(m, sequence) + rest, m, sequence)
  {
    hide Checksum, Stored, FromStored, LittleEndian, U16, U32, U64;
    var bytes := RecordBytes(m, sequence) + rest;
    var crc := Stored(Checksum(HeaderFront(m, sequence)));
    var recordCrc := Stored(Checksum(HeaderSealed(m, sequence) + Payload(m)));
    var tail := crc + recordCrc + Payload(m) + rest;
    assert bytes == HeaderFront(m, sequence) + tail;
    FrontFields(bytes, RECORD_MAGIC, RECORD_VERSION, KindByte(m), LittleEndian(0, 2),
                LittleEndian(sequence, 8), LittleEndian(|m.key|, 4), LittleEndian(ValueLength(m), 4), tail);
    assert bytes[..24] == HeaderFront(m, sequence);
    assert bytes[24..28] == crc;
    assert bytes[..28] == HeaderSealed(m, sequence);
    assert bytes[28..32] == recordCrc;
  }

  lemma LengthsFit(m: Mutation)
    requires Storable(m)
    ensures U32(LittleEndian(|m.key|, 4)) == |m.key|
    ensures U32(LittleEndian(ValueLength(m), 4)) == ValueLength(m)
  {
    U32RoundTrip(|m.key|);
    U32RoundTrip(ValueLength(m));
  }

  lemma HeaderParses(header: seq<byte>, m: Mutation, sequence: u64, offset: nat)
    requires |header| == RECORD_HEADER_LEN && Storable(m)
    requires HasHeader(header, m, sequence)
    ensures ParseHeader(header, offset, sequence) ==
            Ok(Metadata(m.Put?, |m.key|, ValueLength(m), Checksum(header[..28] + Payload(m))))
  {
    hide Checksum, Stored, FromStored, LittleEndian, U16, U32, U64;
    LengthsFit(m);
    U16RoundTrip(0);
    U64RoundTrip(sequence);
    StoredDecodes(Checksum(header[..24]));
    StoredDecodes(Checksum(header[..28] + Payload(m)));
  }

  /** A whole encoded record, whatever follows it, is read back exactly. */
  lemma WholeRecordReadsBack(m: Mutation, sequence: u64, rest: seq<byte>, offset: nat)
    requires Storable(m)
    requires offset + |RecordBytes(m, sequence)| < U64_LIMIT
    ensures NextRecord(RecordBytes(m, sequence) + rest, offset, sequence)
         == Complete(m, |RecordBytes(m, sequence)|)
  {
    hide Checksum, Stored, FromStored, LittleEndian, U16, U32, U64;
    var bytes := RecordBytes(m, sequence) + rest;
    RecordHasHeader(m, sequence, rest);
    var header := bytes[..RECORD_HEADER_LEN];
    SameHeader(bytes, m, sequence);
    HeaderParses(header, m, sequence, offset);
    var total := |RecordBytes(m, sequence)|;
    assert bytes[RECORD_HEADER_LEN..total] == Payload(m);
    assert header[..28] == bytes[..28];
    assert Payload(m)[..|m.key|] == m.key;
    if m.Put? {
      assert Payload(m)[|m.key|..] == m.value;
    }
  }

  lemma SameHeader(bytes: seq<byte>, m: Mutation, sequence: u64)
    requires |bytes| >= RECORD_HEADER_LEN
    ensures HasHeader(bytes, m, sequence) <==> HasHeader(bytes[..RECORD_HEADER_LEN], m, sequence)
  {
    hide Checksum, Stored, FromStored, LittleEndian, U16, U32, U64;
    var header := bytes[..RECORD_HEADER_LEN];
    assert header[..4] == bytes[..4] && header[6..8] == bytes[6..8] && header[8..16] == bytes[8..16];
    assert header[16..20] == bytes[16..20] && header[20..24] == bytes[20..24];
    assert header[..24] == bytes[..24] && header[24..28] == bytes[24..28];
    assert header[..28] == bytes[..28] && header[28..32] == bytes[28..32];
  }

  lemma ParsedHeaderFields(header: seq<byte>, m: Mutation, sequence: u64, offset: nat)
    requires |header| == RECORD_HEADER_LEN
    requires ParseHeader(header, offset, sequence) ==
             Ok(Metadata(m.Put?, |m.key|, ValueLength(m), Checksum(header[..28] + Payload(m))))
    ensures HasHeader(header, m, sequence)
  {
    hide Checksum, Stored, FromStored, LittleEndian, U16, U32, U64;
    U16Canonical(header[6..8]);
    U64Canonical(header[8..16]);
    U32Canonical(header[16..20]);
    U32Canonical(header[20..24]);
    StoredEncodes(header[24..28]);
    StoredEncodes(header[28..32]);
  }

  lemma HeaderDetermines(bytes: seq<byte>, m: Mutation, sequence: u64)
    requires HasHeader(bytes, m, sequence)
    ensures bytes[..RECORD_HEADER_LEN] == Header(m, sequence)
  {
    hide Checksum, Stored, FromStored, LittleEndian, U16, U32, U64;
    assert bytes[..24] == bytes[..4] + [bytes[4]] + [bytes[5]] + bytes[6..8] + bytes[8..16]
                          + bytes[16..20] + bytes[20..24];
    assert bytes[..24] == HeaderFront(m, sequence);
    assert bytes[..28] == bytes[..24] + bytes[24..28];
    assert bytes[..28] == HeaderSealed(m, sequence);
    assert bytes[..RECORD_HEADER_LEN] == bytes[..28] + bytes[28..32];
  }

  /** Only encodings are accepted: a record the scanner takes is, byte for byte, what the encoder writes. */
  lemma AcceptedRecordIsEncoding(rest: seq<byte>, offset: nat, sequence: u64)
    requires rest != []
    requires NextRecord(rest, offset, sequence).Complete?
    ensures var found := NextRecord(rest, offset, sequence);
            && Storable(found.mutation)
            && found.length == |RecordBytes(found.mutation, sequence)|
            && found.length <= |rest|
            && offset + found.length < U64_LIMIT
            && rest[..found.length] == RecordBytes(found.mutation, sequence)
  {
    hide Checksum, Stored, FromStored, LittleEndian, U16, U32, U64;
    var found := NextRecord(rest, offset, sequence);
    var m := found.mutation;
    var header := rest[..RECORD_HEADER_LEN];
    var meta := ParseHeader(header, offset, sequence).value;
    var payload := rest[RECORD_HEADER_LEN..found.length];
    assert payload == payload[..meta.keyLength] + payload[meta.keyLength..];
    assert Payload(m) == payload;
    assert header[..28] == rest[..28];
    ParsedHeaderFields(header, m, sequence, offset);
    HeaderDetermines(header, m, sequence);
    assert header == header[..RECORD_HEADER_LEN];
    assert rest[..found.length] == header + payload;
  }

  // ---------- torn appends ----------

  lemma PrefixSlices(whole: seq<byte>, cut: nat, at: nat, expected: seq<byte>)
    requires cut <= |whole| && at + |expected| <= |whole|
    requires whole[at..at + |expected|] == expected
    ensures PrefixAgrees(whole[..cut], at, expected)
  {
    var bytes := whole[..cut];
    if cut > at {
      var available := if cut - at < |expected| then cut - at else |expected|;
      assert bytes[at..at + available] == whole[at..at + |expected|][..available];
    }
  }

  lemma PartialHeaderAccepted(record: seq<byte>, m: Mutation, sequence: u64, cut: nat, offset: nat)
    requires HasHeader(record, m, sequence) && Storable(m)
    requires 0 < cut < RECORD_HEADER_LEN
    ensures ValidatePartialHeader(record[..cut], offset, sequence).Ok?
  {
    hide Checksum, Stored, FromStored, LittleEndian, U16, U32, U64;
    var bytes := record[..cut];
    assert record[0..4] == record[..4];
    PrefixSlices(record, cut, 0, RECORD_MAGIC);
    PrefixSlices(record, cut, 6, LittleEndian(0, 2));
    PrefixSlices(record, cut, 8, LittleEndian(sequence, 8));
    LengthsFit(m);
    if cut >= 20 { assert bytes[16..20] == record[16..20]; }
    if cut >= 24 { assert bytes[20..24] == record[20..24]; }
    if cut >= 28 {
      assert bytes[24..28] == record[24..28];
      assert bytes[..24] == record[..24];
      StoredDecodes(Checksum(record[..24]));
    }
  }

  /** Every strict non-empty prefix of an encoded record is a recoverable torn append. */
  lemma CutRecordIsTorn(m: Mutation, sequence: u64, cut: nat, offset: nat)
    requires Storable(m)
    requires 0 < cut < |RecordBytes(m, sequence)|
    requires offset + |RecordBytes(m, sequence)| < U64_LIMIT
    ensures NextRecord(RecordBytes(m, sequence)[..cut], offset, sequence).TornTail?
  {
    hide Checksum, Stored, FromStored, LittleEndian, U16, U32, U64;
    var record := RecordBytes(m, sequence);
    RecordHasHeader(m, sequence, []);
    assert record + [] == record;
    if cut < RECORD_HEADER_LEN {
      PartialHeaderAccepted(record, m, sequence, cut, offset);
    } else {
      var bytes := record[..cut];
      assert bytes[..RECORD_HEADER_LEN] == record[..RECORD_HEADER_LEN];
      SameHeader(record, m, sequence);
      HeaderParses(bytes[..RECORD_HEADER_LEN], m, sequence, offset);
    }
  }

  lemma FileHeaderAccepted()
    ensures ValidateFileHeader(EncodeFileHeader()).Ok?
  {
    var header := EncodeFileHeader();
    var front := FILE_MAGIC + LittleEndian(FILE_VERSION, 2) + LittleEndian(FILE_HEADER_LEN, 2);
    assert header[..8] == FILE_MAGIC;
    assert header[..12] == front;
    assert header[8..10] == LittleEndian(FILE_VERSION, 2);
    assert header[10..12] == LittleEndian(FILE_HEADER_LEN, 2);
    assert header[12..16] == Stored(Checksum(front));
    U16RoundTrip(FILE_VERSION);
    U16RoundTrip(FILE_HEADER_LEN);
    StoredDecodes(Checksum(front));
  }

  lemma AcceptedFileHeader(header: seq<byte>)
    requires |header| == 16 && ValidateFileHeader(header).Ok?
    ensures header == EncodeFileHeader()
  {
    hide LittleEndian, U16, FromStored, Stored, Checksum;
    U16Canonical(header[8..10]);
    U16Canonical(header[10..12]);
    StoredEncodes(header[12..16]);
    assert header[..12] == header[..8] + header[8..10] + header[10..12];
    assert header == header[..12] + header[12..16];
  }
}
