/** The torn tails of a log in terms of the encoder: which the scanner takes, and which are cuts of a record. */
module TornAppends {
  import opened Options
  import opened Bytes
  import opened Crc32
  import opened LogFormat

  // ---------- the accepted tails ----------

  /** A length field or the header checksum that is cut inside is not looked at. */
  function CheckedPart(available: nat): nat {
    if available < 16 then available
    else if available < 20 then 16
    else if available < 24 then 20
    else if available < 28 then 24
    else 28
  }

  /**
   * `tail` is shorter than the record of `m`, and up to its last whole field before the record checksum it is
   * the beginning of that record. Where the record would end is known, and bounded, once the header is whole.
   */
  predicate BeginsLike(tail: seq<byte>, m: Mutation, offset: nat, sequence: u64) {
    && Storable(m)
    && |tail| < |RecordBytes(m, sequence)|
    && tail[..CheckedPart(|tail|)] <= HeaderSealed(m, sequence)
    && (|tail| >= RECORD_HEADER_LEN ==> offset + |RecordBytes(m, sequence)| < U64_LIMIT)
  }

  ghost predicate TornAppend(tail: seq<byte>, offset: nat, sequence: u64) {
    exists m :: BeginsLike(tail, m, offset, sequence)
  }

  /** The length of the whole record, once its header is there to tell. */
  function RequiredLength(tail: seq<byte>): Option<nat> {
    if |tail| < RECORD_HEADER_LEN then None
    else Some(RECORD_HEADER_LEN + U32(tail[16..20]) + U32(tail[20..24]))
  }

  /** Some mutation of the given kind and lengths. */
  function Sample(put: bool, keyLength: nat, valueLength: nat): (m: Mutation)
    ensures m.Put? == put && |m.key| == keyLength && ValueLength(m) == if put then valueLength else 0
  {
    if put then Put(Zeros(keyLength), Zeros(valueLength)) else Delete(Zeros(keyLength))
  }

  // ---------- header fields byte by byte ----------

  /** The sixteen bytes of a header that are known before the lengths are. */
  function Known(kind: byte, sequence: u64): (front: seq<byte>)
    ensures |front| == 16
  {
    RECORD_MAGIC + [RECORD_VERSION] + [kind] + LittleEndian(0, 2) + LittleEndian(sequence, 8)
  }

  lemma SealedParts(m: Mutation, sequence: u64)
    ensures var s := HeaderSealed(m, sequence);
            && s[..16] == Known(KindByte(m), sequence)
            && s[16..20] == LittleEndian(|m.key|, 4) && s[20..24] == LittleEndian(ValueLength(m), 4)
            && s[..24] == HeaderFront(m, sequence) && s[24..28] == Stored(Checksum(s[..24]))
  {
    hide Checksum, Stored, LittleEndian;
    var s := HeaderSealed(m, sequence);
    assert HeaderFront(m, sequence)
        == Known(KindByte(m), sequence) + LittleEndian(|m.key|, 4) + LittleEndian(ValueLength(m), 4);
    assert s[..24] == HeaderFront(m, sequence);
  }

  /** The header up to its own checksum tells the kind and the lengths, and nothing more. */
  lemma SameSealed(a: Mutation, b: Mutation, sequence: u64)
    requires a.Put? == b.Put? && |a.key| == |b.key| && ValueLength(a) == ValueLength(b)
    ensures HeaderSealed(a, sequence) == HeaderSealed(b, sequence)
  {
    hide Checksum, Stored, LittleEndian;
  }

  lemma RecordParts(m: Mutation, sequence: u64)
    ensures var r := RecordBytes(m, sequence);
            && r[..28] == HeaderSealed(m, sequence)
            && r[28..32] == Stored(Checksum(HeaderSealed(m, sequence) + Payload(m)))
            && r[32..] == Payload(m)
  {
    hide Checksum, Stored, LittleEndian, HeaderSealed, Payload;
  }

  // ---------- the scanner accepts exactly the torn appends ----------

  function Least(a: nat, b: nat): nat {
    if a < b then a else b
  }

  /** The whole fields of `tail` before the record checksum are those of the record of `m`. */
  predicate Fields(tail: seq<byte>, m: Mutation, sequence: u64) {
    && tail[..Least(|tail|, 16)] <= Known(KindByte(m), sequence)
    && (|tail| >= 20 ==> U32(tail[16..20]) == |m.key|)
    && (|tail| >= 24 ==> U32(tail[20..24]) == ValueLength(m))
    && (|tail| >= 28 ==> FromStored(tail[24..28]) == Checksum(tail[..24]))
  }

  lemma FieldsDecide(tail: seq<byte>, m: Mutation, sequence: u64)
    requires Storable(m)
    ensures tail[..CheckedPart(|tail|)] <= HeaderSealed(m, sequence) <==> Fields(tail, m, sequence)
  {
    hide Checksum, Stored, FromStored, LittleEndian, U32, HeaderSealed, HeaderFront, Known;
    var part, s, front := tail[..CheckedPart(|tail|)], HeaderSealed(m, sequence), tail[..Least(|tail|, 16)];
    SealedParts(m, sequence);
    LengthsFit(m);
    if |tail| >= 20 {
      U32Canonical(tail[16..20]);
      assert part[16..20] == tail[16..20];
    }
    if |tail| >= 24 {
      U32Canonical(tail[20..24]);
      assert part[20..24] == tail[20..24];
    }
    if |tail| >= 28 {
      StoredEncodes(tail[24..28]);
      StoredDecodes(Checksum(tail[..24]));
      assert part[24..28] == tail[24..28] && part[..24] == tail[..24];
    }
    if part <= s {
      assert front == part[..|front|] == s[..|front|] == s[..16][..|front|];
      assert forall i :: 0 <= i < |part| ==> part[i] == s[i];
      if |tail| >= 20 { assert part[16..20] == s[16..20]; }
      if |tail| >= 24 { assert part[20..24] == s[20..24] && part[..24] == s[..24]; }
      if |tail| >= 28 { assert part[24..28] == s[24..28]; }
    }
    if Fields(tail, m, sequence) {
      assert part[..|front|] == front == s[..16][..|front|] == s[..|front|];
      if |tail| >= 20 { JoinFields(part, s, 16, 20); }
      if |tail| >= 24 { JoinFields(part, s, 20, 24); }
      if |tail| >= 28 { JoinFields(part, s, 24, 28); }
      assert part == part[..|part|] == s[..|part|];
    }
  }

  lemma JoinFields(a: seq<byte>, b: seq<byte>, start: nat, end: nat)
    requires start <= end <= |a| && end <= |b| && a[..start] == b[..start] && a[start..end] == b[start..end]
    ensures a[..end] == b[..end]
  {
    assert a[..end] == a[..start] + a[start..end] && b[..end] == b[..start] + b[start..end];
  }

  lemma AgreesAt(bytes: seq<byte>, at: nat, expected: seq<byte>, i: nat)
    requires PrefixAgrees(bytes, at, expected)
    ensures at <= i < |bytes| && i < at + |expected| ==> bytes[i] == expected[i - at]
  {
    if at <= i < |bytes| && i < at + |expected| {
      var available := if |bytes| - at < |expected| then |bytes| - at else |expected|;
      assert bytes[at..at + available][i - at] == expected[..available][i - at];
    }
  }

  /** The byte-wise checks hold exactly when the known part of the header is there as far as the tail goes. */
  lemma KnownPrefix(tail: seq<byte>, sequence: u64, kind: byte)
    requires |tail| >= 6 ==> tail[5] == kind
    ensures tail[..Least(|tail|, 16)] <= Known(kind, sequence) <==>
            && PrefixAgrees(tail, 0, RECORD_MAGIC) && (|tail| >= 5 ==> tail[4] == RECORD_VERSION)
            && PrefixAgrees(tail, 6, LittleEndian(0, 2)) && PrefixAgrees(tail, 8, LittleEndian(sequence, 8))
  {
    hide LittleEndian;
    var known, front := Known(kind, sequence), tail[..Least(|tail|, 16)];
    if front <= known {
      assert forall i :: 0 <= i < |front| ==> front[i] == known[i];
      assert forall i :: 0 <= i < |front| ==> tail[i] == known[i];
    } else if PrefixAgrees(tail, 0, RECORD_MAGIC) && (|tail| >= 5 ==> tail[4] == RECORD_VERSION)
      && PrefixAgrees(tail, 6, LittleEndian(0, 2)) && PrefixAgrees(tail, 8, LittleEndian(sequence, 8)) {
      forall i | 0 <= i < |front| ensures front[i] == known[i] {
        AgreesAt(tail, 0, RECORD_MAGIC, i);
        AgreesAt(tail, 6, LittleEndian(0, 2), i);
        AgreesAt(tail, 8, LittleEndian(sequence, 8), i);
      }
      assert false;
    }
  }

  /** A mutation with the kind and the lengths that the tail declares. */
  function Declared(tail: seq<byte>): Mutation {
    Sample(|tail| < 6 || tail[5] == KIND_PUT, if |tail| < 20 then 0 else U32(tail[16..20]),
           if |tail| < 24 then 0 else U32(tail[20..24]))
  }

  lemma KindIsThere(tail: seq<byte>, m: Mutation, sequence: u64)
    requires Fields(tail, m, sequence)
    ensures |tail| >= 6 ==> tail[5] == KindByte(m)
  {
    hide LittleEndian;
    if |tail| >= 6 { assert tail[..Least(|tail|, 16)][5] == Known(KindByte(m), sequence)[5]; }
  }

  lemma PartialHeaderFields(tail: seq<byte>, offset: nat, sequence: u64)
    requires |tail| < RECORD_HEADER_LEN
    ensures ValidatePartialHeader(tail, offset, sequence).Ok? ==>
              Storable(Declared(tail)) && Fields(tail, Declared(tail), sequence)
    ensures forall m :: Storable(m) && Fields(tail, m, sequence) ==>
              ValidatePartialHeader(tail, offset, sequence).Ok?
  {
    hide Checksum, Stored, FromStored, LittleEndian, U16, U32, U64, Known, PrefixAgrees;
    if ValidatePartialHeader(tail, offset, sequence).Ok? {
      KnownPrefix(tail, sequence, KindByte(Declared(tail)));
    }
    forall m | Storable(m) && Fields(tail, m, sequence)
      ensures ValidatePartialHeader(tail, offset, sequence).Ok?
    {
      KindIsThere(tail, m, sequence);
      KnownPrefix(tail, sequence, KindByte(m));
    }
  }

  lemma KnownFields(tail: seq<byte>, sequence: u64)
    requires |tail| >= 16
    ensures tail[..16] <= Known(tail[5], sequence) <==>
            && tail[..4] == RECORD_MAGIC && tail[4] == RECORD_VERSION
            && U16(tail[6..8]) == 0 && U64(tail[8..16]) == sequence
  {
    hide LittleEndian, U16, U64;
    U16RoundTrip(0);
    U64RoundTrip(sequence);
    U16Canonical(tail[6..8]);
    U64Canonical(tail[8..16]);
    assert tail[..16] == tail[..4] + [tail[4]] + [tail[5]] + tail[6..8] + tail[8..16];
    var known := Known(tail[5], sequence);
    assert known[..4] == RECORD_MAGIC && known[6..8] == LittleEndian(0, 2) && known[8..16] == LittleEndian(sequence, 8);
    if tail[..16] <= known {
      assert tail[..16] == known;
      assert tail[..4] == known[..4] && tail[6..8] == known[6..8] && tail[8..16] == known[8..16];
      assert tail[4] == known[4];
    }
  }

  lemma WholeHeaderFields(tail: seq<byte>, offset: nat, sequence: u64)
    requires |tail| >= RECORD_HEADER_LEN
    ensures ParseHeader(tail[..RECORD_HEADER_LEN], offset, sequence).Ok? ==>
              Storable(Declared(tail)) && Fields(tail, Declared(tail), sequence)
    ensures forall m :: Storable(m) && Fields(tail, m, sequence) ==>
              ParseHeader(tail[..RECORD_HEADER_LEN], offset, sequence)
              == Ok(Metadata(m.Put?, |m.key|, ValueLength(m), FromStored(tail[28..32])))
  {
    hide Checksum, Stored, FromStored, LittleEndian, U16, U32, U64, Known;
    var header := tail[..RECORD_HEADER_LEN];
    assert header[..4] == tail[..4] && header[6..8] == tail[6..8] && header[8..16] == tail[8..16];
    assert header[16..20] == tail[16..20] && header[20..24] == tail[20..24];
    assert header[..24] == tail[..24] && header[24..28] == tail[24..28] && header[28..32] == tail[28..32];
    KnownFields(tail, sequence);
    forall m | Storable(m) && Fields(tail, m, sequence)
      ensures ParseHeader(header, offset, sequence)
           == Ok(Metadata(m.Put?, |m.key|, ValueLength(m), FromStored(tail[28..32])))
    {
      KindIsThere(tail, m, sequence);
    }
  }

  lemma DeclaredLength(tail: seq<byte>, sequence: u64)
    requires |tail| >= RECORD_HEADER_LEN && Fields(tail, Declared(tail), sequence)
    ensures RequiredLength(tail) == Some(RECORD_HEADER_LEN + |Declared(tail).key| + ValueLength(Declared(tail)))
  {
    hide Checksum, FromStored, U32, Known;
  }

  /** At a record boundary the scanner reports a torn tail exactly on the torn appends. */
  lemma TornTailExactly(tail: seq<byte>, offset: nat, sequence: u64)
    requires tail != []
    ensures NextRecord(tail, offset, sequence).TornTail? <==> TornAppend(tail, offset, sequence)
    ensures NextRecord(tail, offset, sequence).TornTail? ==>
              NextRecord(tail, offset, sequence) == TornTail(RequiredLength(tail))
  {
    hide Checksum, Stored, FromStored, LittleEndian, U16, U32, U64, Known, Fields, HeaderSealed, ParseHeader,
      ValidatePartialHeader;
    if |tail| < RECORD_HEADER_LEN {
      PartialHeaderFields(tail, offset, sequence);
    } else {
      WholeHeaderFields(tail, offset, sequence);
    }
    var sample := Declared(tail);
    if NextRecord(tail, offset, sequence).TornTail? {
      if |tail| >= RECORD_HEADER_LEN { DeclaredLength(tail, sequence); }
      FieldsDecide(tail, sample, sequence);
      assert BeginsLike(tail, sample, offset, sequence);
    }
    if TornAppend(tail, offset, sequence) {
      var m :| BeginsLike(tail, m, offset, sequence);
      FieldsDecide(tail, m, sequence);
    }
  }

  // ---------- which torn appends are cuts of a record ----------

  /** `tail` is a proper prefix of the record of `m`. */
  predicate CutOf(tail: seq<byte>, m: Mutation, sequence: u64) {
    Storable(m) && |tail| < |RecordBytes(m, sequence)| && tail <= RecordBytes(m, sequence)
  }

  ghost predicate IsCut(tail: seq<byte>, sequence: u64) {
    exists m :: CutOf(tail, m, sequence)
  }

  function PayloadSize(tail: seq<byte>): nat
    requires |tail| >= 24
  {
    U32(tail[16..20]) + U32(tail[20..24])
  }

  function PayloadPresent(tail: seq<byte>): seq<byte> {
    if |tail| < RECORD_HEADER_LEN then [] else tail[RECORD_HEADER_LEN..]
  }

  /** With `missing` behind it, the payload has the declared length and a checksum that starts as stored. */
  predicate Completes(tail: seq<byte>, missing: seq<byte>)
    requires |tail| >= 28
  {
    && |PayloadPresent(tail)| + |missing| == PayloadSize(tail)
    && tail[28..Least(|tail|, 32)] <= Stored(Checksum(tail[..28] + (PayloadPresent(tail) + missing)))
  }

  /** The field the tail is cut in can still become one the encoder writes. */
  ghost predicate CutFieldCompletes(tail: seq<byte>) {
    if |tail| <= 16 then true
    else if |tail| < 20 then FromLittleEndian(tail[16..]) <= MAX_KEY_BYTES
    else if |tail| == 20 then true
    else if |tail| < 24 then FromLittleEndian(tail[20..]) <= if tail[5] == KIND_PUT then MAX_VALUE_BYTES else 0
    else if |tail| < 28 then tail[24..] <= Stored(Checksum(tail[..24]))
    else exists missing :: Completes(tail, missing)
  }

  lemma {:induction false} PrefixDecodesLess(part: seq<byte>, whole: seq<byte>)
    requires part <= whole
    ensures FromLittleEndian(part) <= FromLittleEndian(whole)
  {
    if part != [] { PrefixDecodesLess(part[1..], whole[1..]); }
  }

  lemma {:induction false} LittleEndianExtends(part: seq<byte>, width: nat)
    requires |part| <= width
    ensures part <= LittleEndian(FromLittleEndian(part), width)
  {
    if part != [] {
      LittleEndianExtends(part[1..], width - 1);
      DigitSplit(part[0], FromLittleEndian(part[1..]));
    }
  }

  lemma RecordFields(m: Mutation, sequence: u64)
    requires Storable(m)
    ensures var r := RecordBytes(m, sequence);
            && r[..16] == Known(KindByte(m), sequence) && r[5] == KindByte(m)
            && r[16..20] == LittleEndian(|m.key|, 4) && r[20..24] == LittleEndian(ValueLength(m), 4)
            && U32(r[16..20]) == |m.key| && U32(r[20..24]) == ValueLength(m)
            && r[24..28] == Stored(Checksum(r[..24])) && r[..28] == HeaderSealed(m, sequence)
            && r[28..32] == Stored(Checksum(r[..28] + Payload(m))) && r[32..] == Payload(m)
  {
    hide Checksum, Stored, LittleEndian, U32, HeaderSealed, HeaderFront, RecordBytes, Payload;
    var r, sealed := RecordBytes(m, sequence), HeaderSealed(m, sequence);
    SealedParts(m, sequence);
    RecordParts(m, sequence);
    LengthsFit(m);
    assert r[..16] == r[..28][..16] && r[16..20] == r[..28][16..20] && r[20..24] == r[..28][20..24];
    assert r[..24] == r[..28][..24] && r[24..28] == r[..28][24..28];
    assert r[5] == r[..16][5];
  }

  lemma PartOf(tail: seq<byte>, whole: seq<byte>, start: nat, end: nat)
    requires tail <= whole && start <= |tail| && start <= end <= |whole|
    ensures tail[start..Least(|tail|, end)] == whole[start..end][..Least(|tail|, end) - start]
  {
  }

  lemma CutCompletes(tail: seq<byte>, m: Mutation, sequence: u64)
    requires CutOf(tail, m, sequence)
    ensures CutFieldCompletes(tail)
  {
    hide Checksum, Stored, LittleEndian, RecordBytes, FromLittleEndian, HeaderSealed, Known;
    var r := RecordBytes(m, sequence);
    RecordFields(m, sequence);
    if 16 < |tail| < 20 {
      PartOf(tail, r, 16, 20);
      PrefixDecodesLess(tail[16..], LittleEndian(|m.key|, 4));
    } else if 20 < |tail| < 24 {
      PartOf(tail, r, 20, 24);
      assert tail[5] == r[5];
      PrefixDecodesLess(tail[20..], LittleEndian(ValueLength(m), 4));
    } else if 24 < |tail| < 28 {
      PartOf(tail, r, 24, 28);
      PartOf(tail, r, 0, 24);
      assert tail[..24] == r[..24];
    } else if |tail| >= 28 {
      var missing := r[if |tail| < 32 then 32 else |tail|..];
      assert PayloadPresent(tail) + missing == r[32..];
      assert tail[..28] == r[..28] && tail[16..20] == r[16..20] && tail[20..24] == r[20..24];
      PartOf(tail, r, 28, 32);
      assert Completes(tail, missing);
    }
  }

  /** A tail cut behind its last whole field is a cut of every record it begins like. */
  lemma WholeFieldsAreCut(tail: seq<byte>, m: Mutation, offset: nat, sequence: u64)
    requires BeginsLike(tail, m, offset, sequence) && CheckedPart(|tail|) == |tail|
    ensures CutOf(tail, m, sequence)
  {
    hide Checksum, Stored, LittleEndian, HeaderSealed;
    assert tail[..|tail|] == tail;
    RecordParts(m, sequence);
    assert tail <= RecordBytes(m, sequence)[..28];
  }

  lemma PrefixGrows(tail: seq<byte>, whole: seq<byte>, at: nat)
    requires at <= |tail| <= |whole|
    requires tail[..at] == whole[..at] && tail[at..] == whole[at..|tail|]
    ensures tail <= whole
  {
    assert tail == tail[..at] + tail[at..];
  }

  lemma KeyLengthCompletes(tail: seq<byte>, m: Mutation, offset: nat, sequence: u64)
    requires BeginsLike(tail, m, offset, sequence) && 16 < |tail| < 20
    requires FromLittleEndian(tail[16..]) <= MAX_KEY_BYTES
    ensures IsCut(tail, sequence)
  {
    hide Checksum, Stored, LittleEndian, HeaderSealed, Known, FromLittleEndian, RecordBytes;
    var completed := Sample(m.Put?, FromLittleEndian(tail[16..]), 0);
    var r := RecordBytes(completed, sequence);
    RecordFields(completed, sequence);
    SealedParts(m, sequence);
    assert tail[..16] == HeaderSealed(m, sequence)[..16] == r[..16];
    LittleEndianExtends(tail[16..], 4);
    assert tail[16..] == r[16..20][..|tail| - 16] == r[16..|tail|];
    PrefixGrows(tail, r, 16);
    assert CutOf(tail, completed, sequence);
  }

  lemma ValueLengthCompletes(tail: seq<byte>, m: Mutation, offset: nat, sequence: u64)
    requires BeginsLike(tail, m, offset, sequence) && 20 < |tail| < 24
    requires FromLittleEndian(tail[20..]) <= if tail[5] == KIND_PUT then MAX_VALUE_BYTES else 0
    ensures IsCut(tail, sequence)
  {
    hide Checksum, Stored, LittleEndian, HeaderSealed, Known, FromLittleEndian, RecordBytes;
    var value := FromLittleEndian(tail[20..]);
    RecordFields(m, sequence);
    assert tail[5] == tail[..20][5] == HeaderSealed(m, sequence)[5] == RecordBytes(m, sequence)[..28][5];
    var completed := Sample(m.Put?, |m.key|, value);
    var r := RecordBytes(completed, sequence);
    RecordFields(completed, sequence);
    SealedParts(m, sequence);
    var sealed := HeaderSealed(m, sequence);
    assert tail[..20] == sealed[..20];
    assert sealed[..16] == r[..16] && sealed[16..20] == r[16..20];
    JoinFields(sealed, r, 16, 20);
    LittleEndianExtends(tail[20..], 4);
    assert tail[20..] == r[20..24][..|tail| - 20] == r[20..|tail|];
    PrefixGrows(tail, r, 20);
    assert CutOf(tail, completed, sequence);
  }

  lemma HeaderChecksumCompletes(tail: seq<byte>, m: Mutation, offset: nat, sequence: u64)
    requires BeginsLike(tail, m, offset, sequence) && 24 < |tail| < 28
    requires tail[24..] <= Stored(Checksum(tail[..24]))
    ensures IsCut(tail, sequence)
  {
    hide Checksum, Stored, LittleEndian, HeaderSealed, Known, RecordBytes;
    var r := RecordBytes(m, sequence);
    RecordFields(m, sequence);
    assert tail[..24] == HeaderSealed(m, sequence)[..24] == r[..28][..24] == r[..24];
    assert tail[24..] == r[24..28][..|tail| - 24] == r[24..|tail|];
    PrefixGrows(tail, r, 24);
    assert CutOf(tail, m, sequence);
  }

  /** The mutation of the declared kind whose payload is `payload`. */
  function WithPayload(put: bool, keyLength: nat, payload: seq<byte>): (m: Mutation)
    requires keyLength <= |payload| && (!put ==> keyLength == |payload|)
    ensures m.Put? == put && |m.key| == keyLength && ValueLength(m) == |payload| - keyLength && Payload(m) == payload
  {
    assert payload == payload[..keyLength] + payload[keyLength..];
    if put then Put(payload[..keyLength], payload[keyLength..]) else Delete(payload)
  }

  lemma PayloadCompletes(tail: seq<byte>, m: Mutation, offset: nat, sequence: u64, missing: seq<byte>)
    requires BeginsLike(tail, m, offset, sequence) && |tail| >= 28 && Completes(tail, missing)
    ensures IsCut(tail, sequence)
  {
    hide Checksum, Stored, LittleEndian, HeaderSealed, Known, RecordBytes, U32;
    var payload := PayloadPresent(tail) + missing;
    RecordFields(m, sequence);
    var sealed := HeaderSealed(m, sequence);
    assert tail[..28] == sealed;
    var declared := RecordBytes(m, sequence);
    assert tail[16..20] == tail[..28][16..20] == declared[..28][16..20] == declared[16..20];
    assert tail[20..24] == tail[..28][20..24] == declared[..28][20..24] == declared[20..24];
    assert |payload| == |m.key| + ValueLength(m);
    var completed := WithPayload(m.Put?, |m.key|, payload);
    SameSealed(m, completed, sequence);
    var r := RecordBytes(completed, sequence);
    RecordFields(completed, sequence);
    assert tail[..28] == r[..28];
    if |tail| <= 32 {
      assert tail[28..] == r[28..32][..|tail| - 28] == r[28..|tail|];
      PrefixGrows(tail, r, 28);
    } else {
      assert tail[28..32] == r[28..32];
      JoinFields(tail, r, 28, 32);
      assert tail[32..] == payload[..|tail| - 32] == r[32..][..|tail| - 32] == r[32..|tail|];
      PrefixGrows(tail, r, 32);
    }
    assert CutOf(tail, completed, sequence);
  }

  /**
   * A torn append is a cut of a record that the encoder writes exactly when the field it is cut in can be
   * completed: a length within its limit, the one header checksum, or a payload with the stored checksum.
   */
  lemma CutExactly(tail: seq<byte>, offset: nat, sequence: u64)
    requires TornAppend(tail, offset, sequence)
    ensures IsCut(tail, sequence) <==> CutFieldCompletes(tail)
  {
    hide BeginsLike, CutOf, CutFieldCompletes;
    if IsCut(tail, sequence) {
      var m :| CutOf(tail, m, sequence);
      CutCompletes(tail, m, sequence);
    }
    if CutFieldCompletes(tail) {
      var m :| BeginsLike(tail, m, offset, sequence);
      FieldCompletes(tail, m, offset, sequence);
    }
  }

  lemma FieldCompletes(tail: seq<byte>, m: Mutation, offset: nat, sequence: u64)
    requires BeginsLike(tail, m, offset, sequence) && CutFieldCompletes(tail)
    ensures IsCut(tail, sequence)
  {
    hide BeginsLike, CutOf, Completes, FromLittleEndian, Checksum, Stored;
    if |tail| <= 16 || |tail| == 20 {
      WholeFieldsAreCut(tail, m, offset, sequence);
    } else if |tail| < 20 {
      KeyLengthCompletes(tail, m, offset, sequence);
    } else if |tail| == 24 {
      WholeFieldsAreCut(tail, m, offset, sequence);
    } else if |tail| < 24 {
      ValueLengthCompletes(tail, m, offset, sequence);
    } else if |tail| < 28 {
      HeaderChecksumCompletes(tail, m, offset, sequence);
    } else {
      var missing :| Completes(tail, missing);
      PayloadCompletes(tail, m, offset, sequence, missing);
    }
  }

  /** With four payload bytes or more still to come, some payload has the stored checksum, whatever it is. */
  lemma MissingPayloadCompletes(tail: seq<byte>)
    requires |tail| >= 28 && |PayloadPresent(tail)| + 4 <= PayloadSize(tail)
    ensures CutFieldCompletes(tail)
  {
    hide Checksum, Stored, FromStored, U32;
    var before := tail[..28] + (PayloadPresent(tail) + Zeros(PayloadSize(tail) - |PayloadPresent(tail)| - 4));
    var stored := if |tail| < 32 then tail[28..] + Zeros(32 - |tail|) else tail[28..32];
    var last := ChecksumReaches(before, FromStored(stored));
    StoredEncodes(stored);
    var missing := Zeros(PayloadSize(tail) - |PayloadPresent(tail)| - 4) + last;
    assert before + last == tail[..28] + (PayloadPresent(tail) + missing);
    assert tail[28..Least(|tail|, 32)] <= stored;
    assert Completes(tail, missing);
  }

  lemma ChecksumReaches(before: seq<byte>, crc: Word32) returns (last: seq<byte>)
    ensures |last| == 4 && Checksum(before + last) == crc
  {
    last := FourBytesReach(Update(INITIAL, before), Not(crc));
    UpdateConcat(INITIAL, before, last);
    NotTwice(crc);
  }

  lemma NotTwice(a: Word32)
    ensures Not(Not(a)) == a
  {
  }

  /** Not every tail the scanner takes is left by an interrupted append: half a key length that is too large. */
  lemma HalfKeyLengthIsNoCut(offset: nat, sequence: u64)
    ensures var tail := Known(KIND_PUT, sequence) + [0xff, 0xff];
            NextRecord(tail, offset, sequence).TornTail? && !IsCut(tail, sequence)
  {
    hide Checksum, Stored, FromStored, LittleEndian, HeaderSealed, Known, RecordBytes, NextRecord;
    var tail := Known(KIND_PUT, sequence) + [0xff, 0xff];
    var m := Put([], []);
    SealedParts(m, sequence);
    assert tail[..16] == HeaderSealed(m, sequence)[..16] <= HeaderSealed(m, sequence);
    assert BeginsLike(tail, m, offset, sequence);
    TornTailExactly(tail, offset, sequence);
    CutExactly(tail, offset, sequence);
    assert tail[16..] == [0xff, 0xff] && [0xff, 0xff][1..] == [0xff] && [0xff][1..] == [];
    assert FromLittleEndian([0xff]) == 0xff;
    assert FromLittleEndian([0xff, 0xff]) == 0xffff;
  }
}
