/** The CRC-32 of section 8 of RFC 1952 (polynomial of section 3.2.9 of IEEE 802.3), reflected. */
module Crc32 {
  import opened Bytes
  import ByteBits

  /** A `u32` register. The wrapper keeps bit-vector reasoning inside the small lemmas below. */
  datatype Word32 = Word32(bits: bv32)

  const ZERO := Word32(0)
  const POLYNOMIAL := Word32(0xedb8_8320)
  const INITIAL := Word32(0xffff_ffff)

  function Xor(a: Word32, b: Word32): Word32 { Word32(a.bits ^ b.bits) }

  function Not(a: Word32): Word32 { Word32(!a.bits) }

  predicate Odd(a: Word32) { a.bits & 1 == 1 }

  function Half(a: Word32): Word32 { Word32(a.bits >> 1) }

  function HighBytes(a: Word32): Word32 { Word32(a.bits & 0xffff_ff00) }

  function LowByte(a: Word32): Word32 { Word32(a.bits & 0xff) }

  function DropByte(a: Word32): Word32 { Word32(a.bits >> 8) }

  function PushByte(a: Word32): Word32 { Word32(a.bits << 8) }

  /** `u32::from(byte)`, put together from the byte's two halves. */
  function Widen(b: byte): Word32 {
    Word32((((b / 16) as bv4) as bv32 << 4) | ((b % 16) as bv4) as bv32)
  }

  /** The low byte, `as u8`. */
  function Narrow(a: Word32): byte {
    16 * (((a.bits >> 4) & 0xf) as bv4) as int + ((a.bits & 0xf) as bv4) as int
  }

  // ---------- the bit-by-bit definition ----------

  function ShiftBit(c: Word32): Word32 {
    if Odd(c) then Xor(Half(c), POLYNOMIAL) else Half(c)
  }

  function Shift(c: Word32, bits: nat): Word32
    decreases bits
  {
    if bits == 0 then c else Shift(ShiftBit(c), bits - 1)
  }

  /** Feeds `bytes` into the register one bit at a time. */
  function Update(c: Word32, bytes: seq<byte>): Word32
    decreases |bytes|
  {
    if bytes == [] then c else Update(Shift(Xor(c, Widen(bytes[0])), 8), bytes[1..])
  }

  function Checksum(bytes: seq<byte>): Word32 {
    Not(Update(INITIAL, bytes))
  }

  /** A published value: the checksum of the one letter "a". */
  lemma CheckValue()
    ensures Checksum([0x61]) == Word32(0xe8b7_be43)
  {
    var c := Xor(INITIAL, Widen(0x61));
    assert Shift(c, 8) == Shift(ShiftBit(ShiftBit(ShiftBit(ShiftBit(c)))), 4);
  }

  // ---------- stored form ----------

  /** `u32::from_le_bytes`, also for groups shorter than four bytes. */
  function FromStored(bytes: seq<byte>): Word32
    requires |bytes| <= 4
  {
    if bytes == [] then ZERO else Xor(Widen(bytes[0]), PushByte(FromStored(bytes[1..])))
  }

  /** `u32::to_le_bytes`. */
  function Stored(a: Word32): (bytes: seq<byte>)
    ensures |bytes| == 4
  {
    [Narrow(a), Narrow(DropByte(a)), Narrow(DropByte(DropByte(a))),
     Narrow(DropByte(DropByte(DropByte(a))))]
  }

  // ---------- bit-vector facts ----------

  lemma XorAssociates(a: Word32, b: Word32, c: Word32)
    ensures Xor(Xor(a, b), c) == Xor(a, Xor(b, c))
  {
  }

  lemma XorCommutes(a: Word32, b: Word32)
    ensures Xor(a, b) == Xor(b, a)
  {
  }

  lemma XorUnits(a: Word32)
    ensures Xor(a, ZERO) == a
    ensures Xor(ZERO, a) == a
    ensures Xor(a, a) == ZERO
  {
  }

  lemma XorCancels(a: Word32, b: Word32, c: Word32)
    requires Xor(a, b) == Xor(a, c)
    ensures b == c
  {
    XorAssociates(a, a, b);
    XorAssociates(a, a, c);
    XorUnits(a);
    XorUnits(b);
    XorUnits(c);
  }

  lemma HalfLinear(a: Word32, b: Word32)
    ensures Half(Xor(a, b)) == Xor(Half(a), Half(b))
    ensures Odd(Xor(a, b)) == (Odd(a) != Odd(b))
  {
  }

  lemma ShiftBitInjective(a: Word32, b: Word32)
    requires ShiftBit(a) == ShiftBit(b)
    ensures a == b
  {
  }

  lemma XorSwaps(h: Word32, k: Word32, p: Word32)
    ensures Xor(Xor(h, k), p) == Xor(Xor(h, p), k)
  {
    XorAssociates(h, k, p);
    XorCommutes(k, p);
    XorAssociates(h, p, k);
  }

  lemma XorPairCancels(h: Word32, k: Word32, p: Word32)
    ensures Xor(Xor(h, p), Xor(k, p)) == Xor(h, k)
  {
    XorAssociates(h, p, Xor(k, p));
    XorCommutes(k, p);
    XorAssociates(p, p, k);
    XorUnits(p);
    XorUnits(k);
  }

  lemma ShiftBitLinear(a: Word32, b: Word32)
    ensures ShiftBit(Xor(a, b)) == Xor(ShiftBit(a), ShiftBit(b))
  {
    HalfLinear(a, b);
    XorAssociates(Half(a), Half(b), POLYNOMIAL);
    XorSwaps(Half(a), Half(b), POLYNOMIAL);
    XorPairCancels(Half(a), Half(b), POLYNOMIAL);
  }

  lemma {:induction false} ShiftLinear(a: Word32, b: Word32, bits: nat)
    ensures Shift(Xor(a, b), bits) == Xor(Shift(a, bits), Shift(b, bits))
    decreases bits
  {
    if bits > 0 {
      ShiftBitLinear(a, b);
      ShiftLinear(ShiftBit(a), ShiftBit(b), bits - 1);
    }
  }

  lemma {:induction false} ShiftInjective(a: Word32, b: Word32, bits: nat)
    requires Shift(a, bits) == Shift(b, bits)
    ensures a == b
    decreases bits
  {
    if bits > 0 {
      ShiftInjective(ShiftBit(a), ShiftBit(b), bits - 1);
      ShiftBitInjective(a, b);
    }
  }

  /** One bit step backwards: the top bit tells whether the polynomial was mixed in. */
  function UnshiftBit(c: Word32): Word32 {
    if TopBit(c) then Doubled(Xor(c, POLYNOMIAL), true) else Doubled(c, false)
  }

  predicate TopBit(a: Word32) { a.bits & 0x8000_0000 != 0 }

  /** One bit to the left, with the given low bit. */
  function Doubled(a: Word32, low: bool): Word32 { Word32((a.bits << 1) | if low then 1 else 0) }

  lemma HalfOfDoubled(a: Word32, low: bool)
    requires !TopBit(a)
    ensures Half(Doubled(a, low)) == a && Odd(Doubled(a, low)) == low
  {
  }

  lemma PolynomialFlipsTop(a: Word32)
    ensures TopBit(Xor(a, POLYNOMIAL)) == !TopBit(a)
  {
  }

  lemma UnshiftBitInverts(c: Word32)
    ensures ShiftBit(UnshiftBit(c)) == c
  {
    hide Xor, TopBit, Doubled, Half, Odd;
    PolynomialFlipsTop(c);
    if TopBit(c) {
      HalfOfDoubled(Xor(c, POLYNOMIAL), true);
      XorAssociates(c, POLYNOMIAL, POLYNOMIAL);
      XorUnits(POLYNOMIAL);
      XorUnits(c);
    } else {
      HalfOfDoubled(c, false);
    }
  }

  /** Every register is reached by any number of bit steps. */
  lemma {:induction false} ShiftReaches(target: Word32, bits: nat) returns (from: Word32)
    ensures Shift(from, bits) == target
    decreases bits
  {
    from := target;
    if bits > 0 {
      UnshiftBitInverts(target);
      var last := ShiftReaches(UnshiftBit(target), bits - 1);
      ShiftCompose(last, bits - 1, 1);
      assert Shift(UnshiftBit(target), 1) == ShiftBit(UnshiftBit(target)) by {
        assert Shift(ShiftBit(UnshiftBit(target)), 0) == ShiftBit(UnshiftBit(target));
      }
      from := last;
    }
  }

  lemma {:induction false} ShiftCompose(c: Word32, first: nat, second: nat)
    ensures Shift(Shift(c, first), second) == Shift(c, first + second)
    decreases first
  {
    if first > 0 { ShiftCompose(ShiftBit(c), first - 1, second); }
  }

  predicate LowBitsClear(a: Word32, bits: nat)
    decreases bits
  {
    bits == 0 || (!Odd(a) && LowBitsClear(Half(a), bits - 1))
  }

  function Halves(a: Word32, times: nat): Word32
    decreases times
  {
    if times == 0 then a else Halves(Half(a), times - 1)
  }

  lemma {:induction false} ShiftClearBits(a: Word32, bits: nat)
    requires LowBitsClear(a, bits)
    ensures Shift(a, bits) == Halves(a, bits)
    decreases bits
  {
    if bits > 0 { ShiftClearBits(Half(a), bits - 1); }
  }

  lemma HalfOfClear(a: Word32)
    ensures a.bits & 0xff == 0 ==> !Odd(a) && Half(a).bits & 0x7f == 0
    ensures a.bits & 0x7f == 0 ==> !Odd(a) && Half(a).bits & 0x3f == 0
    ensures a.bits & 0x3f == 0 ==> !Odd(a) && Half(a).bits & 0x1f == 0
    ensures a.bits & 0x1f == 0 ==> !Odd(a) && Half(a).bits & 0x0f == 0
    ensures a.bits & 0x0f == 0 ==> !Odd(a) && Half(a).bits & 0x07 == 0
    ensures a.bits & 0x07 == 0 ==> !Odd(a) && Half(a).bits & 0x03 == 0
    ensures a.bits & 0x03 == 0 ==> !Odd(a) && Half(a).bits & 0x01 == 0
    ensures a.bits & 0x01 == 0 ==> !Odd(a)
  {
  }

  lemma HalfEight(a: Word32)
    ensures Half(Half(Half(Half(Half(Half(Half(Half(a)))))))) == DropByte(a)
  {
  }

  lemma HalvesEight(a: Word32)
    ensures Halves(a, 8) == DropByte(a)
  {
    HalfEight(a);
    var h2 := Half(Half(a));
    var h4 := Half(Half(h2));
    var h6 := Half(Half(h4));
    assert Halves(a, 8) == Halves(h2, 6);
    assert Halves(h2, 6) == Halves(h4, 4);
    assert Halves(h4, 4) == Halves(h6, 2);
    assert Halves(h6, 2) == Half(Half(h6));
  }

  lemma ByteIsClear(a: Word32)
    requires LowByte(a) == ZERO
    ensures LowBitsClear(a, 8)
  {
    var h1 := Half(a);
    var h2 := Half(h1);
    var h3 := Half(h2);
    var h4 := Half(h3);
    var h5 := Half(h4);
    var h6 := Half(h5);
    var h7 := Half(h6);
    HalfOfClear(a);
    HalfOfClear(h1);
    HalfOfClear(h2);
    HalfOfClear(h3);
    HalfOfClear(h4);
    HalfOfClear(h5);
    HalfOfClear(h6);
    HalfOfClear(h7);
    assert LowBitsClear(h7, 1);
    assert LowBitsClear(h5, 3);
    assert LowBitsClear(h3, 5);
    assert LowBitsClear(h1, 7);
  }

  /** A register whose low byte is clear moves right by one byte without meeting the polynomial. */
  lemma ShiftClearByte(a: Word32)
    requires LowByte(a) == ZERO
    ensures Shift(a, 8) == DropByte(a)
  {
    ByteIsClear(a);
    ShiftClearBits(a, 8);
    HalvesEight(a);
  }

  lemma SplitByte(a: Word32)
    ensures a == Xor(HighBytes(a), LowByte(a))
  {
  }

  lemma HighBytesClear(a: Word32)
    ensures LowByte(HighBytes(a)) == ZERO
  {
  }

  lemma DropHighBytes(a: Word32)
    ensures DropByte(HighBytes(a)) == DropByte(a)
  {
  }

  // ---------- the table form ----------

  lemma XorLowByte(c: Word32, b: byte)
    ensures DropByte(Xor(c, Widen(b))) == DropByte(c)
  {
  }

  /** One table lookup replaces eight bit steps. */
  lemma TableStep(c: Word32, b: byte)
    ensures Shift(Xor(c, Widen(b)), 8) == Xor(DropByte(c), Shift(LowByte(Xor(c, Widen(b))), 8))
  {
    var x := Xor(c, Widen(b));
    SplitByte(x);
    HighBytesClear(x);
    DropHighBytes(x);
    ShiftLinear(HighBytes(x), LowByte(x), 8);
    ShiftClearByte(HighBytes(x));
    XorLowByte(c, b);
  }

  predicate IsTable(table: seq<Word32>) {
    |table| == 256 && forall i: byte :: table[i] == Shift(Widen(i), 8)
  }

  /** `build_crc32_table`: eight conditional shifts for every table index. */
  method BuildCrc32Table() returns (table: array<Word32>)
    ensures fresh(table)
    ensures IsTable(table[..])
  {
    table := new Word32[256];
    var index: int := 0;
    while index < 256
      invariant 0 <= index <= 256
      invariant forall i: byte :: i < index ==> table[i] == Shift(Widen(i), 8)
    {
      var crc := Widen(index);
      var bit := 0;
      while bit < 8
        invariant 0 <= bit <= 8
        invariant Shift(crc, 8 - bit) == Shift(Widen(index), 8)
      {
        crc := if Odd(crc) then Xor(Half(crc), POLYNOMIAL) else Half(crc);
        bit := bit + 1;
      }
      table[index] := crc;
      index := index + 1;
    }
  }

  lemma LowByteHalves(a: Word32)
    ensures Word32((((a.bits >> 4) & 0xf) as bv4 as bv32 << 4) | ((a.bits & 0xf) as bv4) as bv32) == LowByte(a)
  {
  }

  lemma WidenNarrow(a: Word32)
    ensures Widen(Narrow(a)) == LowByte(a)
  {
    var high, low := ((a.bits >> 4) & 0xf) as bv4, (a.bits & 0xf) as bv4;
    ByteBits.ToIntAndBack(high);
    ByteBits.ToIntAndBack(low);
    assert Narrow(a) / 16 == high as int && Narrow(a) % 16 == low as int;
    LowByteHalves(a);
  }

  lemma {:induction false} UpdateConcat(c: Word32, a: seq<byte>, b: seq<byte>)
    ensures Update(c, a + b) == Update(Update(c, a), b)
    decreases |a|
  {
    if a == [] {
      assert a + b == b;
    } else {
      assert (a + b)[1..] == a[1..] + b;
      UpdateConcat(Shift(Xor(c, Widen(a[0])), 8), a[1..], b);
    }
  }

  /** Streaming hasher over the lookup table. */
  class Crc32Ieee {
    var state: Word32
    const table: array<Word32>

    ghost predicate Valid()
      reads this, table
    {
      IsTable(table[..])
    }

    constructor ()
      ensures Valid() && fresh(table)
      ensures state == INITIAL
    {
      var built := BuildCrc32Table();
      table := built;
      state := INITIAL;
    }

    /** The state after any run of calls is the bitwise register after the concatenated input. */
    method Feed(bytes: seq<byte>)
      requires Valid()
      modifies this
      ensures Valid()
      ensures state == Update(old(state), bytes)
    {
      var i := 0;
      assert bytes[..0] == [];
      while i < |bytes|
        invariant 0 <= i <= |bytes|
        invariant state == Update(old(state), bytes[..i])
        invariant Valid()
      {
        var index := Narrow(Xor(state, Widen(bytes[i])));
        WidenNarrow(Xor(state, Widen(bytes[i])));
        TableStep(state, bytes[i]);
        assert table[..][index] == table[index];
        ghost var before := state;
        state := Xor(DropByte(state), table[index]);
        assert bytes[..i + 1] == bytes[..i] + [bytes[i]];
        UpdateConcat(old(state), bytes[..i], [bytes[i]]);
        assert state == Update(before, [bytes[i]]);
        i := i + 1;
      }
      assert bytes[..i] == bytes;
    }

    function Finalize(): Word32
      reads this
    {
      Not(state)
    }
  }

  /** Any division of the input into chunks streams to the one-shot checksum, through the table. */
  method StreamedChecksum(chunks: seq<seq<byte>>) returns (crc: Word32)
    ensures crc == Checksum(Flatten(chunks))
  {
    var hasher := new Crc32Ieee();
    var i := 0;
    while i < |chunks|
      invariant 0 <= i <= |chunks|
      invariant hasher.Valid() && fresh(hasher)
      invariant Update(hasher.state, Flatten(chunks[i..])) == Update(INITIAL, Flatten(chunks))
    {
      UpdateConcat(hasher.state, chunks[i], Flatten(chunks[i + 1..]));
      assert chunks[i..][1..] == chunks[i + 1..];
      hasher.Feed(chunks[i]);
      i := i + 1;
    }
    crc := hasher.Finalize();
  }

  function Flatten(chunks: seq<seq<byte>>): seq<byte> {
    if chunks == [] then [] else chunks[0] + Flatten(chunks[1..])
  }

  // ---------- burst detection ----------

  lemma WordTopClear(a: Word32)
    requires a.bits < 0x0100_0000
    ensures LowByte(PushByte(a)) == ZERO
    ensures DropByte(PushByte(a)) == a
  {
  }

  lemma WidenPush(b: byte, a: Word32)
    ensures Xor(Widen(b), PushByte(a)).bits & 0xff == Widen(b).bits
    ensures a.bits < 0x1 ==> Xor(Widen(b), PushByte(a)).bits < 0x100
    ensures a.bits < 0x100 ==> Xor(Widen(b), PushByte(a)).bits < 0x1_0000
    ensures a.bits < 0x1_0000 ==> Xor(Widen(b), PushByte(a)).bits < 0x100_0000
  {
  }

  lemma {:induction false} FromStoredBound(bytes: seq<byte>)
    requires |bytes| <= 3
    ensures FromStored(bytes).bits < 0x100_0000
    ensures |bytes| <= 2 ==> FromStored(bytes).bits < 0x1_0000
    ensures |bytes| <= 1 ==> FromStored(bytes).bits < 0x100
    ensures |bytes| == 0 ==> FromStored(bytes).bits < 0x1
    decreases |bytes|
  {
    if bytes != [] {
      FromStoredBound(bytes[1..]);
      WidenPush(bytes[0], FromStored(bytes[1..]));
    }
  }

  /** Up to four bytes enter the register as one xor followed by plain shifting. */
  lemma {:induction false} UpdateGroup(c: Word32, bytes: seq<byte>)
    requires |bytes| <= 4
    ensures Update(c, bytes) == Shift(Xor(c, FromStored(bytes)), 8 * |bytes|)
    decreases |bytes|
  {
    if bytes == [] {
      XorUnits(c);
    } else {
      var rest := bytes[1..];
      var w := FromStored(rest);
      var x := Xor(c, Widen(bytes[0]));
      UpdateGroup(Shift(x, 8), rest);
      FromStoredBound(rest);
      WordTopClear(w);
      ShiftClearByte(PushByte(w));
      ShiftLinear(x, PushByte(w), 8);
      XorAssociates(c, Widen(bytes[0]), PushByte(w));
      ShiftCompose(Xor(c, FromStored(bytes)), 8, 8 * |rest|);
    }
  }

  lemma StoredGroupSplit(x: byte, v: Word32, y: byte, w: Word32)
    requires v.bits < 0x100_0000 && w.bits < 0x100_0000
    requires Xor(Widen(x), PushByte(v)) == Xor(Widen(y), PushByte(w))
    ensures Widen(x) == Widen(y) && v == w
  {
    WidenPush(x, v);
    WidenPush(y, w);
    assert Widen(x) == Widen(y);
    XorCancels(Widen(x), PushByte(v), PushByte(w));
    WordTopClear(v);
    WordTopClear(w);
  }

  lemma WidenInjective(a: byte, b: byte)
    requires Widen(a) == Widen(b)
    ensures a == b
  {
    ByteBits.ToBitsAndBack(a / 16);
    ByteBits.ToBitsAndBack(b / 16);
    ByteBits.ToBitsAndBack(a % 16);
    ByteBits.ToBitsAndBack(b % 16);
    ByteBits.SameHalves((a / 16) as bv4, (a % 16) as bv4, (b / 16) as bv4, (b % 16) as bv4);
  }

  lemma {:induction false} FromStoredInjective(a: seq<byte>, b: seq<byte>)
    requires |a| == |b| <= 4
    requires FromStored(a) == FromStored(b)
    ensures a == b
    decreases |a|
  {
    if a != [] {
      FromStoredBound(a[1..]);
      FromStoredBound(b[1..]);
      StoredGroupSplit(a[0], FromStored(a[1..]), b[0], FromStored(b[1..]));
      WidenInjective(a[0], b[0]);
      FromStoredInjective(a[1..], b[1..]);
      assert a == [a[0]] + a[1..] && b == [b[0]] + b[1..];
    }
  }

  /** Distinct registers stay distinct through any common suffix. */
  lemma {:induction false} UpdateInjective(c: Word32, d: Word32, bytes: seq<byte>)
    requires Update(c, bytes) == Update(d, bytes)
    ensures c == d
    decreases |bytes|
  {
    if bytes != [] {
      var b := Widen(bytes[0]);
      UpdateInjective(Shift(Xor(c, b), 8), Shift(Xor(d, b), 8), bytes[1..]);
      ShiftInjective(Xor(c, b), Xor(d, b), 8);
      XorCommutes(c, b);
      XorCommutes(d, b);
      XorCancels(b, c, d);
    }
  }

  /** Two inputs of one length that differ only inside four consecutive bytes never collide. */
  lemma BurstNeverCollides(c: Word32, prefix: seq<byte>, a: seq<byte>, b: seq<byte>, suffix: seq<byte>)
    requires |a| == |b| <= 4
    requires a != b
    ensures Update(c, prefix + a + suffix) != Update(c, prefix + b + suffix)
  {
    if Update(c, prefix + a + suffix) == Update(c, prefix + b + suffix) {
      var p := Update(c, prefix);
      UpdateConcat(c, prefix + a, suffix);
      UpdateConcat(c, prefix, a);
      UpdateConcat(c, prefix + b, suffix);
      UpdateConcat(c, prefix, b);
      UpdateInjective(Update(p, a), Update(p, b), suffix);
      UpdateGroup(p, a);
      UpdateGroup(p, b);
      ShiftInjective(Xor(p, FromStored(a)), Xor(p, FromStored(b)), 8 * |a|);
      XorCancels(p, FromStored(a), FromStored(b));
      FromStoredInjective(a, b);
      assert false;
    }
  }

  /** Four bytes that can be chosen freely lead from any register to any other. */
  lemma FourBytesReach(c: Word32, target: Word32) returns (bytes: seq<byte>)
    ensures |bytes| == 4 && Update(c, bytes) == target
  {
    var word := ShiftReaches(target, 32);
    bytes := Stored(Xor(c, word));
    StoredDecodes(Xor(c, word));
    XorAssociates(c, c, word);
    XorUnits(c);
    XorUnits(word);
    XorCommutes(ZERO, word);
    UpdateGroup(c, bytes);
  }

  // ---------- a checksum appended to its own input ----------

  lemma StoredBits(a: Word32)
    ensures Xor(LowByte(a), PushByte(DropByte(a))) == a
    ensures LowByte(DropByte(DropByte(DropByte(a)))) == DropByte(DropByte(DropByte(a)))
  {
  }

  lemma StoredDecodes(a: Word32)
    ensures FromStored(Stored(a)) == a
  {
    var b := DropByte(a);
    var c := DropByte(b);
    var d := DropByte(c);
    var s := Stored(a);
    WidenNarrow(a);
    WidenNarrow(b);
    WidenNarrow(c);
    WidenNarrow(d);
    StoredBits(a);
    StoredBits(b);
    StoredBits(c);
    assert PushByte(ZERO) == ZERO;
    XorUnits(d);
    assert s[3..] == [Narrow(d)] && s[3..][1..] == [];
    assert FromStored(s[3..]) == d;
    assert s[2..][1..] == s[3..];
    assert FromStored(s[2..]) == c;
    assert s[1..][1..] == s[2..];
    assert FromStored(s[1..]) == b;
  }

  lemma StoredEncodes(bytes: seq<byte>)
    requires |bytes| == 4
    ensures Stored(FromStored(bytes)) == bytes
  {
    StoredDecodes(FromStored(bytes));
    FromStoredInjective(Stored(FromStored(bytes)), bytes);
  }

  lemma XorWithNot(a: Word32)
    ensures Xor(a, Not(a)) == INITIAL
  {
  }

  /**
   * A stored checksum matches its input exactly when feeding both leaves a fixed residue, so a check
   * of the stored field is a property of the register after the whole block.
   */
  lemma ChecksumResidue(input: seq<byte>, stored: seq<byte>)
    requires |stored| == 4
    ensures FromStored(stored) == Checksum(input) <==>
            Update(INITIAL, input + stored) == Shift(INITIAL, 32)
  {
    var c := Update(INITIAL, input);
    UpdateConcat(INITIAL, input, stored);
    UpdateGroup(c, stored);
    XorWithNot(c);
    if Update(INITIAL, input + stored) == Shift(INITIAL, 32) {
      ShiftInjective(Xor(c, FromStored(stored)), INITIAL, 32);
      XorCancels(c, FromStored(stored), Not(c));
    }
  }

  /** The last four bytes of `block` store the checksum of everything before them. */
  predicate Sealed(block: seq<byte>)
    requires |block| >= 4
  {
    FromStored(block[|block| - 4..]) == Checksum(block[..|block| - 4])
  }

  lemma SealedResidue(block: seq<byte>)
    requires |block| >= 4
    ensures Sealed(block) <==> Update(INITIAL, block) == Shift(INITIAL, 32)
  {
    var input, stored := block[..|block| - 4], block[|block| - 4..];
    ChecksumResidue(input, stored);
    assert input + stored == block;
  }

  /** No change confined to four consecutive bytes of a sealed block leaves it sealed. */
  lemma TamperedBlockIsRejected(prefix: seq<byte>, before: seq<byte>, after: seq<byte>, suffix: seq<byte>)
    requires |before| == |after| <= 4 && before != after
    requires |prefix + before + suffix| >= 4
    requires Sealed(prefix + before + suffix)
    ensures !Sealed(prefix + after + suffix)
  {
    SealedResidue(prefix + before + suffix);
    SealedResidue(prefix + after + suffix);
    BurstNeverCollides(INITIAL, prefix, before, after, suffix);
  }
}
