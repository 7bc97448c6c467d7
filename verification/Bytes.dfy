/** Conversions between the halves of a byte and their bits. */
module ByteBits {

  lemma ToBitsAndBack(b: int)
    requires 0 <= b < 16
    ensures (b as bv4) as int == b
  {
  }

  lemma ToIntAndBack(v: bv4)
    ensures 0 <= v as int < 16 && (v as int) as bv4 == v
  {
  }

  lemma SameHalves(high: bv4, low: bv4, otherHigh: bv4, otherLow: bv4)
    requires (high as bv32 << 4) | low as bv32 == (otherHigh as bv32 << 4) | otherLow as bv32
    ensures high == otherHigh && low == otherLow
  {
  }
}

/** Bytes, little-endian fixed-width integers and the bytewise key order shared by every storage format. */
module Bytes {

  type byte = x: int | 0 <= x < 256

  const U16_LIMIT: nat := 0x1_0000
  const U32_LIMIT: nat := 0x1_0000_0000
  const U64_LIMIT: nat := 0x1_0000_0000_0000_0000

  type u16 = n: int | 0 <= n < 0x1_0000
  type u32 = n: int | 0 <= n < 0x1_0000_0000
  type u64 = n: int | 0 <= n < 0x1_0000_0000_0000_0000

  function Zeros(n: nat): (zeros: seq<byte>)
    ensures |zeros| == n
    ensures forall i :: 0 <= i < n ==> zeros[i] == 0
  {
    seq(n, i requires 0 <= i < n => 0)
  }

  /** `n.to_le_bytes()` for an unsigned integer of `width` bytes; bits above the width are dropped. */
  function LittleEndian(n: nat, width: nat): (bytes: seq<byte>)
    ensures |bytes| == width
  {
    if width == 0 then [] else [n % 256] + LittleEndian(n / 256, width - 1)
  }

  /** `from_le_bytes`, at whatever width the slice has. */
  function FromLittleEndian(bytes: seq<byte>): nat {
    if bytes == [] then 0 else bytes[0] + 256 * FromLittleEndian(bytes[1..])
  }

  function Power256(width: nat): nat {
    if width == 0 then 1 else 256 * Power256(width - 1)
  }

  lemma WidthLimits()
    ensures Power256(1) == 256
    ensures Power256(2) == U16_LIMIT
    ensures Power256(4) == U32_LIMIT
    ensures Power256(8) == U64_LIMIT
  {
    assert Power256(3) == 256 * Power256(2);
    assert Power256(4) == 256 * Power256(3);
    assert Power256(6) == 256 * Power256(5);
    assert Power256(5) == 256 * Power256(4);
    assert Power256(8) == 256 * Power256(7);
    assert Power256(7) == 256 * Power256(6);
  }

  lemma {:induction false} LittleEndianDecodes(n: nat, width: nat)
    requires n < Power256(width)
    ensures FromLittleEndian(LittleEndian(n, width)) == n
  {
    if width > 0 {
      assert n / 256 < Power256(width - 1);
      LittleEndianDecodes(n / 256, width - 1);
      assert LittleEndian(n, width)[1..] == LittleEndian(n / 256, width - 1);
    }
  }

  lemma DigitSplit(low: byte, high: nat)
    ensures (low + 256 * high) % 256 == low
    ensures (low + 256 * high) / 256 == high
  {
  }

  lemma {:induction false} LittleEndianEncodes(bytes: seq<byte>)
    ensures FromLittleEndian(bytes) < Power256(|bytes|)
    ensures LittleEndian(FromLittleEndian(bytes), |bytes|) == bytes
  {
    if bytes != [] {
      LittleEndianEncodes(bytes[1..]);
      DigitSplit(bytes[0], FromLittleEndian(bytes[1..]));
    }
  }

  function U16(bytes: seq<byte>): (n: u16)
    requires |bytes| == 2
  {
    WidthLimits();
    LittleEndianEncodes(bytes);
    FromLittleEndian(bytes)
  }

  function U32(bytes: seq<byte>): (n: u32)
    requires |bytes| == 4
  {
    WidthLimits();
    LittleEndianEncodes(bytes);
    FromLittleEndian(bytes)
  }

  function U64(bytes: seq<byte>): (n: u64)
    requires |bytes| == 8
  {
    WidthLimits();
    LittleEndianEncodes(bytes);
    FromLittleEndian(bytes)
  }

  lemma U16RoundTrip(n: u16)
    ensures U16(LittleEndian(n, 2)) == n
  {
    WidthLimits();
    LittleEndianDecodes(n, 2);
  }

  lemma U32RoundTrip(n: u32)
    ensures U32(LittleEndian(n, 4)) == n
  {
    WidthLimits();
    LittleEndianDecodes(n, 4);
  }

  lemma U64RoundTrip(n: u64)
    ensures U64(LittleEndian(n, 8)) == n
  {
    WidthLimits();
    LittleEndianDecodes(n, 8);
  }

  lemma U16Canonical(bytes: seq<byte>)
    requires |bytes| == 2
    ensures LittleEndian(U16(bytes), 2) == bytes
  {
    LittleEndianEncodes(bytes);
  }

  lemma U32Canonical(bytes: seq<byte>)
    requires |bytes| == 4
    ensures LittleEndian(U32(bytes), 4) == bytes
  {
    LittleEndianEncodes(bytes);
  }

  lemma U64Canonical(bytes: seq<byte>)
    requires |bytes| == 8
    ensures LittleEndian(U64(bytes), 8) == bytes
  {
    LittleEndianEncodes(bytes);
  }

  /** `buffer[at..at + source.len()].copy_from_slice(source)`. */
  method CopyInto(buffer: array<byte>, at: nat, source: seq<byte>)
    requires at + |source| <= buffer.Length
    modifies buffer
    ensures buffer[..at + |source|] == old(buffer[..at]) + source
    ensures buffer[at + |source|..] == old(buffer[at + |source|..])
  {
    forall i | 0 <= i < |source| {
      buffer[at + i] := source[i];
    }
  }

  /** Rust's slice order: compare byte by byte, a proper prefix sorts first. */
  predicate Less(a: seq<byte>, b: seq<byte>) {
    b != [] && (a == [] || a[0] < b[0] || (a[0] == b[0] && Less(a[1..], b[1..])))
  }

  predicate LessEq(a: seq<byte>, b: seq<byte>) {
    a == b || Less(a, b)
  }

  lemma {:induction false} LessIrreflexive(a: seq<byte>)
    ensures !Less(a, a)
  {
    if a != [] { LessIrreflexive(a[1..]); }
  }

  lemma {:induction false} LessTransitive(a: seq<byte>, b: seq<byte>, c: seq<byte>)
    requires Less(a, b) && Less(b, c)
    ensures Less(a, c)
  {
    if a != [] && a[0] == b[0] == c[0] { LessTransitive(a[1..], b[1..], c[1..]); }
  }

  lemma {:induction false} LessTotal(a: seq<byte>, b: seq<byte>)
    ensures Less(a, b) || a == b || Less(b, a)
  {
    if a != [] && b != [] && a[0] == b[0] {
      LessTotal(a[1..], b[1..]);
      assert a == [a[0]] + a[1..] && b == [b[0]] + b[1..];
    }
  }

  lemma LessAsymmetric(a: seq<byte>, b: seq<byte>)
    requires Less(a, b)
    ensures a != b && !Less(b, a)
  {
    LessIrreflexive(a);
    if Less(b, a) { LessTransitive(a, b, a); }
  }
}
