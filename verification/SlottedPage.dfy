/** The byte image of one data page: header, growing slot array, zeroed gap and packed cells. */
module SlottedPage {
  import opened Options
  import opened Bytes
  import opened SplitArithmetic
  import opened BtreePages
  import Superblocks
  import Crc32

  datatype PageKind = LeafKind | InternalKind | OverflowKind

  const PAGE_MAGIC: seq<byte> := [66, 84, 80, 71] // "BTPG"
  const FORMAT_VERSION: byte := 1

  /** Where one cell lies in the page. */
  datatype Range = Range(start: nat, end: nat)

  // ---------- reading fields ----------

  function Lower(b: seq<byte>): nat requires |b| == PAGE_SIZE { U16(b[24..26]) }
  function Upper(b: seq<byte>): nat requires |b| == PAGE_SIZE { U16(b[26..28]) }
  function Count(b: seq<byte>): nat requires |b| == PAGE_SIZE { U16(b[28..30]) }
  function Link(b: seq<byte>): nat requires |b| == PAGE_SIZE { U64(b[32..40]) }

  function EncodeKind(kind: PageKind): byte {
    match kind
    case LeafKind => 1
    case InternalKind => 2
    case OverflowKind => 3
  }

  function DecodeKind(b: byte): Option<PageKind> {
    if b == 1 then Some(LeafKind) else if b == 2 then Some(InternalKind) else if b == 3 then Some(OverflowKind)
    else None
  }

  /** The slot array lies before the checksum. */
  predicate SlotsInside(b: seq<byte>) {
    |b| == PAGE_SIZE && DATA_HEADER_LEN + Count(b) * SLOT_LEN <= CHECKSUM_OFFSET
  }

  function Slot(b: seq<byte>, i: nat): Range
    requires SlotsInside(b) && i < Count(b)
  {
    var at := DATA_HEADER_LEN + i * SLOT_LEN;
    Range(U16(b[at..at + 2]), U16(b[at..at + 2]) + U16(b[at + 2..at + 4]))
  }

  function Ranges(b: seq<byte>): (ranges: seq<Range>)
    requires SlotsInside(b)
    ensures |ranges| == Count(b) && forall i :: 0 <= i < Count(b) ==> ranges[i] == Slot(b, i)
  {
    seq(Count(b), i requires 0 <= i < Count(b) => Slot(b, i))
  }

  /** How many ranges contain byte `p`. */
  function Cover(ranges: seq<Range>, p: nat): nat {
    if ranges == [] then 0
    else (if ranges[0].start <= p < ranges[0].end then 1 else 0) + Cover(ranges[1..], p)
  }

  predicate Inside(ranges: seq<Range>, lo: nat, hi: nat) {
    forall i :: 0 <= i < |ranges| ==> lo <= ranges[i].start < ranges[i].end <= hi
  }

  /** Non-empty ranges that together cover each byte of the payload exactly once. */
  predicate Tiles(ranges: seq<Range>, lo: nat, hi: nat) {
    Inside(ranges, lo, hi) && forall p: nat :: lo <= p < hi ==> Cover(ranges, p) == 1
  }

  predicate HeaderIsValid(b: seq<byte>, id: nat) {
    && |b| == PAGE_SIZE
    && id * PAGE_SIZE < U64_LIMIT
    && Crc32.Sealed(b)
    && b[..4] == PAGE_MAGIC && b[4] == FORMAT_VERSION && DecodeKind(b[5]).Some?
    && U16(b[6..8]) == 0 && U64(b[8..16]) == id && U64(b[16..24]) == 0 && U16(b[30..32]) == 0
    && Lower(b) == DATA_HEADER_LEN + Count(b) * SLOT_LEN
    && Lower(b) <= Upper(b) <= CHECKSUM_OFFSET
    && (forall p :: Lower(b) <= p < Upper(b) ==> b[p] == 0)
    && LinkIsValid(DecodeKind(b[5]).value, id, Link(b))
  }

  predicate LinkIsValid(kind: PageKind, id: nat, link: nat) {
    && (kind == InternalKind ==> link == Superblocks.ROOT_NONE)
    && (link != Superblocks.ROOT_NONE ==> link >= Superblocks.SUPERBLOCK_COUNT)
    && link != id
  }

  /** What makes 4096 bytes a data page: a valid header, and slots that tile the payload. */
  predicate WellFormedPage(b: seq<byte>, id: nat) {
    HeaderIsValid(b, id) && Tiles(Ranges(b), Upper(b), CHECKSUM_OFFSET)
  }

  function KindOf(b: seq<byte>): PageKind
    requires |b| == PAGE_SIZE && DecodeKind(b[5]).Some?
  {
    DecodeKind(b[5]).value
  }

  function FreeBytes(b: seq<byte>): nat
    requires |b| == PAGE_SIZE
  {
    if Upper(b) < Lower(b) then 0 else Upper(b) - Lower(b)
  }

  /** The cells in slot order. */
  function Cells(b: seq<byte>, id: nat): (cells: seq<seq<byte>>)
    requires WellFormedPage(b, id)
    ensures |cells| == Count(b)
    ensures forall i :: 0 <= i < Count(b) ==>
              var range := Ranges(b)[i]; range.start <= range.end <= PAGE_SIZE && cells[i] == b[range.start..range.end]
  {
    seq(Count(b), i requires 0 <= i < Count(b) => b[Ranges(b)[i].start..Ranges(b)[i].end])
  }

  // ---------- tiling and the sorted chain check ----------

  predicate SortedByStart(ranges: seq<Range>) {
    forall i, j :: 0 <= i < j < |ranges| ==> ranges[i].start <= ranges[j].start
  }

  function InsertByStart(range: Range, ranges: seq<Range>): (result: seq<Range>)
    requires SortedByStart(ranges)
    ensures SortedByStart(result) && |result| == |ranges| + 1
    ensures forall r :: r in result <==> r == range || r in ranges
  {
    if ranges == [] || range.start <= ranges[0].start then [range] + ranges
    else
      var rest := InsertByStart(range, ranges[1..]);
      assert forall r :: r in ranges[1..] ==> ranges[0].start <= r.start;
      assert forall j :: 0 <= j < |rest| ==> rest[j] in rest && ranges[0].start <= rest[j].start;
      [ranges[0]] + rest
  }

  /** `sort_unstable_by_key` on the range starts. */
  function SortRanges(ranges: seq<Range>): (result: seq<Range>)
    ensures SortedByStart(result) && |result| == |ranges|
    ensures forall r :: r in result <==> r in ranges
  {
    if ranges == [] then [] else InsertByStart(ranges[0], SortRanges(ranges[1..]))
  }

  lemma {:induction false} InsertKeepsCover(range: Range, ranges: seq<Range>, p: nat)
    requires SortedByStart(ranges)
    ensures Cover(InsertByStart(range, ranges), p)
         == (if range.start <= p < range.end then 1 else 0) + Cover(ranges, p)
    decreases |ranges|
  {
    if ranges == [] || range.start <= ranges[0].start {
      assert ([range] + ranges)[1..] == ranges;
    } else {
      InsertKeepsCover(range, ranges[1..], p);
      assert InsertByStart(range, ranges)[1..] == InsertByStart(range, ranges[1..]);
    }
  }

  lemma {:induction false} SortKeepsCover(ranges: seq<Range>, p: nat)
    ensures Cover(SortRanges(ranges), p) == Cover(ranges, p)
    decreases |ranges|
  {
    if ranges != [] {
      SortKeepsCover(ranges[1..], p);
      InsertKeepsCover(ranges[0], SortRanges(ranges[1..]), p);
    }
  }

  /** Each range starts where the one before it ended. */
  predicate Chained(ranges: seq<Range>, lo: nat, hi: nat) {
    if ranges == [] then lo == hi else ranges[0].start == lo && Chained(ranges[1..], ranges[0].end, hi)
  }

  lemma {:induction false} ChainStartsAt(ranges: seq<Range>, low: nat, lo: nat, hi: nat)
    requires Inside(ranges, low, hi) && Chained(ranges, lo, hi)
    ensures Inside(ranges, lo, hi)
    decreases |ranges|
  {
    if ranges != [] {
      var rest := ranges[1..];
      ChainStartsAt(rest, low, ranges[0].end, hi);
      forall i | 0 <= i < |ranges|
        ensures lo <= ranges[i].start < ranges[i].end <= hi
      {
        if i > 0 { assert ranges[i] == rest[i - 1]; }
      }
    }
  }

  lemma {:induction false} ChainCoversOnce(ranges: seq<Range>, lo: nat, hi: nat)
    requires Inside(ranges, lo, hi) && Chained(ranges, lo, hi)
    ensures forall p: nat :: Cover(ranges, p) == if lo <= p < hi then 1 else 0
    decreases |ranges|
  {
    if ranges != [] {
      ChainStartsAt(ranges[1..], lo, ranges[0].end, hi);
      ChainCoversOnce(ranges[1..], ranges[0].end, hi);
    }
  }

  lemma {:induction false} CoverOfMember(ranges: seq<Range>, i: nat, p: nat)
    requires i < |ranges| && ranges[i].start <= p < ranges[i].end
    ensures Cover(ranges, p) >= 1
    decreases |ranges|
  {
    if i > 0 { CoverOfMember(ranges[1..], i - 1, p); }
  }

  lemma {:induction false} CoveredByMember(ranges: seq<Range>, p: nat)
    requires Cover(ranges, p) >= 1
    ensures exists i :: 0 <= i < |ranges| && ranges[i].start <= p < ranges[i].end
    decreases |ranges|
  {
    if !(ranges[0].start <= p < ranges[0].end) {
      CoveredByMember(ranges[1..], p);
      var i :| 0 <= i < |ranges[1..]| && ranges[1..][i].start <= p < ranges[1..][i].end;
      assert ranges[i + 1].start <= p < ranges[i + 1].end;
    }
  }

  lemma {:induction false} SortedTilesAreChained(ranges: seq<Range>, lo: nat, hi: nat)
    requires SortedByStart(ranges) && Tiles(ranges, lo, hi) && lo <= hi
    ensures Chained(ranges, lo, hi)
    decreases |ranges|
  {
    if ranges == [] {
      assert lo < hi ==> Cover(ranges, lo) == 1;
    } else {
      assert Cover(ranges, lo) == 1;
      CoveredByMember(ranges, lo);
      var first, rest := ranges[0], ranges[1..];
      forall i | 0 <= i < |rest|
        ensures first.end <= rest[i].start
      {
        assert rest[i] == ranges[i + 1];
        var p := rest[i].start;
        CoverOfMember(rest, i, p);
        assert lo <= p < hi && Cover(ranges, p) == 1;
      }
      forall p: nat | first.end <= p < hi
        ensures Cover(rest, p) == 1
      {
        assert Cover(ranges, p) == 1;
      }
      SortedTilesAreChained(rest, first.end, hi);
    }
  }

  /** Sorting by start and comparing neighbours decides tiling. */
  lemma ChainCheckDecidesTiling(ranges: seq<Range>, lo: nat, hi: nat)
    requires Inside(ranges, lo, hi) && lo <= hi
    ensures Tiles(ranges, lo, hi) <==> Chained(SortRanges(ranges), lo, hi)
  {
    var sorted := SortRanges(ranges);
    forall i | 0 <= i < |sorted|
      ensures lo <= sorted[i].start < sorted[i].end <= hi
    {
      assert sorted[i] in ranges;
    }
    forall p: nat ensures Cover(sorted, p) == Cover(ranges, p) { SortKeepsCover(ranges, p); }
    if Tiles(ranges, lo, hi) {
      SortedTilesAreChained(sorted, lo, hi);
    }
    if Chained(sorted, lo, hi) {
      ChainCoversOnce(sorted, lo, hi);
    }
  }

  /** `validate_page_bytes`: accepts exactly the well-formed pages. */
  method ValidatePageBytes(b: seq<byte>, id: nat) returns (r: Result<PageKind>)
    requires |b| == PAGE_SIZE
    ensures r.Ok? <==> WellFormedPage(b, id)
    ensures r.Ok? ==> r.value == KindOf(b)
  {
    hide Crc32.Sealed, U16, U64, LinkIsValid, Chained, Cover, SortedByStart;
    if !HeaderIsValid(b, id) {
      return Err(Corruption);
    }
    var upper := Upper(b);
    var ranges: seq<Range> := [];
    var i := 0;
    while i < Count(b)
      invariant 0 <= i <= Count(b) && ranges == Ranges(b)[..i]
      invariant Inside(ranges, upper, CHECKSUM_OFFSET)
    {
      var range := Slot(b, i);
      assert range == Ranges(b)[i];
      if range.start == range.end || range.start < upper || range.end > CHECKSUM_OFFSET {
        return Err(Corruption);
      }
      ranges := ranges + [range];
      i := i + 1;
    }
    assert ranges == Ranges(b);
    ChainCheckDecidesTiling(ranges, upper, CHECKSUM_OFFSET);
    var packed := ChainCheck(SortRanges(ranges), upper, CHECKSUM_OFFSET);
    if !packed {
      return Err(Corruption);
    }
    return Ok(KindOf(b));
  }

  /** The packed-payload loop over the sorted ranges. */
  method ChainCheck(sorted: seq<Range>, lo: nat, hi: nat) returns (packed: bool)
    ensures packed <==> Chained(sorted, lo, hi)
  {
    var expected := lo;
    var i := 0;
    while i < |sorted|
      invariant 0 <= i <= |sorted|
      invariant Chained(sorted, lo, hi) <==> Chained(sorted[i..], expected, hi)
    {
      if sorted[i].start != expected {
        return false;
      }
      expected := sorted[i].end;
      i := i + 1;
    }
    return expected == hi;
  }

  // ---------- writing fields ----------

  /** `bytes[at..at + source.len()].copy_from_slice(source)`. */
  function Put(b: seq<byte>, at: nat, source: seq<byte>): (r: seq<byte>)
    requires at + |source| <= |b|
    ensures |r| == |b|
  {
    b[..at] + source + b[at + |source|..]
  }

  /** A write shows exactly in its own range. */
  lemma PutSlices(b: seq<byte>, at: nat, source: seq<byte>)
    requires at + |source| <= |b|
    ensures Put(b, at, source)[at..at + |source|] == source
    ensures forall lo, hi :: 0 <= lo <= hi <= |b| && (hi <= at || at + |source| <= lo) ==>
              Put(b, at, source)[lo..hi] == b[lo..hi]
  {
    var r := Put(b, at, source);
    forall lo, hi | 0 <= lo <= hi <= |b| && (hi <= at || at + |source| <= lo)
      ensures r[lo..hi] == b[lo..hi]
    {
      assert forall k :: lo <= k < hi ==> r[k] == b[k];
    }
  }

  /** `refresh_checksum`. */
  function Seal(b: seq<byte>): (r: seq<byte>)
    requires |b| == PAGE_SIZE
    ensures |r| == PAGE_SIZE
  {
    Put(b, CHECKSUM_OFFSET, Crc32.Stored(Crc32.Checksum(b[..CHECKSUM_OFFSET])))
  }

  lemma SealKeeps(b: seq<byte>, lo: nat, hi: nat)
    requires |b| == PAGE_SIZE && lo <= hi <= CHECKSUM_OFFSET
    ensures Seal(b)[lo..hi] == b[lo..hi]
  {
    hide Put, Crc32.Stored, Crc32.Checksum;
    PutSlices(b, CHECKSUM_OFFSET, Crc32.Stored(Crc32.Checksum(b[..CHECKSUM_OFFSET])));
  }

  lemma SealIsSealed(b: seq<byte>)
    requires |b| == PAGE_SIZE
    ensures Crc32.Sealed(Seal(b))
  {
    hide Put, Crc32.Stored, Crc32.Checksum;
    var crc := Crc32.Checksum(b[..CHECKSUM_OFFSET]);
    Crc32.StoredDecodes(crc);
    PutSlices(b, CHECKSUM_OFFSET, Crc32.Stored(crc));
    assert Seal(b)[PAGE_SIZE - 4..] == Seal(b)[PAGE_SIZE - 4..PAGE_SIZE] == Crc32.Stored(crc);
    assert Seal(b)[..PAGE_SIZE - 4] == Seal(b)[0..PAGE_SIZE - 4] == b[0..CHECKSUM_OFFSET] == b[..CHECKSUM_OFFSET];
  }

  /** The header `Page::new` writes over zeros, before the checksum. */
  function BlankHeader(id: nat, kind: PageKind): (b: seq<byte>)
    requires id < U64_LIMIT
    ensures |b| == PAGE_SIZE
  {
    var b0 := Zeros(PAGE_SIZE);
    var b1 := Put(b0, 0, PAGE_MAGIC);
    var b2 := Put(b1, 4, [FORMAT_VERSION, EncodeKind(kind)]);
    var b3 := Put(b2, 8, LittleEndian(id, 8));
    var b4 := Put(b3, 24, LittleEndian(DATA_HEADER_LEN, 2));
    Put(b4, 26, LittleEndian(CHECKSUM_OFFSET, 2))
  }

  function EmptyImage(id: nat, kind: PageKind): (b: seq<byte>)
    requires id < U64_LIMIT
    ensures |b| == PAGE_SIZE
  {
    Seal(BlankHeader(id, kind))
  }

  lemma {:induction false} ZeroField(width: nat)
    ensures LittleEndian(0, width) == Zeros(width)
  {
    if width > 0 { ZeroField(width - 1); }
  }

  lemma BlankFields(id: nat, kind: PageKind)
    requires id < U64_LIMIT
    ensures var b := BlankHeader(id, kind);
            && b[0..4] == PAGE_MAGIC && b[4..6] == [FORMAT_VERSION, EncodeKind(kind)] && b[8..16] == LittleEndian(id, 8)
            && b[24..26] == LittleEndian(DATA_HEADER_LEN, 2) && b[26..28] == LittleEndian(CHECKSUM_OFFSET, 2)
  {
    hide LittleEndian, Put, EncodeKind;
    var b0 := Zeros(PAGE_SIZE);
    var b1 := Put(b0, 0, PAGE_MAGIC);
    var b2 := Put(b1, 4, [FORMAT_VERSION, EncodeKind(kind)]);
    var b3 := Put(b2, 8, LittleEndian(id, 8));
    var b4 := Put(b3, 24, LittleEndian(DATA_HEADER_LEN, 2));
    PutSlices(b0, 0, PAGE_MAGIC);
    PutSlices(b1, 4, [FORMAT_VERSION, EncodeKind(kind)]);
    PutSlices(b2, 8, LittleEndian(id, 8));
    PutSlices(b3, 24, LittleEndian(DATA_HEADER_LEN, 2));
    PutSlices(b4, 26, LittleEndian(CHECKSUM_OFFSET, 2));
  }

  lemma BlankElsewhere(id: nat, kind: PageKind, lo: nat, hi: nat)
    requires id < U64_LIMIT && lo <= hi <= PAGE_SIZE
    requires (6 <= lo && hi <= 8) || (16 <= lo && hi <= 24) || 28 <= lo
    ensures BlankHeader(id, kind)[lo..hi] == Zeros(hi - lo)
  {
    hide LittleEndian, Put, EncodeKind;
    var b0 := Zeros(PAGE_SIZE);
    var b1 := Put(b0, 0, PAGE_MAGIC);
    var b2 := Put(b1, 4, [FORMAT_VERSION, EncodeKind(kind)]);
    var b3 := Put(b2, 8, LittleEndian(id, 8));
    var b4 := Put(b3, 24, LittleEndian(DATA_HEADER_LEN, 2));
    PutSlices(b0, 0, PAGE_MAGIC);
    PutSlices(b1, 4, [FORMAT_VERSION, EncodeKind(kind)]);
    PutSlices(b2, 8, LittleEndian(id, 8));
    PutSlices(b3, 24, LittleEndian(DATA_HEADER_LEN, 2));
    PutSlices(b4, 26, LittleEndian(CHECKSUM_OFFSET, 2));
    assert BlankHeader(id, kind)[lo..hi] == b0[lo..hi] == Zeros(hi - lo);
  }

  lemma EmptyImageFields(id: nat, kind: PageKind)
    requires id < U64_LIMIT
    ensures var b := EmptyImage(id, kind);
            && b[..4] == PAGE_MAGIC && b[4] == FORMAT_VERSION && b[5] == EncodeKind(kind)
            && b[6..8] == LittleEndian(0, 2) && b[8..16] == LittleEndian(id, 8) && b[16..24] == LittleEndian(0, 8)
            && b[24..26] == LittleEndian(DATA_HEADER_LEN, 2) && b[26..28] == LittleEndian(CHECKSUM_OFFSET, 2)
            && b[28..30] == LittleEndian(0, 2) && b[30..32] == LittleEndian(0, 2) && b[32..40] == LittleEndian(0, 8)
            && (forall p :: DATA_HEADER_LEN <= p < CHECKSUM_OFFSET ==> b[p] == 0)
            && Crc32.Sealed(b)
  {
    hide LittleEndian, Seal, Crc32.Sealed, BlankHeader, EncodeKind, Zeros;
    var b, raw := EmptyImage(id, kind), BlankHeader(id, kind);
    BlankFields(id, kind);
    SealIsSealed(raw);
    ZeroField(2);
    ZeroField(8);
    BlankElsewhere(id, kind, 6, 8);
    BlankElsewhere(id, kind, 16, 24);
    BlankElsewhere(id, kind, 28, 30);
    BlankElsewhere(id, kind, 30, 32);
    BlankElsewhere(id, kind, 32, 40);
    BlankElsewhere(id, kind, DATA_HEADER_LEN, CHECKSUM_OFFSET);
    SealKeeps(raw, 0, 4);
    SealKeeps(raw, 4, 6);
    SealKeeps(raw, 6, 8);
    SealKeeps(raw, 8, 16);
    SealKeeps(raw, 16, 24);
    SealKeeps(raw, 24, 26);
    SealKeeps(raw, 26, 28);
    SealKeeps(raw, 28, 30);
    SealKeeps(raw, 30, 32);
    SealKeeps(raw, 32, 40);
    SealKeeps(raw, DATA_HEADER_LEN, CHECKSUM_OFFSET);
    assert b[..4] == b[0..4];
    assert b[4] == b[4..6][0] && b[5] == b[4..6][1];
    forall p | DATA_HEADER_LEN <= p < CHECKSUM_OFFSET
      ensures b[p] == 0
    {
      assert b[p] == b[DATA_HEADER_LEN..CHECKSUM_OFFSET][p - DATA_HEADER_LEN];
    }
  }

  lemma EmptyImageIsWellFormed(id: nat, kind: PageKind)
    requires Superblocks.SUPERBLOCK_COUNT <= id && id * PAGE_SIZE < U64_LIMIT
    ensures WellFormedPage(EmptyImage(id, kind), id) && KindOf(EmptyImage(id, kind)) == kind
    ensures Cells(EmptyImage(id, kind), id) == []
    ensures FreeBytes(EmptyImage(id, kind)) == PAGE_BODY_CAPACITY && Link(EmptyImage(id, kind)) == Superblocks.ROOT_NONE
  {
    hide LittleEndian, EmptyImage, Crc32.Sealed;
    EmptyImageFields(id, kind);
    U16RoundTrip(0);
    U64RoundTrip(0);
    U64RoundTrip(id);
    U16RoundTrip(DATA_HEADER_LEN);
    U16RoundTrip(CHECKSUM_OFFSET);
  }

  // ---------- inserting a cell ----------

  predicate Insertable(b: seq<byte>, cell: seq<byte>)
    requires |b| == PAGE_SIZE
  {
    cell != [] && SLOT_LEN + |cell| <= FreeBytes(b)
  }

  predicate HasRoom(b: seq<byte>, cell: seq<byte>) {
    |b| == PAGE_SIZE && Insertable(b, cell) && Upper(b) <= CHECKSUM_OFFSET && Lower(b) >= DATA_HEADER_LEN
  }

  /** What `insert_cell` writes before it refreshes the checksum, in its order. */
  function Written(b: seq<byte>, lower: nat, upper: nat, count: nat, cell: seq<byte>): (r: seq<byte>)
    requires |b| == PAGE_SIZE && DATA_HEADER_LEN <= lower && lower + SLOT_LEN + |cell| <= upper <= CHECKSUM_OFFSET
    ensures |r| == PAGE_SIZE
  {
    var b1 := Put(b, upper - |cell|, cell);
    var b2 := Put(b1, lower, LittleEndian(upper - |cell|, 2));
    var b3 := Put(b2, lower + 2, LittleEndian(|cell|, 2));
    var b4 := Put(b3, 24, LittleEndian(lower + SLOT_LEN, 2));
    var b5 := Put(b4, 26, LittleEndian(upper - |cell|, 2));
    Put(b5, 28, LittleEndian(count + 1, 2))
  }

  function Inserted(b: seq<byte>, cell: seq<byte>): (r: seq<byte>)
    requires HasRoom(b, cell)
    ensures |r| == PAGE_SIZE
  {
    Seal(Written(b, Lower(b), Upper(b), Count(b), cell))
  }

  lemma WrittenFields(b: seq<byte>, lower: nat, upper: nat, count: nat, cell: seq<byte>)
    requires |b| == PAGE_SIZE && DATA_HEADER_LEN <= lower && lower + SLOT_LEN + |cell| <= upper <= CHECKSUM_OFFSET
    ensures var c := Written(b, lower, upper, count, cell);
            && c[24..26] == LittleEndian(lower + SLOT_LEN, 2)
            && c[26..28] == LittleEndian(upper - |cell|, 2) && c[28..30] == LittleEndian(count + 1, 2)
            && c[lower..lower + 2] == LittleEndian(upper - |cell|, 2)
            && c[lower + 2..lower + 4] == LittleEndian(|cell|, 2)
            && c[upper - |cell|..upper] == cell
  {
    hide LittleEndian, Put;
    var b1 := Put(b, upper - |cell|, cell);
    var b2 := Put(b1, lower, LittleEndian(upper - |cell|, 2));
    var b3 := Put(b2, lower + 2, LittleEndian(|cell|, 2));
    var b4 := Put(b3, 24, LittleEndian(lower + SLOT_LEN, 2));
    var b5 := Put(b4, 26, LittleEndian(upper - |cell|, 2));
    PutSlices(b, upper - |cell|, cell);
    PutSlices(b1, lower, LittleEndian(upper - |cell|, 2));
    PutSlices(b2, lower + 2, LittleEndian(|cell|, 2));
    PutSlices(b3, 24, LittleEndian(lower + SLOT_LEN, 2));
    PutSlices(b4, 26, LittleEndian(upper - |cell|, 2));
    PutSlices(b5, 28, LittleEndian(count + 1, 2));
  }

  /** Ranges that no field of the insertion touches. */
  lemma WrittenElsewhere(b: seq<byte>, lower: nat, upper: nat, count: nat, cell: seq<byte>, lo: nat, hi: nat)
    requires |b| == PAGE_SIZE && DATA_HEADER_LEN <= lower && lower + SLOT_LEN + |cell| <= upper <= CHECKSUM_OFFSET
    requires lo <= hi <= PAGE_SIZE
    requires hi <= 24 || (30 <= lo && hi <= lower) || (lower + 4 <= lo && hi <= upper - |cell|) || upper <= lo
    ensures Written(b, lower, upper, count, cell)[lo..hi] == b[lo..hi]
  {
    hide LittleEndian, Put;
    var b1 := Put(b, upper - |cell|, cell);
    var b2 := Put(b1, lower, LittleEndian(upper - |cell|, 2));
    var b3 := Put(b2, lower + 2, LittleEndian(|cell|, 2));
    var b4 := Put(b3, 24, LittleEndian(lower + SLOT_LEN, 2));
    var b5 := Put(b4, 26, LittleEndian(upper - |cell|, 2));
    PutSlices(b, upper - |cell|, cell);
    PutSlices(b1, lower, LittleEndian(upper - |cell|, 2));
    PutSlices(b2, lower + 2, LittleEndian(|cell|, 2));
    PutSlices(b3, 24, LittleEndian(lower + SLOT_LEN, 2));
    PutSlices(b4, 26, LittleEndian(upper - |cell|, 2));
    PutSlices(b5, 28, LittleEndian(count + 1, 2));
  }

  lemma InsertedElsewhere(b: seq<byte>, cell: seq<byte>, lo: nat, hi: nat)
    requires HasRoom(b, cell) && lo <= hi <= CHECKSUM_OFFSET
    requires hi <= 24 || (30 <= lo && hi <= Lower(b)) || (Lower(b) + 4 <= lo && hi <= Upper(b) - |cell|)
             || Upper(b) <= lo
    ensures Inserted(b, cell)[lo..hi] == b[lo..hi]
  {
    hide LittleEndian, U16, U64, Written, Seal;
    WrittenElsewhere(b, Lower(b), Upper(b), Count(b), cell, lo, hi);
    SealKeeps(Written(b, Lower(b), Upper(b), Count(b), cell), lo, hi);
  }

  /** Every field of an insertion, where it belongs. */
  predicate ShowsInsertion(c: seq<byte>, lower: nat, upper: nat, count: nat, cell: seq<byte>) {
    && |c| == PAGE_SIZE && DATA_HEADER_LEN <= lower && lower + SLOT_LEN + |cell| <= upper <= CHECKSUM_OFFSET
    && Crc32.Sealed(c)
    && c[24..26] == LittleEndian(lower + SLOT_LEN, 2)
    && c[26..28] == LittleEndian(upper - |cell|, 2) && c[28..30] == LittleEndian(count + 1, 2)
    && c[lower..lower + 2] == LittleEndian(upper - |cell|, 2)
    && c[lower + 2..lower + 4] == LittleEndian(|cell|, 2)
    && c[upper - |cell|..upper] == cell
  }

  lemma InsertedFields(b: seq<byte>, cell: seq<byte>)
    requires HasRoom(b, cell)
    ensures ShowsInsertion(Inserted(b, cell), Lower(b), Upper(b), Count(b), cell)
  {
    hide LittleEndian, Crc32.Sealed, U16, U64, Written, Seal, Lower, Upper, Count, FreeBytes, HasRoom, Insertable,
      ShowsInsertion;
    RoomParts(b, cell);
    SealedFields(b, Lower(b), Upper(b), Count(b), cell);
  }

  /** The fields read back as the numbers that were written. */
  lemma InsertionReadsBack(c: seq<byte>, lower: nat, upper: nat, count: nat, cell: seq<byte>)
    requires ShowsInsertion(c, lower, upper, count, cell) && count + 1 < U16_LIMIT
    ensures |c| == PAGE_SIZE && Crc32.Sealed(c)
    ensures Lower(c) == lower + SLOT_LEN && Upper(c) == upper - |cell| && Count(c) == count + 1
    ensures lower + SLOT_LEN + |cell| <= upper <= CHECKSUM_OFFSET
    ensures U16(c[lower..lower + 2]) == upper - |cell| && U16(c[lower + 2..lower + 4]) == |cell|
    ensures c[upper - |cell|..upper] == cell
  {
    hide LittleEndian, Crc32.Sealed, U16;
    U16RoundTrip(lower + SLOT_LEN);
    U16RoundTrip(upper - |cell|);
    U16RoundTrip(count + 1);
    U16RoundTrip(|cell|);
  }

  lemma RoomParts(b: seq<byte>, cell: seq<byte>)
    requires HasRoom(b, cell)
    ensures |b| == PAGE_SIZE && DATA_HEADER_LEN <= Lower(b)
    ensures Lower(b) + SLOT_LEN + |cell| <= Upper(b) <= CHECKSUM_OFFSET
  {
  }

  lemma SealedFields(b: seq<byte>, lower: nat, upper: nat, count: nat, cell: seq<byte>)
    requires |b| == PAGE_SIZE && DATA_HEADER_LEN <= lower && lower + SLOT_LEN + |cell| <= upper <= CHECKSUM_OFFSET
    ensures ShowsInsertion(Seal(Written(b, lower, upper, count, cell)), lower, upper, count, cell)
  {
    hide LittleEndian, Crc32.Sealed, Written, Seal;
    var raw := Written(b, lower, upper, count, cell);
    WrittenFields(b, lower, upper, count, cell);
    SealIsSealed(raw);
    SealKeeps(raw, 24, 26);
    SealKeeps(raw, 26, 28);
    SealKeeps(raw, 28, 30);
    SealKeeps(raw, lower, lower + 2);
    SealKeeps(raw, lower + 2, lower + 4);
    SealKeeps(raw, upper - |cell|, upper);
  }

  lemma SameFields(b: seq<byte>, c: seq<byte>)
    requires |b| == |c| == PAGE_SIZE && c[..24] == b[..24] && c[30..40] == b[30..40]
    ensures c[..4] == b[..4] && c[4] == b[4] && c[5] == b[5] && c[6..8] == b[6..8] && c[8..16] == b[8..16]
    ensures c[16..24] == b[16..24] && c[30..32] == b[30..32] && c[32..40] == b[32..40]
  {
    assert c[..4] == c[..24][..4] && b[..4] == b[..24][..4];
    assert c[4] == c[..24][4] && b[4] == b[..24][4] && c[5] == c[..24][5] && b[5] == b[..24][5];
    assert c[6..8] == c[..24][6..8] && b[6..8] == b[..24][6..8];
    assert c[8..16] == c[..24][8..16] && b[8..16] == b[..24][8..16];
    assert c[16..24] == c[..24][16..24] && b[16..24] == b[..24][16..24];
    assert c[30..32] == c[30..40][..2] && b[30..32] == b[30..40][..2];
    assert c[32..40] == c[30..40][2..] && b[32..40] == b[30..40][2..];
  }

  lemma InsertedHeader(b: seq<byte>, id: nat, cell: seq<byte>)
    requires HeaderIsValid(b, id) && HasRoom(b, cell)
    ensures var c := Inserted(b, cell);
            && HeaderIsValid(c, id) && c[5] == b[5] && Link(c) == Link(b)
            && Lower(c) == Lower(b) + SLOT_LEN && Upper(c) == Upper(b) - |cell| && Count(c) == Count(b) + 1
  {
    hide LittleEndian, Crc32.Sealed, U16, U64, Inserted, LinkIsValid, ShowsInsertion, Lower, Upper, Count, FreeBytes,
      HasRoom, Insertable;
    RoomParts(b, cell);
    var c, lower, upper := Inserted(b, cell), Lower(b), Upper(b);
    InsertedFields(b, cell);
    InsertionReadsBack(c, lower, upper, Count(b), cell);
    InsertedElsewhere(b, cell, 0, 24);
    InsertedElsewhere(b, cell, 30, 40);
    assert c[..24] == c[0..24] && b[..24] == b[0..24];
    SameFields(b, c);
    forall p | lower + SLOT_LEN <= p < upper - |cell|
      ensures c[p] == 0
    {
      InsertedElsewhere(b, cell, p, p + 1);
      assert c[p] == c[p..p + 1][0] && b[p] == b[p..p + 1][0];
    }
  }

  /** Old slots stay, and the new one points at the new cell. */
  lemma InsertedRanges(b: seq<byte>, id: nat, cell: seq<byte>)
    requires HeaderIsValid(b, id) && HasRoom(b, cell)
    ensures var c := Inserted(b, cell);
            HeaderIsValid(c, id) && Ranges(c) == Ranges(b) + [Range(Upper(b) - |cell|, Upper(b))]
  {
    hide LittleEndian, Crc32.Sealed, U16, U64, Inserted, LinkIsValid, HeaderIsValid, ShowsInsertion, Lower, Upper,
      Count, FreeBytes, HasRoom, Insertable;
    HeaderParts(b, id);
    RoomParts(b, cell);
    var c, lower, upper := Inserted(b, cell), Lower(b), Upper(b);
    InsertedHeader(b, id, cell);
    HeaderParts(c, id);
    InsertedFields(b, cell);
    InsertionReadsBack(c, lower, upper, Count(b), cell);
    forall i | 0 <= i < Count(b)
      ensures Slot(c, i) == Slot(b, i)
    {
      var at := DATA_HEADER_LEN + i * SLOT_LEN;
      InsertedElsewhere(b, cell, at, at + 2);
      InsertedElsewhere(b, cell, at + 2, at + 4);
    }
    assert Slot(c, Count(b)) == Range(upper - |cell|, upper);
    assert Ranges(c) == Ranges(b) + [Range(upper - |cell|, upper)];
  }

  lemma HeaderParts(b: seq<byte>, id: nat)
    requires HeaderIsValid(b, id)
    ensures SlotsInside(b) && DecodeKind(b[5]).Some?
    ensures Lower(b) == DATA_HEADER_LEN + Count(b) * SLOT_LEN && Lower(b) <= Upper(b) <= CHECKSUM_OFFSET
  {
  }

  lemma {:induction false} CoverConcat(a: seq<Range>, b: seq<Range>, p: nat)
    ensures Cover(a + b, p) == Cover(a, p) + Cover(b, p)
    decreases |a|
  {
    if a == [] {
      assert a + b == b;
    } else {
      assert (a + b)[1..] == a[1..] + b;
      CoverConcat(a[1..], b, p);
    }
  }

  lemma {:induction false} CoverOutside(ranges: seq<Range>, lo: nat, hi: nat, p: nat)
    requires Inside(ranges, lo, hi) && (p < lo || hi <= p)
    ensures Cover(ranges, p) == 0
    decreases |ranges|
  {
    if ranges != [] { CoverOutside(ranges[1..], lo, hi, p); }
  }

  lemma TilesGrow(ranges: seq<Range>, lower: nat, lo: nat, hi: nat)
    requires Tiles(ranges, lo, hi) && lower < lo <= hi
    ensures Tiles(ranges + [Range(lower, lo)], lower, hi)
  {
    var added := Range(lower, lo);
    forall p: nat | lower <= p < hi
      ensures Cover(ranges + [added], p) == 1
    {
      CoverConcat(ranges, [added], p);
      assert [added][1..] == [];
      assert Cover([added][1..], p) == 0;
      if p < lo { CoverOutside(ranges, lo, hi, p); }
    }
  }

  /** Inserting keeps the page well formed and appends exactly the given cell. */
  lemma InsertKeepsPage(b: seq<byte>, id: nat, cell: seq<byte>)
    requires WellFormedPage(b, id) && HasRoom(b, cell)
    ensures var c := Inserted(b, cell);
            && WellFormedPage(c, id) && Cells(c, id) == Cells(b, id) + [cell]
            && KindOf(c) == KindOf(b) && Link(c) == Link(b)
            && FreeBytes(c) == FreeBytes(b) - SLOT_LEN - |cell|
  {
    hide LittleEndian, Crc32.Sealed, U16, U64, Inserted, LinkIsValid, HeaderIsValid, Cover, ShowsInsertion, Lower,
      Upper, Count, HasRoom, Insertable;
    HeaderParts(b, id);
    RoomParts(b, cell);
    var c, lower, upper := Inserted(b, cell), Lower(b), Upper(b);
    InsertedHeader(b, id, cell);
    InsertedRanges(b, id, cell);
    HeaderParts(c, id);
    NonEmptyCell(b, cell);
    TilesGrow(Ranges(b), upper - |cell|, upper, CHECKSUM_OFFSET);
    InsertedFields(b, cell);
    InsertionReadsBack(c, lower, upper, Count(b), cell);
    forall i | 0 <= i < Count(b)
      ensures Cells(c, id)[i] == Cells(b, id)[i]
    {
      assert Ranges(c)[i] == Ranges(b)[i];
      InsertedElsewhere(b, cell, Ranges(b)[i].start, Ranges(b)[i].end);
    }
    assert Ranges(c)[Count(b)] == Range(upper - |cell|, upper);
    assert Cells(c, id)[Count(b)] == cell;
  }

  lemma NonEmptyCell(b: seq<byte>, cell: seq<byte>)
    requires HasRoom(b, cell)
    ensures |cell| > 0
  {
  }

  // ---------- links ----------

  function Linked(b: seq<byte>, link: nat): seq<byte>
    requires |b| == PAGE_SIZE && link < U64_LIMIT
  {
    Seal(Put(b, 32, LittleEndian(link, 8)))
  }

  lemma LinkedElsewhere(b: seq<byte>, link: nat, lo: nat, hi: nat)
    requires |b| == PAGE_SIZE && link < U64_LIMIT && lo <= hi <= CHECKSUM_OFFSET && (hi <= 32 || 40 <= lo)
    ensures Linked(b, link)[lo..hi] == b[lo..hi]
  {
    hide LittleEndian, Seal, Put;
    PutSlices(b, 32, LittleEndian(link, 8));
    SealKeeps(Put(b, 32, LittleEndian(link, 8)), lo, hi);
  }

  lemma LinkKeepsPage(b: seq<byte>, id: nat, link: nat)
    requires WellFormedPage(b, id) && link < U64_LIMIT && LinkIsValid(KindOf(b), id, link)
    ensures var c := Linked(b, link);
            && WellFormedPage(c, id) && Cells(c, id) == Cells(b, id) && KindOf(c) == KindOf(b)
            && Link(c) == link && FreeBytes(c) == FreeBytes(b)
  {
    hide LittleEndian, Crc32.Sealed, U16, U64, Seal, Put, LinkIsValid;
    var raw := Put(b, 32, LittleEndian(link, 8));
    var c := Linked(b, link);
    SealIsSealed(raw);
    PutSlices(b, 32, LittleEndian(link, 8));
    U64RoundTrip(link);
    SealKeeps(raw, 32, 40);
    LinkedElsewhere(b, link, 0, 4);
    LinkedElsewhere(b, link, 4, 6);
    LinkedElsewhere(b, link, 6, 8);
    LinkedElsewhere(b, link, 8, 16);
    LinkedElsewhere(b, link, 16, 24);
    LinkedElsewhere(b, link, 24, 26);
    LinkedElsewhere(b, link, 26, 28);
    LinkedElsewhere(b, link, 28, 30);
    LinkedElsewhere(b, link, 30, 32);
    assert c[..4] == c[0..4] && b[..4] == b[0..4];
    assert c[4] == c[4..6][0] && b[4] == b[4..6][0] && c[5] == c[4..6][1] && b[5] == b[4..6][1];
    forall p | Lower(b) <= p < Upper(b)
      ensures c[p] == 0
    {
      LinkedElsewhere(b, link, p, p + 1);
      assert c[p] == c[p..p + 1][0] && b[p] == b[p..p + 1][0];
    }
    forall i | 0 <= i < Count(b)
      ensures Slot(c, i) == Slot(b, i)
    {
      var at := DATA_HEADER_LEN + i * SLOT_LEN;
      LinkedElsewhere(b, link, at, at + 2);
      LinkedElsewhere(b, link, at + 2, at + 4);
    }
    assert Ranges(c) == Ranges(b);
    forall i | 0 <= i < Count(b)
      ensures Cells(c, id)[i] == Cells(b, id)[i]
    {
      LinkedElsewhere(b, link, Ranges(b)[i].start, Ranges(b)[i].end);
    }
  }

  // ---------- the page object ----------

  /** An in-memory page, edited in place. */
  class DataPage {
    const bytes: array<byte>
    const pageId: nat
    const kind: PageKind

    ghost predicate Valid()
      reads bytes
    {
      bytes.Length == PAGE_SIZE && WellFormedPage(bytes[..], pageId) && KindOf(bytes[..]) == kind
    }

    constructor Blank(pageId: nat, kind: PageKind)
      requires Superblocks.SUPERBLOCK_COUNT <= pageId && pageId * PAGE_SIZE < U64_LIMIT
      ensures Valid() && fresh(bytes) && this.pageId == pageId && this.kind == kind
      ensures Cells(bytes[..], pageId) == [] && FreeBytes(bytes[..]) == PAGE_BODY_CAPACITY
    {
      var image := EmptyImage(pageId, kind);
      EmptyImageIsWellFormed(pageId, kind);
      var buffer := new byte[PAGE_SIZE](i requires 0 <= i < PAGE_SIZE => image[i]);
      assert buffer[..] == image;
      bytes := buffer;
      this.pageId := pageId;
      this.kind := kind;
    }

    method Write(at: nat, source: seq<byte>)
      requires at + |source| <= bytes.Length
      modifies bytes
      ensures bytes[..] == Put(old(bytes[..]), at, source)
    {
      CopyInto(bytes, at, source);
      assert bytes[..] == bytes[..at + |source|] + bytes[at + |source|..];
    }

    method RefreshChecksum()
      requires bytes.Length == PAGE_SIZE
      modifies bytes
      ensures bytes[..] == Seal(old(bytes[..]))
    {
      Write(CHECKSUM_OFFSET, Crc32.Stored(Crc32.Checksum(bytes[..CHECKSUM_OFFSET])));
      assert old(bytes[..CHECKSUM_OFFSET]) == old(bytes[..])[..CHECKSUM_OFFSET];
    }

    /** `insert_cell`: appends the cell, or leaves the page untouched. */
    method InsertCell(cell: seq<byte>) returns (r: Result<nat>)
      requires Valid()
      modifies bytes
      ensures Valid()
      ensures r.Ok? <==> Insertable(old(bytes[..]), cell)
      ensures r.Ok? ==>
                && r.value == |old(Cells(bytes[..], pageId))|
                && Cells(bytes[..], pageId) == old(Cells(bytes[..], pageId)) + [cell]
                && FreeBytes(bytes[..]) == old(FreeBytes(bytes[..])) - SLOT_LEN - |cell|
                && Link(bytes[..]) == old(Link(bytes[..]))
      ensures r.Err? ==> bytes[..] == old(bytes[..])
    {
      hide LittleEndian, Crc32.Sealed, U16, U64, HeaderIsValid, Tiles, Put, Seal;
      ghost var before := bytes[..];
      assert HeaderIsValid(before, pageId);
      HeaderParts(before, pageId);
      if cell == [] || |cell| >= U16_LIMIT {
        return Err(InvalidInput);
      }
      var lower, upper, count := Lower(bytes[..]), Upper(bytes[..]), Count(bytes[..]);
      if SLOT_LEN + |cell| > FreeBytes(bytes[..]) || count + 1 >= U16_LIMIT {
        return Err(InvalidInput);
      }
      Write(upper - |cell|, cell);
      Write(lower, LittleEndian(upper - |cell|, 2));
      Write(lower + 2, LittleEndian(|cell|, 2));
      Write(24, LittleEndian(lower + SLOT_LEN, 2));
      Write(26, LittleEndian(upper - |cell|, 2));
      Write(28, LittleEndian(count + 1, 2));
      RefreshChecksum();
      assert bytes[..] == Inserted(before, cell);
      InsertKeepsPage(before, pageId, cell);
      return Ok(count);
    }

    /** `cell`: the stored bytes of one slot. */
    method Cell(index: nat) returns (r: Result<seq<byte>>)
      requires Valid()
      ensures r.Ok? <==> index < |Cells(bytes[..], pageId)|
      ensures r.Ok? ==> r.value == Cells(bytes[..], pageId)[index]
    {
      hide LittleEndian, Crc32.Sealed, U16, U64, HeaderIsValid;
      assert HeaderIsValid(bytes[..], pageId);
      HeaderParts(bytes[..], pageId);
      if index >= Count(bytes[..]) {
        return Err(InvalidInput);
      }
      var range := Slot(bytes[..], index);
      assert range == Ranges(bytes[..])[index];
      return Ok(bytes[..][range.start..range.end]);
    }

    /** `set_overflow_next` and `set_right_sibling`: the link of a page of the right kind. */
    method SetLink(expected: PageKind, link: nat) returns (r: Result<()>)
      requires Valid() && link < U64_LIMIT && expected != InternalKind
      modifies bytes
      ensures Valid()
      ensures r.Ok? <==>
                kind == expected && link != pageId
                && (link == Superblocks.ROOT_NONE || link >= Superblocks.SUPERBLOCK_COUNT)
      ensures r.Ok? ==>
                Link(bytes[..]) == link && Cells(bytes[..], pageId) == old(Cells(bytes[..], pageId))
                && FreeBytes(bytes[..]) == old(FreeBytes(bytes[..]))
      ensures r.Err? ==> bytes[..] == old(bytes[..])
    {
      hide LittleEndian, Crc32.Sealed, U16, U64, HeaderIsValid, Tiles, Put, Seal;
      if kind != expected {
        return Err(InvalidInput);
      }
      if link != Superblocks.ROOT_NONE && link < Superblocks.SUPERBLOCK_COUNT {
        return Err(InvalidInput);
      }
      if link == pageId {
        return Err(InvalidInput);
      }
      ghost var before := bytes[..];
      Write(32, LittleEndian(link, 8));
      RefreshChecksum();
      assert bytes[..] == Linked(before, link);
      LinkKeepsPage(before, pageId, link);
      return Ok(());
    }
  }

  /** What the cells of a page cost, slots included. */
  function CellCosts(cells: seq<seq<byte>>): (costs: seq<nat>)
    ensures |costs| == |cells|
  {
    seq(|cells|, i requires 0 <= i < |cells| => SLOT_LEN + |cells[i]|)
  }

  /** Packing a level into a new page succeeds exactly when its cells are non-empty and fit the body. */
  method PackCells(pageId: nat, kind: PageKind, cells: seq<seq<byte>>) returns (r: Result<DataPage>)
    requires Superblocks.SUPERBLOCK_COUNT <= pageId && pageId * PAGE_SIZE < U64_LIMIT
    ensures r.Ok? <==> Fit(CellCosts(cells)) && forall i :: 0 <= i < |cells| ==> cells[i] != []
    ensures r.Ok? ==>
              && fresh(r.value) && r.value.Valid() && r.value.pageId == pageId && r.value.kind == kind
              && Cells(r.value.bytes[..], pageId) == cells
  {
    hide HeaderIsValid, Tiles, WellFormedPage, KindOf, Lower, Upper, Sum;
    var page := new DataPage.Blank(pageId, kind);
    var i := 0;
    var costs := CellCosts(cells);
    SumOfNone(costs);
    while i < |cells|
      invariant 0 <= i <= |cells|
      invariant fresh(page) && fresh(page.bytes) && page.Valid() && page.pageId == pageId && page.kind == kind
      invariant Cells(page.bytes[..], pageId) == cells[..i]
      invariant FreeBytes(page.bytes[..]) == PAGE_BODY_CAPACITY - Sum(costs[..i])
      invariant Sum(costs[..i]) <= PAGE_BODY_CAPACITY
      invariant forall j :: 0 <= j < i ==> cells[j] != []
    {
      SumNext(costs, i);
      SumSplit(costs, i + 1);
      var inserted := page.InsertCell(cells[i]);
      if inserted.Err? {
        return Err(inserted.error);
      }
      assert cells[..i + 1] == cells[..i] + [cells[i]];
      i := i + 1;
    }
    assert cells[..i] == cells && costs[..i] == costs;
    return Ok(page);
  }

  /** Damage confined to four consecutive bytes of a page is always detected. */
  lemma DamagedPageIsRejected(prefix: seq<byte>, before: seq<byte>, after: seq<byte>, suffix: seq<byte>, id: nat)
    requires WellFormedPage(prefix + before + suffix, id)
    requires |before| == |after| <= 4 && before != after
    ensures !WellFormedPage(prefix + after + suffix, id)
  {
    Crc32.TamperedBlockIsRejected(prefix, before, after, suffix);
  }
}
