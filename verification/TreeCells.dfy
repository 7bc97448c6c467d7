/** The byte form of leaf and internal cells, and the pages they are packed into. */
module TreeCells {
  import opened Options
  import opened Bytes
  import opened SplitArithmetic
  import opened BtreePages
  import Superblocks
  import SlottedPage

  const KEY_OVERFLOW_FLAG: nat := 0x8000
  const VALUE_OVERFLOW_FLAG: nat := 0x8000_0000

  // ---------- what can be encoded ----------

  predicate KeyEncodable(ref: Ref) {
    match ref
    case Inline(bytes) => |bytes| <= MAX_TREE_KEY_BYTES
    case Overflow(length, first) => 0 < length <= MAX_TREE_KEY_BYTES && first < U64_LIMIT
  }

  predicate ValueEncodable(ref: Ref) {
    match ref
    case Inline(bytes) => |bytes| <= MAX_TREE_VALUE_BYTES
    case Overflow(length, first) =>
      0 < length <= MAX_TREE_VALUE_BYTES && Superblocks.SUPERBLOCK_COUNT <= first < U64_LIMIT
  }

  predicate LeafEncodable(cell: LeafCell) {
    KeyEncodable(cell.key) && ValueEncodable(cell.value)
  }

  predicate InternalEncodable(cell: InternalCell) {
    KeyEncodable(cell.separator) && Superblocks.SUPERBLOCK_COUNT <= cell.child < U64_LIMIT
  }

  // ---------- encoding ----------

  /** The length field: the flag bit says that the payload is a page reference. */
  function LengthField(ref: Ref, flag: nat): nat {
    match ref
    case Inline(bytes) => |bytes|
    case Overflow(length, _) => flag + length
  }

  function Payload(ref: Ref): (bytes: seq<byte>)
    ensures |bytes| == PayloadLength(ref)
  {
    match ref
    case Inline(bytes) => bytes
    case Overflow(_, first) => LittleEndian(first, OVERFLOW_REF_LEN)
  }

  /** `encode_leaf_cell`. */
  function EncodeLeafCell(cell: LeafCell): (bytes: seq<byte>)
    ensures |bytes| == LEAF_CELL_HEADER_LEN + PayloadLength(cell.key) + PayloadLength(cell.value)
  {
    LittleEndian(LengthField(cell.key, KEY_OVERFLOW_FLAG), 2)
    + LittleEndian(LengthField(cell.value, VALUE_OVERFLOW_FLAG), 4)
    + Payload(cell.key) + Payload(cell.value)
  }

  /** `encode_internal_cell_stored`. */
  function EncodeInternalCell(cell: InternalCell): (bytes: seq<byte>)
    ensures |bytes| == INTERNAL_CELL_HEADER_LEN + PayloadLength(cell.separator)
  {
    LittleEndian(LengthField(cell.separator, KEY_OVERFLOW_FLAG), 2) + LittleEndian(cell.child, 8)
    + Payload(cell.separator)
  }

  // ---------- decoding ----------

  /** How long the payload behind a length field is, if the length is allowed. */
  function FieldPayload(field: nat, flag: nat, limit: nat): Option<nat>
    requires flag > 0
  {
    var length := field % flag;
    if length > limit || (field >= flag && length == 0) then None
    else Some(if field >= flag then OVERFLOW_REF_LEN else length)
  }

  function DecodeRef(field: nat, flag: nat, payload: seq<byte>): Ref
    requires flag > 0 && (field >= flag ==> |payload| == OVERFLOW_REF_LEN)
  {
    if field >= flag then Overflow(field % flag, U64(payload)) else Inline(payload)
  }

  /** The cell part of `decode_leaf`. */
  function DecodeLeafCell(bytes: seq<byte>): Result<LeafCell> {
    if |bytes| < LEAF_CELL_HEADER_LEN then Err(Corruption)
    else
      var keyField, valueField := U16(bytes[..2]), U32(bytes[2..6]);
      var keyLength := FieldPayload(keyField, KEY_OVERFLOW_FLAG, MAX_TREE_KEY_BYTES);
      var valueLength := FieldPayload(valueField, VALUE_OVERFLOW_FLAG, MAX_TREE_VALUE_BYTES);
      if keyLength.None? || valueLength.None? then Err(Corruption)
      else if LEAF_CELL_HEADER_LEN + keyLength.value + valueLength.value != |bytes| then Err(Corruption)
      else
        var split := LEAF_CELL_HEADER_LEN + keyLength.value;
        var key := DecodeRef(keyField, KEY_OVERFLOW_FLAG, bytes[LEAF_CELL_HEADER_LEN..split]);
        var value := DecodeRef(valueField, VALUE_OVERFLOW_FLAG, bytes[split..]);
        if value.Overflow? && value.first < Superblocks.SUPERBLOCK_COUNT then Err(Corruption)
        else Ok(LeafCell(key, value))
  }

  /** The cell part of `decode_internal`. */
  function DecodeInternalCell(bytes: seq<byte>): Result<InternalCell> {
    if |bytes| < INTERNAL_CELL_HEADER_LEN then Err(Corruption)
    else
      var field, child := U16(bytes[..2]), U64(bytes[2..10]);
      var length := FieldPayload(field, KEY_OVERFLOW_FLAG, MAX_TREE_KEY_BYTES);
      if length.None? || INTERNAL_CELL_HEADER_LEN + length.value != |bytes| then Err(Corruption)
      else if child < Superblocks.SUPERBLOCK_COUNT then Err(Corruption)
      else Ok(InternalCell(DecodeRef(field, KEY_OVERFLOW_FLAG, bytes[INTERNAL_CELL_HEADER_LEN..]), child))
  }

  // ---------- round trips ----------

  lemma RefRoundTrip(ref: Ref, flag: nat, limit: nat)
    requires limit < flag
    requires match ref
             case Inline(bytes) => |bytes| <= limit
             case Overflow(length, first) => 0 < length <= limit && first < U64_LIMIT
    ensures FieldPayload(LengthField(ref, flag), flag, limit) == Some(PayloadLength(ref))
    ensures LengthField(ref, flag) < 2 * flag
    ensures LengthField(ref, flag) >= flag <==> ref.Overflow?
    ensures DecodeRef(LengthField(ref, flag), flag, Payload(ref)) == ref
  {
    if ref.Overflow? {
      ModuloOfFlag(ref.length, flag);
      U64RoundTrip(ref.first);
    }
  }

  lemma ModuloOfFlag(length: nat, flag: nat)
    requires length < flag
    ensures (flag + length) % flag == length
  {
  }

  /** Decoding a leaf cell gives back what was encoded. */
  lemma LeafCellRoundTrip(cell: LeafCell)
    requires LeafEncodable(cell)
    ensures DecodeLeafCell(EncodeLeafCell(cell)) == Ok(cell)
  {
    hide LittleEndian, LengthField, Payload, U16, U32, U64, FieldPayload, DecodeRef;
    var keyField, valueField := LengthField(cell.key, KEY_OVERFLOW_FLAG), LengthField(cell.value, VALUE_OVERFLOW_FLAG);
    RefRoundTrip(cell.key, KEY_OVERFLOW_FLAG, MAX_TREE_KEY_BYTES);
    RefRoundTrip(cell.value, VALUE_OVERFLOW_FLAG, MAX_TREE_VALUE_BYTES);
    U16RoundTrip(keyField);
    U32RoundTrip(valueField);
    var bytes := EncodeLeafCell(cell);
    var split := LEAF_CELL_HEADER_LEN + PayloadLength(cell.key);
    assert bytes[..2] == LittleEndian(keyField, 2) && bytes[2..6] == LittleEndian(valueField, 4);
    assert bytes[LEAF_CELL_HEADER_LEN..split] == Payload(cell.key) && bytes[split..] == Payload(cell.value);
  }

  lemma InternalCellRoundTrip(cell: InternalCell)
    requires InternalEncodable(cell)
    ensures DecodeInternalCell(EncodeInternalCell(cell)) == Ok(cell)
  {
    hide LittleEndian, LengthField, Payload, U16, U64, FieldPayload, DecodeRef;
    var field := LengthField(cell.separator, KEY_OVERFLOW_FLAG);
    RefRoundTrip(cell.separator, KEY_OVERFLOW_FLAG, MAX_TREE_KEY_BYTES);
    U16RoundTrip(field);
    U64RoundTrip(cell.child);
    var bytes := EncodeInternalCell(cell);
    assert bytes[..2] == LittleEndian(field, 2) && bytes[2..10] == LittleEndian(cell.child, 8);
    assert bytes[INTERNAL_CELL_HEADER_LEN..] == Payload(cell.separator);
  }

  lemma RefCanonical(field: nat, flag: nat, limit: nat, payload: seq<byte>)
    requires 0 < flag && field < 2 * flag && FieldPayload(field, flag, limit) == Some(|payload|)
    ensures var ref := DecodeRef(field, flag, payload);
            && LengthField(ref, flag) == field && Payload(ref) == payload
            && match ref
               case Inline(bytes) => |bytes| <= limit
               case Overflow(length, first) => 0 < length <= limit && first < U64_LIMIT
  {
    if field >= flag {
      assert field % flag == field - flag by { ModuloOfFlag(field - flag, flag); }
      U64Canonical(payload);
    } else {
      assert field % flag == field;
    }
  }

  /** A leaf cell that decodes is the one encoding of what it decodes to. */
  lemma LeafCellCanonical(bytes: seq<byte>)
    requires DecodeLeafCell(bytes).Ok?
    ensures var cell := DecodeLeafCell(bytes).value; LeafEncodable(cell) && EncodeLeafCell(cell) == bytes
  {
    hide LittleEndian, LengthField, Payload, U16, U32, U64, FieldPayload, DecodeRef;
    var keyField, valueField := U16(bytes[..2]), U32(bytes[2..6]);
    var split := LEAF_CELL_HEADER_LEN + FieldPayload(keyField, KEY_OVERFLOW_FLAG, MAX_TREE_KEY_BYTES).value;
    RefCanonical(keyField, KEY_OVERFLOW_FLAG, MAX_TREE_KEY_BYTES, bytes[LEAF_CELL_HEADER_LEN..split]);
    RefCanonical(valueField, VALUE_OVERFLOW_FLAG, MAX_TREE_VALUE_BYTES, bytes[split..]);
    U16Canonical(bytes[..2]);
    U32Canonical(bytes[2..6]);
    assert bytes == bytes[..2] + bytes[2..6] + bytes[LEAF_CELL_HEADER_LEN..split] + bytes[split..];
  }

  lemma InternalCellCanonical(bytes: seq<byte>)
    requires DecodeInternalCell(bytes).Ok?
    ensures var cell := DecodeInternalCell(bytes).value; InternalEncodable(cell) && EncodeInternalCell(cell) == bytes
  {
    hide LittleEndian, LengthField, Payload, U16, U64, FieldPayload, DecodeRef;
    var field := U16(bytes[..2]);
    RefCanonical(field, KEY_OVERFLOW_FLAG, MAX_TREE_KEY_BYTES, bytes[INTERNAL_CELL_HEADER_LEN..]);
    U16Canonical(bytes[..2]);
    U64Canonical(bytes[2..10]);
    assert bytes == bytes[..2] + bytes[2..10] + bytes[INTERNAL_CELL_HEADER_LEN..];
  }

  // ---------- typed pages and page images ----------

  function EncodeLeafCells(cells: seq<LeafCell>): (encoded: seq<seq<byte>>)
    ensures |encoded| == |cells| && forall i :: 0 <= i < |cells| ==> encoded[i] == EncodeLeafCell(cells[i])
  {
    seq(|cells|, i requires 0 <= i < |cells| => EncodeLeafCell(cells[i]))
  }

  function EncodeInternalCells(cells: seq<InternalCell>): (encoded: seq<seq<byte>>)
    ensures |encoded| == |cells| && forall i :: 0 <= i < |cells| ==> encoded[i] == EncodeInternalCell(cells[i])
  {
    seq(|cells|, i requires 0 <= i < |cells| => EncodeInternalCell(cells[i]))
  }

  lemma TypedCostsAreByteCosts(leaf: seq<LeafCell>, internal: seq<InternalCell>)
    ensures SlottedPage.CellCosts(EncodeLeafCells(leaf)) == LeafCosts(leaf)
    ensures SlottedPage.CellCosts(EncodeInternalCells(internal)) == InternalCosts(internal)
  {
    hide EncodeLeafCell, EncodeInternalCell, PayloadLength;
    assert forall i :: 0 <= i < |leaf| ==> SLOT_LEN + |EncodeLeafCell(leaf[i])| == LeafCost(leaf[i]);
    assert forall i :: 0 <= i < |internal| ==>
        SLOT_LEN + |EncodeInternalCell(internal[i])| == InternalCost(internal[i]);
  }

  /** A leaf packs into one page image exactly when its typed cells fit, and its cells decode back. */
  method PackLeaf(pageId: nat, cells: seq<LeafCell>) returns (r: Result<SlottedPage.DataPage>)
    requires Superblocks.SUPERBLOCK_COUNT <= pageId && pageId * PAGE_SIZE < U64_LIMIT
    requires forall i :: 0 <= i < |cells| ==> LeafEncodable(cells[i])
    ensures r.Ok? <==> FitsPage(LeafPage(cells))
    ensures r.Ok? ==>
              && fresh(r.value) && r.value.Valid() && r.value.pageId == pageId
              && var stored := SlottedPage.Cells(r.value.bytes[..], pageId);
                 |stored| == |cells| && forall i :: 0 <= i < |cells| ==> DecodeLeafCell(stored[i]) == Ok(cells[i])
  {
    hide SlottedPage.WellFormedPage, EncodeLeafCell, DecodeLeafCell, LeafEncodable, Sum;
    TypedCostsAreByteCosts(cells, []);
    r := SlottedPage.PackCells(pageId, SlottedPage.LeafKind, EncodeLeafCells(cells));
    forall i | 0 <= i < |cells| ensures DecodeLeafCell(EncodeLeafCell(cells[i])) == Ok(cells[i]) {
      LeafCellRoundTrip(cells[i]);
    }
  }

  /** The same for an internal page. */
  method PackInternal(pageId: nat, cells: seq<InternalCell>) returns (r: Result<SlottedPage.DataPage>)
    requires Superblocks.SUPERBLOCK_COUNT <= pageId && pageId * PAGE_SIZE < U64_LIMIT
    requires forall i :: 0 <= i < |cells| ==> InternalEncodable(cells[i])
    ensures r.Ok? <==> FitsPage(InternalPage(cells))
    ensures r.Ok? ==>
              && fresh(r.value) && r.value.Valid() && r.value.pageId == pageId
              && var stored := SlottedPage.Cells(r.value.bytes[..], pageId);
                 |stored| == |cells| && forall i :: 0 <= i < |cells| ==> DecodeInternalCell(stored[i]) == Ok(cells[i])
  {
    hide SlottedPage.WellFormedPage, EncodeInternalCell, DecodeInternalCell, InternalEncodable, Sum;
    TypedCostsAreByteCosts([], cells);
    r := SlottedPage.PackCells(pageId, SlottedPage.InternalKind, EncodeInternalCells(cells));
    forall i | 0 <= i < |cells| ensures DecodeInternalCell(EncodeInternalCell(cells[i])) == Ok(cells[i]) {
      InternalCellRoundTrip(cells[i]);
    }
  }
}
