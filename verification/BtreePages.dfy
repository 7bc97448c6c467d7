/** Typed contents of the page file: tree cells, overflow chunks and what they cost on a page. */
module BtreePages {
  import opened Bytes
  import opened SplitArithmetic

  type Key = seq<byte>
  type Value = seq<byte>

  const MAX_TREE_KEY_BYTES: nat := 4 * 1024
  const MAX_TREE_VALUE_BYTES: nat := 1024 * 1024
  const MAX_TREE_HEIGHT: nat := 64
  const LEAF_CELL_HEADER_LEN: nat := 6
  const INTERNAL_CELL_HEADER_LEN: nat := 10
  const OVERFLOW_REF_LEN: nat := 8
  const MAX_INLINE_KEY_BYTES: nat := PAGE_BODY_CAPACITY - SLOT_LEN - LEAF_CELL_HEADER_LEN - OVERFLOW_REF_LEN
  const OVERFLOW_CELL_CAPACITY: nat := PAGE_BODY_CAPACITY - SLOT_LEN

  datatype Error = InvalidInput | Corruption | Poisoned | Io
  datatype Result<+T> = Ok(value: T) | Err(error: Error)

  /** The error of a failed result, total so that it can be written where failure is ruled out. */
  function ErrorOf<T>(r: Result<T>): Error {
    match r
    case Err(error) => error
    case Ok(_) => Corruption
  }

  /** A key or value as a cell stores it: its bytes, or the first page of its overflow chain. */
  datatype Ref = Inline(bytes: seq<byte>) | Overflow(length: nat, first: nat)

  datatype LeafCell = LeafCell(key: Ref, value: Ref)
  datatype InternalCell = InternalCell(separator: Ref, child: nat)

  /** One data page. An overflow page names its successor, 0 for none. */
  datatype Page =
    | LeafPage(leafCells: seq<LeafCell>)
    | InternalPage(internalCells: seq<InternalCell>)
    | OverflowPage(chunk: seq<byte>, next: nat)

  function PayloadLength(ref: Ref): nat {
    if ref.Inline? then |ref.bytes| else OVERFLOW_REF_LEN
  }

  function LeafCost(cell: LeafCell): nat {
    SLOT_LEN + LEAF_CELL_HEADER_LEN + PayloadLength(cell.key) + PayloadLength(cell.value)
  }

  function InternalCost(cell: InternalCell): nat {
    SLOT_LEN + INTERNAL_CELL_HEADER_LEN + PayloadLength(cell.separator)
  }

  function LeafCosts(cells: seq<LeafCell>): (costs: seq<nat>)
    ensures |costs| == |cells|
  {
    seq(|cells|, i requires 0 <= i < |cells| => LeafCost(cells[i]))
  }

  function InternalCosts(cells: seq<InternalCell>): (costs: seq<nat>)
    ensures |costs| == |cells|
  {
    seq(|cells|, i requires 0 <= i < |cells| => InternalCost(cells[i]))
  }

  /** The cells of a page fit its body. */
  predicate FitsPage(page: Page) {
    match page
    case LeafPage(cells) => Fit(LeafCosts(cells))
    case InternalPage(cells) => Fit(InternalCosts(cells))
    case OverflowPage(chunk, _) => 0 < |chunk| <= OVERFLOW_CELL_CAPACITY
  }
}
