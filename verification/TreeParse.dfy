/** Reading a tree out of committed pages: the specification every traversal is proved against. */
module TreeParse {
  import opened Options
  import opened Bytes
  import opened SplitArithmetic
  import opened BtreePages
  import opened Superblocks
  import opened PageStore
  import opened TreeModel

  // ---------- blobs ----------

  /** How many overflow pages carry `length` bytes. */
  function ChainPages(length: nat): nat {
    (length + OVERFLOW_CELL_CAPACITY - 1) / OVERFLOW_CELL_CAPACITY
  }

  /** A blob that continues after `bytes` were read from the pages of `chain`. */
  function Continued(bytes: seq<byte>, chain: seq<nat>, rest: Option<Blob>): Option<Blob> {
    if rest.None? then None else Some(Blob(bytes + rest.value.bytes, chain + rest.value.chain))
  }

  /** Follows an overflow chain of exactly `count` pages from `id` to the end mark. */
  function ParseChain(pages: seq<PageImage>, id: nat, count: nat, length: nat): Option<Blob>
    decreases count
  {
    if count == 0 then if id == ROOT_NONE then Some(Blob([], [])) else None
    else if !ReadableAt(pages, id) then None
    else
      var page := pages[id - SUPERBLOCK_COUNT].page;
      if !page.OverflowPage? || |page.chunk| != FirstChunk(length, count) then None
      else Continued(page.chunk, [id], ParseChain(pages, page.next, count - 1, length - |page.chunk|))
  }

  function ParseRef(pages: seq<PageImage>, ref: Ref, limit: nat): Option<Blob> {
    match ref
    case Inline(bytes) => if |bytes| <= limit then Some(Blob(bytes, [])) else None
    case Overflow(length, first) =>
      if 0 < length <= limit then ParseChain(pages, first, ChainPages(length), length) else None
  }

  lemma {:induction false} ParseChainHolds(pages: seq<PageImage>, id: nat, count: nat, length: nat)
    requires count > 0 && ParseChain(pages, id, count, length).Some?
    ensures var blob := ParseChain(pages, id, count, length).value;
            && |blob.chain| == count && |blob.bytes| == length && blob.chain[0] == id
            && ChainHolds(pages, blob.chain, blob.bytes)
    decreases count
  {
    var page := pages[id - SUPERBLOCK_COUNT].page;
    var blob := ParseChain(pages, id, count, length).value;
    var rest := ParseChain(pages, page.next, count - 1, length - |page.chunk|).value;
    assert blob.bytes[..|page.chunk|] == page.chunk;
    if count > 1 {
      ParseChainHolds(pages, page.next, count - 1, length - |page.chunk|);
      assert blob.chain[1..] == rest.chain && blob.bytes[|page.chunk|..] == rest.bytes;
    }
  }

  lemma {:induction false} ParseChainFinds(pages: seq<PageImage>, chain: seq<nat>, bytes: seq<byte>)
    requires ChainHolds(pages, chain, bytes)
    ensures ParseChain(pages, chain[0], |chain|, |bytes|) == Some(Blob(bytes, chain))
    decreases |chain|
  {
    var first := FirstChunk(|bytes|, |chain|);
    assert bytes == bytes[..first] + bytes[first..] && chain == [chain[0]] + chain[1..];
    if |chain| > 1 {
      ParseChainFinds(pages, chain[1..], bytes[first..]);
      assert Committed(pages, chain[1]);
    } else {
      assert ParseChain(pages, ROOT_NONE, 0, 0) == Some(Blob([], []));
    }
  }

  lemma ChainLength(pages: seq<PageImage>, chain: seq<nat>, bytes: seq<byte>)
    requires ChainHolds(pages, chain, bytes)
    ensures |chain| == ChainPages(|bytes|)
  {
  }

  /** A reference parses to exactly the blobs the pages hold for it. */
  lemma ParseRefExact(pages: seq<PageImage>, ref: Ref, limit: nat, blob: Blob)
    ensures ParseRef(pages, ref, limit) == Some(blob) <==> RefOf(blob) == ref && BlobHolds(pages, blob, limit)
  {
    if ParseRef(pages, ref, limit) == Some(blob) && ref.Overflow? {
      ParseChainHolds(pages, ref.first, ChainPages(ref.length), ref.length);
    }
    if RefOf(blob) == ref && BlobHolds(pages, blob, limit) && ref.Overflow? {
      ParseChainFinds(pages, blob.chain, blob.bytes);
      ChainLength(pages, blob.chain, blob.bytes);
    }
  }

  // ---------- trees ----------

  function KeyRefs(cells: seq<LeafCell>): (refs: seq<Ref>)
    ensures |refs| == |cells| && forall i :: 0 <= i < |cells| ==> refs[i] == cells[i].key
  {
    seq(|cells|, i requires 0 <= i < |cells| => cells[i].key)
  }

  function ValueRefs(cells: seq<LeafCell>): (refs: seq<Ref>)
    ensures |refs| == |cells| && forall i :: 0 <= i < |cells| ==> refs[i] == cells[i].value
  {
    seq(|cells|, i requires 0 <= i < |cells| => cells[i].value)
  }

  function SeparatorRefs(cells: seq<InternalCell>): (refs: seq<Ref>)
    ensures |refs| == |cells| && forall i :: 0 <= i < |cells| ==> refs[i] == cells[i].separator
  {
    seq(|cells|, i requires 0 <= i < |cells| => cells[i].separator)
  }

  predicate BlobsParse(pages: seq<PageImage>, refs: seq<Ref>, limit: nat) {
    forall i :: 0 <= i < |refs| ==> ParseRef(pages, refs[i], limit).Some?
  }

  function BlobsAt(pages: seq<PageImage>, refs: seq<Ref>, limit: nat): (blobs: seq<Blob>)
    requires BlobsParse(pages, refs, limit)
    ensures |blobs| == |refs|
    ensures forall i :: 0 <= i < |refs| ==> ParseRef(pages, refs[i], limit) == Some(blobs[i])
  {
    seq(|refs|, i requires 0 <= i < |refs| => ParseRef(pages, refs[i], limit).value)
  }

  predicate LeafParses(pages: seq<PageImage>, cells: seq<LeafCell>) {
    && BlobsParse(pages, KeyRefs(cells), MAX_TREE_KEY_BYTES)
    && BlobsParse(pages, ValueRefs(cells), MAX_TREE_VALUE_BYTES)
  }

  function EntriesOf(keys: seq<Blob>, values: seq<Blob>): (entries: seq<Entry>)
    requires |keys| == |values|
    ensures |entries| == |keys|
  {
    seq(|keys|, i requires 0 <= i < |keys| => Entry(keys[i], values[i]))
  }

  predicate KidsParse(pages: seq<PageImage>, cells: seq<InternalCell>, fuel: nat)
    decreases fuel, 1
  {
    forall i :: 0 <= i < |cells| ==> Parse(pages, cells[i].child, fuel).Some?
  }

  function KidsAt(pages: seq<PageImage>, cells: seq<InternalCell>, fuel: nat): (kids: seq<Tree>)
    requires KidsParse(pages, cells, fuel)
    ensures |kids| == |cells|
    decreases fuel, 2
  {
    seq(|cells|, i requires 0 <= i < |cells| => Parse(pages, cells[i].child, fuel).value)
  }

  /** The tree below page `id`, if it reads back within `fuel` levels. */
  function Parse(pages: seq<PageImage>, id: nat, fuel: nat): Option<Tree>
    decreases fuel, 0
  {
    if fuel == 0 || !ReadableAt(pages, id) then None
    else
      match pages[id - SUPERBLOCK_COUNT].page
      case LeafPage(cells) =>
        if LeafParses(pages, cells) then
          Some(Leaf(id, EntriesOf(BlobsAt(pages, KeyRefs(cells), MAX_TREE_KEY_BYTES),
                                  BlobsAt(pages, ValueRefs(cells), MAX_TREE_VALUE_BYTES))))
        else None
      case InternalPage(cells) =>
        if BlobsParse(pages, SeparatorRefs(cells), MAX_TREE_KEY_BYTES) && KidsParse(pages, cells, fuel - 1) then
          Some(Node(id, BlobsAt(pages, SeparatorRefs(cells), MAX_TREE_KEY_BYTES), KidsAt(pages, cells, fuel - 1)))
        else None
      case OverflowPage(_, _) => None
  }

  lemma BlobsHold(pages: seq<PageImage>, refs: seq<Ref>, limit: nat)
    requires BlobsParse(pages, refs, limit)
    ensures forall i :: 0 <= i < |refs| ==>
              var blob := BlobsAt(pages, refs, limit)[i]; RefOf(blob) == refs[i] && BlobHolds(pages, blob, limit)
  {
    hide ParseRef, BlobHolds;
    forall i | 0 <= i < |refs|
      ensures var blob := BlobsAt(pages, refs, limit)[i]; RefOf(blob) == refs[i] && BlobHolds(pages, blob, limit)
    {
      ParseRefExact(pages, refs[i], limit, BlobsAt(pages, refs, limit)[i]);
    }
  }

  lemma BlobsFound(pages: seq<PageImage>, refs: seq<Ref>, limit: nat, blobs: seq<Blob>)
    requires |blobs| == |refs|
    requires forall i :: 0 <= i < |refs| ==> RefOf(blobs[i]) == refs[i] && BlobHolds(pages, blobs[i], limit)
    ensures BlobsParse(pages, refs, limit) && BlobsAt(pages, refs, limit) == blobs
  {
    hide ParseRef, BlobHolds;
    forall i | 0 <= i < |refs|
      ensures ParseRef(pages, refs[i], limit) == Some(blobs[i])
    {
      ParseRefExact(pages, refs[i], limit, blobs[i]);
    }
  }

  lemma {:induction false} ParseHolds(pages: seq<PageImage>, id: nat, fuel: nat)
    requires Parse(pages, id, fuel).Some?
    ensures var t := Parse(pages, id, fuel).value; t.id == id && Holds(pages, t)
    decreases fuel
  {
    hide ParseRef, BlobHolds, BlobsParse, BlobsAt, Fit;
    var t := Parse(pages, id, fuel).value;
    match pages[id - SUPERBLOCK_COUNT].page
    case LeafPage(cells) =>
      BlobsHold(pages, KeyRefs(cells), MAX_TREE_KEY_BYTES);
      BlobsHold(pages, ValueRefs(cells), MAX_TREE_VALUE_BYTES);
      assert LeafCells(t.entries) == cells;
    case InternalPage(cells) =>
      BlobsHold(pages, SeparatorRefs(cells), MAX_TREE_KEY_BYTES);
      forall i | 0 <= i < |cells|
        ensures Holds(pages, t.kids[i]) && t.kids[i].id == cells[i].child
      {
        ParseHolds(pages, cells[i].child, fuel - 1);
      }
      assert InternalCells(t.separators, t.kids) == cells;
  }

  /** Pages determine the tree: a shaped tree they hold is the one that parses. */
  lemma {:induction false} ParseFinds(pages: seq<PageImage>, t: Tree, height: nat, fuel: nat)
    requires Holds(pages, t) && Shape(t, height) && height <= fuel
    ensures Parse(pages, t.id, fuel) == Some(t)
    decreases t
  {
    hide ParseRef, BlobHolds, BlobsParse, BlobsAt, Fit;
    match t
    case Leaf(id, entries) =>
      var cells := LeafCells(entries);
      var keys := seq(|entries|, i requires 0 <= i < |entries| => entries[i].key);
      var values := seq(|entries|, i requires 0 <= i < |entries| => entries[i].value);
      forall i | 0 <= i < |entries|
        ensures BlobHolds(pages, keys[i], MAX_TREE_KEY_BYTES) && BlobHolds(pages, values[i], MAX_TREE_VALUE_BYTES)
      {
        assert EntryHolds(pages, entries[i]);
      }
      BlobsFound(pages, KeyRefs(cells), MAX_TREE_KEY_BYTES, keys);
      BlobsFound(pages, ValueRefs(cells), MAX_TREE_VALUE_BYTES, values);
      assert EntriesOf(keys, values) == entries;
    case Node(id, separators, kids) =>
      var cells := InternalCells(separators, kids);
      BlobsFound(pages, SeparatorRefs(cells), MAX_TREE_KEY_BYTES, separators);
      forall i | 0 <= i < |cells|
        ensures Parse(pages, cells[i].child, fuel - 1) == Some(kids[i])
      {
        ParseFinds(pages, kids[i], height - 1, fuel - 1);
      }
      assert KidsAt(pages, cells, fuel - 1) == kids;
  }

  // ---------- what reopening accepts ----------

  function Height(t: Tree): nat {
    match t
    case Leaf(_, _) => 1
    case Node(_, _, kids) => if kids == [] then 1 else 1 + Height(kids[0])
  }

  lemma {:induction false} ShapeHeight(t: Tree, height: nat)
    requires Shape(t, height)
    ensures height == Height(t)
    decreases t
  {
    if t.Node? { ShapeHeight(t.kids[0], height - 1); }
  }

  function LastKey(t: Tree): Key {
    var pairs := Flatten(t);
    if pairs == [] then [] else pairs[|pairs| - 1].key
  }

  /** Sorted, of uniform height, and no page reached twice. */
  predicate SearchTree(t: Tree) {
    Shape(t, Height(t)) && Sorted(Flatten(t)) && NoDuplicates(Foot(t))
  }

  /** No page of `foot` is counted twice or already in `seen`. */
  ghost predicate Distinct(foot: multiset<nat>, seen: set<nat>) {
    forall id: nat :: foot[id] <= if id in seen then 0 else 1
  }

  ghost function Grown(seen: set<nat>, foot: multiset<nat>): set<nat> {
    seen + set id | id in foot
  }

  /** Marking page after page notices exactly the repeated ones. */
  lemma DistinctParts(a: multiset<nat>, b: multiset<nat>, seen: set<nat>)
    ensures Distinct(a + b, seen) <==> Distinct(a, seen) && Distinct(b, Grown(seen, a))
    ensures Grown(seen, a + b) == Grown(Grown(seen, a), b)
  {
    if Distinct(a + b, seen) {
      forall id: nat ensures b[id] <= if id in Grown(seen, a) then 0 else 1 {
        assert (a + b)[id] == a[id] + b[id];
      }
      forall id: nat ensures a[id] <= if id in seen then 0 else 1 {
        assert (a + b)[id] == a[id] + b[id];
      }
    }
    if Distinct(a, seen) && Distinct(b, Grown(seen, a)) {
      forall id: nat ensures (a + b)[id] <= if id in seen then 0 else 1 {
        assert (a + b)[id] == a[id] + b[id];
        assert a[id] > 0 ==> id in Grown(seen, a);
      }
    }
  }

  lemma DistinctOne(id: nat, seen: set<nat>)
    ensures Distinct(multiset{id}, seen) <==> id !in seen
    ensures Grown(seen, multiset{id}) == seen + {id}
  {
    if Distinct(multiset{id}, seen) {
      assert multiset{id}[id] == 1;
    }
  }

  lemma DistinctNone(seen: set<nat>)
    ensures Distinct(multiset{}, seen) && Grown(seen, multiset{}) == seen
  {
  }

  lemma DistinctHasNoDuplicates(foot: multiset<nat>, seen: set<nat>)
    requires Distinct(foot, seen)
    ensures NoDuplicates(foot)
  {
  }

  lemma NoDuplicatesIsDistinct(foot: multiset<nat>)
    requires NoDuplicates(foot)
    ensures Distinct(foot, {})
  {
    forall id: nat ensures foot[id] <= 1 {
      if id in foot {} else {}
    }
  }

  /** The whole check of a subtree when the pages of `seen` were already visited. */
  ghost predicate Accepted(found: Option<Tree>, seen: set<nat>) {
    found.Some? && SearchTree(found.value) && Branching(found.value) && Distinct(Foot(found.value), seen)
  }

  // ---------- children in order ----------

  lemma SortedJoin(a: seq<Pair>, b: seq<Pair>)
    requires Sorted(a) && Sorted(b)
    requires a != [] && b != [] ==> Less(a[|a| - 1].key, b[0].key)
    ensures Sorted(a + b)
  {
    forall i, j | 0 <= i < j < |a + b|
      ensures Less((a + b)[i].key, (a + b)[j].key)
    {
      if i < |a| <= j {
        if i < |a| - 1 { LessTransitive(a[i].key, a[|a| - 1].key, b[0].key); }
        if j > |a| { LessTransitive(a[i].key, b[0].key, b[j - |a|].key); }
      }
    }
  }

  predicate Adjacent(kids: seq<Tree>) {
    forall i :: 0 <= i < |kids| - 1 ==> Less(LastKey(kids[i]), First(kids[i + 1]))
  }

  lemma {:induction false} AdjacentKidsAreSorted(kids: seq<Tree>, height: nat)
    requires forall i :: 0 <= i < |kids| ==> Shape(kids[i], height) && Sorted(Flatten(kids[i]))
    requires Adjacent(kids)
    ensures Sorted(FlattenAll(kids))
    decreases |kids|
  {
    hide Shape, Less, Flatten;
    if kids != [] {
      FirstIsLeast(kids[0], height);
      AdjacentKidsAreSorted(kids[1..], height);
      if |kids| > 1 {
        FirstIsLeast(kids[1], height);
        assert FlattenAll(kids[1..])[0] == Flatten(kids[1])[0];
        assert Less(LastKey(kids[0]), First(kids[0 + 1]));
      }
      SortedJoin(Flatten(kids[0]), FlattenAll(kids[1..]));
    }
  }

  lemma SortedKidsAreAdjacent(kids: seq<Tree>, height: nat)
    requires forall i :: 0 <= i < |kids| ==> Shape(kids[i], height)
    requires Sorted(FlattenAll(kids))
    ensures Adjacent(kids)
  {
    hide Shape, Less, Flatten, FlattenAll;
    forall i | 0 <= i < |kids| - 1
      ensures Less(LastKey(kids[i]), First(kids[i + 1]))
    {
      FirstIsLeast(kids[i], height);
      FirstIsLeast(kids[i + 1], height);
      FlattenAround(kids, i + 1);
      FlattenAround(kids[..i + 1], i);
      assert kids[..i + 1][i] == kids[i] && kids[..i + 1][i + 1..] == [];
      var before := FlattenAll(kids[..i + 1]);
      NothingFlattens();
      SortedParts(before + Flatten(kids[i + 1]), FlattenAll(kids[i + 1 + 1..]));
      SortedParts(before, Flatten(kids[i + 1]));
      assert before[|before| - 1].key == LastKey(kids[i]);
    }
  }

  lemma LastOfNode(kids: seq<Tree>, height: nat)
    requires kids != [] && forall i :: 0 <= i < |kids| ==> Shape(kids[i], height)
    ensures FlattenAll(kids) != []
    ensures FlattenAll(kids)[|FlattenAll(kids)| - 1].key == LastKey(kids[|kids| - 1])
  {
    hide Shape, Flatten, FlattenAll;
    FlattenAround(kids, |kids| - 1);
    FirstIsLeast(kids[|kids| - 1], height);
    assert kids[|kids| - 1 + 1..] == [];
    NothingFlattens();
  }

  // ---------- what a committed state denotes ----------

  lemma {:induction false} ParseHeight(pages: seq<PageImage>, id: nat, fuel: nat)
    requires Parse(pages, id, fuel).Some?
    ensures Height(Parse(pages, id, fuel).value) <= fuel
    decreases fuel
  {
    hide BlobsParse, BlobsAt, LeafParses;
    var t := Parse(pages, id, fuel).value;
    if t.Node? && t.kids != [] {
      var cells := pages[id - SUPERBLOCK_COUNT].page.internalCells;
      assert t.kids[0] == Parse(pages, cells[0].child, fuel - 1).value;
      ParseHeight(pages, cells[0].child, fuel - 1);
    }
  }

  /** The tree below the published root. */
  function RootTree(v: View): Option<Tree> {
    Parse(v.pages, v.block.root, MAX_TREE_HEIGHT)
  }

  /** The key/value map a reopened file stands for, when its root leads to a search tree. */
  function Denoted(v: View): Option<map<Key, Value>> {
    if v.block.root == ROOT_NONE then Some(map[])
    else
      var t := RootTree(v);
      if t.Some? && SearchTree(t.value) then Some(Contents(t.value)) else None
  }

  /** What `open` and the next mutation check: a search tree with at least two children per internal page. */
  ghost predicate Acceptable(v: View) {
    v.block.root == ROOT_NONE || Accepted(RootTree(v), {})
  }

  lemma AcceptableIsDenoted(v: View)
    requires Acceptable(v)
    ensures Denoted(v).Some?
  {
  }
}
