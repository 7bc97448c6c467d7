/** The tree a page file represents: its in-order contents, its shape and the pages it occupies. */
module TreeModel {
  import opened Bytes
  import opened BtreePages
  import opened PageStore
  import opened SplitArithmetic
  import Superblocks

  /** A key or value together with the overflow pages that carry it; an empty chain means inline. */
  datatype Blob = Blob(bytes: seq<byte>, chain: seq<nat>)

  datatype Entry = Entry(key: Blob, value: Blob)

  datatype Tree =
    | Leaf(id: nat, entries: seq<Entry>)
    | Node(id: nat, separators: seq<Blob>, kids: seq<Tree>)

  datatype Pair = Pair(key: Key, value: Value)

  // ---------- contents ----------

  function EntryPairs(entries: seq<Entry>): (pairs: seq<Pair>)
    ensures |pairs| == |entries|
  {
    seq(|entries|, i requires 0 <= i < |entries| => Pair(entries[i].key.bytes, entries[i].value.bytes))
  }

  /** The pairs of a tree from left to right. */
  function Flatten(t: Tree): seq<Pair> {
    match t
    case Leaf(_, entries) => EntryPairs(entries)
    case Node(_, _, kids) => FlattenAll(kids)
  }

  function FlattenAll(kids: seq<Tree>): seq<Pair> {
    if kids == [] then [] else Flatten(kids[0]) + FlattenAll(kids[1..])
  }

  predicate Sorted(pairs: seq<Pair>) {
    forall i, j :: 0 <= i < j < |pairs| ==> Less(pairs[i].key, pairs[j].key)
  }

  function MapOf(pairs: seq<Pair>): map<Key, Value> {
    if pairs == [] then map[]
    else MapOf(pairs[..|pairs| - 1])[pairs[|pairs| - 1].key := pairs[|pairs| - 1].value]
  }

  function Contents(t: Tree): map<Key, Value> {
    MapOf(Flatten(t))
  }

  /** How many leading pairs have a key below `key`: where binary search ends up on a sorted slice. */
  function LowerBound(pairs: seq<Pair>, key: Key): (at: nat)
    ensures at <= |pairs|
    ensures forall i :: 0 <= i < at ==> Less(pairs[i].key, key)
    ensures at < |pairs| ==> !Less(pairs[at].key, key)
  {
    if pairs == [] || !Less(pairs[0].key, key) then 0 else 1 + LowerBound(pairs[1..], key)
  }

  predicate FoundAt(pairs: seq<Pair>, at: nat, key: Key) {
    at < |pairs| && pairs[at].key == key
  }

  function InsertPair(pairs: seq<Pair>, pair: Pair): seq<Pair> {
    var at := LowerBound(pairs, pair.key);
    if FoundAt(pairs, at, pair.key) then pairs[at := pair] else pairs[..at] + [pair] + pairs[at..]
  }

  lemma LowerBoundUnique(pairs: seq<Pair>, key: Key, at: nat)
    requires at <= |pairs|
    requires forall i :: 0 <= i < at ==> Less(pairs[i].key, key)
    requires at < |pairs| ==> !Less(pairs[at].key, key)
    ensures LowerBound(pairs, key) == at
  {
  }

  lemma LowerBoundWithin(a: seq<Pair>, b: seq<Pair>, c: seq<Pair>, key: Key)
    requires forall i :: 0 <= i < |a| ==> Less(a[i].key, key)
    requires forall i :: 0 <= i < |c| ==> Less(key, c[i].key)
    ensures LowerBound(a + b + c, key) == |a| + LowerBound(b, key)
  {
    if c != [] { LessAsymmetric(key, c[0].key); }
    LowerBoundUnique(a + b + c, key, |a| + LowerBound(b, key));
  }

  /** Searching the whole finds exactly what searching the middle part finds. */
  lemma FoundWithin(a: seq<Pair>, b: seq<Pair>, c: seq<Pair>, key: Key)
    requires forall i :: 0 <= i < |a| ==> Less(a[i].key, key)
    requires forall i :: 0 <= i < |c| ==> Less(key, c[i].key)
    ensures FoundAt(a + b + c, LowerBound(a + b + c, key), key) <==> FoundAt(b, LowerBound(b, key), key)
    ensures FoundAt(b, LowerBound(b, key), key) ==>
              (a + b + c)[LowerBound(a + b + c, key)] == b[LowerBound(b, key)]
  {
    hide Less, LowerBound;
    LowerBoundWithin(a, b, c, key);
    var local := LowerBound(b, key);
    if local < |b| {
      assert (a + b + c)[|a| + local] == b[local];
    } else if c != [] {
      assert (a + b + c)[|a| + local] == c[0];
      LessIrreflexive(key);
    }
  }

  /** Inserting into the middle part of a sorted sequence is inserting into the whole. */
  lemma InsertWithin(a: seq<Pair>, b: seq<Pair>, c: seq<Pair>, pair: Pair)
    requires forall i :: 0 <= i < |a| ==> Less(a[i].key, pair.key)
    requires forall i :: 0 <= i < |c| ==> Less(pair.key, c[i].key)
    ensures InsertPair(a + b + c, pair) == a + InsertPair(b, pair) + c
  {
    hide Less, LowerBound, FoundAt;
    LowerBoundWithin(a, b, c, pair.key);
    FoundWithin(a, b, c, pair.key);
    SpliceWithin(a, b, c, LowerBound(b, pair.key), pair);
  }

  lemma SpliceWithin(a: seq<Pair>, b: seq<Pair>, c: seq<Pair>, at: nat, pair: Pair)
    requires at <= |b|
    ensures at < |b| ==> (a + b + c)[|a| + at := pair] == a + b[at := pair] + c
    ensures (a + b + c)[..|a| + at] + [pair] + (a + b + c)[|a| + at..] == a + (b[..at] + [pair] + b[at..]) + c
    ensures FoundAt(b, at, pair.key) ==> at < |b|
  {
    var whole := a + b + c;
    assert whole[..|a| + at] == a + b[..at];
    assert whole[|a| + at..] == b[at..] + c;
  }

  lemma InsertKeepsSorted(pairs: seq<Pair>, pair: Pair)
    requires Sorted(pairs)
    ensures Sorted(InsertPair(pairs, pair))
  {
    var at := LowerBound(pairs, pair.key);
    var after := InsertPair(pairs, pair);
    forall i, j | 0 <= i < j < |after|
      ensures Less(after[i].key, after[j].key)
    {
      if FoundAt(pairs, at, pair.key) {
      } else {
        if at < |pairs| { LessTotal(pairs[at].key, pair.key); }
        if i == at {
          if j > at + 1 { LessTransitive(pair.key, pairs[at].key, pairs[j - 1].key); }
        }
      }
    }
  }

  lemma {:induction false} MapOfSorted(pairs: seq<Pair>)
    requires Sorted(pairs)
    ensures forall i :: 0 <= i < |pairs| ==>
              pairs[i].key in MapOf(pairs) && MapOf(pairs)[pairs[i].key] == pairs[i].value
    ensures forall key :: key in MapOf(pairs) ==> exists i :: 0 <= i < |pairs| && pairs[i].key == key
    decreases |pairs|
  {
    if pairs != [] {
      var front, last := pairs[..|pairs| - 1], pairs[|pairs| - 1];
      MapOfSorted(front);
      forall i | 0 <= i < |pairs|
        ensures pairs[i].key in MapOf(pairs) && MapOf(pairs)[pairs[i].key] == pairs[i].value
      {
        if i < |front| {
          assert front[i] == pairs[i];
          LessIrreflexive(last.key);
        }
      }
      forall key | key in MapOf(pairs)
        ensures exists i :: 0 <= i < |pairs| && pairs[i].key == key
      {
        if key == last.key {
          assert pairs[|front|].key == key;
        } else {
          var i :| 0 <= i < |front| && front[i].key == key;
          assert pairs[i].key == key;
        }
      }
    }
  }

  /** A map and a sorted sequence hold the same pairs. */
  lemma MapOfMembers(pairs: seq<Pair>)
    requires Sorted(pairs)
    ensures forall p :: p in pairs ==> p.key in MapOf(pairs) && MapOf(pairs)[p.key] == p.value
    ensures forall key :: key in MapOf(pairs) ==> Pair(key, MapOf(pairs)[key]) in pairs
  {
    hide MapOf, Less;
    MapOfSorted(pairs);
    forall key | key in MapOf(pairs)
      ensures Pair(key, MapOf(pairs)[key]) in pairs
    {
      var i :| 0 <= i < |pairs| && pairs[i].key == key;
      assert pairs[i] == Pair(key, MapOf(pairs)[key]);
    }
  }

  lemma OnlyAtLowerBound(pairs: seq<Pair>, key: Key, i: nat)
    requires Sorted(pairs) && i < |pairs| && pairs[i].key == key
    ensures i == LowerBound(pairs, key)
  {
    LessIrreflexive(key);
    LowerBoundUnique(pairs, key, i);
  }

  lemma InsertMembers(pairs: seq<Pair>, pair: Pair)
    requires Sorted(pairs)
    ensures forall p :: p in InsertPair(pairs, pair) <==> p == pair || (p in pairs && p.key != pair.key)
  {
    hide Less, LowerBound;
    var at := LowerBound(pairs, pair.key);
    var after := InsertPair(pairs, pair);
    forall i | 0 <= i < |pairs| && pairs[i].key == pair.key
      ensures i == at
    {
      OnlyAtLowerBound(pairs, pair.key, i);
    }
    assert after[at] == pair;
    if FoundAt(pairs, at, pair.key) {
      assert forall i :: 0 <= i < |pairs| && i != at ==> after[i] == pairs[i];
    } else {
      assert pairs == pairs[..at] + pairs[at..];
    }
  }

  /** Inserting a pair is updating the map. */
  lemma InsertIsMapUpdate(pairs: seq<Pair>, pair: Pair)
    requires Sorted(pairs)
    ensures MapOf(InsertPair(pairs, pair)) == MapOf(pairs)[pair.key := pair.value]
  {
    hide Less, MapOf, InsertPair;
    InsertKeepsSorted(pairs, pair);
    MapOfMembers(pairs);
    MapOfMembers(InsertPair(pairs, pair));
    InsertMembers(pairs, pair);
    var got, want := MapOf(InsertPair(pairs, pair)), MapOf(pairs)[pair.key := pair.value];
    forall key | key in want
      ensures key in got && got[key] == want[key]
    {
      assert Pair(key, want[key]) in InsertPair(pairs, pair);
    }
    forall key | key in got
      ensures key in want
    {
      assert Pair(key, got[key]) in InsertPair(pairs, pair);
    }
  }

  /** Lookup by position agrees with the map. */
  lemma LookupIsMapLookup(pairs: seq<Pair>, key: Key)
    requires Sorted(pairs)
    ensures var at := LowerBound(pairs, key);
            && (FoundAt(pairs, at, key) <==> key in MapOf(pairs))
            && (FoundAt(pairs, at, key) ==> MapOf(pairs)[key] == pairs[at].value)
  {
    var at := LowerBound(pairs, key);
    MapOfSorted(pairs);
    if key in MapOf(pairs) {
      var i :| 0 <= i < |pairs| && pairs[i].key == key;
      LessIrreflexive(key);
      assert i >= at;
      if i > at {
        assert false;
      }
    }
  }

  lemma {:induction false} FlattenConcat(a: seq<Tree>, b: seq<Tree>)
    ensures FlattenAll(a + b) == FlattenAll(a) + FlattenAll(b)
    decreases |a|
  {
    if a == [] {
      assert a + b == b;
    } else {
      assert (a + b)[1..] == a[1..] + b;
      FlattenConcat(a[1..], b);
    }
  }

  lemma FlattenOne(t: Tree)
    ensures FlattenAll([t]) == Flatten(t)
  {
    assert [t][1..] == [];
    assert FlattenAll([t][1..]) == [];
  }

  lemma SplitAround<T>(s: seq<T>, i: nat)
    requires i < |s|
    ensures s == s[..i] + ([s[i]] + s[i + 1..])
  {
  }

  lemma FlattenAround(kids: seq<Tree>, i: nat)
    requires i < |kids|
    ensures FlattenAll(kids) == FlattenAll(kids[..i]) + Flatten(kids[i]) + FlattenAll(kids[i + 1..])
  {
    hide *;
    SplitAround(kids, i);
    FlattenConcat(kids[..i], [kids[i]] + kids[i + 1..]);
    FlattenConcat([kids[i]], kids[i + 1..]);
    FlattenOne(kids[i]);
    Regroup(FlattenAll(kids[..i]), Flatten(kids[i]), FlattenAll(kids[i + 1..]));
  }

  lemma Regroup<T>(a: seq<T>, b: seq<T>, c: seq<T>)
    ensures a + (b + c) == a + b + c
  {
  }

  // ---------- shape ----------

  /** The key a parent stores for this subtree. */
  function First(t: Tree): Key {
    match t
    case Leaf(_, entries) => if entries == [] then [] else entries[0].key.bytes
    case Node(_, separators, _) => if separators == [] then [] else separators[0].bytes
  }

  /** Uniform height, no empty page, and every separator equal to its child's first key. */
  predicate Shape(t: Tree, height: nat)
    decreases t
  {
    match t
    case Leaf(_, entries) => height == 1 && entries != []
    case Node(_, separators, kids) =>
      && height >= 2 && kids != [] && |separators| == |kids|
      && (forall i :: 0 <= i < |kids| ==> Shape(kids[i], height - 1))
      && (forall i :: 0 <= i < |kids| ==> separators[i].bytes == First(kids[i]))
  }

  /** What reopening insists on beyond `Shape`: at least two children in every internal page. */
  predicate Branching(t: Tree)
    decreases t
  {
    match t
    case Leaf(_, _) => true
    case Node(_, _, kids) => |kids| >= 2 && forall i :: 0 <= i < |kids| ==> Branching(kids[i])
  }

  lemma {:induction false} FirstIsLeast(t: Tree, height: nat)
    requires Shape(t, height)
    ensures Flatten(t) != [] && Flatten(t)[0].key == First(t)
    decreases t
  {
    if t.Node? {
      FirstIsLeast(t.kids[0], height - 1);
      assert FlattenAll(t.kids)[0] == Flatten(t.kids[0])[0];
    }
  }

  predicate KeysBelow(pairs: seq<Pair>, key: Key) {
    forall i :: 0 <= i < |pairs| ==> Less(pairs[i].key, key)
  }

  predicate KeysAbove(pairs: seq<Pair>, key: Key) {
    forall i :: 0 <= i < |pairs| ==> Less(key, pairs[i].key)
  }

  lemma SortedParts(a: seq<Pair>, b: seq<Pair>)
    requires Sorted(a + b)
    ensures Sorted(a) && Sorted(b)
    ensures b != [] ==> KeysBelow(a, b[0].key)
    ensures a != [] ==> KeysAbove(b, a[|a| - 1].key)
  {
    forall i, j | 0 <= i < j < |a|
      ensures Less(a[i].key, a[j].key)
    {
      assert (a + b)[i] == a[i] && (a + b)[j] == a[j];
    }
    forall i, j | 0 <= i < j < |b|
      ensures Less(b[i].key, b[j].key)
    {
      assert (a + b)[|a| + i] == b[i] && (a + b)[|a| + j] == b[j];
    }
    forall i, j | 0 <= i < |a| && 0 <= j < |b|
      ensures Less(a[i].key, b[j].key)
    {
      assert (a + b)[i] == a[i] && (a + b)[|a| + j] == b[j];
    }
  }

  lemma KidsAreSorted(kids: seq<Tree>, i: nat)
    requires Sorted(FlattenAll(kids)) && i < |kids|
    ensures Sorted(Flatten(kids[i])) && Sorted(FlattenAll(kids[..i])) && Sorted(FlattenAll(kids[i + 1..]))
  {
    FlattenAround(kids, i);
    SortedParts(FlattenAll(kids[..i]) + Flatten(kids[i]), FlattenAll(kids[i + 1..]));
    SortedParts(FlattenAll(kids[..i]), Flatten(kids[i]));
  }

  /** Separators of a sorted node are strictly increasing. */
  lemma FirstsIncrease(kids: seq<Tree>, height: nat, i: nat, j: nat)
    requires Sorted(FlattenAll(kids)) && i < j < |kids|
    requires forall k :: 0 <= k < |kids| ==> Shape(kids[k], height)
    ensures Less(First(kids[i]), First(kids[j]))
  {
    FirstIsLeast(kids[i], height);
    FirstIsLeast(kids[j], height);
    FlattenAround(kids, j);
    var before := FlattenAll(kids[..j]);
    SortedParts(before + Flatten(kids[j]), FlattenAll(kids[j + 1..]));
    SortedParts(before, Flatten(kids[j]));
    FlattenAround(kids[..j], i);
    assert kids[..j][i] == kids[i];
    var skip := |FlattenAll(kids[..j][..i])|;
    assert before[skip] == Flatten(kids[i])[0];
  }

  /** Where `route_child` descends: the last child whose first key is not above `key`, else the first. */
  function Route(separators: seq<Key>, key: Key): (at: nat)
    requires separators != []
    ensures at < |separators|
    ensures at > 0 ==> LessEq(separators[at], key)
    ensures forall i :: at < i < |separators| ==> i == at + 1 ==> !LessEq(separators[i], key)
  {
    if |separators| == 1 || !LessEq(separators[1], key) then 0
    else 1 + Route(separators[1..], key)
  }

  lemma NothingFlattens()
    ensures FlattenAll([]) == []
  {
  }

  lemma FirstOfAll(kids: seq<Tree>)
    requires kids != [] && Flatten(kids[0]) != []
    ensures FlattenAll(kids) != [] && FlattenAll(kids)[0] == Flatten(kids[0])[0]
  {
  }

  /** Everything left of the routed child is below the key and everything right of it is above. */
  lemma RouteSeparates(kids: seq<Tree>, height: nat, firsts: seq<Key>, key: Key)
    requires kids != [] && Sorted(FlattenAll(kids))
    requires forall k :: 0 <= k < |kids| ==> Shape(kids[k], height)
    requires |firsts| == |kids| && forall k :: 0 <= k < |kids| ==> firsts[k] == First(kids[k])
    ensures var at := Route(firsts, key);
            && KeysBelow(FlattenAll(kids[..at]), key)
            && KeysAbove(FlattenAll(kids[at + 1..]), key)
  {
    hide Less, Flatten, FlattenAll, Shape, Route, First;
    var at := Route(firsts, key);
    NothingFlattens();
    assert kids[..0] == [] && kids[|kids|..] == [];
    if at > 0 {
      FlattenAround(kids, at);
      FirstIsLeast(kids[at], height);
      var left := FlattenAll(kids[..at]);
      SortedParts(left + Flatten(kids[at]), FlattenAll(kids[at + 1..]));
      SortedParts(left, Flatten(kids[at]));
      forall i | 0 <= i < |left|
        ensures Less(left[i].key, key)
      {
        if firsts[at] != key { LessTransitive(left[i].key, firsts[at], key); }
      }
    }
    if at + 1 < |kids| {
      var right := FlattenAll(kids[at + 1..]);
      KidsAreSorted(kids, at);
      FirstIsLeast(kids[at + 1], height);
      FirstOfAll(kids[at + 1..]);
      LessTotal(firsts[at + 1], key);
      forall i | 0 <= i < |right|
        ensures Less(key, right[i].key)
      {
        if i > 0 { LessTransitive(key, right[0].key, right[i].key); }
      }
    }
  }

  /** Replacing the routed child by a rewritten one inserts the pair into the whole node. */
  lemma InsertThroughChild(kids: seq<Tree>, at: nat, pair: Pair, replacements: seq<Tree>)
    requires at < |kids|
    requires KeysBelow(FlattenAll(kids[..at]), pair.key)
    requires KeysAbove(FlattenAll(kids[at + 1..]), pair.key)
    requires FlattenAll(replacements) == InsertPair(Flatten(kids[at]), pair)
    ensures FlattenAll(kids[..at] + replacements + kids[at + 1..]) == InsertPair(FlattenAll(kids), pair)
  {
    FlattenAround(kids, at);
    FlattenConcat(kids[..at], replacements);
    FlattenConcat(kids[..at] + replacements, kids[at + 1..]);
    InsertWithin(FlattenAll(kids[..at]), Flatten(kids[at]), FlattenAll(kids[at + 1..]), pair);
  }

  /** Looking a key up in the routed child is looking it up in the whole node. */
  lemma LookupThroughChild(kids: seq<Tree>, at: nat, key: Key)
    requires at < |kids|
    requires KeysBelow(FlattenAll(kids[..at]), key)
    requires KeysAbove(FlattenAll(kids[at + 1..]), key)
    requires Sorted(FlattenAll(kids))
    ensures key in MapOf(FlattenAll(kids)) <==> key in MapOf(Flatten(kids[at]))
    ensures key in MapOf(FlattenAll(kids)) ==> MapOf(FlattenAll(kids))[key] == MapOf(Flatten(kids[at]))[key]
  {
    hide Less, Flatten, FlattenAll, MapOf, LowerBound, FoundAt, Sorted;
    var a, b, c := FlattenAll(kids[..at]), Flatten(kids[at]), FlattenAll(kids[at + 1..]);
    FlattenAround(kids, at);
    KidsAreSorted(kids, at);
    FoundWithin(a, b, c, key);
    LookupIsMapLookup(FlattenAll(kids), key);
    LookupIsMapLookup(b, key);
  }

  // ---------- pages ----------

  function BlobsFoot(blobs: seq<Blob>): multiset<nat> {
    if blobs == [] then multiset{} else multiset(blobs[0].chain) + BlobsFoot(blobs[1..])
  }

  function EntriesFoot(entries: seq<Entry>): multiset<nat> {
    if entries == [] then multiset{}
    else multiset(entries[0].key.chain) + multiset(entries[0].value.chain) + EntriesFoot(entries[1..])
  }

  /** Every page of a subtree, counted as often as it is referenced. */
  function Foot(t: Tree): multiset<nat> {
    match t
    case Leaf(id, entries) => multiset{id} + EntriesFoot(entries)
    case Node(id, separators, kids) => multiset{id} + BlobsFoot(separators) + FootAll(kids)
  }

  function FootAll(kids: seq<Tree>): multiset<nat> {
    if kids == [] then multiset{} else Foot(kids[0]) + FootAll(kids[1..])
  }

  function RefOf(blob: Blob): Ref {
    if blob.chain == [] then Inline(blob.bytes) else Overflow(|blob.bytes|, blob.chain[0])
  }

  function LeafCells(entries: seq<Entry>): (cells: seq<LeafCell>)
    ensures |cells| == |entries|
  {
    seq(|entries|, i requires 0 <= i < |entries| => LeafCell(RefOf(entries[i].key), RefOf(entries[i].value)))
  }

  function InternalCells(separators: seq<Blob>, kids: seq<Tree>): (cells: seq<InternalCell>)
    requires |separators| == |kids|
    ensures |cells| == |kids|
  {
    seq(|kids|, i requires 0 <= i < |kids| => InternalCell(RefOf(separators[i]), kids[i].id))
  }

  /** The chunk length of the first page of a chain that carries `length` bytes on `pages` pages. */
  function FirstChunk(length: nat, pages: nat): int {
    length - (pages - 1) * OVERFLOW_CELL_CAPACITY
  }

  /** The canonical chain layout: only the first chunk may be short. */
  predicate ChainHolds(pages: seq<PageImage>, chain: seq<nat>, bytes: seq<byte>)
    decreases |chain|
  {
    && chain != []
    && var first := FirstChunk(|bytes|, |chain|);
       && 0 < first <= OVERFLOW_CELL_CAPACITY && first <= |bytes|
       && At(pages, chain[0], OverflowPage(bytes[..first], if |chain| == 1 then Superblocks.ROOT_NONE else chain[1]))
       && (|chain| > 1 ==> ChainHolds(pages, chain[1..], bytes[first..]))
       && (|chain| == 1 ==> first == |bytes|)
  }

  predicate BlobHolds(pages: seq<PageImage>, blob: Blob, limit: nat) {
    |blob.bytes| <= limit && (blob.chain == [] || ChainHolds(pages, blob.chain, blob.bytes))
  }

  predicate EntryHolds(pages: seq<PageImage>, entry: Entry) {
    BlobHolds(pages, entry.key, MAX_TREE_KEY_BYTES) && BlobHolds(pages, entry.value, MAX_TREE_VALUE_BYTES)
  }

  /** The committed pages store exactly this tree. */
  predicate Holds(pages: seq<PageImage>, t: Tree)
    decreases t
  {
    match t
    case Leaf(id, entries) =>
      && At(pages, id, LeafPage(LeafCells(entries)))
      && Fit(LeafCosts(LeafCells(entries)))
      && (forall i :: 0 <= i < |entries| ==> EntryHolds(pages, entries[i]))
    case Node(id, separators, kids) =>
      && |separators| == |kids|
      && At(pages, id, InternalPage(InternalCells(separators, kids)))
      && Fit(InternalCosts(InternalCells(separators, kids)))
      && (forall i :: 0 <= i < |kids| ==> BlobHolds(pages, separators[i], MAX_TREE_KEY_BYTES))
      && (forall i :: 0 <= i < |kids| ==> Holds(pages, kids[i]))
  }

  /** `after` still holds every committed page of `ids` that `before` held. */
  predicate Keeps(before: seq<PageImage>, after: seq<PageImage>, ids: multiset<nat>) {
    forall id :: id in ids && Committed(before, id) ==>
      Committed(after, id) && after[id - 2] == before[id - 2]
  }

  lemma {:induction false} EntryFootPart(entries: seq<Entry>, i: nat)
    requires i < |entries|
    ensures multiset(entries[i].key.chain) + multiset(entries[i].value.chain) <= EntriesFoot(entries)
    decreases |entries|
  {
    if i > 0 { EntryFootPart(entries[1..], i - 1); }
  }

  lemma {:induction false} BlobFootPart(blobs: seq<Blob>, i: nat)
    requires i < |blobs|
    ensures multiset(blobs[i].chain) <= BlobsFoot(blobs)
    decreases |blobs|
  {
    if i > 0 { BlobFootPart(blobs[1..], i - 1); }
  }

  lemma {:induction false} KidFootPart(kids: seq<Tree>, i: nat)
    requires i < |kids|
    ensures Foot(kids[i]) <= FootAll(kids)
    decreases |kids|
  {
    if i > 0 { KidFootPart(kids[1..], i - 1); }
  }

  lemma {:induction false} FootConcat(a: seq<Tree>, b: seq<Tree>)
    ensures FootAll(a + b) == FootAll(a) + FootAll(b)
    decreases |a|
  {
    if a == [] {
      assert a + b == b;
    } else {
      assert (a + b)[1..] == a[1..] + b;
      FootConcat(a[1..], b);
    }
  }

  lemma FootOne(t: Tree)
    ensures FootAll([t]) == Foot(t)
  {
    assert [t][1..] == [];
    assert FootAll([t][1..]) == multiset{};
  }

  lemma FootAround(kids: seq<Tree>, i: nat)
    requires i < |kids|
    ensures FootAll(kids) == FootAll(kids[..i]) + Foot(kids[i]) + FootAll(kids[i + 1..])
  {
    hide Foot, FootAll;
    FootConcat(kids[..i], [kids[i]]);
    FootConcat(kids[..i] + [kids[i]], kids[i + 1..]);
    FootOne(kids[i]);
    assert kids == kids[..i] + [kids[i]] + kids[i + 1..];
  }

  lemma {:induction false} EntriesFootConcat(a: seq<Entry>, b: seq<Entry>)
    ensures EntriesFoot(a + b) == EntriesFoot(a) + EntriesFoot(b)
    decreases |a|
  {
    if a == [] {
      assert a + b == b;
    } else {
      assert (a + b)[1..] == a[1..] + b;
      EntriesFootConcat(a[1..], b);
    }
  }

  lemma {:induction false} ChainFrame(before: seq<PageImage>, after: seq<PageImage>, chain: seq<nat>, bytes: seq<byte>)
    requires ChainHolds(before, chain, bytes)
    requires Keeps(before, after, multiset(chain))
    ensures ChainHolds(after, chain, bytes)
    decreases |chain|
  {
    assert chain[0] in multiset(chain);
    if |chain| > 1 {
      assert chain == [chain[0]] + chain[1..];
      ChainFrame(before, after, chain[1..], bytes[FirstChunk(|bytes|, |chain|)..]);
    }
  }

  lemma BlobFrame(before: seq<PageImage>, after: seq<PageImage>, blob: Blob, limit: nat)
    requires BlobHolds(before, blob, limit)
    requires Keeps(before, after, multiset(blob.chain))
    ensures BlobHolds(after, blob, limit)
  {
    if blob.chain != [] { ChainFrame(before, after, blob.chain, blob.bytes); }
  }

  lemma EntryFrame(before: seq<PageImage>, after: seq<PageImage>, entry: Entry)
    requires EntryHolds(before, entry)
    requires Keeps(before, after, multiset(entry.key.chain) + multiset(entry.value.chain))
    ensures EntryHolds(after, entry)
  {
    BlobFrame(before, after, entry.key, MAX_TREE_KEY_BYTES);
    BlobFrame(before, after, entry.value, MAX_TREE_VALUE_BYTES);
  }

  lemma EntriesFrame(before: seq<PageImage>, after: seq<PageImage>, entries: seq<Entry>)
    requires forall i :: 0 <= i < |entries| ==> EntryHolds(before, entries[i])
    requires Keeps(before, after, EntriesFoot(entries))
    ensures forall i :: 0 <= i < |entries| ==> EntryHolds(after, entries[i])
  {
    forall i | 0 <= i < |entries|
      ensures EntryHolds(after, entries[i])
    {
      EntryFootPart(entries, i);
      EntryFrame(before, after, entries[i]);
    }
  }

  lemma KeepsPart(before: seq<PageImage>, after: seq<PageImage>, part: multiset<nat>, ids: multiset<nat>)
    requires Keeps(before, after, ids) && part <= ids
    ensures Keeps(before, after, part)
  {
    assert forall id :: id in part ==> id in ids;
  }

  lemma FootParts(t: Tree)
    ensures t.id in Foot(t)
    ensures t.Leaf? ==> EntriesFoot(t.entries) <= Foot(t)
    ensures t.Node? ==> BlobsFoot(t.separators) <= Foot(t) && FootAll(t.kids) <= Foot(t)
  {
  }

  /** What stays in use below a root page that is rewritten. */
  function BelowRoot(t: Tree): multiset<nat> {
    match t
    case Leaf(_, entries) => EntriesFoot(entries)
    case Node(_, _, kids) => FootAll(kids)
  }

  lemma BelowRootPart(t: Tree)
    ensures BelowRoot(t) + multiset{t.id} <= Foot(t) && BelowRoot(t) <= Foot(t)
  {
  }

  /** Copy-on-write: a tree survives every write that avoids its own pages. */
  lemma {:induction false} Frame(before: seq<PageImage>, after: seq<PageImage>, t: Tree)
    requires Holds(before, t) && Keeps(before, after, Foot(t))
    ensures Holds(after, t)
    decreases t
  {
    hide Foot, FootAll, EntriesFoot, BlobsFoot, BlobHolds, EntryHolds, Keeps;
    FootParts(t);
    KeepsPage(before, after, Foot(t), t.id);
    match t
    case Leaf(id, entries) =>
      KeepsPart(before, after, EntriesFoot(entries), Foot(t));
      EntriesFrame(before, after, entries);
    case Node(id, separators, kids) =>
      KeepsPart(before, after, FootAll(kids), Foot(t));
      KeepsPart(before, after, BlobsFoot(separators), Foot(t));
      forall i | 0 <= i < |kids|
        ensures Holds(after, kids[i]) && BlobHolds(after, separators[i], MAX_TREE_KEY_BYTES)
      {
        KidFootPart(kids, i);
        KeepsPart(before, after, Foot(kids[i]), FootAll(kids));
        Frame(before, after, kids[i]);
        BlobFootPart(separators, i);
        KeepsPart(before, after, multiset(separators[i].chain), BlobsFoot(separators));
        BlobFrame(before, after, separators[i], MAX_TREE_KEY_BYTES);
      }
  }

  lemma KeepsPage(before: seq<PageImage>, after: seq<PageImage>, ids: multiset<nat>, id: nat)
    requires Keeps(before, after, ids) && id in ids
    ensures forall page :: At(before, id, page) ==> At(after, id, page)
  {
  }

  // ---------- soundness of a subtree ----------

  predicate NoDuplicates(ids: multiset<nat>) {
    forall id :: id in ids ==> ids[id] == 1
  }

  /** Everything a traversal relies on. */
  ghost predicate Sound(pages: seq<PageImage>, t: Tree, height: nat) {
    Holds(pages, t) && Shape(t, height) && Sorted(Flatten(t)) && NoDuplicates(Foot(t))
  }

  lemma FlattenOfNode(t: Tree)
    requires t.Node?
    ensures Flatten(t) == FlattenAll(t.kids)
  {
  }

  lemma PartHasNoDuplicates(part: multiset<nat>, ids: multiset<nat>)
    requires part <= ids && NoDuplicates(ids)
    ensures NoDuplicates(part)
  {
  }

  // ---------- height ----------

  function Power2(n: nat): nat {
    if n == 0 then 1 else 2 * Power2(n - 1)
  }

  lemma {:induction false} PagesGrowWithHeight(t: Tree, height: nat)
    requires Shape(t, height) && Branching(t)
    ensures |Foot(t)| >= Power2(height) - 1
    decreases t
  {
    if t.Node? {
      PagesGrowWithHeight(t.kids[0], height - 1);
      PagesGrowWithHeight(t.kids[1], height - 1);
      KidFootPart(t.kids[1..], 0);
      assert Foot(t.kids[0]) + Foot(t.kids[1]) <= FootAll(t.kids);
      SizeOfPart(Foot(t.kids[0]) + Foot(t.kids[1]), FootAll(t.kids));
      SizeOfPart(multiset{t.id} + FootAll(t.kids), Foot(t));
    } else {
      SizeOfPart(multiset{t.id}, Foot(t));
    }
  }

  lemma SizeOfPart(part: multiset<nat>, ids: multiset<nat>)
    requires part <= ids
    ensures |part| <= |ids|
  {
    assert ids == part + (ids - part);
  }

  lemma {:induction false} DistinctIdsBelow(ids: multiset<nat>, limit: nat)
    requires NoDuplicates(ids) && forall id :: id in ids ==> id < limit
    ensures |ids| <= limit
    decreases limit
  {
    if limit == 0 {
      assert forall id :: id !in ids;
      assert ids == multiset{};
    } else {
      var rest := ids[limit - 1 := 0];
      DistinctIdsBelow(rest, limit - 1);
      assert ids == rest + (if limit - 1 in ids then multiset{limit - 1} else multiset{});
    }
  }

  lemma {:induction false} ChainIsCommitted(pages: seq<PageImage>, chain: seq<nat>, bytes: seq<byte>)
    requires ChainHolds(pages, chain, bytes)
    ensures forall id :: id in chain ==> Committed(pages, id)
    decreases |chain|
  {
    if |chain| > 1 {
      assert chain == [chain[0]] + chain[1..];
      ChainIsCommitted(pages, chain[1..], bytes[FirstChunk(|bytes|, |chain|)..]);
    }
  }

  lemma BlobIsCommitted(pages: seq<PageImage>, blob: Blob, limit: nat)
    requires BlobHolds(pages, blob, limit)
    ensures forall id :: id in blob.chain ==> Committed(pages, id)
  {
    if blob.chain != [] { ChainIsCommitted(pages, blob.chain, blob.bytes); }
  }

  lemma {:induction false} EntriesAreCommitted(pages: seq<PageImage>, entries: seq<Entry>)
    requires forall i :: 0 <= i < |entries| ==> EntryHolds(pages, entries[i])
    ensures forall id :: id in EntriesFoot(entries) ==> Committed(pages, id)
    decreases |entries|
  {
    if entries != [] {
      assert EntryHolds(pages, entries[0]);
      BlobIsCommitted(pages, entries[0].key, MAX_TREE_KEY_BYTES);
      BlobIsCommitted(pages, entries[0].value, MAX_TREE_VALUE_BYTES);
      EntriesAreCommitted(pages, entries[1..]);
    }
  }

  lemma {:induction false} BlobsAreCommitted(pages: seq<PageImage>, blobs: seq<Blob>, limit: nat)
    requires forall i :: 0 <= i < |blobs| ==> BlobHolds(pages, blobs[i], limit)
    ensures forall id :: id in BlobsFoot(blobs) ==> Committed(pages, id)
    decreases |blobs|
  {
    if blobs != [] {
      BlobIsCommitted(pages, blobs[0], limit);
      BlobsAreCommitted(pages, blobs[1..], limit);
    }
  }

  lemma {:induction false} TreeIsCommitted(pages: seq<PageImage>, t: Tree)
    requires Holds(pages, t)
    ensures forall id :: id in Foot(t) ==> Committed(pages, id)
    decreases t, 1
  {
    match t
    case Leaf(_, entries) => EntriesAreCommitted(pages, entries);
    case Node(_, separators, kids) =>
      BlobsAreCommitted(pages, separators, MAX_TREE_KEY_BYTES);
      KidsAreCommitted(pages, t, 0);
  }

  lemma {:induction false} KidsAreCommitted(pages: seq<PageImage>, t: Tree, from: nat)
    requires Holds(pages, t) && t.Node? && from <= |t.kids|
    ensures forall id :: id in FootAll(t.kids[from..]) ==> Committed(pages, id)
    decreases t, 0, |t.kids| - from
  {
    if from < |t.kids| {
      TreeIsCommitted(pages, t.kids[from]);
      KidsAreCommitted(pages, t, from + 1);
      assert t.kids[from..][1..] == t.kids[from + 1..];
    }
  }

  lemma Power2Bound(height: nat)
    requires height >= 53
    ensures Power2(height) - 1 > 0x10_0000_0000_0000
  {
    var h := height;
    while h > 53
      invariant 53 <= h <= height
      invariant Power2(height) >= Power2(h)
    {
      h := h - 1;
    }
    assert Power2(13) == 8192;
    assert Power2(26) == 0x400_0000 by { PowerSplit(13, 13); }
    assert Power2(52) == 0x10_0000_0000_0000 by { PowerSplit(26, 26); }
    assert Power2(53) == 2 * Power2(52);
  }

  lemma {:induction false} PowerSplit(a: nat, b: nat)
    ensures Power2(a + b) == Power2(a) * Power2(b)
    decreases a
  {
    if a > 0 { PowerSplit(a - 1, b); }
  }

  /** A branching tree in a file the format can address is far below the height limit. */
  lemma HeightIsBounded(pages: seq<PageImage>, t: Tree, height: nat)
    requires Sound(pages, t, height) && Branching(t)
    requires (|pages| + 2) * PAGE_SIZE < U64_LIMIT
    ensures height <= 52
  {
    hide Foot, Flatten, Holds, Shape, Branching;
    TreeIsCommitted(pages, t);
    DistinctIdsBelow(Foot(t), |pages| + 2);
    PagesGrowWithHeight(t, height);
    if height >= 53 { Power2Bound(height); }
  }
}
