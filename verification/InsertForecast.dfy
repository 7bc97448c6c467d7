/**
 * What an insertion will do to a tree, decided from the cell sizes along the searched path before anything is
 * written: whether every overfull page divides, and whether every divided internal page keeps two children.
 */
module InsertForecast {
  import opened Options
  import opened Bytes
  import opened SplitArithmetic
  import opened BtreePages
  import opened TreeModel
  import opened TreeParse

  /** Blocked where a page cannot be divided; otherwise the least keys of the one or two new subtrees. */
  datatype Forecast = Blocked | Rewrites(firsts: seq<Key>, branching: bool)

  /** What `encode_internal_cell` previews for a separator before its overflow chain exists. */
  function SeparatorCost(key: Key): nat {
    SLOT_LEN + INTERNAL_CELL_HEADER_LEN + if |key| <= MAX_INLINE_KEY_BYTES then |key| else OVERFLOW_REF_LEN
  }

  function SeparatorCosts(keys: seq<Key>): (costs: seq<nat>)
    ensures |costs| == |keys|
    ensures forall i :: 0 <= i < |keys| ==> costs[i] == SeparatorCost(keys[i])
  {
    seq(|keys|, i requires 0 <= i < |keys| => SeparatorCost(keys[i]))
  }

  /** What the leaf cell of a pair will cost: the value stays inline when the cell then still fits a page. */
  function PairCost(key: Key, value: Value): nat {
    var keyLen := if |key| <= MAX_INLINE_KEY_BYTES then |key| else OVERFLOW_REF_LEN;
    var header := SLOT_LEN + LEAF_CELL_HEADER_LEN + keyLen;
    header + if header + |value| <= PAGE_BODY_CAPACITY then |value| else OVERFLOW_REF_LEN
  }

  // ---------- how many pages it writes ----------

  function ChunkCount(length: nat): nat {
    (length + OVERFLOW_CELL_CAPACITY - 1) / OVERFLOW_CELL_CAPACITY
  }

  /** The overflow pages of a key. */
  function KeyPages(key: Key): nat {
    if |key| <= MAX_INLINE_KEY_BYTES then 0 else ChunkCount(|key|)
  }

  /** The overflow pages of a value beside a key of which the leaf cell holds `keyPayload` bytes. */
  function ValuePages(keyPayload: nat, value: Value): nat {
    if SLOT_LEN + LEAF_CELL_HEADER_LEN + keyPayload + |value| <= PAGE_BODY_CAPACITY then 0 else ChunkCount(|value|)
  }

  /** The overflow pages of a pair. */
  function PairPages(key: Key, value: Value): nat {
    KeyPages(key) + ValuePages(if |key| <= MAX_INLINE_KEY_BYTES then |key| else OVERFLOW_REF_LEN, value)
  }

  /** Separators are stored anew on every rewritten internal page. */
  function KeysPages(keys: seq<Key>): nat {
    if keys == [] then 0 else KeysPages(keys[..|keys| - 1]) + KeyPages(keys[|keys| - 1])
  }

  function LevelPages(costs: seq<nat>): nat {
    if Fit(costs) then 1 else 2
  }

  /** The pages of the rewritten path below `t`, if nothing blocks it. */
  function InsertPages(t: Tree, key: Key, cost: nat): nat
    decreases t
  {
    match t
    case Leaf(_, entries) =>
      var at := LowerBound(EntryPairs(entries), key);
      LevelPages(Placed(LeafCosts(LeafCells(entries)), at, at < |entries| && entries[at].key.bytes == key, cost))
    case Node(_, _, kids) =>
      if kids == [] then 0
      else
        var at := Route(Firsts(kids), key);
        InsertPages(kids[at], key, cost) + NodePages(Firsts(kids), at, ForecastInsert(kids[at], key, cost))
  }

  /** The pages of one rewritten internal level. */
  function NodePages(firsts: seq<Key>, at: nat, below: Forecast): nat
    requires at < |firsts|
  {
    if below.Blocked? then 0
    else
      var keys := Spliced(firsts, at, below.firsts);
      KeysPages(keys) + LevelPages(SeparatorCosts(keys))
  }

  /** A new root above two replacements of the old one. */
  function JoinPages(firsts: seq<Key>): nat {
    if |firsts| == 2 then KeysPages(firsts) + 1 else 0
  }

  /** The pages of the tree itself, without the overflow pages of the pair. */
  function RootPages(t: Option<Tree>, key: Key, cost: nat): nat {
    if t.None? then 1
    else
      var below := ForecastInsert(t.value, key, cost);
      InsertPages(t.value, key, cost) + if below.Rewrites? then JoinPages(below.firsts) else 0
  }

  /** Every data page that a put writes before it publishes. */
  function PutPages(t: Option<Tree>, key: Key, value: Value): nat {
    PairPages(key, value) + RootPages(t, key, PairCost(key, value))
  }

  // ---------- how many pages the tree then occupies ----------

  function BlobsSize(blobs: seq<Blob>): nat {
    if blobs == [] then 0 else |blobs[0].chain| + BlobsSize(blobs[1..])
  }

  function EntrySize(entry: Entry): nat {
    |entry.key.chain| + |entry.value.chain|
  }

  function EntriesSize(entries: seq<Entry>): nat {
    if entries == [] then 0 else EntrySize(entries[0]) + EntriesSize(entries[1..])
  }

  /** The pages of a tree, overflow pages included. */
  function Size(t: Tree): nat {
    match t
    case Leaf(_, entries) => 1 + EntriesSize(entries)
    case Node(_, separators, kids) => 1 + BlobsSize(separators) + SizeAll(kids)
  }

  function SizeAll(kids: seq<Tree>): nat {
    if kids == [] then 0 else Size(kids[0]) + SizeAll(kids[1..])
  }

  /** The pages below the rewritten `t`, when the pair itself has `extra` overflow pages. */
  function InsertSize(t: Tree, key: Key, cost: nat, extra: nat): nat
    decreases t
  {
    match t
    case Leaf(_, entries) =>
      var at := LowerBound(EntryPairs(entries), key);
      var present := at < |entries| && entries[at].key.bytes == key;
      EntriesSize(entries[..at]) + extra + EntriesSize(entries[if present then at + 1 else at..])
      + LevelPages(Placed(LeafCosts(LeafCells(entries)), at, present, cost))
    case Node(_, _, kids) =>
      if kids == [] then 0
      else
        var at := Route(Firsts(kids), key);
        SizeAll(kids[..at]) + InsertSize(kids[at], key, cost, extra) + SizeAll(kids[at + 1..])
        + NodePages(Firsts(kids), at, ForecastInsert(kids[at], key, cost))
  }

  /** The pages of the tree that a put publishes. */
  function PutSize(t: Option<Tree>, key: Key, value: Value): nat {
    if t.None? then 1 + PairPages(key, value)
    else
      var below := ForecastInsert(t.value, key, PairCost(key, value));
      InsertSize(t.value, key, PairCost(key, value), PairPages(key, value))
      + if below.Rewrites? then JoinPages(below.firsts) else 0
  }

  lemma {:induction false} BlobsSizeIsFoot(blobs: seq<Blob>)
    ensures |BlobsFoot(blobs)| == BlobsSize(blobs)
  {
    if blobs != [] { BlobsSizeIsFoot(blobs[1..]); }
  }

  lemma {:induction false} EntriesSizeIsFoot(entries: seq<Entry>)
    ensures |EntriesFoot(entries)| == EntriesSize(entries)
  {
    if entries != [] { EntriesSizeIsFoot(entries[1..]); }
  }

  lemma {:induction false} SizeIsFoot(t: Tree)
    ensures |Foot(t)| == Size(t)
    decreases t
  {
    match t
    case Leaf(_, entries) => EntriesSizeIsFoot(entries);
    case Node(_, separators, kids) =>
      BlobsSizeIsFoot(separators);
      SizeAllIsFoot(kids);
  }

  lemma {:induction false} SizeAllIsFoot(kids: seq<Tree>)
    ensures |FootAll(kids)| == SizeAll(kids)
    decreases kids
  {
    if kids != [] {
      SizeIsFoot(kids[0]);
      SizeAllIsFoot(kids[1..]);
    }
  }

  lemma {:induction false} EntriesSizeConcat(a: seq<Entry>, b: seq<Entry>)
    ensures EntriesSize(a + b) == EntriesSize(a) + EntriesSize(b)
    decreases |a|
  {
    if a == [] {
      assert a + b == b;
    } else {
      assert (a + b)[1..] == a[1..] + b;
      EntriesSizeConcat(a[1..], b);
    }
  }

  lemma {:induction false} SizeAllConcat(a: seq<Tree>, b: seq<Tree>)
    ensures SizeAll(a + b) == SizeAll(a) + SizeAll(b)
    decreases |a|
  {
    if a == [] {
      assert a + b == b;
    } else {
      assert (a + b)[1..] == a[1..] + b;
      SizeAllConcat(a[1..], b);
    }
  }

  lemma SizeAllOne(t: Tree)
    ensures SizeAll([t]) == Size(t)
  {
    assert [t][1..] == [];
    assert SizeAll([t][1..]) == 0;
  }

  lemma {:induction false} KeysPagesConcat(a: seq<Key>, b: seq<Key>)
    ensures KeysPages(a + b) == KeysPages(a) + KeysPages(b)
    decreases |b|
  {
    if b == [] {
      assert a + b == a;
    } else {
      assert (a + b)[..|a + b| - 1] == a + b[..|b| - 1];
      KeysPagesConcat(a, b[..|b| - 1]);
    }
  }

  // ---------- what it does to the tree ----------

  function Firsts(trees: seq<Tree>): (keys: seq<Key>)
    ensures |keys| == |trees|
    ensures forall i :: 0 <= i < |trees| ==> keys[i] == First(trees[i])
  {
    seq(|trees|, i requires 0 <= i < |trees| => First(trees[i]))
  }

  function EntryKeys(entries: seq<Entry>): (keys: seq<Key>)
    ensures |keys| == |entries|
    ensures forall i :: 0 <= i < |entries| ==> keys[i] == entries[i].key.bytes
  {
    seq(|entries|, i requires 0 <= i < |entries| => entries[i].key.bytes)
  }

  /** Replaces the item at `at` or makes room for one more there. */
  function Placed<T>(items: seq<T>, at: nat, present: bool, item: T): seq<T>
    requires at <= |items| && (present ==> at < |items|)
  {
    if present then items[at := item] else items[..at] + [item] + items[at..]
  }

  function Spliced<T>(items: seq<T>, at: nat, replacements: seq<T>): seq<T>
    requires at < |items|
  {
    items[..at] + replacements + items[at + 1..]
  }

  /** One level with the given least keys and cell costs: one page, two, or none. */
  function LevelForecast(keys: seq<Key>, costs: seq<nat>, branching: bool): Forecast
    requires |keys| == |costs|
  {
    if keys == [] then Blocked
    else if Fit(costs) then Rewrites([keys[0]], branching)
    else
      match Division(costs)
      case None => Blocked
      case Some(at) => Rewrites([keys[0], keys[at]], branching)
  }

  function ForecastLeaf(entries: seq<Entry>, key: Key, cost: nat): Forecast {
    var at := LowerBound(EntryPairs(entries), key);
    var present := at < |entries| && entries[at].key.bytes == key;
    LevelForecast(Placed(EntryKeys(entries), at, present, key),
                  Placed(LeafCosts(LeafCells(entries)), at, present, cost), true)
  }

  function ForecastNode(firsts: seq<Key>, at: nat, below: Forecast): Forecast
    requires at < |firsts|
  {
    if below.Blocked? then Blocked
    else
      var keys := Spliced(firsts, at, below.firsts);
      var costs := SeparatorCosts(keys);
      LevelForecast(keys, costs, below.branching && (Fit(costs) || KeepsTwo(costs)))
  }

  /** An insertion below `t` of a pair with this key and leaf cell cost. */
  function ForecastInsert(t: Tree, key: Key, cost: nat): Forecast
    decreases t
  {
    match t
    case Leaf(_, entries) => ForecastLeaf(entries, key, cost)
    case Node(_, _, kids) =>
      if kids == [] then Blocked
      else
        var at := Route(Firsts(kids), key);
        ForecastNode(Firsts(kids), at, ForecastInsert(kids[at], key, cost))
  }

  /** Two replacements of the root need a new root above them. */
  function ForecastPut(t: Option<Tree>, key: Key, value: Value): Forecast {
    if t.None? then Rewrites([key], true)
    else
      var below := ForecastInsert(t.value, key, PairCost(key, value));
      if below.Rewrites? && |below.firsts| == 2 && !Fit(SeparatorCosts(below.firsts)) then Blocked else below
  }

  lemma LevelBlockedExactly(keys: seq<Key>, costs: seq<nat>, branching: bool)
    requires |keys| == |costs| && keys != []
    ensures LevelForecast(keys, costs, branching).Blocked? <==> !Divisible(costs)
  {
    if !Fit(costs) { DivisionIsChosen(costs); }
  }

  lemma SeparatorsArePositive(keys: seq<Key>)
    ensures Positive(SeparatorCosts(keys))
  {
  }

  // ---------- cells within the size premise ----------

  /** Half a page for a leaf cell, a third of one for its key as a separator. */
  predicate SmallKeys(keys: seq<Key>) {
    forall i :: 0 <= i < |keys| ==> 3 * SeparatorCost(keys[i]) <= PAGE_BODY_CAPACITY
  }

  lemma PlacedCost(costs: seq<nat>, at: nat, present: bool, cost: nat)
    requires at <= |costs| && (present ==> at < |costs|)
    ensures Sum(Placed(costs, at, present, cost)) <= Sum(costs) + cost
  {
    hide Sum;
    var now := Placed(costs, at, present, cost);
    SumSplit(costs, at);
    SumSplit(now, at);
    assert now[..at] == costs[..at];
    SumFirst(now[at..]);
    if present {
      SumFirst(costs[at..]);
      assert now[at..][1..] == costs[at..][1..];
    } else {
      assert now[at..][1..] == costs[at..];
    }
    assert now[at] == cost;
  }

  lemma SumFirst(costs: seq<nat>)
    requires costs != []
    ensures Sum(costs) == costs[0] + Sum(costs[1..])
  {
    assert [costs[0]] + costs[1..] == costs;
    SumConcat([costs[0]], costs[1..]);
    assert [costs[0]][..0] == [];
  }

  /** Splicing one or two cells in adds at most two of them. */
  lemma SplicedCost(costs: seq<nat>, at: nat, added: seq<nat>, most: nat)
    requires at < |costs| && 1 <= |added| <= 2 && Bounded(added, most)
    ensures Sum(Spliced(costs, at, added)) <= Sum(costs) + 2 * most
  {
    hide Sum;
    SumConcat(costs[..at] + added, costs[at + 1..]);
    SumConcat(costs[..at], added);
    SumSplit(costs, at + 1);
    SumNext(costs, at);
    SumFirst(added);
    SumOfShort(added[1..], most);
  }

  lemma SmallLeafForecast(entries: seq<Entry>, key: Key, cost: nat)
    requires Fit(LeafCosts(LeafCells(entries))) && SmallKeys(EntryKeys(entries)) && SmallKeys([key])
    requires Bounded(LeafCosts(LeafCells(entries)), (PAGE_BODY_CAPACITY + 1) / 2)
    requires cost <= (PAGE_BODY_CAPACITY + 1) / 2
    ensures var f := ForecastLeaf(entries, key, cost);
            f.Rewrites? && f.branching && 1 <= |f.firsts| <= 2 && SmallKeys(f.firsts)
  {
    hide Sum, LeafCost, SeparatorCost, Division, LowerBound;
    var at := LowerBound(EntryPairs(entries), key);
    var present := at < |entries| && entries[at].key.bytes == key;
    var was, most: nat := LeafCosts(LeafCells(entries)), (PAGE_BODY_CAPACITY + 1) / 2;
    var costs, keys := Placed(was, at, present, cost), Placed(EntryKeys(entries), at, present, key);
    PlacedCost(was, at, present, cost);
    SmallCellsDivide(costs, most, most);
    LevelBlockedExactly(keys, costs, true);
    assert [key][0] == key;
    assert SmallKeys(keys);
  }

  lemma SmallNodeForecast(firsts: seq<Key>, at: nat, below: Forecast)
    requires at < |firsts| && SmallKeys(firsts) && Fit(SeparatorCosts(firsts))
    requires below.Rewrites? && below.branching && 1 <= |below.firsts| <= 2 && SmallKeys(below.firsts)
    ensures var f := ForecastNode(firsts, at, below);
            f.Rewrites? && f.branching && 1 <= |f.firsts| <= 2 && SmallKeys(f.firsts)
  {
    hide Sum, SeparatorCost, Division, KeepsTwo;
    var keys, most := Spliced(firsts, at, below.firsts), PAGE_BODY_CAPACITY / 3;
    var costs := SeparatorCosts(keys);
    assert SmallKeys(keys);
    assert costs == Spliced(SeparatorCosts(firsts), at, SeparatorCosts(below.firsts));
    SplicedCost(SeparatorCosts(firsts), at, SeparatorCosts(below.firsts), most);
    SmallCellsDivide(costs, most, 2 * most);
    LevelBlockedExactly(keys, costs, true);
    if !Fit(costs) { SmallSeparatorsKeepTwo(costs, most); }
  }

  // ---------- inputs on which the premise fails ----------

  /** A key of `length` bytes that `low` orders. */
  function TestKey(low: byte, length: nat): (key: Key)
    requires length >= 1
    ensures |key| == length && key[0] == low
  {
    [low] + Zeros(length - 1)
  }

  function InlineEntry(low: byte, keyLength: nat, valueLength: nat): Entry
    requires keyLength >= 1
  {
    Entry(Blob(TestKey(low, keyLength), []), Blob(Zeros(valueLength), []))
  }

  lemma PairOfCosts(a: nat, b: nat)
    ensures Sum([a, b]) == a + b
  {
    var costs: seq<nat> := [a, b];
    SumOfNone(costs);
    SumNext(costs, 0);
    SumNext(costs, 1);
    assert costs[..2] == costs;
  }

  /** Two leaf cells that fit a page each but not one together divide between them. */
  lemma TwoCellsDivide(keys: seq<Key>, a: nat, b: nat, branching: bool)
    requires |keys| == 2 && a <= PAGE_BODY_CAPACITY && b <= PAGE_BODY_CAPACITY && a + b > PAGE_BODY_CAPACITY
    ensures LevelForecast(keys, [a, b], branching) == Rewrites(keys, branching)
  {
    var costs := [a, b];
    PairOfCosts(a, b);
    assert costs[..1] == [a] && costs[1..] == [b] && [a][..0] == [] && [b][..0] == [];
    assert Feasible(costs, 1);
    DivisionIsChosen(costs);
    DividesExactly(costs);
  }

  lemma OneCost(a: nat)
    ensures Sum([a]) == a
  {
    var costs: seq<nat> := [a];
    SumOfNone(costs);
    SumNext(costs, 0);
    assert costs[..1] == costs;
  }

  /** Two leaves of one pair each under keys of 1500 bytes. */
  function StrandingTree(): Tree {
    Node(4, [Blob(TestKey(0, 1500), []), Blob(TestKey(1, 1500), [])],
         [Leaf(2, [InlineEntry(0, 1500, 0)]), Leaf(3, [InlineEntry(1, 1500, 2000)])])
  }

  lemma {:induction false} InlineBlobsFoot(blobs: seq<Blob>)
    requires forall i :: 0 <= i < |blobs| ==> blobs[i].chain == []
    ensures BlobsFoot(blobs) == multiset{}
  {
    if blobs != [] { InlineBlobsFoot(blobs[1..]); }
  }

  lemma StrandingTreeIsSearchTree()
    ensures SearchTree(StrandingTree()) && Branching(StrandingTree())
  {
    hide TestKey, Zeros;
    StrandingTreeIsSorted();
    StrandingTreeFoot();
  }

  lemma StrandingTreeIsSorted()
    ensures Sorted(Flatten(StrandingTree()))
  {
    hide TestKey, Zeros;
    var t, a, b := StrandingTree(), TestKey(0, 1500), TestKey(1, 1500);
    var left, right := t.kids[0], t.kids[1];
    assert t.kids == [left] + [right];
    FlattenConcat([left], [right]);
    FlattenOne(left);
    FlattenOne(right);
    assert Less(a, b);
  }

  lemma StrandingTreeFoot()
    ensures Foot(StrandingTree()) == multiset{4} + (multiset{2} + multiset{3})
  {
    hide TestKey, Zeros;
    var t, a, b := StrandingTree(), TestKey(0, 1500), TestKey(1, 1500);
    var left, right := t.kids[0], t.kids[1];
    assert t.kids == [left] + [right] && t.separators == [Blob(a, [])] + [Blob(b, [])];
    FootConcat([left], [right]);
    FootOne(left);
    FootOne(right);
    InlineBlobsFoot(t.separators);
    assert left.entries[1..] == [] && right.entries[1..] == [];
    assert EntriesFoot(left.entries) == multiset{} && EntriesFoot(right.entries) == multiset{};
    assert Foot(t) == multiset{4} + (multiset{2} + multiset{3});
  }

  lemma StrandingTreeFits()
    ensures var t := StrandingTree();
            && Fit(InternalCosts(InternalCells(t.separators, t.kids)))
            && forall i :: 0 <= i < |t.kids| ==> Fit(LeafCosts(LeafCells(t.kids[i].entries)))
  {
    hide Sum;
    var t := StrandingTree();
    PairOfCosts(1514, 1514);
    assert InternalCosts(InternalCells(t.separators, t.kids)) == [1514, 1514];
    OneCost(1510);
    assert LeafCosts(LeafCells(t.kids[0].entries)) == [1510];
    OneCost(3510);
    assert LeafCosts(LeafCells(t.kids[1].entries)) == [3510];
  }

  /** A put into an accepted tree that goes through and leaves a tree `open` refuses: one child is stranded. */
  lemma AcceptedTreeStrands()
    ensures var t := StrandingTree();
            && SearchTree(t) && Branching(t) && Fit(InternalCosts(InternalCells(t.separators, t.kids)))
            && (forall i :: 0 <= i < |t.kids| ==> Fit(LeafCosts(LeafCells(t.kids[i].entries))))
            && var forecast := ForecastPut(Some(t), TestKey(2, 1500), Zeros(2000));
               forecast.Rewrites? && !forecast.branching
  {
    StrandingTreeIsSearchTree();
    StrandingTreeFits();
    StrandingTreeStrands();
  }

  lemma StrandingTreeStrands()
    ensures ForecastPut(Some(StrandingTree()), TestKey(2, 1500), Zeros(2000))
         == Rewrites([TestKey(0, 1500), TestKey(1, 1500)], false)
  {
    hide Sum, Division, KeepsTwo;
    var a, b, c := TestKey(0, 1500), TestKey(1, 1500), TestKey(2, 1500);
    var right := StrandingTree().kids[1];
    PairOfCosts(1514, 1514);
    assert Firsts(StrandingTree().kids) == [a, b];
    assert Route([a, b], c) == 1 by { assert [a, b][1..] == [b]; }
    var entries := right.entries;
    assert LowerBound(EntryPairs(entries), c) == 1 by {
      assert Less(b, c);
      assert EntryPairs(entries)[1..] == [];
    }
    assert Placed(EntryKeys(entries), 1, false, c) == [b, c];
    assert Placed(LeafCosts(LeafCells(entries)), 1, false, 3510) == [3510, 3510];
    TwoCellsDivide([b, c], 3510, 3510, true);
    assert ForecastInsert(right, c, 3510) == Rewrites([b, c], true);
    assert Spliced([a, b], 1, [b, c]) == [a, b, c];
    assert SeparatorCosts([a, b, c]) == [1514, 1514, 1514];
    LargeSeparatorsStrandAChild();
    DivisionIsChosen([1514, 1514, 1514]);
    assert SeparatorCosts([a, b]) == [1514, 1514];
    assert PairCost(c, Zeros(2000)) == 3510;
  }

  /** A put that fits its own page and is blocked all the same, between two half pages. */
  lemma FullCellIsBlocked()
    ensures var entries := [InlineEntry(0, 1, 2015), InlineEntry(2, 1, 2015)];
            && Fit(LeafCosts(LeafCells(entries)))
            && ForecastPut(Some(Leaf(2, entries)), TestKey(1, 1), Zeros(4041)).Blocked?
  {
    hide Sum, Division;
    var key, entries := TestKey(1, 1), [InlineEntry(0, 1, 2015), InlineEntry(2, 1, 2015)];
    PairOfCosts(2026, 2026);
    assert LeafCosts(LeafCells(entries)) == [2026, 2026];
    var pairs := EntryPairs(entries);
    assert LowerBound(pairs, key) == 1 by {
      assert Less(pairs[0].key, key) && !Less(pairs[1..][0].key, key);
    }
    assert Placed([2026, 2026], 1, false, PAGE_BODY_CAPACITY) == [2026, PAGE_BODY_CAPACITY, 2026];
    FullPageCellBlocksInsertion();
    DivisionIsChosen([2026, PAGE_BODY_CAPACITY, 2026]);
    assert PairCost(key, Zeros(4041)) == PAGE_BODY_CAPACITY;
  }
}
