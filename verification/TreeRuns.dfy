/** Runs of puts on one page file: what they cost in pages, and that nothing but the format's counters stops them. */
module TreeRuns {
  import opened Options
  import opened Bytes
  import opened SplitArithmetic
  import opened BtreePages
  import opened Superblocks
  import opened PageStore
  import opened TreeModel
  import opened TreeParse
  import opened TreeReader
  import opened InsertForecast
  import opened TreeLevels
  import opened PageBudget
  import opened BPlusTree

  // ---------- a tree of one pair ----------

  lemma SortedNeighbours(pairs: seq<Pair>)
    requires Sorted(pairs) && |pairs| >= 2
    ensures Less(pairs[0].key, pairs[1].key)
  {
  }

  lemma OnePair(pairs: seq<Pair>, key: Key, value: Value)
    requires Sorted(pairs) && MapOf(pairs) == map[key := value]
    ensures |pairs| == 1 && pairs[0].key == key
  {
    hide Less;
    MapOfSorted(pairs);
    EmptyMap();
    assert key in MapOf(pairs);
    forall i | 0 <= i < |pairs| ensures pairs[i].key == key {
      assert pairs[i].key in MapOf(pairs);
    }
    LessIrreflexive(key);
    if |pairs| >= 2 {
      SortedNeighbours(pairs);
      assert false;
    }
  }

  /** Two children hold two pairs at least. */
  lemma NodeHasTwoPairs(t: Tree)
    requires t.Node? && Shape(t, Height(t)) && Branching(t)
    ensures |Flatten(t)| >= 2
  {
    hide First;
    FirstIsLeast(t.kids[0], Height(t) - 1);
    FirstIsLeast(t.kids[1], Height(t) - 1);
    var rest := t.kids[1..];
    assert FlattenAll(rest) == Flatten(rest[0]) + FlattenAll(rest[1..]);
  }

  lemma LeafOfOne(t: Tree, key: Key, value: Value)
    requires SearchTree(t) && Branching(t) && Contents(t) == map[key := value]
    ensures t.Leaf? && |t.entries| == 1 && t.entries[0].key.bytes == key
  {
    hide Sorted, Shape, MapOf;
    OnePair(Flatten(t), key, value);
    if t.Node? { NodeHasTwoPairs(t); }
  }

  // ---------- updating one pair ----------

  /** The file denotes at most one pair, of this key. */
  ghost predicate HoldsAtMost(v: View, key: Key) {
    Denoted(v) == Some(map[]) || (Denoted(v).Some? && exists value :: Denoted(v) == Some(map[key := value]))
  }

  lemma SingleTree(v: View, key: Key)
    requires Acceptable(v) && HoldsAtMost(v, key)
    ensures TreeOf(v).Some? ==>
              var t := TreeOf(v).value; t.Leaf? && |t.entries| == 1 && t.entries[0].key.bytes == key
  {
    hide Sorted, Shape, MapOf, Parse, Flatten;
    if TreeOf(v).Some? {
      var t := RootTree(v).value;
      NotEmpty(t);
      var value :| Denoted(v) == Some(map[key := value]);
      LeafOfOne(t, key, value);
    }
  }

  lemma NotEmpty(t: Tree)
    requires SearchTree(t)
    ensures Contents(t) != map[]
  {
    hide Sorted;
    FirstIsLeast(t, Height(t));
    MapOfSorted(Flatten(t));
    assert Flatten(t)[0].key in Contents(t);
  }

  /** A pair without overflow pages takes one page, in place of whatever pages its predecessor took. */
  lemma SingleForetold(t: Option<Tree>, key: Key, value: Value)
    requires PairPages(key, value) == 0
    requires t.Some? ==> t.value.Leaf? && |t.value.entries| == 1 && t.value.entries[0].key.bytes == key
    ensures ForecastPut(t, key, value) == Rewrites([key], true)
    ensures PutPages(t, key, value) == 1 && PutSize(t, key, value) == 1
  {
    hide ChunkCount, Sum, LeafCost, Division, KeysPages;
    ChunksOfSome(|key|);
    ChunksOfSome(|value|);
    var cost := PairCost(key, value);
    OneCost(cost);
    if t.Some? {
      var entries := t.value.entries;
      LessIrreflexive(key);
      assert LowerBound(EntryPairs(entries), key) == 0;
      assert Placed(EntryKeys(entries), 0, true, key) == [key];
      assert Placed(LeafCosts(LeafCells(entries)), 0, true, cost) == [cost];
      assert entries[..0] == [] && entries[1..] == [];
    }
  }

  lemma ChunksOfSome(length: nat)
    ensures ChunkCount(length) == 0 <==> length == 0
  {
  }

  /** After `i` updates: one reachable page, at most one more to recycle, and room in the counters. */
  ghost predicate Updated(tree: BPlusTree, key: Key, i: nat)
    reads tree, tree.pager, tree.pager.file, tree.pager.cache
  {
    && tree.Published() && !tree.pager.poisoned && tree.pager.fault == None
    && Acceptable(tree.View()) && HoldsAtMost(tree.View(), key)
    && |tree.pager.file.pages| == (if i < 2 then i else 2) && |Reached(tree.View())| == (if i < 1 then i else 1)
    && tree.pager.active.generation == i + |tree.pager.file.pages|
  }

  /** The meter of a handle that has met no fault: at most one page beyond the pool. */
  lemma OnePageIsAffordable(m: Meter, reachable: set<nat>)
    requires !m.poisoned && m.fault == None && m.generation + 3 < U64_LIMIT
    requires SUPERBLOCK_COUNT <= m.pageCount <= SUPERBLOCK_COUNT + 2 && m.pool == Unreached(m.pageCount, reachable)
    ensures Affords(m, 1) && AffordsRoot(Spent(m, 1))
    ensures Spent(m, 1).generation - m.generation == Spent(m, 1).pageCount - m.pageCount
  {
  }

  lemma UpdateIsForetold(v: View, key: Key, value: Value)
    requires Acceptable(v) && HoldsAtMost(v, key) && PairPages(key, value) == 0
    ensures Foretold(v, key, value) == Rewrites([key], true)
    ensures ForetoldPages(v, key, value) == 1 && ForetoldSize(v, key, value) == 1
    ensures |key| <= MAX_TREE_KEY_BYTES && |value| <= MAX_TREE_VALUE_BYTES
  {
    hide Acceptable, HoldsAtMost, ForecastPut, PutPages, PutSize, RootTree;
    SingleTree(v, key);
    SingleForetold(TreeOf(v), key, value);
    ChunksOfSome(|key|);
    ChunksOfSome(|value|);
  }

  lemma UpdateHolds(before: View, after: View, key: Key, value: Value)
    requires HoldsAtMost(before, key) && Denoted(after) == Some(Denoted(before).value[key := value])
    ensures Denoted(after) == Some(map[key := value]) && HoldsAtMost(after, key)
  {
    hide Denoted;
    var empty: map<Key, Value> := map[];
    assert empty[key := value] == map[key := value];
    assert forall x: Value :: map[key := x][key := value] == map[key := value];
  }

  method UpdateOnce(tree: BPlusTree, key: Key, value: Value, ghost i: nat)
    requires Updated(tree, key, i) && PairPages(key, value) == 0 && i + 5 < U64_LIMIT
    modifies tree`reusable, tree.pager, tree.pager.file, tree.pager.cache
    ensures Updated(tree, key, i + 1) && Denoted(tree.View()) == Some(map[key := value])
  {
    hide Denoted, Acceptable, HoldsAtMost, Reached, Recover, Coherent, Choose, Foretold, ForetoldPages, ForetoldSize,
      Affords, AffordsRoot, Unreached, ModestPair, ModestStore, SameTree, PairPages, TreeHeight;
    ghost var v0, m0 := tree.View(), tree.PutMeter();
    tree.LiveView();
    tree.MeterParts();
    UpdateIsForetold(v0, key, value);
    OnePageIsAffordable(m0, Reached(v0));
    var previous := tree.Put(key, value);
    UpdateHolds(v0, tree.View(), key, value);
  }

  /**
   * Any number of updates of one pair that fits a page, on a new file and without a fault: every one of them goes
   * through, and the file never has more than two data pages.
   */
  method UpdateRun(file: PageFile, capacity: nat, key: Key, values: seq<Value>) returns (tree: BPlusTree)
    requires capacity > 0 && file.pages == [] && file.tail == 0
    requires forall i :: 0 <= i < |values| ==> PairPages(key, values[i]) == 0
    requires |values| + 5 < U64_LIMIT
    modifies file
    ensures fresh(tree) && tree.pager.file == file && tree.Published() && !tree.pager.poisoned
    ensures Denoted(tree.View()) == Some(if values == [] then map[] else map[key := values[|values| - 1]])
    ensures |file.pages| == if |values| < 2 then |values| else 2
  {
    hide Denoted, Acceptable, Reached, Recover, Coherent, Choose, PairPages, TreeHeight;
    tree := new BPlusTree.CreateNew(file, capacity);
    EmptyTreeReachesNothing(tree.View());
    var i := 0;
    while i < |values|
      invariant 0 <= i <= |values|
      invariant fresh(tree) && fresh(tree.pager) && fresh(tree.pager.cache) && tree.pager.file == file
      invariant Updated(tree, key, i)
      invariant Denoted(tree.View()) == Some(if i == 0 then map[] else map[key := values[i - 1]])
    {
      UpdateOnce(tree, key, values[i], i);
      i := i + 1;
    }
  }

  lemma EmptyTreeReachesNothing(v: View)
    requires v.block.root == ROOT_NONE
    ensures Acceptable(v) && Reached(v) == {} && Denoted(v) == Some(map[])
  {
  }
}
