/** One level of an insertion: rewriting a leaf or an internal page into one or two of the same height. */
module TreeLevels {
  import opened Bytes
  import opened SplitArithmetic
  import opened BtreePages
  import opened Superblocks
  import opened PageStore
  import opened TreeModel
  import opened TreeParse
  import opened TreeReader
  import opened InsertForecast

  // ---------- in-memory forms ----------

  function Decoded(entries: seq<Entry>): (decoded: seq<LeafEntry>)
    ensures |decoded| == |entries|
    ensures forall i :: 0 <= i < |entries| ==>
              decoded[i] == LeafEntry(KeyOf(entries[i].key), RefOf(entries[i].value))
  {
    seq(|entries|, i requires 0 <= i < |entries| => LeafEntry(KeyOf(entries[i].key), RefOf(entries[i].value)))
  }

  /** `encode_leaf_cell` for every entry. */
  function CellsOf(entries: seq<LeafEntry>): (cells: seq<LeafCell>)
    ensures |cells| == |entries|
    ensures forall i :: 0 <= i < |entries| ==> cells[i] == LeafCell(entries[i].key.ref, entries[i].value)
  {
    seq(|entries|, i requires 0 <= i < |entries| => LeafCell(entries[i].key.ref, entries[i].value))
  }

  function Refs(kids: seq<Tree>): (refs: seq<ChildRef>)
    ensures |refs| == |kids|
    ensures forall i :: 0 <= i < |kids| ==> refs[i] == ChildRef(First(kids[i]), kids[i].id)
  {
    seq(|kids|, i requires 0 <= i < |kids| => ChildRef(First(kids[i]), kids[i].id))
  }

  function ChildCosts(children: seq<ChildRef>): (costs: seq<nat>)
    ensures |costs| == |children|
    ensures forall i :: 0 <= i < |children| ==> costs[i] == SeparatorCost(children[i].minKey)
  {
    seq(|children|, i requires 0 <= i < |children| => SeparatorCost(children[i].minKey))
  }

  /** Stored as `store_key` stores it: inline up to the limit, beyond it on as few pages as hold it. */
  predicate Canonical(blob: Blob) {
    |blob.chain| == KeyPages(blob.bytes)
  }

  lemma CanonicalIsInline(blob: Blob)
    requires Canonical(blob)
    ensures blob.chain == [] <==> |blob.bytes| <= MAX_INLINE_KEY_BYTES
  {
  }

  lemma DecodedCells(entries: seq<Entry>)
    ensures CellsOf(Decoded(entries)) == LeafCells(entries)
    ensures DecodedLeaf(KeysOf(entries), LeafCells(entries)) == Decoded(entries)
  {
  }

  lemma PrefixCosts(entries: seq<LeafEntry>, at: nat)
    requires at <= |entries|
    ensures LeafCosts(CellsOf(entries))[..at] == LeafCosts(CellsOf(entries[..at]))
    ensures LeafCosts(CellsOf(entries))[at..] == LeafCosts(CellsOf(entries[at..]))
  {
  }

  lemma PrefixChildCosts(children: seq<ChildRef>, at: nat)
    requires at <= |children|
    ensures ChildCosts(children)[..at] == ChildCosts(children[..at])
    ensures ChildCosts(children)[at..] == ChildCosts(children[at..])
  {
  }

  lemma SplitRefs(kids: seq<Tree>, at: nat)
    requires at <= |kids|
    ensures Refs(kids)[..at] == Refs(kids[..at]) && Refs(kids)[at..] == Refs(kids[at..])
  {
  }

  /** Materialized separators cost what the preview said. */
  lemma PreviewIsExact(separators: seq<Blob>, kids: seq<Tree>)
    requires |separators| == |kids|
    requires forall i :: 0 <= i < |kids| ==> Canonical(separators[i]) && separators[i].bytes == First(kids[i])
    ensures InternalCosts(InternalCells(separators, kids)) == ChildCosts(Refs(kids))
  {
    hide First, KeyPages, Canonical;
    forall i | 0 <= i < |kids| ensures separators[i].chain == [] <==> |separators[i].bytes| <= MAX_INLINE_KEY_BYTES {
      CanonicalIsInline(separators[i]);
    }
  }

  // ---------- the size premise ----------

  function EntryCost(entry: Entry): nat {
    LeafCost(LeafCell(RefOf(entry.key), RefOf(entry.value)))
  }

  /** Half a page for a leaf cell, a third of one for its key as a separator. */
  predicate ModestEntry(entry: Entry) {
    && 2 * EntryCost(entry) <= PAGE_BODY_CAPACITY + 1
    && 3 * SeparatorCost(entry.key.bytes) <= PAGE_BODY_CAPACITY
  }

  predicate Modest(t: Tree) {
    match t
    case Leaf(_, entries) => forall i :: 0 <= i < |entries| ==> ModestEntry(entries[i])
    case Node(_, separators, kids) =>
      && (forall i :: 0 <= i < |separators| ==>
            Canonical(separators[i]) && 3 * SeparatorCost(separators[i].bytes) <= PAGE_BODY_CAPACITY)
      && forall i :: 0 <= i < |kids| ==> Modest(kids[i])
  }

  /** The premise in terms of a caller's key and value. */
  predicate ModestPair(key: Key, value: Value) {
    2 * PairCost(key, value) <= PAGE_BODY_CAPACITY + 1 && 3 * SeparatorCost(key) <= PAGE_BODY_CAPACITY
  }

  lemma ModestFirst(t: Tree, height: nat)
    requires Modest(t) && Shape(t, height)
    ensures 3 * SeparatorCost(First(t)) <= PAGE_BODY_CAPACITY
  {
    hide SeparatorCost;
  }

  // ---------- leaves ----------

  /** The entries after `rewrite_insert` replaced or inserted one at the searched position. */
  function InsertEntry(entries: seq<Entry>, at: nat, entry: Entry): seq<Entry>
    requires at <= |entries|
  {
    if at < |entries| && entries[at].key.bytes == entry.key.bytes then entries[at := entry]
    else entries[..at] + [entry] + entries[at..]
  }

  lemma InsertEntryPairs(entries: seq<Entry>, entry: Entry)
    ensures var at := LowerBound(EntryPairs(entries), entry.key.bytes);
            EntryPairs(InsertEntry(entries, at, entry))
            == InsertPair(EntryPairs(entries), Pair(entry.key.bytes, entry.value.bytes))
  {
    hide LowerBound;
  }

  lemma InsertEntryForecast(entries: seq<Entry>, entry: Entry)
    ensures var at := LowerBound(EntryPairs(entries), entry.key.bytes);
            var after := InsertEntry(entries, at, entry);
            ForecastLeaf(entries, entry.key.bytes, EntryCost(entry))
            == LevelForecast(EntryKeys(after), LeafCosts(LeafCells(after)), true)
  {
    hide LowerBound, LevelForecast, LeafCost, RefOf;
    var at := LowerBound(EntryPairs(entries), entry.key.bytes);
    var after := InsertEntry(entries, at, entry);
    var present := at < |entries| && entries[at].key.bytes == entry.key.bytes;
    assert EntryKeys(after) == Placed(EntryKeys(entries), at, present, entry.key.bytes);
    assert LeafCosts(LeafCells(after)) == Placed(LeafCosts(LeafCells(entries)), at, present, EntryCost(entry));
  }

  predicate AllShaped(trees: seq<Tree>, height: nat) {
    forall i :: 0 <= i < |trees| ==> Shape(trees[i], height)
  }

  predicate AllModest(trees: seq<Tree>) {
    forall i :: 0 <= i < |trees| ==> Modest(trees[i])
  }

  predicate AllBranching(trees: seq<Tree>) {
    forall i :: 0 <= i < |trees| ==> Branching(trees[i])
  }

  /** The subtrees are the forecast ones: as many, with these least keys, and with two children where it says so. */
  predicate Foreseen(t: Tree, entry: Entry, reps: seq<Tree>) {
    var forecast := ForecastInsert(t, entry.key.bytes, EntryCost(entry));
    && forecast.Rewrites? && forecast.firsts == Firsts(reps)
    && (Branching(t) ==> (AllBranching(reps) <==> forecast.branching))
    && SizeAll(reps) == InsertSize(t, entry.key.bytes, EntryCost(entry), EntrySize(entry))
  }

  /** What one insertion makes of a subtree: one or two subtrees of the same height. */
  predicate Rewritten(t: Tree, entry: Entry, reps: seq<Tree>) {
    && 1 <= |reps| <= 2
    && AllShaped(reps, Height(t))
    && FlattenAll(reps) == InsertPair(Flatten(t), Pair(entry.key.bytes, entry.value.bytes))
    && (Modest(t) && ModestEntry(entry) ==> AllModest(reps))
    && Foreseen(t, entry, reps)
  }

  lemma FlattenTwo(a: Tree, b: Tree)
    ensures FlattenAll([a, b]) == Flatten(a) + Flatten(b)
    ensures FootAll([a, b]) == Foot(a) + Foot(b)
  {
    FlattenConcat([a], [b]);
    FlattenOne(a);
    FlattenOne(b);
    FootConcat([a], [b]);
    FootOne(a);
    FootOne(b);
    assert [a] + [b] == [a, b];
  }

  /** The leaves of a level: all of `entries` on one page, or divided over two. */
  ghost predicate LeafLevel(entries: seq<Entry>, reps: seq<Tree>) {
    || (|reps| == 1 && reps[0] == Leaf(reps[0].id, entries) && entries != [] && Fit(LeafCosts(LeafCells(entries))))
    || (|reps| == 2 && reps[0].Leaf? && reps[1].Leaf?
        && entries == reps[0].entries + reps[1].entries
        && ChosenSplit(LeafCosts(LeafCells(entries)), |reps[0].entries|))
  }

  lemma LeafRewritten(t: Tree, entry: Entry, reps: seq<Tree>)
    requires t.Leaf?
    requires LeafLevel(InsertEntry(t.entries, LowerBound(EntryPairs(t.entries), entry.key.bytes), entry), reps)
    ensures Rewritten(t, entry, reps)
  {
    hide LowerBound, InsertPair, FlattenAll, ModestEntry, InsertEntry, AllModest, Fit, Feasible, Imbalance, Foreseen;
    LeafForeseen(t, entry, reps);
    var at := LowerBound(EntryPairs(t.entries), entry.key.bytes);
    var after := InsertEntry(t.entries, at, entry);
    InsertEntryPairs(t.entries, entry);
    FlattenOne(reps[0]);
    if |reps| == 2 {
      FlattenTwo(reps[0], reps[1]);
      assert reps == [reps[0], reps[1]];
      assert EntryPairs(after) == EntryPairs(reps[0].entries) + EntryPairs(reps[1].entries);
    } else {
      assert reps == [reps[0]];
    }
    if Modest(t) && ModestEntry(entry) {
      InsertKeepsModest(t.entries, at, entry);
      LeafLevelModest(after, reps);
    }
  }

  lemma LeafForeseen(t: Tree, entry: Entry, reps: seq<Tree>)
    requires t.Leaf?
    requires LeafLevel(InsertEntry(t.entries, LowerBound(EntryPairs(t.entries), entry.key.bytes), entry), reps)
    ensures Foreseen(t, entry, reps)
  {
    hide LowerBound, InsertEntry, Fit, Imbalance, LeafCost, RefOf, InsertSize, SizeAll, EntrySize;
    var at := LowerBound(EntryPairs(t.entries), entry.key.bytes);
    var after := InsertEntry(t.entries, at, entry);
    var costs := LeafCosts(LeafCells(after));
    InsertEntryForecast(t.entries, entry);
    if |reps| == 2 {
      DivisionIsChosen(costs);
      assert reps[1].entries[0] == after[|reps[0].entries|];
    }
    assert ForecastInsert(t, entry.key.bytes, EntryCost(entry)).firsts == Firsts(reps);
    LeafSize(t, entry, reps);
  }

  lemma LeafBlocked(t: Tree, entry: Entry)
    requires t.Leaf?
    ensures var after := InsertEntry(t.entries, LowerBound(EntryPairs(t.entries), entry.key.bytes), entry);
            && after != []
            && (ForecastInsert(t, entry.key.bytes, EntryCost(entry)).Blocked? <==>
                  !Divisible(LeafCosts(LeafCells(after))))
  {
    hide LowerBound, LevelForecast, LeafCost, RefOf, Divisible;
    var after := InsertEntry(t.entries, LowerBound(EntryPairs(t.entries), entry.key.bytes), entry);
    InsertEntryForecast(t.entries, entry);
    LevelBlockedExactly(EntryKeys(after), LeafCosts(LeafCells(after)), true);
  }

  /** Two leaves take one page more than one. */
  lemma LeafLevelSize(entries: seq<Entry>, reps: seq<Tree>)
    requires LeafLevel(entries, reps)
    ensures SizeAll(reps) == EntriesSize(entries) + LevelPages(LeafCosts(LeafCells(entries)))
  {
    hide Fit, Feasible, Imbalance, LeafCost;
    if |reps| == 1 {
      SizeAllOne(reps[0]);
      assert reps == [reps[0]];
    } else {
      SizeAllTwo(reps[0], reps[1]);
      EntriesSizeConcat(reps[0].entries, reps[1].entries);
      assert reps == [reps[0], reps[1]];
    }
  }

  lemma InsertEntrySize(entries: seq<Entry>, at: nat, entry: Entry)
    requires at <= |entries|
    ensures var present := at < |entries| && entries[at].key.bytes == entry.key.bytes;
            EntriesSize(InsertEntry(entries, at, entry))
            == EntriesSize(entries[..at]) + EntrySize(entry) + EntriesSize(entries[if present then at + 1 else at..])
  {
    hide EntrySize;
    var present := at < |entries| && entries[at].key.bytes == entry.key.bytes;
    var rest := entries[if present then at + 1 else at..];
    assert InsertEntry(entries, at, entry) == entries[..at] + ([entry] + rest);
    EntriesSizeConcat(entries[..at], [entry] + rest);
    EntriesSizeConcat([entry], rest);
    assert [entry][1..] == [];
    assert EntriesSize([entry][1..]) == 0;
  }

  lemma LeafSize(t: Tree, entry: Entry, reps: seq<Tree>)
    requires t.Leaf?
    requires LeafLevel(InsertEntry(t.entries, LowerBound(EntryPairs(t.entries), entry.key.bytes), entry), reps)
    ensures SizeAll(reps) == InsertSize(t, entry.key.bytes, EntryCost(entry), EntrySize(entry))
  {
    hide LowerBound, InsertEntry, LevelPages, LeafCost, RefOf, EntriesSize, EntrySize, LeafLevel, SizeAll, EntryCost;
    var at := LowerBound(EntryPairs(t.entries), entry.key.bytes);
    var after := InsertEntry(t.entries, at, entry);
    LeafLevelSize(after, reps);
    InsertEntrySize(t.entries, at, entry);
    LeafPagesForeseen(t, entry);
    LeafSizeIs(t, entry);
  }

  lemma LeafSizeIs(t: Tree, entry: Entry)
    requires t.Leaf?
    ensures var at := LowerBound(EntryPairs(t.entries), entry.key.bytes);
            var present := at < |t.entries| && t.entries[at].key.bytes == entry.key.bytes;
            InsertSize(t, entry.key.bytes, EntryCost(entry), EntrySize(entry))
            == EntriesSize(t.entries[..at]) + EntrySize(entry)
               + EntriesSize(t.entries[if present then at + 1 else at..])
               + InsertPages(t, entry.key.bytes, EntryCost(entry))
  {
    hide LowerBound, LevelPages, LeafCosts, LeafCells, EntriesSize, EntrySize, EntryCost;
  }

  /** The leaf level writes as many pages as foretold. */
  lemma LeafPagesForeseen(t: Tree, entry: Entry)
    requires t.Leaf?
    ensures var at := LowerBound(EntryPairs(t.entries), entry.key.bytes);
            InsertPages(t, entry.key.bytes, EntryCost(entry))
            == LevelPages(LeafCosts(LeafCells(InsertEntry(t.entries, at, entry))))
  {
    hide LowerBound, LevelPages, LeafCost, RefOf;
    var at := LowerBound(EntryPairs(t.entries), entry.key.bytes);
    var present := at < |t.entries| && t.entries[at].key.bytes == entry.key.bytes;
    assert LeafCosts(LeafCells(InsertEntry(t.entries, at, entry)))
        == Placed(LeafCosts(LeafCells(t.entries)), at, present, EntryCost(entry));
  }

  lemma InsertKeepsModest(entries: seq<Entry>, at: nat, entry: Entry)
    requires at <= |entries| && ModestEntry(entry)
    requires forall i :: 0 <= i < |entries| ==> ModestEntry(entries[i])
    ensures forall i :: 0 <= i < |InsertEntry(entries, at, entry)| ==> ModestEntry(InsertEntry(entries, at, entry)[i])
  {
    hide ModestEntry;
  }

  lemma LeafLevelModest(entries: seq<Entry>, reps: seq<Tree>)
    requires LeafLevel(entries, reps) && forall i :: 0 <= i < |entries| ==> ModestEntry(entries[i])
    ensures AllModest(reps)
  {
    hide ModestEntry;
    if |reps| == 2 {
      assert forall i :: 0 <= i < |reps[0].entries| ==> reps[0].entries[i] == entries[i];
      assert forall i :: 0 <= i < |reps[1].entries| ==> reps[1].entries[i] == entries[|reps[0].entries| + i];
    }
  }

  // ---------- internal pages ----------

  /** An internal page over `kids` as `commit_internal` writes it. */
  predicate FreshNode(node: Tree, kids: seq<Tree>) {
    && node.Node? && node.kids == kids && kids != [] && |node.separators| == |kids|
    && (forall i :: 0 <= i < |kids| ==>
          Canonical(node.separators[i]) && node.separators[i].bytes == First(kids[i]))
  }

  lemma FreshNodeShape(node: Tree, kids: seq<Tree>, height: nat)
    requires FreshNode(node, kids) && height >= 1 && AllShaped(kids, height)
    ensures Shape(node, height + 1) && First(node) == First(kids[0])
    ensures AllModest(kids) ==> Modest(node)
    ensures AllBranching(kids) && |kids| >= 2 <==> Branching(node)
  {
    hide First, SeparatorCost;
    if AllModest(kids) {
      forall i | 0 <= i < |kids|
        ensures 3 * SeparatorCost(node.separators[i].bytes) <= PAGE_BODY_CAPACITY
      {
        ModestFirst(kids[i], height);
      }
    }
    assert First(node) == node.separators[0].bytes by { FirstOfNode(node); }
  }

  lemma FirstOfNode(node: Tree)
    requires node.Node? && node.separators != []
    ensures First(node) == node.separators[0].bytes
  {
  }

  /** The internal pages of a level: all of `kids` below one page, or divided over two. */
  ghost predicate InternalLevel(kids: seq<Tree>, reps: seq<Tree>) {
    || (|reps| == 1 && FreshNode(reps[0], kids) && Fit(ChildCosts(Refs(kids))))
    || (exists at: nat :: |reps| == 2 && ChosenSplit(ChildCosts(Refs(kids)), at)
                          && FreshNode(reps[0], kids[..at]) && FreshNode(reps[1], kids[at..]))
  }

  function Splice(kids: seq<Tree>, at: nat, replacements: seq<Tree>): seq<Tree>
    requires at < |kids|
  {
    kids[..at] + replacements + kids[at + 1..]
  }

  lemma SpliceRefs(kids: seq<Tree>, at: nat, replacements: seq<Tree>)
    requires at < |kids|
    ensures Refs(kids)[..at] + Refs(replacements) + Refs(kids)[at + 1..]
         == Refs(Splice(kids, at, replacements))
  {
  }

  lemma SpliceAll(t: Tree, at: nat, replacements: seq<Tree>)
    requires t.Node? && at < |t.kids| && Shape(t, Height(t)) && AllShaped(replacements, Height(t) - 1)
    ensures Height(t) >= 2
    ensures AllShaped(Splice(t.kids, at, replacements), Height(t) - 1)
    ensures Modest(t) && AllModest(replacements) ==> AllModest(Splice(t.kids, at, replacements))
    ensures Branching(t) ==> (AllBranching(replacements) <==> AllBranching(Splice(t.kids, at, replacements)))
  {
    hide Modest, Shape, First;
    var spliced := Splice(t.kids, at, replacements);
    assert forall i :: 0 <= i < |replacements| ==> replacements[i] == spliced[at + i];
    KidsOfShape(t);
  }

  lemma KidsOfShape(t: Tree)
    requires t.Node? && Shape(t, Height(t))
    ensures Height(t) >= 2 && AllShaped(t.kids, Height(t) - 1)
    ensures Modest(t) ==> AllModest(t.kids)
    ensures Branching(t) ==> AllBranching(t.kids) && |t.kids| >= 2
  {
  }

  lemma HalvesAll(kids: seq<Tree>, k: nat, height: nat)
    requires k <= |kids|
    ensures AllShaped(kids, height) ==> AllShaped(kids[..k], height) && AllShaped(kids[k..], height)
    ensures AllModest(kids) ==> AllModest(kids[..k]) && AllModest(kids[k..])
    ensures AllBranching(kids) <==> AllBranching(kids[..k]) && AllBranching(kids[k..])
  {
    hide Shape, Modest, Branching;
    assert forall i :: k <= i < |kids| ==> kids[i] == kids[k..][i - k];
  }

  lemma ChildCostsAreSeparatorCosts(kids: seq<Tree>)
    ensures ChildCosts(Refs(kids)) == SeparatorCosts(Firsts(kids))
  {
    hide First, SeparatorCost;
  }

  lemma SpliceFirsts(kids: seq<Tree>, at: nat, replacements: seq<Tree>)
    requires at < |kids|
    ensures Firsts(Splice(kids, at, replacements)) == Spliced(Firsts(kids), at, Firsts(replacements))
  {
    hide First;
  }

  lemma NodeBlocked(t: Tree, entry: Entry, at: nat, replacements: seq<Tree>)
    requires t.Node? && at < |t.kids| && at == Route(Firsts(t.kids), entry.key.bytes)
    requires Rewritten(t.kids[at], entry, replacements)
    ensures ForecastInsert(t, entry.key.bytes, EntryCost(entry)).Blocked? <==>
            !Divisible(ChildCosts(Refs(Splice(t.kids, at, replacements))))
  {
    hide Route, First, LevelForecast, SeparatorCost, EntryCost, Divisible, Branching, AllBranching, AllShaped, Modest,
      Flatten, FlattenAll, InsertPair;
    var kids := Splice(t.kids, at, replacements);
    SpliceFirsts(t.kids, at, replacements);
    ChildCostsAreSeparatorCosts(kids);
    var below := ForecastInsert(t.kids[at], entry.key.bytes, EntryCost(entry));
    var costs := SeparatorCosts(Firsts(kids));
    LevelBlockedExactly(Firsts(kids), costs, below.branching && (Fit(costs) || KeepsTwo(costs)));
  }

  /** So does an internal level, above its rewritten child. */
  lemma NodePagesForeseen(t: Tree, entry: Entry, at: nat, replacements: seq<Tree>)
    requires t.Node? && at < |t.kids| && at == Route(Firsts(t.kids), entry.key.bytes)
    requires Rewritten(t.kids[at], entry, replacements)
    ensures var children := Refs(Splice(t.kids, at, replacements));
            InsertPages(t, entry.key.bytes, EntryCost(entry))
            == InsertPages(t.kids[at], entry.key.bytes, EntryCost(entry))
               + (KeysPages(MinKeys(children)) + LevelPages(ChildCosts(children)))
  {
    hide Route, First, LevelPages, KeysPages, SeparatorCost, EntryCost, Branching, AllBranching, AllShaped, Modest,
      Flatten, FlattenAll, InsertPair;
    var kids := Splice(t.kids, at, replacements);
    SpliceFirsts(t.kids, at, replacements);
    ChildCostsAreSeparatorCosts(kids);
    assert MinKeys(Refs(kids)) == Firsts(kids);
  }

  /** An internal level divided in two keeps two children on each side exactly when its ends allow it. */
  lemma DividedLevelKeepsTwo(kids: seq<Tree>, reps: seq<Tree>)
    requires InternalLevel(kids, reps) && |reps| == 2
    ensures !Fit(ChildCosts(Refs(kids)))
    ensures |reps[0].kids| >= 2 && |reps[1].kids| >= 2 <==> KeepsTwo(ChildCosts(Refs(kids)))
  {
    hide First, SeparatorCost, Fit, Feasible, Imbalance, KeepsTwo, Canonical;
    var costs := ChildCosts(Refs(kids));
    var k: nat :| ChosenSplit(costs, k) && FreshNode(reps[0], kids[..k]) && FreshNode(reps[1], kids[k..]);
    ChildCostsAreSeparatorCosts(kids);
    SeparatorsArePositive(Firsts(kids));
    TwoOnEachSideExactly(costs, k);
  }

  lemma FlattenFresh(node: Tree, kids: seq<Tree>)
    requires FreshNode(node, kids)
    ensures FlattenAll([node]) == FlattenAll(kids)
  {
    FlattenOne(node);
  }

  /** The level above the rewritten child. */
  lemma NodeRewritten(t: Tree, entry: Entry, at: nat, replacements: seq<Tree>, reps: seq<Tree>)
    requires t.Node? && Shape(t, Height(t)) && at < |t.kids| && at == Route(Firsts(t.kids), entry.key.bytes)
    requires KeysBelow(FlattenAll(t.kids[..at]), entry.key.bytes)
    requires KeysAbove(FlattenAll(t.kids[at + 1..]), entry.key.bytes)
    requires Rewritten(t.kids[at], entry, replacements)
    requires InternalLevel(Splice(t.kids, at, replacements), reps)
    ensures Rewritten(t, entry, reps)
  {
    hide First, Firsts, SeparatorCost, Flatten, FlattenAll, InsertPair, Fit, Feasible, Imbalance, Less, Shape, Modest,
      Branching, AllShaped, AllModest, AllBranching, KeysBelow, KeysAbove, FreshNode, Foreseen, Route;
    var kids := Splice(t.kids, at, replacements);
    var height := Height(t) - 1;
    FlattenOfNode(t);
    InsertThroughChild(t.kids, at, Pair(entry.key.bytes, entry.value.bytes), replacements);
    KidOfNode(t, at);
    SpliceAll(t, at, replacements);
    NodeForeseen(t, entry, at, replacements, reps);
    if |reps| == 1 {
      FreshNodeShape(reps[0], kids, height);
      FlattenFresh(reps[0], kids);
      AllOfOne(reps[0], Height(t));
      assert reps == [reps[0]];
    } else {
      var k: nat :|
        ChosenSplit(ChildCosts(Refs(kids)), k) && FreshNode(reps[0], kids[..k]) && FreshNode(reps[1], kids[k..]);
      assert kids == kids[..k] + kids[k..];
      HalvesAll(kids, k, height);
      FreshNodeShape(reps[0], kids[..k], height);
      FreshNodeShape(reps[1], kids[k..], height);
      AllOfTwo(reps[0], reps[1], Height(t));
      FlattenFresh(reps[0], kids[..k]);
      FlattenFresh(reps[1], kids[k..]);
      FlattenConcat([reps[0]], [reps[1]]);
      FlattenConcat(kids[..k], kids[k..]);
      assert reps == [reps[0]] + [reps[1]] == [reps[0], reps[1]];
    }
  }

  lemma NodeForeseen(t: Tree, entry: Entry, at: nat, replacements: seq<Tree>, reps: seq<Tree>)
    requires t.Node? && Shape(t, Height(t)) && at < |t.kids| && at == Route(Firsts(t.kids), entry.key.bytes)
    requires 1 <= |replacements| <= 2 && AllShaped(replacements, Height(t) - 1)
    requires Foreseen(t.kids[at], entry, replacements)
    requires InternalLevel(Splice(t.kids, at, replacements), reps)
    ensures Foreseen(t, entry, reps)
  {
    hide First, Firsts, SeparatorCost, Fit, Shape, Modest, Branching, AllShaped, AllModest, AllBranching, InternalLevel,
      Route, EntryCost, KeepsTwo, Splice, LevelForecast, InsertSize, SizeAll, EntrySize;
    var kids := Splice(t.kids, at, replacements);
    SpliceFirsts(t.kids, at, replacements);
    ChildCostsAreSeparatorCosts(kids);
    SpliceAll(t, at, replacements);
    SpliceSize(t, at, replacements);
    KidOfNode(t, at);
    var below := ForecastInsert(t.kids[at], entry.key.bytes, EntryCost(entry));
    var costs := SeparatorCosts(Firsts(kids));
    LevelFirsts(kids, reps, below.branching && (Fit(costs) || KeepsTwo(costs)));
    if Branching(t) { LevelBranches(kids, reps, Height(t) - 1); }
    NodeSize(t, entry, at, replacements, reps);
  }

  lemma {:induction false} FreshSeparatorsSize(separators: seq<Blob>, kids: seq<Tree>)
    requires |separators| == |kids|
    requires forall i :: 0 <= i < |kids| ==> Canonical(separators[i]) && separators[i].bytes == First(kids[i])
    ensures BlobsSize(separators) == KeysPages(Firsts(kids))
    decreases |kids|
  {
    hide First, KeyPages;
    if kids != [] {
      FreshSeparatorsSize(separators[1..], kids[1..]);
      assert Firsts(kids) == [First(kids[0])] + Firsts(kids[1..]);
      KeysPagesConcat([First(kids[0])], Firsts(kids[1..]));
      assert [First(kids[0])][..0] == [];
      assert KeysPages([First(kids[0])]) == KeyPages(First(kids[0]));
    }
  }

  lemma FreshNodeSize(node: Tree, kids: seq<Tree>)
    requires FreshNode(node, kids)
    ensures Size(node) == 1 + KeysPages(Firsts(kids)) + SizeAll(kids)
  {
    hide First, KeyPages, KeysPages, SizeAll;
    FreshSeparatorsSize(node.separators, kids);
  }

  lemma InternalLevelSize(kids: seq<Tree>, reps: seq<Tree>)
    requires InternalLevel(kids, reps)
    ensures SizeAll(reps) == SizeAll(kids) + KeysPages(Firsts(kids)) + LevelPages(SeparatorCosts(Firsts(kids)))
  {
    hide First, Firsts, SeparatorCost, Fit, Feasible, Imbalance, FreshNode, KeysPages, Size, SizeAll;
    ChildCostsAreSeparatorCosts(kids);
    if |reps| == 1 {
      FreshNodeSize(reps[0], kids);
      SizeAllOne(reps[0]);
      assert reps == [reps[0]];
    } else {
      var k: nat :|
        ChosenSplit(ChildCosts(Refs(kids)), k) && FreshNode(reps[0], kids[..k]) && FreshNode(reps[1], kids[k..]);
      FreshNodeSize(reps[0], kids[..k]);
      FreshNodeSize(reps[1], kids[k..]);
      HalvesSize(kids, k);
      SizeAllTwo(reps[0], reps[1]);
      assert reps == [reps[0], reps[1]];
    }
  }

  lemma HalvesSize(kids: seq<Tree>, k: nat)
    requires k <= |kids|
    ensures SizeAll(kids) == SizeAll(kids[..k]) + SizeAll(kids[k..])
    ensures KeysPages(Firsts(kids)) == KeysPages(Firsts(kids[..k])) + KeysPages(Firsts(kids[k..]))
  {
    hide Firsts, KeysPages, SizeAll;
    assert kids == kids[..k] + kids[k..];
    SizeAllConcat(kids[..k], kids[k..]);
    FirstsConcat(kids[..k], kids[k..]);
    KeysPagesConcat(Firsts(kids[..k]), Firsts(kids[k..]));
  }

  lemma FirstsConcat(a: seq<Tree>, b: seq<Tree>)
    ensures Firsts(a + b) == Firsts(a) + Firsts(b)
  {
    hide First;
  }

  lemma SizeAllTwo(a: Tree, b: Tree)
    ensures SizeAll([a, b]) == Size(a) + Size(b)
  {
    hide Size, SizeAll;
    SizeAllOne(a);
    SizeAllOne(b);
    SizeAllConcat([a], [b]);
    assert [a] + [b] == [a, b];
  }

  lemma NodeSize(t: Tree, entry: Entry, at: nat, replacements: seq<Tree>, reps: seq<Tree>)
    requires t.Node? && at < |t.kids| && at == Route(Firsts(t.kids), entry.key.bytes)
    requires Foreseen(t.kids[at], entry, replacements)
    requires InternalLevel(Splice(t.kids, at, replacements), reps)
    ensures SizeAll(reps) == InsertSize(t, entry.key.bytes, EntryCost(entry), EntrySize(entry))
  {
    hide First, SeparatorCost, InternalLevel, Route, KeysPages, LevelPages, Size, SizeAll, EntryCost, EntrySize,
      Branching, AllBranching, LevelForecast;
    var kids := Splice(t.kids, at, replacements);
    InternalLevelSize(kids, reps);
    SpliceFirsts(t.kids, at, replacements);
    SizeAllConcat(t.kids[..at] + replacements, t.kids[at + 1..]);
    SizeAllConcat(t.kids[..at], replacements);
  }

  /** The pages of an internal level carry the least keys that the forecast names. */
  lemma LevelFirsts(kids: seq<Tree>, reps: seq<Tree>, branching: bool)
    requires InternalLevel(kids, reps)
    ensures LevelForecast(Firsts(kids), SeparatorCosts(Firsts(kids)), branching) == Rewrites(Firsts(reps), branching)
  {
    hide SeparatorCost, Fit, Feasible, Imbalance, Canonical, Division;
    var costs := SeparatorCosts(Firsts(kids));
    ChildCostsAreSeparatorCosts(kids);
    if |reps| == 1 {
      assert Firsts(reps) == [Firsts(kids)[0]];
    } else {
      var k: nat :| ChosenSplit(costs, k) && FreshNode(reps[0], kids[..k]) && FreshNode(reps[1], kids[k..]);
      DivisionIsChosen(costs);
      assert Firsts(reps) == [Firsts(kids)[0], Firsts(kids)[k]];
    }
  }

  lemma LevelBranches(kids: seq<Tree>, reps: seq<Tree>, height: nat)
    requires InternalLevel(kids, reps) && height >= 1 && AllShaped(kids, height) && |kids| >= 2
    ensures var costs := SeparatorCosts(Firsts(kids));
            AllBranching(reps) <==> AllBranching(kids) && (Fit(costs) || KeepsTwo(costs))
  {
    hide First, Firsts, SeparatorCost, Fit, Feasible, Imbalance, Shape, Modest, Branching, AllShaped, AllModest,
      AllBranching, FreshNode, KeepsTwo;
    ChildCostsAreSeparatorCosts(kids);
    if |reps| == 1 {
      FreshNodeShape(reps[0], kids, height);
      AllOfOne(reps[0], height);
      assert reps == [reps[0]];
    } else {
      DividedLevelKeepsTwo(kids, reps);
      var k: nat :|
        ChosenSplit(ChildCosts(Refs(kids)), k) && FreshNode(reps[0], kids[..k]) && FreshNode(reps[1], kids[k..]);
      HalvesAll(kids, k, height);
      FreshNodeShape(reps[0], kids[..k], height);
      FreshNodeShape(reps[1], kids[k..], height);
      FreshKids(reps[0], kids[..k]);
      FreshKids(reps[1], kids[k..]);
      AllOfTwo(reps[0], reps[1], height);
      assert reps == [reps[0], reps[1]];
    }
  }

  lemma FreshKids(node: Tree, kids: seq<Tree>)
    requires FreshNode(node, kids)
    ensures node.Node? && node.kids == kids && kids != []
  {
  }

  lemma KidOfNode(t: Tree, at: nat)
    requires t.Node? && Shape(t, Height(t)) && at < |t.kids|
    ensures Height(t.kids[at]) == Height(t) - 1
    ensures Modest(t) ==> Modest(t.kids[at])
    ensures Branching(t) ==> Branching(t.kids[at])
  {
    ShapeHeight(t.kids[at], Height(t) - 1);
  }

  lemma SpliceSize(t: Tree, at: nat, replacements: seq<Tree>)
    requires t.Node? && at < |t.kids| && |replacements| >= 1
    ensures |Splice(t.kids, at, replacements)| >= |t.kids|
    ensures Branching(t) ==> |t.kids| >= 2
  {
  }

  lemma AllOfOne(a: Tree, height: nat)
    ensures AllShaped([a], height) <==> Shape(a, height)
    ensures AllModest([a]) <==> Modest(a)
    ensures AllBranching([a]) <==> Branching(a)
  {
    hide Shape, Modest, Branching;
    assert [a][0] == a;
  }

  lemma AllOfTwo(a: Tree, b: Tree, height: nat)
    ensures AllShaped([a, b], height) <==> Shape(a, height) && Shape(b, height)
    ensures AllModest([a, b]) <==> Modest(a) && Modest(b)
    ensures AllBranching([a, b]) <==> Branching(a) && Branching(b)
  {
    hide Shape, Modest, Branching;
    assert [a, b][0] == a && [a, b][1] == b;
  }

  // ---------- the forecast under the size premise ----------

  lemma ModestFirsts(kids: seq<Tree>, height: nat)
    requires AllShaped(kids, height) && AllModest(kids)
    ensures SmallKeys(Firsts(kids))
  {
    hide First, SeparatorCost, Shape, Modest;
    forall i | 0 <= i < |kids| ensures 3 * SeparatorCost(Firsts(kids)[i]) <= PAGE_BODY_CAPACITY {
      ModestFirst(kids[i], height);
    }
  }

  /** Below the size premise an insertion is never blocked and never strands a child. */
  lemma {:induction false} ModestForecast(pages: seq<PageImage>, t: Tree, key: Key, cost: nat)
    requires Modest(t) && Shape(t, Height(t)) && Holds(pages, t)
    requires 2 * cost <= PAGE_BODY_CAPACITY + 1 && SmallKeys([key])
    ensures var f := ForecastInsert(t, key, cost);
            f.Rewrites? && f.branching && 1 <= |f.firsts| <= 2 && SmallKeys(f.firsts)
    decreases t
  {
    hide First, SeparatorCost, Canonical, Fit, At, BlobHolds, EntryHolds, LeafCost, ForecastLeaf, ForecastNode;
    if t.Leaf? {
      var costs := LeafCosts(LeafCells(t.entries));
      assert SmallKeys(EntryKeys(t.entries)) && Bounded(costs, (PAGE_BODY_CAPACITY + 1) / 2) by {
        forall i | 0 <= i < |t.entries| ensures ModestEntry(t.entries[i]) {}
      }
      SmallLeafForecast(t.entries, key, cost);
    } else {
      var at := Route(Firsts(t.kids), key);
      KidOfNode(t, at);
      KidsOfShape(t);
      ShapeHeight(t.kids[at], Height(t) - 1);
      ModestForecast(pages, t.kids[at], key, cost);
      ModestFirsts(t.kids, Height(t) - 1);
      PreviewIsExact(t.separators, t.kids);
      ChildCostsAreSeparatorCosts(t.kids);
      SmallNodeForecast(Firsts(t.kids), at, ForecastInsert(t.kids[at], key, cost));
    }
  }
}
