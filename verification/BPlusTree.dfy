/** The persistent copy-on-write B+ tree: lookup, insertion, reuse of orphan pages, and recovery. */
module BPlusTree {
  import opened Options
  import opened Bytes
  import opened SplitArithmetic
  import opened BtreePages
  import opened Superblocks
  import opened PageStore
  import opened TreeModel
  import opened TreeParse
  import opened TreeReader
  import opened InsertForecast
  import opened TreeLevels
  import opened Allocation
  import opened PageBudget

  class BPlusTree {
    const pager: Pager
    var reusable: seq<nat>

    /** A handle with an empty reuse pool over an opened pager. */
    constructor OverPager(pager: Pager)
      ensures this.pager == pager && reusable == []
    {
      this.pager := pager;
      reusable := [];
    }

    ghost function View(): (view: View)
      reads pager, pager.file
      requires pager.Recovered().Some?
      ensures pager.Recovered() == Some(view)
    {
      pager.Recovered().value
    }

    ghost function Space(): Alloc
      reads this, pager, pager.file
    {
      Alloc(reusable, |pager.file.pages| + SUPERBLOCK_COUNT)
    }

    /** What decides whether further pages can be written, and where they go. */
    ghost function Reading(): Meter
      reads this, pager, pager.file
    {
      Meter(reusable, |pager.file.pages| + SUPERBLOCK_COUNT, pager.active.generation, pager.events, pager.fault,
            pager.poisoned)
    }

    /** The meter a put starts from: its pool is what the published tree does not reach. */
    ghost function PutMeter(): Meter
      reads pager, pager.file
      requires pager.Recovered().Some?
    {
      Meter(Unreached(|pager.file.pages| + SUPERBLOCK_COUNT, Reached(View())),
            |pager.file.pages| + SUPERBLOCK_COUNT, pager.active.generation, pager.events, pager.fault, pager.poisoned)
    }

    lemma MeterParts()
      requires pager.Recovered().Some? && pager.file.pages == View().pages
      ensures PutMeter().pageCount == |View().pages| + SUPERBLOCK_COUNT
      ensures PutMeter().pool == Unreached(PutMeter().pageCount, Reached(View()))
    {
    }

    lemma MeterIsReading()
      requires pager.Recovered().Some? && reusable == Unreached(Space().pageCount, Reached(View()))
      ensures PutMeter() == Reading()
    {
    }

    /** The file grows to the pages that were reachable and the new ones together, if it is not as large already. */
    lemma FileGrowsTo(v0: View, m0: Meter, pages: nat)
      requires Acceptable(v0) && PutOutcome(m0, Reading(), pages, true, true)
      requires m0.pageCount == |v0.pages| + SUPERBLOCK_COUNT && m0.pool == Unreached(m0.pageCount, Reached(v0))
      ensures |pager.file.pages| == Larger(|v0.pages|, |Reached(v0)| + pages)
    {
      ReachedIsCommitted(v0);
      HighWaterMark(m0, Reached(v0), pages);
    }

    /** A refused put spends nothing. */
    lemma NotPossible(n: nat)
      requires pager.Recovered().Some?
      ensures PutOutcome(PutMeter(), Reading(), n, false, false)
    {
    }

    /** The handle can write: the pager is live and the pool is consistent with it. */
    ghost predicate Ready(): (holds: bool)
      reads this, pager, pager.file, pager.cache
      ensures holds ==> pager.Valid() && !pager.poisoned
    {
      pager.Valid() && pager.Live() && WellFormed(Space())
    }

    lemma ReadyView()
      requires Ready()
      ensures pager.Recovered().Some? && View().pages == pager.file.pages
      ensures View().block == pager.active && WellFormed(Space())
    {
      pager.LiveView();
    }

    /** No further page can be written: a durable write failed, or the format's counters ran out. */
    predicate Stuck()
      reads pager
    {
      pager.poisoned || pager.Exhausted()
    }

    /** Still able to write, having left everything that was in use alone since the given state. */
    ghost predicate Since(v0: View, a0: Alloc): (holds: bool)
      reads this, pager, pager.file, pager.cache
      ensures holds ==> Ready()
    {
      Ready() && (ReadyView(); Progressed(v0, a0, View(), Space()))
    }

    /** Prepares and commits one page: a reusable id if there is one, the end of the file otherwise. */
    method WriteTreePage(page: Page) returns (r: Result<nat>)
      requires Ready() && Sane(page, Space().pageCount)
      modifies this`reusable, pager, pager.file, pager.cache
      ensures pager.Valid() && Intact(old(View()), old(Space()), View())
      ensures r.Ok? ==>
                && Since(old(View()), old(Space()))
                && At(View().pages, r.value, page)
                && Taken(old(Space()), Space(), r.value)
                && r.value < Space().pageCount
      ensures r.Err? ==> Stuck()
      ensures Outcome(old(Reading()), Reading(), 1, true, r.Ok?)
      ensures r.Ok? ==> r.value == if old(reusable) != [] then old(reusable)[0] else old(Space()).pageCount
    {
      hide *;
      if reusable != [] {
        r := RecyclePage(page);
      } else {
        r := AppendPage(page);
      }
    }

    method RecyclePage(page: Page) returns (r: Result<nat>)
      requires Ready() && Sane(page, Space().pageCount) && reusable != []
      modifies this`reusable, pager, pager.file, pager.cache
      ensures pager.Valid() && Intact(old(View()), old(Space()), View())
      ensures r.Ok? ==>
                && Since(old(View()), old(Space()))
                && At(View().pages, r.value, page)
                && Taken(old(Space()), Space(), r.value)
                && r.value < Space().pageCount
      ensures r.Err? ==> Stuck()
      ensures Outcome(old(Reading()), Reading(), 1, true, r.Ok?)
      ensures r.Ok? ==> r.value == old(reusable)[0]
    {
      hide Coherent, Recover, Choose, FitsPage, Progressed, Intact, Shrinks, IsFree, Taken, WellFormed, At,
        Outcome, Strikes;
      ReadyView();
      ghost var v0, a0, m0 := View(), Space(), Reading();
      var id := reusable[0];
      reusable := reusable[1..];
      PoppedId(a0, Space(), id);
      r := pager.CommitRecycledPage(id, page);
      RecycledLeavesIntact(v0, a0, View(), id);
      RecycledSpends(m0, Reading(), r.Ok?);
      if r.Ok? {
        ReadyView();
        RecycledProgress(v0, a0, View(), Space(), id, page);
      }
    }

    method AppendPage(page: Page) returns (r: Result<nat>)
      requires Ready() && Sane(page, Space().pageCount) && reusable == []
      modifies this`reusable, pager, pager.file, pager.cache
      ensures pager.Valid() && Intact(old(View()), old(Space()), View())
      ensures r.Ok? ==>
                && Since(old(View()), old(Space()))
                && At(View().pages, r.value, page)
                && Taken(old(Space()), Space(), r.value)
                && r.value < Space().pageCount
      ensures r.Err? ==> Stuck()
      ensures Outcome(old(Reading()), Reading(), 1, true, r.Ok?)
      ensures r.Ok? ==> r.value == old(Space()).pageCount
    {
      hide Coherent, Recover, Choose, FitsPage, Progressed, Intact, Shrinks, IsFree, Taken, WellFormed, At,
        Outcome, Strikes;
      ReadyView();
      ghost var v0, a0, m0 := View(), Space(), Reading();
      r := pager.CommitNewPage(pager.active.pageCount, page);
      AppendedLeavesIntact(v0, a0, View(), page);
      AppendedSpends(m0, Reading(), r.Ok?);
      if r.Ok? {
        ReadyView();
        AppendedProgress(v0, a0, View(), Space(), page);
      }
    }

    // ---------- storing keys and values ----------

    /** `commit_overflow_blob`: chunks from the end, each page linking to the one written before it. */
    method CommitOverflowBlob(bytes: seq<byte>) returns (r: Result<nat>, ghost chain: seq<nat>)
      requires Ready()
      modifies this`reusable, pager, pager.file, pager.cache
      ensures pager.Valid() && Intact(old(View()), old(Space()), View())
      ensures r.Err? ==> bytes == [] || Stuck()
      ensures Outcome(old(Reading()), Reading(), ChunkCount(|bytes|), bytes != [], r.Ok?)
      ensures r.Ok? ==>
                && Since(old(View()), old(Space()))
                && ChainHolds(View().pages, chain, bytes)
                && chain != [] && r.value == chain[0] && |chain| == ChunkCount(|bytes|)
                && Within(multiset(chain), multiset{}, old(Space()), Space())
    {
      hide Ready, Since, View, Pager.Valid, Pager.Live, Pager.Exhausted, Pager.Recovered, Progressed, Tail, Intact,
        IsFree, Taken, At, Sane, ChainHolds, Within, Stuck, Coherent, Recover, Choose,
        Reading, Outcome;
      chain := [];
      if bytes == [] {
        NothingChanged();
        Unspent(ChunkCount(|bytes|));
        return Err(InvalidInput), chain;
      }
      var next := ROOT_NONE;
      var position := |bytes|;
      NothingChanged();
      ghost var v0, a0, m0 := View(), Space(), Reading();
      NothingSpent(m0, true);
      NoChain(v0, a0, bytes);
      while position > 0
        invariant 0 <= position <= |bytes|
        invariant Since(v0, a0) && Outcome(m0, Reading(), |chain|, true, true)
        invariant Tail(View(), a0, Space(), chain, bytes, position, next)
      {
        var start := if position > OVERFLOW_CELL_CAPACITY then position - OVERFLOW_CELL_CAPACITY else 0;
        ghost var v1, a1, m1 := View(), Space(), Reading();
        ChunksAhead(v1, a0, a1, chain, bytes, position, next);
        ChunkIsSane(v1, a0, a1, chain, bytes, start, position, next);
        SinceIsReady(v0, a0);
        var written := WriteTreePage(OverflowPage(bytes[start..position], next));
        if written.Err? {
          IntactTransitive(v0, a0, v1, a1, View());
          OutcomeThen(m0, m1, Reading(), |chain|, 1, true, false);
          OutcomeFails(m0, Reading(), |chain| + 1, ChunkCount(|bytes|), true);
          return Err(written.error), chain;
        }
        SinceIsReady(v1, a1);
        ExtendTail(v1, a0, a1, View(), Space(), chain, bytes, start, position, next, written.value);
        SinceTransitive(v0, a0, v1, a1);
        OutcomeThen(m0, m1, Reading(), |chain|, 1, true, true);
        next := written.value;
        chain := [next] + chain;
        position := start;
      }
      SinceIsReady(v0, a0);
      WholeTail(View(), a0, Space(), chain, bytes, next);
      ChainCount(View().pages, chain, bytes);
      return Ok(next), chain;
    }

    /** Nothing was written by an operation that is impossible. */
    lemma Unspent(n: nat)
      ensures Outcome(Reading(), Reading(), n, false, false)
    {
    }

    lemma NothingChanged()
      requires Ready()
      ensures pager.Valid() && Since(View(), Space()) && Intact(View(), Space(), View())
      ensures !Reading().poisoned
    {
      ReadyView();
    }

    lemma SinceIsReady(v0: View, a0: Alloc)
      requires Since(v0, a0)
      ensures Ready() && pager.Valid() && pager.Recovered().Some?
      ensures Progressed(v0, a0, View(), Space()) && Shrinks(a0, Space()) && Intact(v0, a0, View())
    {
      ReadyView();
    }

    lemma SinceTransitive(v0: View, a0: Alloc, v1: View, a1: Alloc)
      requires Progressed(v0, a0, v1, a1) && Since(v1, a1)
      ensures Since(v0, a0)
    {
      ReadyView();
      ProgressedTransitive(v0, a0, v1, a1, View(), Space());
    }

    /** `store_key`: inline up to the limit, otherwise as an overflow chain. */
    method StoreKey(key: Key) returns (r: Result<StoredKey>, ghost blob: Blob)
      requires Ready()
      modifies this`reusable, pager, pager.file, pager.cache
      ensures pager.Valid() && Intact(old(View()), old(Space()), View())
      ensures r.Err? ==> |key| > MAX_TREE_KEY_BYTES || Stuck()
      ensures Outcome(old(Reading()), Reading(), KeyPages(key), |key| <= MAX_TREE_KEY_BYTES, r.Ok?)
      ensures r.Ok? ==>
                && Since(old(View()), old(Space()))
                && blob.bytes == key && Canonical(blob) && r.value == KeyOf(blob)
                && BlobHolds(View().pages, blob, MAX_TREE_KEY_BYTES)
                && Within(multiset(blob.chain), multiset{}, old(Space()), Space())
    {
      hide ChainHolds, IsFree, Progressed, Coherent, Within, Reading, Outcome, ChunkCount;
      NothingChanged();
      blob := Blob(key, []);
      InlineIsWithin(Space());
      Unspent(KeyPages(key));
      NothingSpent(Reading(), true);
      if |key| > MAX_TREE_KEY_BYTES {
        return Err(InvalidInput), blob;
      }
      if |key| <= MAX_INLINE_KEY_BYTES {
        return Ok(StoredKey(key, Inline(key))), blob;
      }
      var first, chain := CommitOverflowBlob(key);
      if first.Err? {
        return Err(first.error), blob;
      }
      blob := Blob(key, chain);
      return Ok(StoredKey(key, Overflow(|key|, first.value))), blob;
    }

    /** `store_value`: inline when one leaf cell with this key still fits a page. */
    method StoreValue(key: StoredKey, value: Value) returns (r: Result<Ref>, ghost blob: Blob)
      requires Ready() && PayloadLength(key.ref) <= MAX_INLINE_KEY_BYTES
      modifies this`reusable, pager, pager.file, pager.cache
      ensures pager.Valid() && Intact(old(View()), old(Space()), View())
      ensures r.Err? ==> |value| > MAX_TREE_VALUE_BYTES || Stuck()
      ensures Outcome(old(Reading()), Reading(), ValuePages(PayloadLength(key.ref), value),
                      |value| <= MAX_TREE_VALUE_BYTES, r.Ok?)
      ensures r.Ok? ==>
                && Since(old(View()), old(Space()))
                && blob.bytes == value && r.value == RefOf(blob)
                && |blob.chain| == ValuePages(PayloadLength(key.ref), value)
                && BlobHolds(View().pages, blob, MAX_TREE_VALUE_BYTES)
                && Within(multiset(blob.chain), multiset{}, old(Space()), Space())
                && LeafCost(LeafCell(key.ref, r.value)) <= PAGE_BODY_CAPACITY
                && (r.value.Inline? <==>
                      SLOT_LEN + LEAF_CELL_HEADER_LEN + PayloadLength(key.ref) + |value| <= PAGE_BODY_CAPACITY)
    {
      hide ChainHolds, IsFree, Progressed, Coherent, Within, Reading, Outcome, ChunkCount;
      NothingChanged();
      blob := Blob(value, []);
      InlineIsWithin(Space());
      Unspent(ValuePages(PayloadLength(key.ref), value));
      NothingSpent(Reading(), true);
      if |value| > MAX_TREE_VALUE_BYTES {
        return Err(InvalidInput), blob;
      }
      if SLOT_LEN + LEAF_CELL_HEADER_LEN + PayloadLength(key.ref) + |value| <= PAGE_BODY_CAPACITY {
        return Ok(Inline(value)), blob;
      }
      var first, chain := CommitOverflowBlob(value);
      if first.Err? {
        return Err(first.error), blob;
      }
      blob := Blob(value, chain);
      return Ok(Overflow(|value|, first.value)), blob;
    }

    // ---------- writing one level ----------

    method CommitLeafWithCells(entries: seq<LeafEntry>, cells: seq<LeafCell>, ghost model: seq<Entry>)
        returns (r: Result<ChildRef>, ghost leaf: Tree)
      requires Ready() && entries == Decoded(model) && cells == LeafCells(model) && Fit(LeafCosts(cells))
      requires EntriesStored(View(), Space(), model)
      modifies this`reusable, pager, pager.file, pager.cache
      ensures pager.Valid() && Intact(old(View()), old(Space()), View())
      ensures r.Err? ==> model == [] || Stuck()
      ensures Outcome(old(Reading()), Reading(), 1, model != [], r.Ok?)
      ensures r.Ok? ==>
                && Since(old(View()), old(Space()))
                && leaf == Leaf(leaf.id, model) && model != [] && [r.value] == Refs([leaf])
                && Stored(View(), Space(), [leaf])
                && Within(Foot(leaf), EntriesFoot(model), old(Space()), Space())
    {
      hide Ready, Since, View, Pager.Valid, Pager.Live, Pager.Exhausted, Pager.Recovered, Progressed, Intact,
        IsFree, Taken, At, Within, Stuck, Coherent, Recover, Choose, EntriesStored, Stored, Fit, Foot, EntriesFoot,
        Reading, Outcome;
      leaf := Leaf(0, model);
      if entries == [] {
        NothingChanged();
        Unspent(1);
        return Err(InvalidInput), leaf;
      }
      ghost var v0, a0 := View(), Space();
      var id := WriteTreePage(LeafPage(cells));
      if id.Err? {
        return Err(id.error), leaf;
      }
      leaf := Leaf(id.value, model);
      SinceIsReady(v0, a0);
      LeafStored(v0, a0, View(), Space(), id.value, model);
      return Ok(ChildRef(entries[0].key.bytes, id.value)), leaf;
    }

    method CommitLeaf(entries: seq<LeafEntry>, ghost model: seq<Entry>)
        returns (r: Result<ChildRef>, ghost leaf: Tree)
      requires Ready() && entries == Decoded(model)
      requires EntriesStored(View(), Space(), model)
      modifies this`reusable, pager, pager.file, pager.cache
      ensures pager.Valid() && Intact(old(View()), old(Space()), View())
      ensures r.Err? ==> model == [] || !Fit(LeafCosts(LeafCells(model))) || Stuck()
      ensures Outcome(old(Reading()), Reading(), 1, model != [] && Fit(LeafCosts(LeafCells(model))), r.Ok?)
      ensures r.Ok? ==>
                && Since(old(View()), old(Space()))
                && leaf == Leaf(leaf.id, model) && model != [] && [r.value] == Refs([leaf])
                && Fit(LeafCosts(LeafCells(model)))
                && Stored(View(), Space(), [leaf])
                && Within(Foot(leaf), EntriesFoot(model), old(Space()), Space())
    {
      hide *;
      var cells := CellsOf(entries);
      DecodedCells(model);
      if !Fit(LeafCosts(cells)) {
        leaf := Leaf(0, model);
        NothingChanged();
        Unspent(1);
        return Err(InvalidInput), leaf;
      }
      r, leaf := CommitLeafWithCells(entries, cells, model);
    }

    /** `commit_leaf_level`: one page when the cells fit, otherwise two divided by `choose_split`. */
    method CommitLeafLevel(entries: seq<LeafEntry>, ghost model: seq<Entry>)
        returns (r: Result<seq<ChildRef>>, ghost reps: seq<Tree>)
      requires Ready() && entries == Decoded(model)
      requires EntriesStored(View(), Space(), model)
      modifies this`reusable, pager, pager.file, pager.cache
      ensures pager.Valid() && Intact(old(View()), old(Space()), View())
      ensures r.Err? ==>
                model == [] || Stuck() || !Divisible(LeafCosts(LeafCells(model)))
      ensures Outcome(old(Reading()), Reading(), LevelPages(LeafCosts(LeafCells(model))),
                      model != [] && Divisible(LeafCosts(LeafCells(model))), r.Ok?)
      ensures r.Ok? ==>
                && model != [] && Divisible(LeafCosts(LeafCells(model)))
                && Since(old(View()), old(Space()))
                && LeafLevel(model, reps) && r.value == Refs(reps)
                && Stored(View(), Space(), reps)
                && Within(FootAll(reps), EntriesFoot(model), old(Space()), Space())
    {
      hide Ready, Since, View, Pager.Valid, Pager.Live, Pager.Exhausted, Pager.Recovered, Progressed, Intact, Space,
        IsFree, Taken, At, Within, Stuck, Coherent, Recover, Choose, EntriesStored, Stored, Fit, Foot, FootAll,
        EntriesFoot, LeafCost, Feasible, Imbalance, First, Straddles,
        Reading, Outcome;
      reps := [];
      NothingChanged();
      ghost var m0 := Reading();
      Unspent(LevelPages(LeafCosts(LeafCells(model))));
      if entries == [] {
        return Err(Corruption), reps;
      }
      var cells := CellsOf(entries);
      DecodedCells(model);
      if Fit(LeafCosts(cells)) {
        var only, leaf := CommitLeafWithCells(entries, cells, model);
        if only.Err? {
          return Err(only.error), reps;
        }
        FootOne(leaf);
        return Ok([only.value]), [leaf];
      }
      DividesExactly(LeafCosts(cells));
      var split := ChooseSplit(LeafCosts(cells));
      if split.None? {
        return Err(InvalidInput), reps;
      }
      FeasibleHalves(LeafCosts(cells), split.value);
      r, reps := DivideLeaf(entries, model, split.value);
    }

    /** Both halves of an overfull leaf, divided before entry `k`. */
    method DivideLeaf(entries: seq<LeafEntry>, ghost model: seq<Entry>, k: nat)
        returns (r: Result<seq<ChildRef>>, ghost reps: seq<Tree>)
      requires Ready() && entries == Decoded(model) && ChosenSplit(LeafCosts(LeafCells(model)), k)
      requires EntriesStored(View(), Space(), model)
      modifies this`reusable, pager, pager.file, pager.cache
      ensures pager.Valid() && Intact(old(View()), old(Space()), View())
      ensures r.Err? ==> Stuck()
      ensures Outcome(old(Reading()), Reading(), 2, true, r.Ok?)
      ensures r.Ok? ==>
                && Since(old(View()), old(Space()))
                && LeafLevel(model, reps) && r.value == Refs(reps)
                && Stored(View(), Space(), reps)
                && Within(FootAll(reps), EntriesFoot(model), old(Space()), Space())
    {
      hide Ready, Since, View, Pager.Valid, Pager.Live, Pager.Exhausted, Pager.Recovered, Progressed, Intact, Space,
        IsFree, Taken, At, Within, Stuck, Coherent, Recover, Choose, EntriesStored, Stored, Fit, Foot, FootAll,
        EntriesFoot, LeafCost, Feasible, Imbalance, First, Straddles, Reading, Outcome;
      reps := [];
      ghost var v0, a0, m0 := View(), Space(), Reading();
      FeasibleHalves(LeafCosts(LeafCells(model)), k);
      DecodedCells(model);
      SplitModel(v0, a0, model, k);
      PrefixCosts(entries, k);
      DecodedCells(model[..k]);
      DecodedCells(model[k..]);
      var left, leftLeaf := CommitLeaf(entries[..k], model[..k]);
      if left.Err? {
        OutcomeFails(m0, Reading(), 1, 2, true);
        return Err(left.error), reps;
      }
      ghost var v1, a1, m1 := View(), Space(), Reading();
      SinceIsReady(v0, a0);
      EntriesSurvive(v0, a0, v1, a1, model[k..]);
      var right, rightLeaf := CommitLeaf(entries[k..], model[k..]);
      OutcomeThen(m0, m1, Reading(), 1, 1, true, right.Ok?);
      IntactTransitive(v0, a0, v1, a1, View());
      if right.Err? {
        return Err(right.error), reps;
      }
      SinceIsReady(v1, a1);
      LevelStored(v1, a1, View(), Space(), leftLeaf, rightLeaf);
      WithinCompose(Foot(leftLeaf), EntriesFoot(model[..k]), Foot(rightLeaf), EntriesFoot(model[k..]), a0, a1, Space());
      SinceTransitive(v0, a0, v1, a1);
      reps := [leftLeaf, rightLeaf];
      JoinRefs(leftLeaf, rightLeaf, left.value, right.value);
      FlattenTwo(leftLeaf, rightLeaf);
      assert model == model[..k] + model[k..];
      return Ok([left.value, right.value]), reps;
    }

    /** `commit_internal_with_cells`: stores every separator, then writes the page that refers to them. */
    method CommitInternalWithCells(children: seq<ChildRef>, ghost kids: seq<Tree>)
        returns (r: Result<ChildRef>, ghost node: Tree)
      requires Ready() && children == Refs(kids) && kids != [] && ValidChildRefs(children)
      requires Fit(ChildCosts(children)) && Stored(View(), Space(), kids)
      modifies this`reusable, pager, pager.file, pager.cache
      ensures pager.Valid() && Intact(old(View()), old(Space()), View())
      ensures r.Err? ==> Stuck()
      ensures Outcome(old(Reading()), Reading(), KeysPages(MinKeys(children)) + 1, true, r.Ok?)
      ensures r.Ok? ==>
                && Since(old(View()), old(Space()))
                && FreshNode(node, kids) && [r.value] == Refs([node])
                && Stored(View(), Space(), [node])
                && Within(Foot(node), FootAll(kids), old(Space()), Space())
    {
      hide Ready, Since, View, Space, Pager.Valid, Pager.Live, Pager.Exhausted, Pager.Recovered, Progressed, Intact,
        IsFree, Taken, At, Within, Stuck, Coherent, Recover, Choose, Stored, Fit, Foot, FootAll, First, Separators,
        FreshNode, BlobHolds, Canonical, RefOf, Reading, Outcome, KeyPages, KeysPages;
      ghost var v0, a0, m0 := View(), Space(), Reading();
      ghost var keys := MinKeys(children);
      NoKeys(keys);
      ghost var blobs: seq<Blob> := [];
      node := Node(0, blobs, kids);
      var cells: seq<InternalCell> := [];
      var i := 0;
      NothingChanged();
      NothingSpent(m0, true);
      NoSeparators(v0, a0, kids);
      while i < |children|
        invariant 0 <= i <= |children| && |cells| == i && |blobs| == i
        invariant Outcome(m0, Reading(), KeysPages(keys[..i]), true, true)
        invariant Since(v0, a0) && Separators(v0, a0, View(), Space(), kids, blobs)
        invariant forall j :: 0 <= j < i ==> cells[j] == InternalCell(RefOf(blobs[j]), children[j].pageId)
      {
        ghost var v1, a1, m1 := View(), Space(), Reading();
        NextKeyPages(keys, i);
        SinceIsReady(v0, a0);
        assert |children[i].minKey| <= MAX_TREE_KEY_BYTES;
        var key, blob := StoreKey(children[i].minKey);
        IntactTransitive(v0, a0, v1, a1, View());
        OutcomeThen(m0, m1, Reading(), KeysPages(keys[..i]), KeyPages(keys[i]), true, key.Ok?);
        if key.Err? {
          OutcomeFails(m0, Reading(), KeysPages(keys[..i + 1]), KeysPages(keys) + 1, true);
          return Err(key.error), node;
        }
        SinceIsReady(v1, a1);
        NextSeparator(v0, a0, v1, a1, View(), Space(), kids, blobs, blob);
        SinceTransitive(v0, a0, v1, a1);
        cells := cells + [InternalCell(key.value.ref, children[i].pageId)];
        blobs := blobs + [blob];
        i := i + 1;
      }
      ghost var v1, a1, m1 := View(), Space(), Reading();
      assert keys[..i] == keys;
      SinceIsReady(v0, a0);
      SeparatorsFit(v0, a0, v1, a1, kids, blobs, cells, children);
      if |cells| != |children| || InternalCosts(cells) != ChildCosts(children) || !Fit(InternalCosts(cells)) {
        assert false;
        return Err(Corruption), node;
      }
      var id := WriteTreePage(InternalPage(cells));
      IntactTransitive(v0, a0, v1, a1, View());
      OutcomeThen(m0, m1, Reading(), KeysPages(keys), 1, true, id.Ok?);
      if id.Err? {
        return Err(id.error), node;
      }
      SinceIsReady(v1, a1);
      NodeStored(v0, a0, v1, a1, View(), Space(), kids, blobs, id.value);
      SinceTransitive(v0, a0, v1, a1);
      node := Node(id.value, blobs, kids);
      return Ok(ChildRef(children[0].minKey, id.value)), node;
    }

    /** `commit_internal`: the given children below one page, which must fit. */
    method CommitInternal(children: seq<ChildRef>, ghost kids: seq<Tree>)
        returns (r: Result<ChildRef>, ghost node: Tree)
      requires Ready() && children == Refs(kids) && Stored(View(), Space(), kids)
      modifies this`reusable, pager, pager.file, pager.cache
      ensures pager.Valid() && Intact(old(View()), old(Space()), View())
      ensures r.Err? ==> !ValidChildRefs(children) || !Fit(ChildCosts(children)) || Stuck()
      ensures Outcome(old(Reading()), Reading(), KeysPages(MinKeys(children)) + 1,
                      ValidChildRefs(children) && Fit(ChildCosts(children)), r.Ok?)
      ensures r.Ok? ==>
                && Since(old(View()), old(Space()))
                && Fit(ChildCosts(children))
                && FreshNode(node, kids) && [r.value] == Refs([node])
                && Stored(View(), Space(), [node])
                && Within(Foot(node), FootAll(kids), old(Space()), Space())
    {
      hide Ready, Since, View, Space, Pager.Valid, Pager.Live, Pager.Exhausted, Pager.Recovered, Progressed, Intact,
        IsFree, Taken, At, Within, Stuck, Coherent, Recover, Choose, Stored, Fit, Foot, FootAll, First, FreshNode,
        Reading, Outcome, KeysPages;
      node := Node(0, [], kids);
      if !ValidChildRefs(children) || !Fit(ChildCosts(children)) {
        NothingChanged();
        Unspent(KeysPages(MinKeys(children)) + 1);
        return Err(InvalidInput), node;
      }
      NoChildren(children);
      r, node := CommitInternalWithCells(children, kids);
    }

    /** `commit_internal_level`: one page when the separators fit, otherwise two divided by `choose_split`. */
    method CommitInternalLevel(children: seq<ChildRef>, ghost kids: seq<Tree>)
        returns (r: Result<seq<ChildRef>>, ghost reps: seq<Tree>)
      requires Ready() && children == Refs(kids) && Stored(View(), Space(), kids)
      modifies this`reusable, pager, pager.file, pager.cache
      ensures pager.Valid() && Intact(old(View()), old(Space()), View())
      ensures r.Err? ==>
                !ValidChildRefs(children) || Stuck() || !Divisible(ChildCosts(children))
      ensures Outcome(old(Reading()), Reading(), KeysPages(MinKeys(children)) + LevelPages(ChildCosts(children)),
                      ValidChildRefs(children) && Divisible(ChildCosts(children)), r.Ok?)
      ensures r.Ok? ==>
                && ValidChildRefs(children) && Divisible(ChildCosts(children))
                && Since(old(View()), old(Space()))
                && InternalLevel(kids, reps) && r.value == Refs(reps)
                && (|reps| == 2 ==> (|reps[0].kids| >= 2 && |reps[1].kids| >= 2 <==> KeepsTwo(ChildCosts(children))))
                && Stored(View(), Space(), reps)
                && Within(FootAll(reps), FootAll(kids), old(Space()), Space())
    {
      hide Ready, Since, View, Space, Pager.Valid, Pager.Live, Pager.Exhausted, Pager.Recovered, Progressed, Intact,
        IsFree, Taken, At, Within, Stuck, Coherent, Recover, Choose, Stored, Fit, Foot, FootAll, First, FreshNode,
        Feasible, Imbalance, Straddles, KeepsTwo, ValidChildRefs, Reading, Outcome, KeysPages;
      reps := [];
      NothingChanged();
      ghost var m0, keys := Reading(), MinKeys(children);
      Unspent(KeysPages(keys) + LevelPages(ChildCosts(children)));
      if !ValidChildRefs(children) {
        return Err(InvalidInput), reps;
      }
      if Fit(ChildCosts(children)) {
        NoChildren(children);
        var only, node := CommitInternalWithCells(children, kids);
        if only.Err? {
          return Err(only.error), reps;
        }
        FootOne(node);
        return Ok([only.value]), [node];
      }
      DividesExactly(ChildCosts(children));
      var split := ChooseSplit(ChildCosts(children));
      if split.None? {
        return Err(InvalidInput), reps;
      }
      FeasibleHalves(ChildCosts(children), split.value);
      r, reps := DivideInternal(children, kids, split.value);
      if r.Ok? { DividedLevelKeepsTwo(kids, reps); }
    }

    /** Both halves of an overfull internal level, divided before child `k`. */
    method DivideInternal(children: seq<ChildRef>, ghost kids: seq<Tree>, k: nat)
        returns (r: Result<seq<ChildRef>>, ghost reps: seq<Tree>)
      requires Ready() && children == Refs(kids) && Stored(View(), Space(), kids)
      requires ValidChildRefs(children) && ChosenSplit(ChildCosts(children), k)
      modifies this`reusable, pager, pager.file, pager.cache
      ensures pager.Valid() && Intact(old(View()), old(Space()), View())
      ensures r.Err? ==> Stuck()
      ensures Outcome(old(Reading()), Reading(), KeysPages(MinKeys(children)) + 2, true, r.Ok?)
      ensures r.Ok? ==>
                && Since(old(View()), old(Space()))
                && |reps| == 2 && InternalLevel(kids, reps) && r.value == Refs(reps)
                && Stored(View(), Space(), reps)
                && Within(FootAll(reps), FootAll(kids), old(Space()), Space())
    {
      hide Ready, Since, View, Space, Pager.Valid, Pager.Live, Pager.Exhausted, Pager.Recovered, Progressed, Intact,
        IsFree, Taken, At, Within, Stuck, Coherent, Recover, Choose, Stored, Fit, Foot, FootAll, First, FreshNode,
        Feasible, Imbalance, Straddles, KeepsTwo, ValidChildRefs, Reading, Outcome, KeysPages;
      reps := [];
      ghost var v0, a0, m0, keys := View(), Space(), Reading(), MinKeys(children);
      FeasibleHalves(ChildCosts(children), k);
      SplitKids(v0, a0, kids, k);
      PrefixChildCosts(children, k);
      HalvesAreValid(children, k);
      HalvesPages(children, k);
      var left, leftNode := CommitInternal(children[..k], kids[..k]);
      if left.Err? {
        OutcomeFails(m0, Reading(), KeysPages(keys[..k]) + 1, KeysPages(keys) + 2, true);
        return Err(left.error), reps;
      }
      ghost var v1, a1, m1 := View(), Space(), Reading();
      SinceIsReady(v0, a0);
      StoredSurvives(v0, a0, v1, a1, kids[k..]);
      var right, rightNode := CommitInternal(children[k..], kids[k..]);
      IntactTransitive(v0, a0, v1, a1, View());
      OutcomeThen(m0, m1, Reading(), KeysPages(keys[..k]) + 1, KeysPages(keys[k..]) + 1, true, right.Ok?);
      if right.Err? {
        return Err(right.error), reps;
      }
      SinceIsReady(v1, a1);
      LevelStored(v1, a1, View(), Space(), leftNode, rightNode);
      WithinCompose(Foot(leftNode), FootAll(kids[..k]), Foot(rightNode), FootAll(kids[k..]), a0, a1, Space());
      SinceTransitive(v0, a0, v1, a1);
      reps := [leftNode, rightNode];
      JoinRefs(leftNode, rightNode, left.value, right.value);
      FlattenTwo(leftNode, rightNode);
      assert InternalLevel(kids, reps) by {
        assert ChosenSplit(ChildCosts(Refs(kids)), k);
        assert FreshNode(reps[0], kids[..k]) && FreshNode(reps[1], kids[k..]);
      }
      return Ok([left.value, right.value]), reps;
    }

    // ---------- insertion ----------

    /** `rewrite_insert`: rewrites the path to the key into fresh pages; one or two subtrees of the same height. */
    method RewriteInsert(id: nat, key: StoredKey, value: Ref, depth: nat, ghost t: Tree, ghost entry: Entry)
        returns (r: Result<seq<ChildRef>>, ghost reps: seq<Tree>)
      requires Ready() && Stored(View(), Space(), [t]) && EntriesStored(View(), Space(), [entry])
      requires SearchTree(t) && t.id == id && depth + Height(t) <= MAX_TREE_HEIGHT
      requires key == KeyOf(entry.key) && value == RefOf(entry.value)
      modifies this`reusable, pager, pager.file, pager.cache
      ensures pager.Valid() && Intact(old(View()), old(Space()), View())
      ensures r.Ok? ==>
                && Since(old(View()), old(Space()))
                && Rewritten(t, entry, reps) && r.value == Refs(reps)
                && Stored(View(), Space(), reps)
                && Within(FootAll(reps), BelowRoot(t) + EntriesFoot([entry]), old(Space()), Space())
      ensures r.Err? ==> Stuck() || ForecastInsert(t, entry.key.bytes, EntryCost(entry)).Blocked?
      ensures Outcome(old(Reading()), Reading(), InsertPages(t, entry.key.bytes, EntryCost(entry)),
                      ForecastInsert(t, entry.key.bytes, EntryCost(entry)).Rewrites?, r.Ok?)
      decreases t
    {
      hide *;
      reps := [];
      NothingChanged();
      HeightIsPositive(t);
      DepthIsWithin(t, depth);
      if depth >= MAX_TREE_HEIGHT {
        return Err(Corruption), reps;
      }
      ReadyView();
      ghost var pages := pager.file.pages;
      HoldsOne(View(), Space(), t);
      if t.Leaf? { LeafDecodesBack(pages, t); } else { NodeDecodesBack(pages, t); }
      var page := pager.ReadPage(id);
      if page.Err? {
        return Err(ErrorOf(page)), reps;
      }
      SamePage(pages, id, page.value);
      if page.value.LeafPage? {
        StillReady();
        r, reps := InsertIntoLeaf(page.value.leafCells, key, value, t, entry);
      } else if page.value.InternalPage? {
        StillReady();
        r, reps := InsertBelow(page.value.internalCells, key, value, depth, t, entry);
      } else {
        return Err(Corruption), reps;
      }
    }

    method InsertIntoLeaf(cells: seq<LeafCell>, key: StoredKey, value: Ref, ghost t: Tree, ghost entry: Entry)
        returns (r: Result<seq<ChildRef>>, ghost reps: seq<Tree>)
      requires Ready() && Stored(View(), Space(), [t]) && EntriesStored(View(), Space(), [entry])
      requires SearchTree(t) && t.Leaf? && cells == LeafCells(t.entries)
      requires key == KeyOf(entry.key) && value == RefOf(entry.value)
      modifies this`reusable, pager, pager.file, pager.cache
      ensures pager.Valid() && Intact(old(View()), old(Space()), View())
      ensures r.Ok? ==>
                && Since(old(View()), old(Space()))
                && Rewritten(t, entry, reps) && r.value == Refs(reps)
                && Stored(View(), Space(), reps)
                && Within(FootAll(reps), BelowRoot(t) + EntriesFoot([entry]), old(Space()), Space())
      ensures r.Err? ==> Stuck() || ForecastInsert(t, entry.key.bytes, EntryCost(entry)).Blocked?
      ensures Outcome(old(Reading()), Reading(), InsertPages(t, entry.key.bytes, EntryCost(entry)),
                      ForecastInsert(t, entry.key.bytes, EntryCost(entry)).Rewrites?, r.Ok?)
    {
      hide *;
      reps := [];
      NothingChanged();
      ReadyView();
      ghost var pages, v0, a0 := pager.file.pages, View(), Space();
      HoldsOne(v0, a0, t);
      LeafDecodesBack(pages, t);
      var entries, _ := DecodeLeaf(pager, cells, None);
      if entries.Err? {
        return Err(ErrorOf(entries)), reps;
      }
      StillReady();
      DecodedCells(t.entries);
      var at := Position(entries.value, key.bytes);
      PositionInLeaf(t, entries.value, key.bytes);
      var added := LeafEntry(key, value);
      var updated := if at < |entries.value| && entries.value[at].key.bytes == key.bytes
                     then entries.value[at := added]
                     else entries.value[..at] + [added] + entries.value[at..];
      ghost var model := InsertEntry(t.entries, at, entry);
      UpdatedLeaf(t.entries, at, entry, entries.value);
      InsertStored(v0, a0, t, at, entry);
      r, reps := CommitLeafLevel(updated, model);
      LeafPagesForeseen(t, entry);
      LeafBlocked(t, entry);
      if r.Ok? {
        LeafRewritten(t, entry, reps);
        WithinMore(FootAll(reps), EntriesFoot(model), BelowRoot(t) + EntriesFoot([entry]), a0, Space());
      }
    }

    method InsertBelow(cells: seq<InternalCell>, key: StoredKey, value: Ref, depth: nat, ghost t: Tree,
                       ghost entry: Entry) returns (r: Result<seq<ChildRef>>, ghost reps: seq<Tree>)
      requires Ready() && Stored(View(), Space(), [t]) && EntriesStored(View(), Space(), [entry])
      requires SearchTree(t) && t.Node? && |t.separators| == |t.kids|
      requires cells == InternalCells(t.separators, t.kids) && depth + Height(t) <= MAX_TREE_HEIGHT
      requires key == KeyOf(entry.key) && value == RefOf(entry.value)
      modifies this`reusable, pager, pager.file, pager.cache
      ensures pager.Valid() && Intact(old(View()), old(Space()), View())
      ensures r.Ok? ==>
                && Since(old(View()), old(Space()))
                && Rewritten(t, entry, reps) && r.value == Refs(reps)
                && Stored(View(), Space(), reps)
                && Within(FootAll(reps), BelowRoot(t) + EntriesFoot([entry]), old(Space()), Space())
      ensures r.Err? ==> Stuck() || ForecastInsert(t, entry.key.bytes, EntryCost(entry)).Blocked?
      ensures Outcome(old(Reading()), Reading(), InsertPages(t, entry.key.bytes, EntryCost(entry)),
                      ForecastInsert(t, entry.key.bytes, EntryCost(entry)).Rewrites?, r.Ok?)
      decreases t, 0
    {
      hide *;
      reps := [];
      NothingChanged();
      ReadyView();
      ghost var pages, v0, a0, m0 := pager.file.pages, View(), Space(), Reading();
      ghost var total := InsertPages(t, entry.key.bytes, EntryCost(entry));
      HoldsOne(v0, a0, t);
      NodeDecodesBack(pages, t);
      var decoded, _ := DecodeInternal(pager, cells, None);
      if decoded.Err? {
        return Err(ErrorOf(decoded)), reps;
      }
      StillReady();
      var children := decoded.value;
      DecodedRefs(t, cells);
      var routed := RouteChild(children, key.bytes);
      if routed.Err? {
        return Err(ErrorOf(routed)), reps;
      }
      var at := routed.value;
      DescendToChild(t, children, key.bytes);
      RoutedAt(t, children, key.bytes);
      KidStored(v0, a0, t, at);
      var rewritten, kids := RewriteInsert(children[at].pageId, key, value, depth + 1, t.kids[at], entry);
      if rewritten.Err? {
        BlockedBelow(t, at, entry, m0, Reading());
        return Err(ErrorOf(rewritten)), reps;
      }
      ghost var v1, a1, m1 := View(), Space(), Reading();
      SinceIsReady(v0, a0);
      ghost var spliced := Splice(t.kids, at, kids);
      SpliceStored(v0, a0, v1, a1, t, at, kids, entry);
      SpliceRefs(t.kids, at, kids);
      var replaced := children[..at] + rewritten.value + children[at + 1..];
      r, reps := CommitInternalLevel(replaced, spliced);
      IntactTransitive(v0, a0, v1, a1, View());
      SplicedRefsAreValid(v0.pages, v1, a1, t, at, kids, entry);
      NodeBlocked(t, entry, at, kids);
      NodePagesForeseen(t, entry, at, kids);
      RewrittenIsForeseen(t.kids[at], entry, kids);
      OutcomeThen(m0, m1, Reading(), InsertPages(t.kids[at], entry.key.bytes, EntryCost(entry)),
                  KeysPages(MinKeys(replaced)) + LevelPages(ChildCosts(replaced)),
                  ForecastInsert(t, entry.key.bytes, EntryCost(entry)).Rewrites?, r.Ok?);
      if r.Ok? {
        SinceIsReady(v1, a1);
        SinceTransitive(v0, a0, v1, a1);
        WithinTransitive(FootAll(reps), FootAll(spliced), BelowRoot(t) + EntriesFoot([entry]), a0, a1, Space());
        NodeHasFit(v0.pages, t);
        NodeRewritten(t, entry, at, kids, reps);
      }
    }

    /** Reads leave the handle able to write. */
    lemma StillReady()
      requires pager.Valid() && !pager.poisoned && WellFormed(Space())
      ensures Ready()
    {
    }

    // ---------- the public operations ----------

    /** Every state between calls, poisoned or not: the file on disk denotes a map. */
    ghost predicate Published(): (holds: bool)
      reads pager, pager.file, pager.cache
      ensures holds <==> pager.Valid() && Denoted(View()).Some?
    {
      pager.Valid() && Denoted(View()).Some?
    }

    /** `create_new`: an empty map. */
    constructor CreateNew(file: PageFile, capacity: nat)
      requires capacity > 0 && file.pages == [] && file.tail == 0
      modifies file
      ensures fresh(pager) && fresh(pager.cache) && pager.file == file && pager.fault == None
      ensures !pager.poisoned && pager.active == INITIAL && pager.events == 0 && file.pages == []
      ensures Published() && Ready() && View().block.root == ROOT_NONE && Denoted(View()) == Some(map[])
    {
      pager := new Pager.CreateNew(file, capacity);
      reusable := [];
    }

    /** `open` accepts exactly the recoverable files whose root leads to an acceptable tree. */
    static method Open(file: PageFile, capacity: nat) returns (r: Result<BPlusTree>)
      modifies file
      ensures r.Ok? <==>
                && capacity > 0
                && var view := Recover(old(file.slots), old(file.pages), old(file.tail));
                   && view.Some? && view.value.block.pageCount * PAGE_SIZE < U64_LIMIT
                   && Acceptable(view.value)
      ensures r.Ok? ==>
                && fresh(r.value) && fresh(r.value.pager) && fresh(r.value.pager.cache)
                && r.value.pager.file == file && r.value.pager.fault == None
                && r.value.Published() && r.value.Ready()
                && Some(r.value.View()) == Recover(old(file.slots), old(file.pages), old(file.tail))
      ensures Recover(file.slots, file.pages, file.tail) == Recover(old(file.slots), old(file.pages), old(file.tail))
    {
      hide Recover, Acceptable, Denoted, Accepted, Coherent, Choose, Parse, WellFormed;
      var base := Pager.Open(file, capacity);
      if base.Err? {
        return Err(base.error);
      }
      var tree := new BPlusTree.OverPager(base.value);
      tree.LiveView();
      AcceptableRoot(tree.View());
      var checked := tree.ValidateReachableTree();
      if checked.Err? {
        return Err(checked.error);
      }
      AcceptableIsDenoted(tree.View());
      var refreshed := tree.RefreshReusablePages();
      if refreshed.Err? {
        return Err(ErrorOf(refreshed));
      }
      return Ok(tree);
    }

    lemma LiveView()
      requires pager.Valid() && !pager.poisoned
      ensures pager.active.pageCount == |pager.file.pages| + SUPERBLOCK_COUNT
      ensures Space() == Alloc(reusable, |pager.file.pages| + SUPERBLOCK_COUNT)
      ensures (|pager.file.pages| + 2) * PAGE_SIZE < U64_LIMIT
      ensures View().pages == pager.file.pages && View().block == pager.active
    {
      pager.LiveView();
    }

    method ValidateReachableTree() returns (r: Result<()>)
      requires pager.Valid()
      modifies pager.cache
      ensures pager.Valid()
      ensures r.Ok? <==>
                pager.active.root == ROOT_NONE
                || (!pager.poisoned && Accepted(Parse(pager.file.pages, pager.active.root, MAX_TREE_HEIGHT), {}))
    {
      hide Accepted, Parse, Coherent, Choose, Recover;
      if pager.active.root == ROOT_NONE {
        return Ok(());
      }
      var bounds, _ := ValidateSubtree(pager, pager.active.root, 0, {});
      if bounds.Err? {
        return Err(bounds.error);
      }
      return Ok(());
    }

    /** `refresh_reusable_pages`: committed minus reachable, in page order. */
    method RefreshReusablePages() returns (r: Result<()>)
      requires pager.Valid() && !pager.poisoned
      modifies this`reusable, pager.cache
      ensures pager.Valid()
      ensures r.Ok? <==>
                pager.active.root == ROOT_NONE
                || Accepted(Parse(pager.file.pages, pager.active.root, MAX_TREE_HEIGHT), {})
      ensures r.Ok? ==>
                && Ready()
                && Pool(reusable, Space().pageCount, Reached(View()))
                && reusable == Unreached(Space().pageCount, Reached(View()))
    {
      hide Accepted, Parse, Coherent, Choose, Recover, Grown, Foot, Pool, WellFormed, Pager.Live, BoundsOf;
      ghost var pages := pager.file.pages;
      LiveView();
      var reachable: set<nat> := {};
      if pager.active.root != ROOT_NONE {
        var bounds, seen := ValidateSubtree(pager, pager.active.root, 0, {});
        if bounds.Err? {
          return Err(bounds.error);
        }
        ReachedFoot(View(), bounds.value, seen);
        reachable := seen;
      }
      var end := pager.active.pageCount;
      reusable := [];
      var id := SUPERBLOCK_COUNT;
      EmptyPool(reachable);
      while id < end
        invariant SUPERBLOCK_COUNT <= id <= end
        invariant Pool(reusable, id, reachable) && reusable == Unreached(id, reachable)
        invariant pager.Valid() && !pager.poisoned && pager.file.pages == pages
      {
        NextInPool(reusable, id, reachable);
        if id !in reachable {
          reusable := reusable + [id];
        }
        id := id + 1;
      }
      PoolIsWellFormed(reusable, end, reachable);
      StillReady();
      return Ok(());
    }

    /**
     * `get`: the map's answer, or an error for an oversized key or a poisoned handle. A poisoned handle whose
     * tree was empty does not reach a page and still answers that nothing is there.
     */
    method Get(key: Key) returns (r: Result<Option<Value>>)
      requires Published()
      modifies pager.cache
      ensures Published() && View() == old(View())
      ensures r.Ok? <==> |key| <= MAX_TREE_KEY_BYTES && (!pager.poisoned || pager.active.root == ROOT_NONE)
      ensures r.Ok? ==> r.value == if pager.poisoned then None else Answer(Denoted(View()).value, key)
    {
      hide Denoted, RootTree, SearchTree, Coherent, Choose, Recover, Holds, Find, Answer, Parse;
      if |key| > MAX_TREE_KEY_BYTES {
        return Err(InvalidInput);
      }
      if !pager.poisoned { LiveView(); }
      DenotedTree(View());
      if pager.active.root == ROOT_NONE {
        return Ok(None);
      }
      if pager.poisoned { // the first page access fails
        return Err(Error.Poisoned);
      }
      r := Lookup(pager, pager.active.root, key, RootTree(View()).value);
      DenotedAnswer(View(), key);
    }

    /** The replacements of the root level become one new root, under a new internal page if there are two. */
    method JoinRoot(replacements: seq<ChildRef>, ghost reps: seq<Tree>, ghost height: nat)
        returns (r: Result<nat>, ghost t: Tree)
      requires Ready() && replacements == Refs(reps) && 1 <= |reps| <= 2 && height >= 1
      requires Stored(View(), Space(), reps) && AllShaped(reps, height) && Sorted(FlattenAll(reps))
      modifies this`reusable, pager, pager.file, pager.cache
      ensures pager.Valid() && Intact(old(View()), old(Space()), View())
      ensures r.Ok? ==>
                && Since(old(View()), old(Space()))
                && t.id == r.value && Stored(View(), Space(), [t])
                && Within(Foot(t), FootAll(reps), old(Space()), Space())
                && Joined(t, reps, height)
                && (|reps| == 2 ==> Fit(ChildCosts(Refs(reps))))
      ensures Outcome(old(Reading()), Reading(), JoinPages(Firsts(reps)),
                      |reps| == 1 || Fit(ChildCosts(Refs(reps))), r.Ok?)
      ensures r.Err? ==> Stuck() || (|reps| == 2 && !Fit(ChildCosts(Refs(reps))))
    {
      hide *;
      t := reps[0];
      NothingChanged();
      if |replacements| == 1 {
        assert reps == [t];
        JoinedOne(t, height);
        FootOne(t);
        WithinRetained(Foot(t), Space(), Space());
        NothingSpent(Reading(), true);
        NoJoin(reps);
        return Ok(replacements[0].pageId), t;
      }
      StoredRefsAreValid(View(), Space(), reps, height);
      JoinOfTwo(reps);
      var root, node := CommitInternal(replacements, reps);
      if root.Err? {
        return Err(root.error), t;
      }
      t := node;
      JoinedTwo(node, reps, height);
      assert root.value == [root.value][0] == Refs([node])[0];
      return Ok(root.value.pageId), t;
    }

    /** Everything a put writes before it publishes: the new tree, beside the untouched old one. */
    method BuildTree(key: Key, value: Value, ghost t: Option<Tree>) returns (r: Result<nat>, ghost t': Tree)
      requires Ready() && |key| <= MAX_TREE_KEY_BYTES && |value| <= MAX_TREE_VALUE_BYTES
      requires t.None? <==> pager.active.root == ROOT_NONE
      requires t.Some? ==>
                 && t.value.id == pager.active.root && SearchTree(t.value) && Height(t.value) <= MAX_TREE_HEIGHT
                 && Stored(View(), Space(), [t.value])
      modifies this`reusable, pager, pager.file, pager.cache
      ensures pager.Valid() && Intact(old(View()), old(Space()), View())
      ensures r.Ok? ==>
                && Since(old(View()), old(Space()))
                && t'.id == r.value && Stored(View(), Space(), [t'])
                && Grew(t, Pair(key, value), t') && (t.Some? ==> t'.id != old(pager.active.root))
      ensures r.Err? ==> Stuck() || ForecastPut(t, key, value).Blocked?
      ensures Outcome(old(Reading()), Reading(), PutPages(t, key, value), ForecastPut(t, key, value).Rewrites?, r.Ok?)
    {
      hide *;
      t' := Leaf(0, []);
      NothingChanged();
      ReadyView();
      var root := pager.active.root;
      ghost var v0, a0, m0 := View(), Space(), Reading();
      ghost var possible, total := ForecastPut(t, key, value).Rewrites?, PutPages(t, key, value);
      PutPagesParts(t, key, value);
      var storedKey, keyBlob := StoreKey(key);
      if storedKey.Err? {
        OutcomeFails(m0, Reading(), KeyPages(key), total, possible);
        return Err(storedKey.error), t';
      }
      SinceIsReady(v0, a0);
      ghost var v1, a1, m1 := View(), Space(), Reading();
      KeyPayload(keyBlob);
      var storedValue, valueBlob := StoreValue(storedKey.value, value);
      IntactTransitive(v0, a0, v1, a1, View());
      ghost var valuePages := ValuePages(PayloadLength(storedKey.value.ref), value);
      OutcomeThen(m0, m1, Reading(), KeyPages(key), valuePages, true, storedValue.Ok?);
      if storedValue.Err? {
        OutcomeFails(m0, Reading(), KeyPages(key) + valuePages, total, possible);
        return Err(storedValue.error), t';
      }
      SinceIsReady(v1, a1);
      SinceTransitive(v0, a0, v1, a1);
      SinceIsReady(v0, a0);
      ghost var v2, a2, m2 := View(), Space(), Reading();
      ghost var entry := Entry(keyBlob, valueBlob);
      EntryIsStored(v0, a0, v1, a1, v2, a2, entry);
      EntryCostsPair(entry, storedValue.value);
      EntrySizesPair(entry);
      if t.Some? { StoredSurvives(v0, a0, v2, a2, [t.value]); }
      r, t' := GrowRoot(root, storedKey.value, storedValue.value, t, entry, v0, a0);
      IntactTransitive(v0, a0, v2, a2, View());
      OutcomeThen(m0, m2, Reading(), PairPages(key, value), RootPages(t, key, PairCost(key, value)), possible, r.Ok?);
      if r.Ok? {
        SinceIsReady(v2, a2);
        SinceTransitive(v0, a0, v2, a2);
      }
    }

    /** Rewrites below the old root, or starts a tree with one leaf. */
    method GrowRoot(root: nat, key: StoredKey, value: Ref, ghost t: Option<Tree>, ghost entry: Entry,
                    ghost v0: View, ghost a0: Alloc) returns (r: Result<nat>, ghost t': Tree)
      requires Ready() && EntriesStored(View(), Space(), [entry]) && Shrinks(a0, Space())
      requires key == KeyOf(entry.key) && value == RefOf(entry.value)
      requires LeafCost(LeafCell(key.ref, value)) <= PAGE_BODY_CAPACITY
      requires t.None? <==> root == ROOT_NONE
      requires t.Some? ==>
                 && t.value.id == root && SearchTree(t.value) && Height(t.value) <= MAX_TREE_HEIGHT
                 && Stored(v0, a0, [t.value]) && Stored(View(), Space(), [t.value])
      requires Within(EntriesFoot([entry]), multiset{}, a0, Space())
      requires EntryCost(entry) == PairCost(entry.key.bytes, entry.value.bytes)
      requires EntrySize(entry) == PairPages(entry.key.bytes, entry.value.bytes)
      modifies this`reusable, pager, pager.file, pager.cache
      ensures pager.Valid() && Intact(old(View()), old(Space()), View())
      ensures r.Ok? ==>
                && Since(old(View()), old(Space()))
                && t'.id == r.value && Stored(View(), Space(), [t'])
                && Grew(t, Pair(entry.key.bytes, entry.value.bytes), t') && (t.Some? ==> t'.id != root)
      ensures r.Err? ==> Stuck() || ForecastPut(t, entry.key.bytes, entry.value.bytes).Blocked?
      ensures Outcome(old(Reading()), Reading(), RootPages(t, entry.key.bytes, EntryCost(entry)),
                      ForecastPut(t, entry.key.bytes, entry.value.bytes).Rewrites?, r.Ok?)
    {
      hide *;
      t' := Leaf(0, []);
      NothingChanged();
      ghost var v2, a2, m2 := View(), Space(), Reading();
      if root == ROOT_NONE {
        SingleFits(entry);
        FirstRoot(entry);
        var leaf, only := CommitLeaf([LeafEntry(key, value)], [entry]);
        if leaf.Err? {
          return Err(leaf.error), t';
        }
        t' := only;
        SinceIsReady(v2, a2);
        assert leaf.value == [leaf.value][0] == Refs([only])[0];
        FirstLeaf(only, entry, a0, a2, Space());
        return Ok(leaf.value.pageId), t';
      }
      var replacements, reps := RewriteInsert(root, key, value, 0, t.value, entry);
      if replacements.Err? {
        PutBlocked(t.value, entry, []);
        RootFails(t.value, entry, m2, Reading());
        return Err(replacements.error), t';
      }
      ghost var v3, a3, m3 := View(), Space(), Reading();
      SinceIsReady(v2, a2);
      RewrittenParts(t.value, entry, reps);
      r, t' := JoinRoot(replacements.value, reps, Height(t.value));
      PutBlocked(t.value, entry, reps);
      RootPagesForeseen(t.value, entry, reps);
      OutcomeThen(m2, m3, Reading(), InsertPages(t.value, entry.key.bytes, EntryCost(entry)), JoinPages(Firsts(reps)),
                  ForecastPut(t, entry.key.bytes, entry.value.bytes).Rewrites?, r.Ok?);
      IntactTransitive(v2, a2, v3, a3, View());
      if r.Ok? {
        SinceIsReady(v3, a3);
        SinceTransitive(v2, a2, v3, a3);
        FootOne(t.value);
        HoldsOne(v0, a0, t.value);
        WithinChain(EntriesFoot([entry]), BelowRoot(t.value), FootAll(reps), a0, a2, a3);
        ShrinksTransitive(a0, a2, a3);
        WithinTransitive(Foot(t'), FootAll(reps), BelowRoot(t.value), a0, a3, Space());
        SearchTreeParts(t.value);
        RootMoves(t.value, t', a0, Space());
        TreeGrew(t.value, entry, reps, t', a0, Space());
      }
    }

    /**
     * `put`: on success the denoted map gains the pair and the previous value is returned. On any failure,
     * wherever its durable writes stopped, reopening finds the old tree, or the new one if the last of
     * them, the root superblock, was written in full.
     */
    method Put(key: Key, value: Value) returns (r: Result<Option<Value>>)
      requires Published()
      modifies this`reusable, pager, pager.file, pager.cache
      ensures Published()
      ensures r.Ok? ==>
                && !pager.poisoned && !old(pager.poisoned) && old(Acceptable(View()))
                && |key| <= MAX_TREE_KEY_BYTES && |value| <= MAX_TREE_VALUE_BYTES
                && Foretold(old(View()), key, value).Rewrites?
                && (Acceptable(View()) <==> Foretold(old(View()), key, value).branching)
                && |Reached(View())| == ForetoldSize(old(View()), key, value)
                && Denoted(View()) == Some(old(Denoted(View())).value[key := value])
                && r.value == Answer(old(Denoted(View())).value, key)
                && TreeHeight(View()) <= old(TreeHeight(View())) + 1
      ensures r.Err? ==>
                || SameTree(old(View()), View())
                || (&& Denoted(View()) == Some(old(Denoted(View())).value[key := value])
                    && TreeHeight(View()) <= old(TreeHeight(View())) + 1
                    && Foretold(old(View()), key, value).Rewrites?
                    && (Acceptable(View()) <==> Foretold(old(View()), key, value).branching)
                    && |Reached(View())| == ForetoldSize(old(View()), key, value)
                    && pager.poisoned && pager.LastWriteLanded())
      ensures r.Err? ==>
                || |key| > MAX_TREE_KEY_BYTES || |value| > MAX_TREE_VALUE_BYTES || Stuck()
                || !old(Acceptable(View())) || Foretold(old(View()), key, value).Blocked?
      ensures PutOutcome(old(PutMeter()), Reading(), ForetoldPages(old(View()), key, value),
                         && |key| <= MAX_TREE_KEY_BYTES && |value| <= MAX_TREE_VALUE_BYTES && !old(pager.poisoned)
                         && old(Acceptable(View())) && Foretold(old(View()), key, value).Rewrites?, r.Ok?)
      ensures r.Ok? ==> |pager.file.pages| == Larger(old(|pager.file.pages|),
                                                     old(|Reached(View())|) + ForetoldPages(old(View()), key, value))
      ensures old(pager.poisoned) ==> pager.poisoned && SameTree(old(View()), View())
      ensures ModestPair(key, value) && old(ModestStore(View())) ==> ModestStore(View())
      ensures r.Err? && ModestPair(key, value) && old(ModestStore(View())) ==>
                |key| > MAX_TREE_KEY_BYTES || |value| > MAX_TREE_VALUE_BYTES || Stuck()
    {
      hide *;
      ghost var v0 := View();
      SameTreeSelf(v0);
      ghost var m0, pages := PutMeter(), ForetoldPages(v0, key, value);
      NotPossible(pages);
      if |key| > MAX_TREE_KEY_BYTES || |value| > MAX_TREE_VALUE_BYTES {
        return Err(InvalidInput);
      }
      if pager.poisoned { // the first page access fails
        PoisonedIsStuck();
        return Err(Error.Poisoned);
      }
      LiveView();
      var previous := Get(key);
      if previous.Err? {
        return Err(ErrorOf(previous));
      }
      assert View() == v0;
      AcceptableRoot(v0);
      var refreshed := RefreshReusablePages();
      NotModest(v0);
      if refreshed.Err? {
        NotPossible(pages);
        return Err(ErrorOf(refreshed));
      }
      ModestIsForetold(v0, key, value);
      MeterIsReading();
      MeterParts();
      r := PutAndPublish(key, value, previous.value);
      if r.Ok? { FileGrowsTo(v0, m0, pages); }
    }

    /** The writing half of `put`, once the pool is known: build the new tree, then switch the root. */
    method PutAndPublish(key: Key, value: Value, previous: Option<Value>) returns (r: Result<Option<Value>>)
      requires Published() && Ready() && Acceptable(View())
      requires |key| <= MAX_TREE_KEY_BYTES && |value| <= MAX_TREE_VALUE_BYTES
      requires Pool(reusable, Space().pageCount, Reached(View()))
      modifies this`reusable, pager, pager.file, pager.cache
      ensures Published()
      ensures r.Ok? ==>
                && !pager.poisoned && r.value == previous
                && Foretold(old(View()), key, value).Rewrites?
                && (Acceptable(View()) <==> Foretold(old(View()), key, value).branching)
                && |Reached(View())| == ForetoldSize(old(View()), key, value)
                && Denoted(View()) == Some(old(Denoted(View())).value[key := value])
                && TreeHeight(View()) <= old(TreeHeight(View())) + 1
      ensures r.Err? ==>
                || SameTree(old(View()), View())
                || (&& Denoted(View()) == Some(old(Denoted(View())).value[key := value])
                    && TreeHeight(View()) <= old(TreeHeight(View())) + 1
                    && Foretold(old(View()), key, value).Rewrites?
                    && (Acceptable(View()) <==> Foretold(old(View()), key, value).branching)
                    && |Reached(View())| == ForetoldSize(old(View()), key, value)
                    && pager.poisoned && pager.LastWriteLanded())
      ensures r.Err? ==> Stuck() || Foretold(old(View()), key, value).Blocked?
      ensures PutOutcome(old(Reading()), Reading(), ForetoldPages(old(View()), key, value),
                         Foretold(old(View()), key, value).Rewrites?, r.Ok?)
      ensures ModestPair(key, value) && old(ModestStore(View())) ==> ModestStore(View())
    {
      hide *;
      LiveView();
      ghost var v0, a0, m0 := View(), Space(), Reading();
      ghost var pages := ForetoldPages(v0, key, value);
      ghost var t := TreeOf(v0);
      TreeOfView(v0, key, value);
      OldTree(v0, a0);
      var root, t' := BuildTree(key, value, t);
      OldTreeSurvives(v0, a0, View());
      if root.Err? {
        PutFails(m0, Reading(), pages, Foretold(v0, key, value).Rewrites?);
        return Err(root.error);
      }
      ghost var v1, m1 := View(), Reading();
      SinceIsReady(v0, a0);
      ReadyView();
      HoldsOne(v1, Space(), t');
      NewRootIsReadable(v1, t');
      OldRoot(v0, v1);
      GrewIsPossible(t, Pair(key, value), t');
      var published := PublishRoot(root.value);
      PutPublishes(m0, m1, Reading(), pages, published.Ok?);
      SameRoot(v1, View());
      NewTree(v0, v1, View(), t', key, value);
      if published.Err? {
        PoisonedIsStuck();
        return Err(published.error);
      }
      LiveView();
      return Ok(previous);
    }

    /** Makes `root` the published root: one superblock write. */
    method PublishRoot(root: nat) returns (r: Result<()>)
      requires pager.Valid() && !pager.poisoned && root != ROOT_NONE && ReadableAt(pager.file.pages, root)
      requires root != pager.active.root
      modifies pager`active, pager`activeSlot, pager`poisoned, pager`events, pager.file`slots, pager.cache
      ensures pager.Valid() && pager.file.pages == old(pager.file.pages)
      ensures View().pages == old(View()).pages
      ensures r.Ok? ==> !pager.poisoned && View().block.root == root
      ensures r.Err? ==>
                || View() == old(View())
                || (pager.poisoned && View().block.root == root && pager.LastWriteLanded())
      ensures r.Err? ==> pager.poisoned || pager.Exhausted()
      ensures Honest(old(Reading()), Reading()) && (r.Ok? <==> AffordsRoot(old(Reading())))
      ensures r.Ok? ==> Reading() == RootSpent(old(Reading()))
    {
      hide Coherent, Recover, Choose, Strikes, Pager.LastWriteLanded, FitsPage;
      r := pager.SetRoot(root);
    }

    lemma PoisonedIsStuck()
      ensures pager.poisoned || pager.Exhausted() ==> Stuck()
    {
    }
  }

  // ---------- a new root ----------

  /** One new root over the rewritten level. */
  predicate Joined(t: Tree, reps: seq<Tree>, height: nat) {
    && (Shape(t, height) || Shape(t, height + 1))
    && Flatten(t) == FlattenAll(reps)
    && (AllModest(reps) ==> Modest(t))
    && (AllBranching(reps) <==> Branching(t))
    && Size(t) == SizeAll(reps) + JoinPages(Firsts(reps))
  }

  lemma JoinedOne(t: Tree, height: nat)
    requires AllShaped([t], height)
    ensures Joined(t, [t], height)
  {
    hide Shape, Flatten, FlattenAll, Modest, Branching, Size, SizeAll;
    SizeAllOne(t);
    FlattenOne(t);
    AllOfOne(t, height);
  }

  lemma JoinedTwo(node: Tree, reps: seq<Tree>, height: nat)
    requires |reps| == 2 && FreshNode(node, reps) && AllShaped(reps, height) && height >= 1
    ensures Joined(node, reps, height)
  {
    hide Shape, Flatten, FlattenAll, Modest, Branching, Size, SizeAll, KeysPages;
    FreshNodeSize(node, reps);
    FreshNodeShape(node, reps, height);
    FlattenOfNode(node);
  }

  /** A put's effect on the tree: the map gains the pair, the height grows by at most one, the forecast is met. */
  ghost predicate Grew(t: Option<Tree>, pair: Pair, t': Tree) {
    && SearchTree(t')
    && Flatten(t') == InsertPair(if t.None? then [] else Flatten(t.value), pair)
    && Height(t') <= 1 + (if t.None? then 0 else Height(t.value))
    && (ModestPair(pair.key, pair.value) && (t.Some? ==> Modest(t.value)) ==> Modest(t'))
    && Size(t') == PutSize(t, pair.key, pair.value)
    && ForecastPut(t, pair.key, pair.value).Rewrites?
    && ((t.Some? ==> Branching(t.value)) ==> (Branching(t') <==> ForecastPut(t, pair.key, pair.value).branching))
  }

  /** A put is blocked on the searched path, or because the two halves of the root do not fit one new root. */
  lemma PutBlocked(t: Tree, entry: Entry, reps: seq<Tree>)
    requires EntryCost(entry) == PairCost(entry.key.bytes, entry.value.bytes)
    ensures var below := ForecastInsert(t, entry.key.bytes, EntryCost(entry));
            var whole := ForecastPut(Some(t), entry.key.bytes, entry.value.bytes);
            && (below.Blocked? ==> whole.Blocked?)
            && (Foreseen(t, entry, reps) ==>
                  && (whole.Blocked? <==> |reps| == 2 && !Fit(ChildCosts(Refs(reps))))
                  && (whole.Rewrites? ==> whole == below))
  {
    hide EntryCost, PairCost, SeparatorCost, First, Fit, ForecastInsert;
    ChildCostsAreSeparatorCosts(reps);
  }

  lemma GrewIsPossible(t: Option<Tree>, pair: Pair, t': Tree)
    requires Grew(t, pair, t')
    ensures ForecastPut(t, pair.key, pair.value).Rewrites?
  {
  }

  lemma SearchTreeParts(t: Tree)
    requires SearchTree(t)
    ensures NoDuplicates(Foot(t))
  {
  }

  lemma NoJoin(reps: seq<Tree>)
    requires |reps| == 1
    ensures JoinPages(Firsts(reps)) == 0
  {
  }

  lemma JoinOfTwo(reps: seq<Tree>)
    requires |reps| == 2
    ensures MinKeys(Refs(reps)) == Firsts(reps) && JoinPages(Firsts(reps)) == KeysPages(Firsts(reps)) + 1
  {
    hide First, KeysPages;
  }

  lemma FirstRoot(entry: Entry)
    ensures RootPages(None, entry.key.bytes, EntryCost(entry)) == 1
    ensures ForecastPut(None, entry.key.bytes, entry.value.bytes).Rewrites?
  {
  }

  lemma RootPagesForeseen(t: Tree, entry: Entry, reps: seq<Tree>)
    requires Foreseen(t, entry, reps)
    ensures ForecastInsert(t, entry.key.bytes, EntryCost(entry)).Rewrites?
    ensures RootPages(Some(t), entry.key.bytes, EntryCost(entry))
         == InsertPages(t, entry.key.bytes, EntryCost(entry)) + JoinPages(Firsts(reps))
  {
    hide ForecastInsert, InsertPages, EntryCost, Firsts, JoinPages, Branching, AllBranching;
  }

  lemma PutSizeForeseen(t: Tree, entry: Entry, reps: seq<Tree>)
    requires Foreseen(t, entry, reps)
    requires EntryCost(entry) == PairCost(entry.key.bytes, entry.value.bytes)
    requires EntrySize(entry) == PairPages(entry.key.bytes, entry.value.bytes)
    ensures PutSize(Some(t), entry.key.bytes, entry.value.bytes) == SizeAll(reps) + JoinPages(Firsts(reps))
  {
    hide ForecastInsert, InsertSize, EntryCost, EntrySize, PairCost, PairPages, Firsts, JoinPages, SizeAll, Branching,
      AllBranching;
  }

  lemma RootFails(t: Tree, entry: Entry, m0: Meter, m1: Meter)
    requires EntryCost(entry) == PairCost(entry.key.bytes, entry.value.bytes)
    requires Outcome(m0, m1, InsertPages(t, entry.key.bytes, EntryCost(entry)),
                     ForecastInsert(t, entry.key.bytes, EntryCost(entry)).Rewrites?, false)
    ensures Outcome(m0, m1, RootPages(Some(t), entry.key.bytes, EntryCost(entry)),
                    ForecastPut(Some(t), entry.key.bytes, entry.value.bytes).Rewrites?, false)
  {
    hide ForecastInsert, InsertPages, EntryCost, PairCost, JoinPages, Outcome, Fit;
    var own := InsertPages(t, entry.key.bytes, EntryCost(entry));
    var below := ForecastInsert(t, entry.key.bytes, EntryCost(entry));
    OutcomeIsHonest(m0, m1, own, below.Rewrites?, false);
    if below.Rewrites? {
      OutcomeFails(m0, m1, own, RootPages(Some(t), entry.key.bytes, EntryCost(entry)),
                   ForecastPut(Some(t), entry.key.bytes, entry.value.bytes).Rewrites?);
    } else {
      Impossible(m0, m1, RootPages(Some(t), entry.key.bytes, EntryCost(entry)));
    }
  }

  lemma PutPagesParts(t: Option<Tree>, key: Key, value: Value)
    ensures PutPages(t, key, value) == PairPages(key, value) + RootPages(t, key, PairCost(key, value))
    ensures KeyPages(key) <= PairPages(key, value)
  {
  }

  lemma SingleFits(entry: Entry)
    ensures LeafCost(LeafCell(RefOf(entry.key), RefOf(entry.value))) <= PAGE_BODY_CAPACITY ==>
              Fit(LeafCosts(LeafCells([entry])))
    ensures Decoded([entry]) == [LeafEntry(KeyOf(entry.key), RefOf(entry.value))]
    ensures (KeyOf(entry.key)).ref == RefOf(entry.key)
  {
    hide LeafCost, RefOf;
    var costs := LeafCosts(LeafCells([entry]));
    assert costs[..0] == [];
    assert Sum(costs) == costs[0] == LeafCost(LeafCell(RefOf(entry.key), RefOf(entry.value)));
  }

  lemma KeyPayload(blob: Blob)
    requires Canonical(blob)
    ensures PayloadLength(KeyOf(blob).ref) <= MAX_INLINE_KEY_BYTES
    ensures forall value :: PairPages(blob.bytes, value)
                         == KeyPages(blob.bytes) + ValuePages(PayloadLength(KeyOf(blob).ref), value)
  {
    CanonicalIsInline(blob);
  }

  lemma EntryIsStored(v0: View, a0: Alloc, v1: View, a1: Alloc, v2: View, a2: Alloc, entry: Entry)
    requires Progressed(v0, a0, v1, a1) && Progressed(v1, a1, v2, a2)
    requires BlobHolds(v1.pages, entry.key, MAX_TREE_KEY_BYTES) && Within(multiset(entry.key.chain), multiset{}, a0, a1)
    requires BlobHolds(v2.pages, entry.value, MAX_TREE_VALUE_BYTES)
    requires Within(multiset(entry.value.chain), multiset{}, a1, a2)
    ensures EntriesStored(v2, a2, [entry]) && Within(EntriesFoot([entry]), multiset{}, a0, a2)
  {
    hide BlobHolds, Intact, Within, Avoids, Keeps;
    var keyFoot, valueFoot := multiset(entry.key.chain), multiset(entry.value.chain);
    WithinNone(a0, a0);
    WithinAvoids(keyFoot, multiset{}, a0, a1);
    ProgressedKeeps(v1, a1, v2, a2, keyFoot);
    BlobFrame(v1.pages, v2.pages, entry.key, MAX_TREE_KEY_BYTES);
    WithinSum(keyFoot, multiset{}, valueFoot, a0, a1, a2);
    assert [entry][1..] == [];
    assert EntriesFoot([entry][1..]) == multiset{};
    assert EntriesFoot([entry]) == keyFoot + valueFoot;
    ShrinksTransitive(a0, a1, a2);
    WithinAvoids(keyFoot + valueFoot, multiset{}, a0, a2);
  }

  lemma EntryCostsPair(entry: Entry, ref: Ref)
    requires Canonical(entry.key) && ref == RefOf(entry.value)
    requires ref.Inline? <==>
               SLOT_LEN + LEAF_CELL_HEADER_LEN + PayloadLength(KeyOf(entry.key).ref) + |entry.value.bytes|
               <= PAGE_BODY_CAPACITY
    ensures EntryCost(entry) == PairCost(entry.key.bytes, entry.value.bytes)
  {
  }

  lemma EntrySizesPair(entry: Entry)
    requires Canonical(entry.key)
    requires |entry.value.chain| == ValuePages(PayloadLength(KeyOf(entry.key).ref), entry.value.bytes)
    ensures EntrySize(entry) == PairPages(entry.key.bytes, entry.value.bytes)
  {
    hide ChunkCount;
    CanonicalIsInline(entry.key);
  }

  lemma FirstLeaf(leaf: Tree, entry: Entry, a0: Alloc, a2: Alloc, a3: Alloc)
    requires leaf == Leaf(leaf.id, [entry])
    requires Within(EntriesFoot([entry]), multiset{}, a0, a2) && Within(Foot(leaf), EntriesFoot([entry]), a2, a3)
    requires Shrinks(a0, a2) && Shrinks(a2, a3)
    requires EntryCost(entry) == PairCost(entry.key.bytes, entry.value.bytes)
    requires EntrySize(entry) == PairPages(entry.key.bytes, entry.value.bytes)
    ensures Grew(None, Pair(entry.key.bytes, entry.value.bytes), leaf)
  {
    hide Within, Foot, EntriesFoot, Shrinks, EntryCost, PairCost, SeparatorCost, EntrySize, PairPages;
    assert EntriesSize([entry]) == EntrySize(entry) by { assert [entry][1..] == []; }
    WithinTransitive(Foot(leaf), EntriesFoot([entry]), multiset{}, a0, a2, a3);
    WithinNone(a0, a0);
    WithinHasNoDuplicates(Foot(leaf), multiset{}, a0, a3);
    assert Flatten(leaf) == [Pair(entry.key.bytes, entry.value.bytes)];
    assert [entry][0] == entry;
  }

  lemma RewrittenParts(t: Tree, entry: Entry, reps: seq<Tree>)
    requires SearchTree(t) && Rewritten(t, entry, reps)
    ensures 1 <= |reps| <= 2 && AllShaped(reps, Height(t)) && Sorted(FlattenAll(reps)) && Height(t) >= 1
    ensures Foreseen(t, entry, reps)
  {
    hide Less, InsertPair, Sorted, Modest;
    InsertKeepsSorted(Flatten(t), Pair(entry.key.bytes, entry.value.bytes));
  }

  lemma TreeGrew(t: Tree, entry: Entry, reps: seq<Tree>, t': Tree, a0: Alloc, a: Alloc)
    requires SearchTree(t) && Rewritten(t, entry, reps) && Joined(t', reps, Height(t))
    requires Within(Foot(t'), Foot(t), a0, a) && Avoids(Foot(t), a0)
    requires EntryCost(entry) == PairCost(entry.key.bytes, entry.value.bytes)
    requires EntrySize(entry) == PairPages(entry.key.bytes, entry.value.bytes)
    requires |reps| == 2 ==> Fit(ChildCosts(Refs(reps)))
    ensures Grew(Some(t), Pair(entry.key.bytes, entry.value.bytes), t')
  {
    hide Within, Foot, Avoids, EntryCost, PairCost, SeparatorCost, Less, InsertPair, Sorted, Modest, Branching, Shape,
      Flatten, FlattenAll, AllShaped, AllModest, AllBranching, ForecastPut, ForecastInsert, Fit, Size, SizeAll,
      EntrySize, PairPages, InsertSize, JoinPages, PutSize;
    PutBlocked(t, entry, reps);
    PutSizeForeseen(t, entry, reps);
    InsertKeepsSorted(Flatten(t), Pair(entry.key.bytes, entry.value.bytes));
    WithinHasNoDuplicates(Foot(t'), Foot(t), a0, a);
    if Shape(t', Height(t)) { ShapeHeight(t', Height(t)); } else { ShapeHeight(t', Height(t) + 1); }
  }

  // ---------- the map before and after ----------

  /** The pages the published tree occupies. */
  ghost function Reached(v: View): set<nat> {
    if v.block.root == ROOT_NONE || RootTree(v).None? then {} else Grown({}, Foot(RootTree(v).value))
  }

  lemma ReachedIsCommitted(v: View)
    requires Acceptable(v)
    ensures forall id :: id in Reached(v) ==> Committed(v.pages, id)
  {
    hide Parse, Foot, Flatten, Shape, Branching;
    if v.block.root != ROOT_NONE {
      ParseHolds(v.pages, v.block.root, MAX_TREE_HEIGHT);
      TreeIsCommitted(v.pages, RootTree(v).value);
    }
  }

  lemma SameRoot(v1: View, v2: View)
    ensures v1 == v2 <==> v1.block == v2.block && v1.pages == v2.pages
  {
  }

  /** The published tree, if there is one. */
  function TreeOf(v: View): Option<Tree> {
    if v.block.root == ROOT_NONE then None else RootTree(v)
  }

  /** What the file already tells about a put: whether it goes through, and whether `open` will take the result. */
  function Foretold(v: View, key: Key, value: Value): Forecast {
    ForecastPut(TreeOf(v), key, value)
  }

  lemma TreeOfView(v: View, key: Key, value: Value)
    ensures Foretold(v, key, value) == ForecastPut(TreeOf(v), key, value)
    ensures TreeOf(v) == if v.block.root == ROOT_NONE then None else RootTree(v)
    ensures ForetoldPages(v, key, value) == PutPages(TreeOf(v), key, value)
  {
  }

  /** How many data pages a put will write, overflow pages included. */
  function ForetoldPages(v: View, key: Key, value: Value): nat {
    PutPages(TreeOf(v), key, value)
  }

  /** How many pages the tree will occupy that a put publishes. */
  function ForetoldSize(v: View, key: Key, value: Value): nat {
    PutSize(TreeOf(v), key, value)
  }

  function Members(ids: multiset<nat>): set<nat> {
    set id | id in ids
  }

  lemma {:induction false} CountOnce(ids: multiset<nat>)
    requires NoDuplicates(ids)
    ensures |Members(ids)| == |ids|
    decreases |ids|
  {
    if ids != multiset{} {
      var id: nat :| id in ids;
      var rest := ids - multiset{id};
      WithoutOne(ids, id);
      CountOnce(rest);
      assert ids == rest + multiset{id};
    }
  }

  lemma WithoutOne(ids: multiset<nat>, id: nat)
    requires NoDuplicates(ids) && id in ids
    ensures var rest := ids - multiset{id};
            NoDuplicates(rest) && Members(ids) == Members(rest) + {id} && id !in Members(rest)
  {
    var rest := ids - multiset{id};
    assert ids[id] == 1 && rest[id] == 0;
    forall other: nat ensures other != id ==> rest[other] == ids[other] {}
  }

  /** Within the size premise a put is never blocked, and its result is always accepted. */
  lemma ModestIsForetold(v: View, key: Key, value: Value)
    ensures ModestStore(v) && ModestPair(key, value) ==>
              Foretold(v, key, value).Rewrites? && Foretold(v, key, value).branching
  {
    hide Parse, Foot, Flatten, Shape, Branching, Modest, ForecastInsert, SeparatorCost, PairCost, Sum;
    if ModestStore(v) && ModestPair(key, value) && v.block.root != ROOT_NONE {
      var t := RootTree(v).value;
      ParseHolds(v.pages, v.block.root, MAX_TREE_HEIGHT);
      assert [key][0] == key;
      ModestForecast(v.pages, t, key, PairCost(key, value));
      var firsts := ForecastInsert(t, key, PairCost(key, value)).firsts;
      if |firsts| == 2 {
        var costs := SeparatorCosts(firsts);
        SumFirst(costs);
        SumOfShort(costs[1..], PAGE_BODY_CAPACITY / 3);
      }
    }
  }

  function TreeHeight(v: View): nat {
    if v.block.root == ROOT_NONE || RootTree(v).None? then 0 else Height(RootTree(v).value)
  }

  /** Reopening finds the very same tree. */
  predicate SameTree(v0: View, v1: View): (same: bool)
    ensures same ==> Denoted(v1) == Denoted(v0) && TreeHeight(v1) == TreeHeight(v0)
    ensures same ==> (Acceptable(v1) <==> Acceptable(v0)) && (ModestStore(v1) <==> ModestStore(v0))
  {
    v1.block.root == v0.block.root && (v0.block.root != ROOT_NONE ==> RootTree(v1) == RootTree(v0))
  }

  /** Acceptable, and every cell within the size premise. */
  ghost predicate ModestStore(v: View) {
    Acceptable(v) && (v.block.root != ROOT_NONE ==> RootTree(v).Some? && Modest(RootTree(v).value))
  }

  lemma SameTreeSelf(v: View)
    ensures SameTree(v, v)
  {
  }

  lemma NotModest(v: View)
    ensures ModestStore(v) ==> Acceptable(v)
  {
  }

  /** The old tree lies outside the pool, far below the height limit. */
  lemma OldTree(v: View, a: Alloc)
    requires Acceptable(v) && (|v.pages| + 2) * PAGE_SIZE < U64_LIMIT && a.pageCount == |v.pages| + SUPERBLOCK_COUNT
    requires Pool(a.reusable, a.pageCount, Reached(v))
    ensures v.block.root != ROOT_NONE ==>
              && RootTree(v).Some?
              && var t := RootTree(v).value;
                 && t.id == v.block.root && SearchTree(t) && Height(t) <= 52 && Height(t) <= MAX_TREE_HEIGHT
                 && Stored(v, a, [t]) && (ModestStore(v) ==> Modest(t))
  {
    hide Parse, Foot, Flatten, Shape, Branching, Modest;
    if v.block.root != ROOT_NONE {
      var t := RootTree(v).value;
      ParseHolds(v.pages, v.block.root, MAX_TREE_HEIGHT);
      HeightIsBounded(v.pages, t, Height(t));
      TreeIsCommitted(v.pages, t);
      FootOne(t);
      assert Avoids(Foot(t), a);
      assert Holds(v.pages, [t][0]);
    }
  }

  lemma OldTreeSurvives(v0: View, a0: Alloc, v1: View)
    requires Denoted(v0).Some? && Intact(v0, a0, v1)
    requires v0.block.root != ROOT_NONE ==> RootTree(v0).Some? && Stored(v0, a0, [RootTree(v0).value])
    ensures SameTree(v0, v1)
  {
    hide Parse, Holds;
    if v0.block.root != ROOT_NONE {
      DenotedTree(v0);
      var t := RootTree(v0).value;
      HoldsOne(v0, a0, t);
      IntactKeeps(v0, a0, v1, Foot(t));
      Frame(v0.pages, v1.pages, t);
      ParseFinds(v1.pages, t, Height(t), MAX_TREE_HEIGHT);
    }
  }

  /** Until it is published the new tree leaves the root pointer alone. */
  lemma OldRoot(v0: View, v1: View)
    requires SameTree(v0, v1)
    ensures v1.block.root == v0.block.root
  {
    hide RootTree;
  }

  lemma NewRootIsReadable(v: View, t: Tree)
    requires Holds(v.pages, t)
    ensures ReadableAt(v.pages, t.id) && t.id != ROOT_NONE
  {
  }

  /** Once the root pointer leads to it, the new tree is what the file denotes. */
  lemma NewTree(v0: View, v1: View, v2: View, t': Tree, key: Key, value: Value)
    requires Denoted(v0).Some? && Acceptable(v0) && SameTree(v0, v1)
    requires v2.pages == v1.pages && Holds(v1.pages, t')
    requires Grew(TreeOf(v0), Pair(key, value), t')
    requires v0.block.root != ROOT_NONE ==> RootTree(v0).Some? && Height(RootTree(v0).value) <= 52
    ensures v2.block.root == t'.id ==>
              && Denoted(v2) == Some(Denoted(v0).value[key := value])
              && TreeHeight(v2) <= TreeHeight(v0) + 1
              && Foretold(v0, key, value).Rewrites?
              && (Acceptable(v2) <==> Foretold(v0, key, value).branching)
              && |Reached(v2)| == ForetoldSize(v0, key, value)
              && (ModestPair(key, value) && ModestStore(v0) ==> ModestStore(v2))
    ensures v2 == v1 ==> SameTree(v0, v2)
  {
    hide Parse, Holds, Flatten, Foot, Shape, Modest, Branching, ModestPair, MapOf, InsertPair, Distinct, ForecastPut,
      PutSize, Size;
    ModestIsForetold(v0, key, value);
    if v2.block.root == t'.id {
      var t := TreeOf(v0);
      var pairs: seq<Pair> := if t.None? then [] else Flatten(t.value);
      ParseFinds(v2.pages, t', Height(t'), MAX_TREE_HEIGHT);
      NewRootIsReadable(v1, t');
      EmptyMap();
      InsertIsMapUpdate(pairs, Pair(key, value));
      NoDuplicatesIsDistinct(Foot(t'));
      SizeIsFoot(t');
      CountOnce(Foot(t'));
      assert Reached(v2) == Members(Foot(t'));
    }
  }

  lemma EmptyMap()
    ensures MapOf([]) == map[]
  {
  }

  // ---------- the reuse pool and the denoted map ----------

  /** The unreachable ids below `end`, ascending. */
  predicate Pool(reusable: seq<nat>, end: nat, reachable: set<nat>) {
    && (forall i :: 0 <= i < |reusable| ==> SUPERBLOCK_COUNT <= reusable[i] < end && reusable[i] !in reachable)
    && (forall i, j :: 0 <= i < j < |reusable| ==> reusable[i] < reusable[j])
    && (forall id: nat :: SUPERBLOCK_COUNT <= id < end && id !in reachable ==> id in reusable)
  }

  lemma EmptyPool(reachable: set<nat>)
    ensures Pool([], SUPERBLOCK_COUNT, reachable)
  {
  }

  lemma NextInPool(reusable: seq<nat>, id: nat, reachable: set<nat>)
    requires Pool(reusable, id, reachable) && id >= SUPERBLOCK_COUNT
    ensures Pool(if id !in reachable then reusable + [id] else reusable, id + 1, reachable)
  {
  }

  lemma ReachedFoot(v: View, bounds: SubtreeBounds, seen: set<nat>)
    requires v.block.root != ROOT_NONE
    requires BoundsOf(Parse(v.pages, v.block.root, MAX_TREE_HEIGHT), {}, bounds, seen)
    ensures seen == Reached(v)
  {
  }

  lemma PoolIsWellFormed(reusable: seq<nat>, end: nat, reachable: set<nat>)
    requires Pool(reusable, end, reachable)
    ensures WellFormed(Alloc(reusable, end))
  {
  }

  function Answer(contents: map<Key, Value>, key: Key): Option<Value> {
    if key in contents then Some(contents[key]) else None
  }

  lemma AcceptableRoot(v: View)
    ensures RootTree(v) == Parse(v.pages, v.block.root, MAX_TREE_HEIGHT)
    ensures Acceptable(v) <==>
              v.block.root == ROOT_NONE || Accepted(Parse(v.pages, v.block.root, MAX_TREE_HEIGHT), {})
  {
  }

  lemma DenotedTree(v: View)
    requires Denoted(v).Some?
    ensures v.block.root == ROOT_NONE ==> Denoted(v) == Some(map[]) && forall key :: Answer(map[], key) == None
    ensures v.block.root != ROOT_NONE ==>
              && RootTree(v).Some? && SearchTree(RootTree(v).value) && RootTree(v).value.id == v.block.root
              && Holds(v.pages, RootTree(v).value) && Height(RootTree(v).value) <= MAX_TREE_HEIGHT
              && Denoted(v) == Some(Contents(RootTree(v).value))
  {
    hide Parse;
    if v.block.root != ROOT_NONE {
      ParseHolds(v.pages, v.block.root, MAX_TREE_HEIGHT);
      ParseHeight(v.pages, v.block.root, MAX_TREE_HEIGHT);
    }
  }

  lemma DenotedAnswer(v: View, key: Key)
    requires Denoted(v).Some? && v.block.root != ROOT_NONE
    ensures RootTree(v).Some? && Find(RootTree(v).value, key) == Answer(Denoted(v).value, key)
  {
    hide Parse;
  }

  // ---------- one level of an insertion ----------

  lemma DepthIsWithin(t: Tree, depth: nat)
    requires depth + Height(t) <= MAX_TREE_HEIGHT
    ensures depth < MAX_TREE_HEIGHT
  {
  }

  lemma HoldsOne(v: View, a: Alloc, t: Tree)
    requires Stored(v, a, [t])
    ensures Holds(v.pages, t) && Avoids(Foot(t), a)
    ensures t.Node? ==> |t.separators| == |t.kids|
  {
    assert [t][0] == t;
    FootOne(t);
  }

  lemma PositionInLeaf(t: Tree, entries: seq<LeafEntry>, key: Key)
    requires t.Leaf? && entries == Decoded(t.entries)
    ensures Position(entries, key) == LowerBound(EntryPairs(t.entries), key) <= |t.entries|
  {
    hide LowerBound, Position;
    PositionIsLowerBound(entries, EntryPairs(t.entries), key);
  }

  lemma UpdatedLeaf(model: seq<Entry>, at: nat, entry: Entry, entries: seq<LeafEntry>)
    requires at <= |model| && entries == Decoded(model)
    ensures var added := LeafEntry(KeyOf(entry.key), RefOf(entry.value));
            Decoded(InsertEntry(model, at, entry))
            == if at < |entries| && entries[at].key.bytes == entry.key.bytes then entries[at := added]
               else entries[..at] + [added] + entries[at..]
  {
    hide RefOf;
  }

  /** Old and new entries together are stored, on no more pages than before plus the new entry's own. */
  lemma InsertStored(v: View, a: Alloc, t: Tree, at: nat, entry: Entry)
    requires t.Leaf? && Holds(v.pages, t) && Avoids(Foot(t), a) && EntriesStored(v, a, [entry]) && at <= |t.entries|
    ensures EntriesStored(v, a, InsertEntry(t.entries, at, entry))
    ensures EntriesFoot(InsertEntry(t.entries, at, entry)) <= BelowRoot(t) + EntriesFoot([entry])
  {
    hide EntryHolds, Avoids, EntriesFoot, Foot;
    var model := t.entries;
    var after := InsertEntry(model, at, entry);
    FootParts(t);
    InsertFoot(model, at, entry);
    AvoidsPart(EntriesFoot(model), Foot(t), a);
    AvoidsSum(EntriesFoot(model), EntriesFoot([entry]), a);
    AvoidsPart(EntriesFoot(after), EntriesFoot(model) + EntriesFoot([entry]), a);
    assert EntryHolds(v.pages, [entry][0]);
    forall i | 0 <= i < |after| ensures EntryHolds(v.pages, after[i]) {
      assert after[i] == entry || after[i] in model;
    }
  }

  lemma InsertFoot(model: seq<Entry>, at: nat, entry: Entry)
    requires at <= |model|
    ensures EntriesFoot(InsertEntry(model, at, entry)) <= EntriesFoot(model) + EntriesFoot([entry])
  {
    hide EntriesFoot;
    var left, right := model[..at], model[at..];
    assert model == left + right;
    EntriesFootConcat(left, right);
    EntriesFootConcat(left, [entry]);
    if at < |model| && model[at].key.bytes == entry.key.bytes {
      var rest := model[at + 1..];
      assert InsertEntry(model, at, entry) == left + [entry] + rest;
      EntriesFootConcat(left + [entry], rest);
      assert right == [model[at]] + rest;
      EntriesFootConcat([model[at]], rest);
    } else {
      EntriesFootConcat(left + [entry], right);
    }
  }

  lemma DecodedRefs(t: Tree, cells: seq<InternalCell>)
    requires t.Node? && SearchTree(t) && |t.separators| == |t.kids| && cells == InternalCells(t.separators, t.kids)
    ensures DecodedInternal(t.separators, cells) == Refs(t.kids)
  {
    hide First, Foot, Flatten;
  }

  lemma RoutedAt(t: Tree, children: seq<ChildRef>, key: Key)
    requires t.Node? && children == Refs(t.kids) && RouteChild(children, key).Ok?
    ensures RouteChild(children, key).value == Route(MinKeys(children), key) == Route(Firsts(t.kids), key)
  {
    hide First, Route;
    assert MinKeys(children) == Firsts(t.kids);
  }

  lemma RewrittenIsForeseen(t: Tree, entry: Entry, reps: seq<Tree>)
    requires Rewritten(t, entry, reps)
    ensures ForecastInsert(t, entry.key.bytes, EntryCost(entry)).Rewrites?
  {
  }

  lemma NoKeys(keys: seq<Key>)
    ensures KeysPages(keys[..0]) == 0
  {
  }

  lemma KeysPagesLast(keys: seq<Key>)
    requires keys != []
    ensures KeysPages(keys) == KeysPages(keys[..|keys| - 1]) + KeyPages(keys[|keys| - 1])
  {
    hide KeyPages;
  }

  lemma KeysPagesParts(a: seq<Key>, b: seq<Key>)
    ensures KeysPages(a + b) >= KeysPages(a)
  {
    hide KeysPages;
    KeysPagesConcat(a, b);
  }

  lemma NextKeyPages(keys: seq<Key>, i: nat)
    requires i < |keys|
    ensures KeysPages(keys[..i + 1]) == KeysPages(keys[..i]) + KeyPages(keys[i])
    ensures KeysPages(keys[..i + 1]) <= KeysPages(keys)
  {
    hide KeyPages, KeysPages;
    KeysPagesLast(keys[..i + 1]);
    assert keys[..i + 1][..i] == keys[..i];
    assert keys == keys[..i + 1] + keys[i + 1..];
    KeysPagesParts(keys[..i + 1], keys[i + 1..]);
  }

  lemma HalvesPages(children: seq<ChildRef>, k: nat)
    requires k <= |children|
    ensures MinKeys(children)[..k] == MinKeys(children[..k]) && MinKeys(children)[k..] == MinKeys(children[k..])
    ensures KeysPages(MinKeys(children)) == KeysPages(MinKeys(children[..k])) + KeysPages(MinKeys(children[k..]))
  {
    hide KeysPages;
    var keys := MinKeys(children);
    assert keys == keys[..k] + keys[k..];
    assert keys[..k] == MinKeys(children[..k]) && keys[k..] == MinKeys(children[k..]);
    KeysPagesConcat(keys[..k], keys[k..]);
  }

  lemma BlockedBelow(t: Tree, at: nat, entry: Entry, m0: Meter, m1: Meter)
    requires t.Node? && at < |t.kids| && at == Route(Firsts(t.kids), entry.key.bytes)
    requires Outcome(m0, m1, InsertPages(t.kids[at], entry.key.bytes, EntryCost(entry)),
                     ForecastInsert(t.kids[at], entry.key.bytes, EntryCost(entry)).Rewrites?, false)
    ensures ForecastInsert(t.kids[at], entry.key.bytes, EntryCost(entry)).Blocked? ==>
              ForecastInsert(t, entry.key.bytes, EntryCost(entry)).Blocked?
    ensures Outcome(m0, m1, InsertPages(t, entry.key.bytes, EntryCost(entry)),
                    ForecastInsert(t, entry.key.bytes, EntryCost(entry)).Rewrites?, false)
  {
    hide Route, First, EntryCost, Outcome, LevelForecast, KeysPages, LevelPages;
    var below := ForecastInsert(t.kids[at], entry.key.bytes, EntryCost(entry));
    var own := InsertPages(t.kids[at], entry.key.bytes, EntryCost(entry));
    OutcomeIsHonest(m0, m1, own, below.Rewrites?, false);
    if below.Rewrites? {
      OutcomeFails(m0, m1, own, InsertPages(t, entry.key.bytes, EntryCost(entry)),
                   ForecastInsert(t, entry.key.bytes, EntryCost(entry)).Rewrites?);
    } else {
      Impossible(m0, m1, InsertPages(t, entry.key.bytes, EntryCost(entry)));
    }
  }

  lemma KidStored(v: View, a: Alloc, t: Tree, at: nat)
    requires t.Node? && Holds(v.pages, t) && Avoids(Foot(t), a) && at < |t.kids|
    ensures Stored(v, a, t.kids) && Stored(v, a, [t.kids[at]])
    ensures FootAll(t.kids) <= Foot(t)
  {
    hide Avoids, Foot, FootAll, Holds;
    FootParts(t);
    KidsHold(v.pages, t);
    AvoidsPart(FootAll(t.kids), Foot(t), a);
    KidFootPart(t.kids, at);
    AvoidsPart(Foot(t.kids[at]), FootAll(t.kids), a);
    FootOne(t.kids[at]);
  }

  lemma KidsHold(pages: seq<PageImage>, t: Tree)
    requires t.Node? && Holds(pages, t)
    ensures forall i :: 0 <= i < |t.kids| ==> Holds(pages, t.kids[i])
  {
  }

  lemma NodeHasFit(pages: seq<PageImage>, t: Tree)
    requires t.Node? && Holds(pages, t) && SearchTree(t)
    ensures |t.separators| == |t.kids| && Fit(InternalCosts(InternalCells(t.separators, t.kids)))
    ensures Shape(t, Height(t))
  {
  }

  /** Untouched siblings and the rewritten child are stored side by side. */
  lemma SpliceStored(v0: View, a0: Alloc, v1: View, a1: Alloc, t: Tree, at: nat, kids: seq<Tree>, entry: Entry)
    requires t.Node? && at < |t.kids| && Stored(v0, a0, t.kids)
    requires Progressed(v0, a0, v1, a1) && Stored(v1, a1, kids)
    requires Within(FootAll(kids), BelowRoot(t.kids[at]) + EntriesFoot([entry]), a0, a1)
    ensures Stored(v1, a1, Splice(t.kids, at, kids))
    ensures Within(FootAll(Splice(t.kids, at, kids)), BelowRoot(t) + EntriesFoot([entry]), a0, a1)
  {
    hide Stored, Within, Foot, FootAll, EntriesFoot, Intact;
    BelowRootPart(t.kids[at]);
    hide BelowRoot;
    assert BelowRoot(t) == FootAll(t.kids) by { BelowRootOfNode(t); }
    WithinMore(FootAll(kids), BelowRoot(t.kids[at]) + EntriesFoot([entry]),
               Foot(t.kids[at]) + EntriesFoot([entry]), a0, a1);
    StoredSurvives(v0, a0, v1, a1, t.kids);
    var left, right := t.kids[..at], t.kids[at + 1..];
    assert t.kids == left + ([t.kids[at]] + right);
    StoredConcat(v1, a1, left, [t.kids[at]] + right);
    StoredConcat(v1, a1, [t.kids[at]], right);
    StoredConcat(v1, a1, left, kids);
    StoredConcat(v1, a1, left + kids, right);
    FootAround(t.kids, at);
    FootConcat(left, kids);
    FootConcat(left + kids, right);
    SiblingsWithin(FootAll(left) + FootAll(right), FootAll(kids), Foot(t.kids[at]) + EntriesFoot([entry]), a0, a1);
    assert FootAll(Splice(t.kids, at, kids)) == FootAll(left) + FootAll(right) + FootAll(kids);
    assert FootAll(left) + FootAll(right) + (Foot(t.kids[at]) + EntriesFoot([entry]))
        <= BelowRoot(t) + EntriesFoot([entry]);
    WithinMore(FootAll(Splice(t.kids, at, kids)),
               FootAll(left) + FootAll(right) + (Foot(t.kids[at]) + EntriesFoot([entry])),
               BelowRoot(t) + EntriesFoot([entry]), a0, a1);
  }

  lemma BelowRootOfNode(t: Tree)
    requires t.Node?
    ensures BelowRoot(t) == FootAll(t.kids)
  {
  }

  /** Copy-on-write always moves the root. */
  lemma RootMoves(t: Tree, t': Tree, a0: Alloc, a: Alloc)
    requires Within(Foot(t'), BelowRoot(t), a0, a) && NoDuplicates(Foot(t)) && Avoids(Foot(t), a0)
    ensures t'.id != t.id && Within(Foot(t'), Foot(t), a0, a)
  {
    hide BelowRoot, Foot;
    BelowRootPart(t);
    FootParts(t);
    FootParts(t');
    assert t.id in Foot(t);
    assert BelowRoot(t)[t.id] + 1 <= Foot(t)[t.id];
    assert Foot(t)[t.id] == 1;
    assert Foot(t')[t.id] == 0;
  }

  lemma SiblingsWithin(siblings: multiset<nat>, foot: multiset<nat>, retained: multiset<nat>, a: Alloc, b: Alloc)
    requires Within(foot, retained, a, b)
    ensures Within(siblings + foot, siblings + retained, a, b)
  {
    forall id: nat
      ensures (siblings + foot)[id] <= (siblings + retained)[id] + (if Taken(a, b, id) then 1 else 0)
    {
      assert (siblings + foot)[id] == siblings[id] + foot[id];
      assert (siblings + retained)[id] == siblings[id] + retained[id];
    }
  }

  /** The child list of a stored, sorted level is valid. */
  lemma StoredRefsAreValid(v: View, a: Alloc, kids: seq<Tree>, height: nat)
    requires kids != [] && Stored(v, a, kids) && AllShaped(kids, height) && Sorted(FlattenAll(kids))
    ensures ValidChildRefs(Refs(kids))
  {
    hide Less, Sorted, Shape, Avoids, First;
    var children := Refs(kids);
    forall i | 0 <= i < |children| - 1
      ensures Less(children[i].minKey, children[i + 1].minKey)
    {
      FirstsIncrease(kids, height, i, i + 1);
    }
    forall i | 0 <= i < |children|
      ensures |children[i].minKey| <= MAX_TREE_KEY_BYTES && children[i].pageId >= SUPERBLOCK_COUNT
    {
      FirstIsShort(v.pages, kids[i], height);
      HeldIsCommitted(v.pages, kids[i]);
    }
  }

  lemma FirstIsShort(pages: seq<PageImage>, t: Tree, height: nat)
    requires Holds(pages, t) && Shape(t, height)
    ensures |First(t)| <= MAX_TREE_KEY_BYTES
  {
    hide Fit, At;
    if t.Leaf? { assert EntryHolds(pages, t.entries[0]); }
  }

  lemma SplicedRefsAreValid(pages: seq<PageImage>, v: View, a: Alloc, t: Tree, at: nat, kids: seq<Tree>, entry: Entry)
    requires t.Node? && Holds(pages, t) && SearchTree(t) && at < |t.kids|
    requires KeysBelow(FlattenAll(t.kids[..at]), entry.key.bytes)
    requires KeysAbove(FlattenAll(t.kids[at + 1..]), entry.key.bytes)
    requires Rewritten(t.kids[at], entry, kids) && Stored(v, a, Splice(t.kids, at, kids))
    ensures ValidChildRefs(Refs(Splice(t.kids, at, kids)))
  {
    hide Fit, Feasible, First, ModestEntry, Sorted, Less, Foot, InsertPair, Flatten, FlattenAll, Modest, AllModest,
      AllShaped, Holds, Shape, Stored, KeysBelow, KeysAbove, ValidChildRefs, Foreseen;
    var spliced := Splice(t.kids, at, kids);
    NodeHasFit(pages, t);
    KidOfNode(t, at);
    SpliceAll(t, at, kids);
    FlattenOfNode(t);
    InsertThroughChild(t.kids, at, Pair(entry.key.bytes, entry.value.bytes), kids);
    InsertKeepsSorted(Flatten(t), Pair(entry.key.bytes, entry.value.bytes));
    SpliceSize(t, at, kids);
    StoredRefsAreValid(v, a, spliced, Height(t) - 1);
  }

  // ---------- stored separators ----------

  lemma NoChildren(children: seq<ChildRef>)
    requires ValidChildRefs(children)
    ensures children != []
  {
  }

  lemma SplitKids(v: View, a: Alloc, kids: seq<Tree>, at: nat)
    requires at <= |kids| && Stored(v, a, kids)
    ensures Stored(v, a, kids[..at]) && Stored(v, a, kids[at..])
    ensures FootAll(kids) == FootAll(kids[..at]) + FootAll(kids[at..])
    ensures Refs(kids)[..at] == Refs(kids[..at]) && Refs(kids)[at..] == Refs(kids[at..])
  {
    hide Stored, FootAll;
    assert kids == kids[..at] + kids[at..];
    StoredConcat(v, a, kids[..at], kids[at..]);
    FootConcat(kids[..at], kids[at..]);
    SplitRefs(kids, at);
  }

  lemma HalvesAreValid(children: seq<ChildRef>, at: nat)
    requires ValidChildRefs(children) && 1 <= at < |children|
    ensures ValidChildRefs(children[..at]) && ValidChildRefs(children[at..])
  {
    hide Less;
    forall i | 0 <= i < |children[at..]| - 1
      ensures Less(children[at..][i].minKey, children[at..][i + 1].minKey)
    {
      assert Less(children[at + i].minKey, children[at + i + 1].minKey);
    }
  }

  /** The separators stored so far, beside the children they belong to. */
  ghost predicate Separators(v0: View, a0: Alloc, v: View, a: Alloc, kids: seq<Tree>, blobs: seq<Blob>) {
    && Progressed(v0, a0, v, a)
    && Stored(v0, a0, kids) && Stored(v, a, kids)
    && |blobs| <= |kids|
    && (forall i :: 0 <= i < |blobs| ==>
          && BlobHolds(v.pages, blobs[i], MAX_TREE_KEY_BYTES)
          && Canonical(blobs[i]) && blobs[i].bytes == First(kids[i]))
    && Within(BlobsFoot(blobs), multiset{}, a0, a)
    && Avoids(BlobsFoot(blobs), a)
  }

  lemma NoSeparators(v: View, a: Alloc, kids: seq<Tree>)
    requires Stored(v, a, kids)
    ensures Separators(v, a, v, a, kids, [])
  {
    WithinNone(a, a);
    ProgressedSelf(v, a);
  }

  lemma BlobsSurvive(v0: View, a0: Alloc, v1: View, a1: Alloc, blobs: seq<Blob>, limit: nat)
    requires Progressed(v0, a0, v1, a1) && Avoids(BlobsFoot(blobs), a0)
    requires forall i :: 0 <= i < |blobs| ==> BlobHolds(v0.pages, blobs[i], limit)
    ensures Avoids(BlobsFoot(blobs), a1)
    ensures forall i :: 0 <= i < |blobs| ==> BlobHolds(v1.pages, blobs[i], limit)
  {
    hide Progressed, Avoids, Keeps, BlobHolds, BlobsFoot;
    ProgressedKeeps(v0, a0, v1, a1, BlobsFoot(blobs));
    forall i | 0 <= i < |blobs|
      ensures BlobHolds(v1.pages, blobs[i], limit)
    {
      BlobFootPart(blobs, i);
      KeepsPart(v0.pages, v1.pages, multiset(blobs[i].chain), BlobsFoot(blobs));
      BlobFrame(v0.pages, v1.pages, blobs[i], limit);
    }
  }

  lemma NextSeparator(v0: View, a0: Alloc, v1: View, a1: Alloc, v2: View, a2: Alloc, kids: seq<Tree>,
                      blobs: seq<Blob>, blob: Blob)
    requires Separators(v0, a0, v1, a1, kids, blobs) && |blobs| < |kids|
    requires Progressed(v1, a1, v2, a2)
    requires blob.bytes == First(kids[|blobs|]) && Canonical(blob)
    requires BlobHolds(v2.pages, blob, MAX_TREE_KEY_BYTES) && Within(multiset(blob.chain), multiset{}, a1, a2)
    ensures Separators(v0, a0, v2, a2, kids, blobs + [blob])
  {
    hide Avoids, Keeps, BlobHolds, BlobsFoot, Stored, Within, Canonical, First, Intact, Shrinks;
    StoredSurvives(v1, a1, v2, a2, kids);
    BlobsSurvive(v1, a1, v2, a2, blobs, MAX_TREE_KEY_BYTES);
    ProgressedTransitive(v0, a0, v1, a1, v2, a2);
    BlobsFootConcat(blobs, [blob]);
    BlobsFootOne(blob);
    WithinSum(BlobsFoot(blobs), multiset{}, multiset(blob.chain), a0, a1, a2);
    WithinNone(a0, a0);
    WithinAvoids(BlobsFoot(blobs + [blob]), multiset{}, a0, a2);
  }

  lemma SeparatorsFit(v0: View, a0: Alloc, v: View, a: Alloc, kids: seq<Tree>, blobs: seq<Blob>,
                      cells: seq<InternalCell>, children: seq<ChildRef>)
    requires Separators(v0, a0, v, a, kids, blobs) && children == Refs(kids) && Fit(ChildCosts(children))
    requires |blobs| == |kids| == |cells|
    requires forall j :: 0 <= j < |kids| ==> cells[j] == InternalCell(RefOf(blobs[j]), children[j].pageId)
    ensures cells == InternalCells(blobs, kids) && InternalCosts(cells) == ChildCosts(children)
  {
    hide Avoids, BlobHolds, BlobsFoot, Stored, Within, Canonical, First, Progressed, Fit, RefOf, SeparatorCost;
    assert cells == InternalCells(blobs, kids);
    PreviewIsExact(blobs, kids);
  }

  lemma NodeStored(v0: View, a0: Alloc, v1: View, a1: Alloc, v2: View, a2: Alloc, kids: seq<Tree>, blobs: seq<Blob>,
                   id: nat)
    requires Separators(v0, a0, v1, a1, kids, blobs) && |blobs| == |kids| && kids != []
    requires Progressed(v1, a1, v2, a2) && Taken(a1, a2, id)
    requires At(v2.pages, id, InternalPage(InternalCells(blobs, kids)))
    requires Fit(InternalCosts(InternalCells(blobs, kids)))
    ensures var node := Node(id, blobs, kids);
            && FreshNode(node, kids) && First(node) == First(kids[0]) && Stored(v2, a2, [node])
            && Within(Foot(node), FootAll(kids), a0, a2)
  {
    hide Avoids, Keeps, BlobHolds, BlobsFoot, Within, Canonical, First, Intact, Shrinks, Holds, Fit, FootAll;
    var node := Node(id, blobs, kids);
    StoredSurvives(v1, a1, v2, a2, kids);
    BlobsSurvive(v1, a1, v2, a2, blobs, MAX_TREE_KEY_BYTES);
    OneTaken(a1, a2, id);
    WithinSum(BlobsFoot(blobs), multiset{}, multiset{id}, a0, a1, a2);
    WithinNone(a0, a0);
    WithinRetained(FootAll(kids), a0, a2);
    NodeFoot(id, blobs, kids);
    ProgressedTransitive(v0, a0, v1, a1, v2, a2);
    WithinTaken(BlobsFoot(blobs) + multiset{id}, FootAll(kids), a0, a2);
    WithinAvoids(BlobsFoot(blobs) + multiset{id}, multiset{}, a0, a2);
    AvoidsSum(BlobsFoot(blobs) + multiset{id}, FootAll(kids), a2);
    FootOne(node);
    FirstOfNode(node);
    HoldsNode(v2.pages, node);
  }

  lemma NodeFoot(id: nat, blobs: seq<Blob>, kids: seq<Tree>)
    ensures Foot(Node(id, blobs, kids)) == BlobsFoot(blobs) + multiset{id} + FootAll(kids)
  {
  }

  lemma HoldsNode(pages: seq<PageImage>, node: Tree)
    requires node.Node? && |node.separators| == |node.kids|
    requires At(pages, node.id, InternalPage(InternalCells(node.separators, node.kids)))
    requires Fit(InternalCosts(InternalCells(node.separators, node.kids)))
    requires forall i :: 0 <= i < |node.kids| ==> BlobHolds(pages, node.separators[i], MAX_TREE_KEY_BYTES)
    requires forall i :: 0 <= i < |node.kids| ==> Holds(pages, node.kids[i])
    ensures Holds(pages, node)
  {
    hide BlobHolds, At, Fit;
  }

  /** Fresh pages next to retained ones. */
  lemma WithinTaken(taken: multiset<nat>, retained: multiset<nat>, a: Alloc, b: Alloc)
    requires Within(taken, multiset{}, a, b)
    ensures Within(taken + retained, retained, a, b)
  {
    forall id: nat ensures (taken + retained)[id] <= retained[id] + (if Taken(a, b, id) then 1 else 0) {
      assert (taken + retained)[id] == taken[id] + retained[id];
    }
  }

  // ---------- stored entries and levels ----------

  /** Entries whose overflow pages are committed and out of reach of later writes. */
  ghost predicate EntriesStored(v: View, a: Alloc, entries: seq<Entry>) {
    (forall i :: 0 <= i < |entries| ==> EntryHolds(v.pages, entries[i])) && Avoids(EntriesFoot(entries), a)
  }

  lemma EntriesSurvive(v0: View, a0: Alloc, v1: View, a1: Alloc, entries: seq<Entry>)
    requires EntriesStored(v0, a0, entries) && Progressed(v0, a0, v1, a1)
    ensures EntriesStored(v1, a1, entries)
  {
    hide EntryHolds, Progressed, Avoids, Keeps;
    ProgressedKeeps(v0, a0, v1, a1, EntriesFoot(entries));
    EntriesFrame(v0.pages, v1.pages, entries);
  }

  lemma EntriesStoredConcat(v: View, a: Alloc, left: seq<Entry>, right: seq<Entry>)
    requires EntriesStored(v, a, left + right)
    ensures EntriesStored(v, a, left) && EntriesStored(v, a, right)
    ensures EntriesFoot(left + right) == EntriesFoot(left) + EntriesFoot(right)
  {
    hide EntryHolds, Avoids, EntriesFoot;
    EntriesFootConcat(left, right);
    AvoidsSum(EntriesFoot(left), EntriesFoot(right), a);
    forall i | 0 <= i < |left| ensures EntryHolds(v.pages, left[i]) { assert (left + right)[i] == left[i]; }
    forall i | 0 <= i < |right| ensures EntryHolds(v.pages, right[i]) { assert (left + right)[|left| + i] == right[i]; }
  }

  lemma SplitModel(v: View, a: Alloc, model: seq<Entry>, at: nat)
    requires at <= |model| && EntriesStored(v, a, model)
    ensures EntriesStored(v, a, model[..at]) && EntriesStored(v, a, model[at..])
    ensures EntriesFoot(model) == EntriesFoot(model[..at]) + EntriesFoot(model[at..])
    ensures Decoded(model)[..at] == Decoded(model[..at]) && Decoded(model)[at..] == Decoded(model[at..])
  {
    hide EntriesStored, EntriesFoot, RefOf;
    assert model == model[..at] + model[at..];
    EntriesStoredConcat(v, a, model[..at], model[at..]);
  }

  lemma LeafStored(v0: View, a0: Alloc, v1: View, a1: Alloc, id: nat, model: seq<Entry>)
    requires EntriesStored(v0, a0, model) && Progressed(v0, a0, v1, a1)
    requires At(v1.pages, id, LeafPage(LeafCells(model))) && Fit(LeafCosts(LeafCells(model)))
    requires Taken(a0, a1, id)
    ensures Stored(v1, a1, [Leaf(id, model)])
    ensures Within(Foot(Leaf(id, model)), EntriesFoot(model), a0, a1)
  {
    hide EntryHolds, Progressed, Fit, LeafCost;
    EntriesSurvive(v0, a0, v1, a1, model);
    FootOne(Leaf(id, model));
    assert Foot(Leaf(id, model)) == multiset{id} + EntriesFoot(model);
    AvoidsSum(multiset{id}, EntriesFoot(model), a1);
    forall other: nat
      ensures (multiset{id} + EntriesFoot(model))[other]
           <= EntriesFoot(model)[other] + (if Taken(a0, a1, other) then 1 else 0)
    {
      assert multiset{id}[other] <= if other == id then 1 else 0;
    }
  }

  lemma FeasibleHalves(costs: seq<nat>, at: nat)
    requires Feasible(costs, at)
    ensures 1 <= at < |costs| && Fit(costs[..at]) && Fit(costs[at..])
  {
  }

  lemma LevelStored(v1: View, a1: Alloc, v2: View, a2: Alloc, left: Tree, right: Tree)
    requires Stored(v1, a1, [left]) && Progressed(v1, a1, v2, a2) && Stored(v2, a2, [right])
    ensures Stored(v2, a2, [left, right])
  {
    hide Stored, Progressed;
    StoredSurvives(v1, a1, v2, a2, [left]);
    StoredConcat(v2, a2, [left], [right]);
    assert [left] + [right] == [left, right];
  }

  lemma JoinRefs(left: Tree, right: Tree, l: ChildRef, r: ChildRef)
    requires [l] == Refs([left]) && [r] == Refs([right])
    ensures [l, r] == Refs([left, right])
  {
    hide First;
    assert [left][0] == left && [right][0] == right && [left, right][0] == left && [left, right][1] == right;
    assert l == [l][0] && r == [r][0];
  }

  lemma InlineIsWithin(a: Alloc)
    ensures var none: seq<nat> := []; Within(multiset(none), multiset{}, a, a)
  {
  }

  // ---------- one page write ----------

  lemma PoppedId(a0: Alloc, a1: Alloc, id: nat)
    requires WellFormed(a0) && a0.reusable != [] && id == a0.reusable[0]
    requires a1 == Alloc(a0.reusable[1..], a0.pageCount)
    ensures SUPERBLOCK_COUNT <= id < a0.pageCount && IsFree(a0, id) && !IsFree(a1, id)
    ensures WellFormed(a1) && Shrinks(a0, a1) && Taken(a0, a1, id)
  {
    assert a0.reusable == [id] + a1.reusable;
    forall i | 0 <= i < |a1.reusable| ensures a1.reusable[i] == a0.reusable[i + 1] {}
  }

  lemma RecycledLeavesIntact(v0: View, a0: Alloc, v1: View, id: nat)
    requires IsFree(a0, id) && v1.block == v0.block && |v1.pages| == |v0.pages|
    requires forall other: nat :: Committed(v0.pages, other) && other != id ==>
               v1.pages[other - SUPERBLOCK_COUNT] == v0.pages[other - SUPERBLOCK_COUNT]
    ensures Intact(v0, a0, v1)
  {
  }

  lemma RecycledProgress(v0: View, a0: Alloc, v1: View, a1: Alloc, id: nat, page: Page)
    requires Intact(v0, a0, v1) && Shrinks(a0, a1) && Committed(v0.pages, id)
    requires v1.pages == v0.pages[id - SUPERBLOCK_COUNT := Whole(page)]
    ensures Progressed(v0, a0, v1, a1) && At(v1.pages, id, page)
  {
  }

  lemma AppendedLeavesIntact(v0: View, a0: Alloc, v1: View, page: Page)
    requires v1.block.root == v0.block.root
    requires v1.pages == v0.pages || v1.pages == v0.pages + [Whole(page)]
    ensures Intact(v0, a0, v1)
  {
  }

  lemma AppendedProgress(v0: View, a0: Alloc, v1: View, a1: Alloc, page: Page)
    requires Intact(v0, a0, v1) && a0.reusable == [] && a0.pageCount == |v0.pages| + SUPERBLOCK_COUNT
    requires v1.pages == v0.pages + [Whole(page)]
    requires a1 == Alloc([], a0.pageCount + 1)
    ensures Progressed(v0, a0, v1, a1) && At(v1.pages, a0.pageCount, page) && Taken(a0, a1, a0.pageCount)
    ensures WellFormed(a1)
  {
  }

  // ---------- overflow chains written from the end ----------

  /** The chain written so far carries the bytes from `position` on. */
  ghost predicate Tail(v: View, a0: Alloc, a: Alloc, chain: seq<nat>, bytes: seq<byte>, position: nat, next: nat) {
    && position <= |bytes|
    && Within(multiset(chain), multiset{}, a0, a) && Shrinks(a0, a)
    && (position > 0 ==> |bytes| - position == |chain| * OVERFLOW_CELL_CAPACITY)
    && (chain == [] <==> position == |bytes|)
    && (chain == [] ==> next == ROOT_NONE)
    && (chain != [] ==> next == chain[0] < a.pageCount && ChainHolds(v.pages, chain, bytes[position..]))
  }

  lemma NoChain(v: View, a: Alloc, bytes: seq<byte>)
    ensures Tail(v, a, a, [], bytes, |bytes|, ROOT_NONE)
  {
  }

  /** As long as bytes are left, the chain written so far is shorter than the whole one. */
  lemma ChunksAhead(v: View, a0: Alloc, a: Alloc, chain: seq<nat>, bytes: seq<byte>, position: nat, next: nat)
    requires Tail(v, a0, a, chain, bytes, position, next)
    ensures position > 0 ==> |chain| + 1 <= ChunkCount(|bytes|)
  {
  }

  lemma {:induction false} ChainCount(pages: seq<PageImage>, chain: seq<nat>, bytes: seq<byte>)
    requires ChainHolds(pages, chain, bytes)
    ensures |chain| == ChunkCount(|bytes|)
  {
  }

  lemma ChunkIsSane(v: View, a0: Alloc, a: Alloc, chain: seq<nat>, bytes: seq<byte>, start: nat, position: nat,
                    next: nat)
    requires Tail(v, a0, a, chain, bytes, position, next)
    requires start < position && position - start <= OVERFLOW_CELL_CAPACITY && a.pageCount >= SUPERBLOCK_COUNT
    ensures Sane(OverflowPage(bytes[start..position], next), a.pageCount)
  {
  }

  lemma ExtendTail(v: View, a0: Alloc, a: Alloc, v': View, a': Alloc, chain: seq<nat>, bytes: seq<byte>, start: nat,
                   position: nat, next: nat, id: nat)
    requires Tail(v, a0, a, chain, bytes, position, next) && Progressed(v, a, v', a')
    requires start == if position > OVERFLOW_CELL_CAPACITY then position - OVERFLOW_CELL_CAPACITY else 0
    requires start < position <= |bytes|
    requires At(v'.pages, id, OverflowPage(bytes[start..position], next))
    requires Taken(a, a', id) && id < a'.pageCount
    ensures Tail(v', a0, a', [id] + chain, bytes, start, id)
  {
    hide ChainHolds, IsFree, Keeps;
    if chain != [] {
      WithinAvoids(multiset(chain), multiset{}, a0, a);
      ProgressedKeeps(v, a, v', a', multiset(chain));
      ChainFrame(v.pages, v'.pages, chain, bytes[position..]);
    }
    ExtendChain(v'.pages, id, chain, bytes, start, position);
    OneTaken(a, a', id);
    WithinCompose(multiset(chain), multiset{}, multiset{id}, multiset{}, a0, a, a');
    assert multiset([id] + chain) == multiset(chain) + multiset{id};
  }

  lemma WholeTail(v: View, a0: Alloc, a: Alloc, chain: seq<nat>, bytes: seq<byte>, next: nat)
    requires Tail(v, a0, a, chain, bytes, 0, next) && bytes != []
    ensures ChainHolds(v.pages, chain, bytes) && chain != [] && next == chain[0]
    ensures Within(multiset(chain), multiset{}, a0, a)
  {
    assert bytes[0..] == bytes;
  }

  lemma ExtendChain(pages: seq<PageImage>, id: nat, chain: seq<nat>, bytes: seq<byte>, start: nat, position: nat)
    requires start < position <= |bytes|
    requires start == if position > OVERFLOW_CELL_CAPACITY then position - OVERFLOW_CELL_CAPACITY else 0
    requires |bytes| - position == |chain| * OVERFLOW_CELL_CAPACITY
    requires At(pages, id, OverflowPage(bytes[start..position], if chain == [] then ROOT_NONE else chain[0]))
    requires chain != [] ==> ChainHolds(pages, chain, bytes[position..])
    requires chain == [] ==> position == |bytes|
    ensures ChainHolds(pages, [id] + chain, bytes[start..])
  {
    var rest := bytes[start..];
    assert rest[..position - start] == bytes[start..position];
    assert rest[position - start..] == bytes[position..];
    assert ([id] + chain)[1..] == chain;
    assert FirstChunk(|rest|, |chain| + 1) == position - start;
  }

  // ---------- whole runs ----------

  lemma RecoveredCount(slots: Slots, pages: seq<PageImage>, tail: nat)
    requires Recover(slots, pages, tail).Some?
    ensures var view := Recover(slots, pages, tail).value; view.block.pageCount == |view.pages| + SUPERBLOCK_COUNT
  {
  }

  /** What happens to a page file: a put on the current handle, or a new handle with a fault armed. */
  datatype FileEvent = Attempt(pair: Pair) | Reopening(fault: Option<Fault>)

  /** The pairs of those puts that took effect, in order. */
  function Kept(events: seq<FileEvent>, applied: seq<bool>): seq<Pair>
    requires |events| == |applied|
    decreases |events|
  {
    if events == [] then []
    else
      var last := |events| - 1;
      var front := Kept(events[..last], applied[..last]);
      if applied[last] && events[last].Attempt? then front + [events[last].pair] else front
  }

  lemma KeptNext(events: seq<FileEvent>, n: nat, applied: seq<bool>, now: bool)
    requires |applied| == n < |events|
    ensures var before, after := Kept(events[..n], applied), Kept(events[..n + 1], applied + [now]);
            MapOf(after) == if now && events[n].Attempt? then MapOf(before)[events[n].pair.key := events[n].pair.value]
                            else MapOf(before)
  {
    hide MapOf;
    var shown, kept := events[..n + 1], applied + [now];
    assert shown[..n] == events[..n] && kept[..n] == applied && shown[n] == events[n] && kept[n] == now;
    if events[n].Attempt? { MapOfNext(Kept(events[..n], applied), events[n].pair); }
  }

  lemma MapOfNext(pairs: seq<Pair>, pair: Pair)
    ensures MapOf(pairs + [pair]) == MapOf(pairs)[pair.key := pair.value]
  {
    assert (pairs + [pair])[..|pairs|] == pairs;
  }

  /** A put that failed after taking effect is the last one to take effect before the file is reopened. */
  predicate OnlyLastUnacknowledged(events: seq<FileEvent>, acknowledged: seq<bool>, applied: seq<bool>)
    requires |acknowledged| == |applied| <= |events|
  {
    forall i, j :: 0 <= i < j < |applied| && applied[i] && !acknowledged[i] && applied[j] ==>
      ReopenedBetween(events, i, j)
  }

  predicate ReopenedBetween(events: seq<FileEvent>, i: nat, j: nat)
    requires i < j < |events|
  {
    exists k :: i < k < j && events[k].Reopening?
  }

  /** Since event `i` the handle has not been replaced. */
  predicate SameHandle(events: seq<FileEvent>, i: nat, n: nat)
    requires n <= |events|
  {
    forall k :: i < k < n ==> !events[k].Reopening?
  }

  /** Every acknowledged put took effect, and an unacknowledged one only on a handle it poisoned. */
  predicate Ledgered(events: seq<FileEvent>, acknowledged: seq<bool>, applied: seq<bool>, poisoned: bool) {
    && |acknowledged| == |applied| <= |events|
    && (forall i :: 0 <= i < |applied| && acknowledged[i] ==> applied[i])
    && OnlyLastUnacknowledged(events, acknowledged, applied)
    && forall i :: 0 <= i < |applied| && applied[i] && !acknowledged[i] && SameHandle(events, i, |applied|) ==> poisoned
  }

  lemma NextIsLedgered(events: seq<FileEvent>, acknowledged: seq<bool>, applied: seq<bool>, ok: bool, now: bool,
                       before: bool, after: bool)
    requires Ledgered(events, acknowledged, applied, before) && |applied| < |events| && (ok ==> now)
    requires events[|applied|].Attempt? ==> (before ==> after && !now) && (now && !ok ==> after)
    requires events[|applied|].Reopening? ==> !now
    ensures Ledgered(events, acknowledged + [ok], applied + [now], after)
  {
    var n := |applied|;
    var acks, applies := acknowledged + [ok], applied + [now];
    forall i, j | 0 <= i < j < |applies| && applies[i] && !acks[i] && applies[j]
      ensures ReopenedBetween(events, i, j)
    {
      if j < n {
        assert applied[i] && !acknowledged[i] && applied[j];
      } else {
        assert SameHandle(events, i, n) || ReopenedBetween(events, i, n);
      }
    }
    forall i | 0 <= i < |applies| && applies[i] && !acks[i] && SameHandle(events, i, |applies|)
      ensures after
    {
      if i < n {
        assert SameHandle(events, i, n);
        assert applied[i] && !acknowledged[i];
        assert !events[n].Reopening?;
      }
    }
  }

  lemma LedgerSays(events: seq<FileEvent>, acknowledged: seq<bool>, applied: seq<bool>, poisoned: bool)
    requires Ledgered(events, acknowledged, applied, poisoned)
    ensures |acknowledged| == |applied| <= |events| && OnlyLastUnacknowledged(events, acknowledged, applied)
    ensures forall i :: 0 <= i < |applied| && acknowledged[i] ==> applied[i]
  {
  }

  /** One put of a run, and whether it took effect. */
  method AttemptPut(tree: BPlusTree, pair: Pair) returns (ok: bool, ghost now: bool)
    requires tree.Published()
    modifies tree`reusable, tree.pager, tree.pager.file, tree.pager.cache
    ensures tree.Published() && (ok ==> now) && (now && !ok ==> tree.pager.poisoned)
    ensures old(tree.pager.poisoned) ==> tree.pager.poisoned && !now
    ensures Denoted(tree.View()) == Some(if now then old(Denoted(tree.View())).value[pair.key := pair.value]
                                         else old(Denoted(tree.View())).value)
    ensures ModestPair(pair.key, pair.value) && old(ModestStore(tree.View())) ==> ModestStore(tree.View())
  {
    hide Recover, Denoted, Acceptable, ModestPair, ModestStore, SameTree, Coherent, Choose, WellFormed, Foretold;
    ghost var before := tree.View();
    var previous := tree.Put(pair.key, pair.value);
    ok := previous.Ok?;
    now := ok || !SameTree(before, tree.View());
  }

  /** A new handle on the file of an old one, with a fault armed; refused exactly when the tree is not acceptable. */
  method OpenAgain(tree: BPlusTree, capacity: nat, fault: Option<Fault>) returns (r: Option<BPlusTree>)
    requires tree.Published() && capacity > 0
    modifies tree.pager.file
    ensures var file := tree.pager.file;
            Recover(file.slots, file.pages, file.tail) == Some(old(tree.View()))
    ensures r.None? <==> !Acceptable(old(tree.View()))
    ensures r.Some? ==>
              && fresh(r.value) && fresh(r.value.pager) && fresh(r.value.pager.cache)
              && r.value.pager.file == tree.pager.file && !r.value.pager.poisoned
              && r.value.Published() && r.value.View() == old(tree.View())
  {
    hide Recover, Denoted, Acceptable, Coherent, Choose, WellFormed;
    var file := tree.pager.file;
    RecoveredCount(file.slots, file.pages, file.tail);
    var reopened := BPlusTree.Open(file, capacity);
    if reopened.Err? {
      return None;
    }
    reopened.value.pager.fault := fault;
    return Some(reopened.value);
  }

  /**
   * Any run on a new file: puts of any size, any number of handles, each with a fault that may strike anywhere in
   * its durable writes. The file always denotes the map of the puts that took effect: every acknowledged one, and
   * for each handle at most one more, its last. A run is cut short only by a reopening that finds a stranded child,
   * which no put within the size premise leaves behind.
   */
  method CrashRun(file: PageFile, capacity: nat, events: seq<FileEvent>)
      returns (done: nat, acknowledged: seq<bool>, ghost applied: seq<bool>)
    requires capacity > 0 && file.pages == [] && file.tail == 0
    modifies file
    ensures done == |acknowledged| == |applied| <= |events|
    ensures forall i :: 0 <= i < done && acknowledged[i] ==> applied[i]
    ensures OnlyLastUnacknowledged(events, acknowledged, applied)
    ensures var view := Recover(file.slots, file.pages, file.tail);
            && view.Some? && Denoted(view.value) == Some(MapOf(Kept(events[..done], applied)))
            && (done < |events| ==> events[done].Reopening? && !Acceptable(view.value))
    ensures AllModestPairs(events) ==> done == |events|
  {
    hide *;
    var tree := new BPlusTree.CreateNew(file, capacity);
    done, acknowledged, applied := 0, [], [];
    ghost var poisoned := tree.pager.poisoned;
    EmptyRun(events, tree.View(), poisoned);
    while done < |events|
      invariant done == |acknowledged| == |applied| <= |events|
      invariant tree.pager.file == file && fresh(tree) && fresh(tree.pager) && fresh(tree.pager.cache)
      invariant tree.Published() && (AllModestPairs(events) ==> ModestStore(tree.View()))
      invariant Denoted(tree.View()) == Some(MapOf(Kept(events[..done], applied)))
      invariant poisoned == tree.pager.poisoned && Ledgered(events, acknowledged, applied, poisoned)
    {
      LedgerSays(events, acknowledged, applied, poisoned);
      NotModest(tree.View());
      var ok := false;
      ghost var now := false;
      ghost var before := poisoned;
      match events[done] {
        case Attempt(pair) =>
          ModestAttempt(events, done);
          ok, now := AttemptPut(tree, pair);
        case Reopening(fault) =>
          var reopened := OpenAgain(tree, capacity, fault);
          if reopened.None? {
            return;
          }
          tree := reopened.value;
      }
      poisoned := tree.pager.poisoned;
      KeptNext(events, done, applied, now);
      NextIsLedgered(events, acknowledged, applied, ok, now, before, poisoned);
      done, acknowledged, applied := done + 1, acknowledged + [ok], applied + [now];
    }
    LedgerSays(events, acknowledged, applied, poisoned);
    PublishedIsRecovered(tree);
  }

  predicate AllModestPairs(events: seq<FileEvent>) {
    forall i :: 0 <= i < |events| && events[i].Attempt? ==> ModestPair(events[i].pair.key, events[i].pair.value)
  }

  lemma ModestAttempt(events: seq<FileEvent>, i: nat)
    requires i < |events| && events[i].Attempt?
    ensures AllModestPairs(events) ==> ModestPair(events[i].pair.key, events[i].pair.value)
  {
    hide ModestPair;
  }

  lemma PublishedIsRecovered(tree: BPlusTree)
    requires tree.Published()
    ensures var file := tree.pager.file; Recover(file.slots, file.pages, file.tail) == Some(tree.View())
  {
    hide Recover, Denoted;
  }

  lemma EmptyRun(events: seq<FileEvent>, v: View, poisoned: bool)
    requires v.block.root == ROOT_NONE
    ensures Ledgered(events, [], [], poisoned) && MapOf(Kept(events[..0], [])) == map[] && ModestStore(v)
  {
    EmptyMap();
  }
}
