/** Read paths over a pager: overflow chains, node decoding, and the reachability check of reopening. */
module TreeReader {
  import opened Options
  import opened Bytes
  import opened SplitArithmetic
  import opened BtreePages
  import opened Superblocks
  import opened PageStore
  import opened TreeModel
  import opened TreeParse

  /** `StoredKey`: the key bytes and how a cell refers to them. */
  datatype StoredKey = StoredKey(bytes: Key, ref: Ref)

  datatype LeafEntry = LeafEntry(key: StoredKey, value: Ref)

  datatype ChildRef = ChildRef(minKey: Key, pageId: nat)

  datatype SubtreeBounds = SubtreeBounds(minKey: Key, maxKey: Key, height: nat)

  function KeyOf(blob: Blob): (key: StoredKey)
    ensures key.bytes == blob.bytes
  {
    StoredKey(blob.bytes, RefOf(blob))
  }

  function Visited(seen: Option<set<nat>>): (ids: set<nat>)
    ensures ids == if seen.None? then {} else seen.value
  {
    if seen.None? then {} else seen.value
  }

  ghost function Marked(seen: Option<set<nat>>, foot: multiset<nat>): (after: Option<set<nat>>)
    ensures seen.Some? ==> after == Some(Grown(seen.value, foot))
  {
    if seen.None? then None else Some(Grown(seen.value, foot))
  }

  // ---------- overflow chains ----------

  /** A chain that revisits a page is not distinct. */
  lemma RepeatIsNotDistinct(visited: seq<nat>, id: nat, rest: seq<nat>, seen: set<nat>)
    requires rest != [] && rest[0] == id
    requires id in Grown(seen, multiset(visited))
    ensures !Distinct(multiset(visited + rest), seen)
  {
    assert multiset(visited + rest) == multiset(visited) + multiset(rest);
    DistinctParts(multiset(visited), multiset(rest), seen);
    assert id in multiset(rest);
  }

  lemma VisitNext(visited: seq<nat>, id: nat, seen: set<nat>)
    requires Distinct(multiset(visited), seen) && id !in Grown(seen, multiset(visited))
    ensures Distinct(multiset(visited + [id]), seen)
    ensures Grown(seen, multiset(visited + [id])) == Grown(seen, multiset(visited)) + {id}
  {
    assert multiset(visited + [id]) == multiset(visited) + multiset{id};
    DistinctParts(multiset(visited), multiset{id}, seen);
    DistinctOne(id, Grown(seen, multiset(visited)));
  }

  lemma GrownMembers(a: set<nat>, b: set<nat>, foot: multiset<nat>)
    requires a <= b
    ensures Grown(a, foot) <= Grown(b, foot)
  {
  }

  /** What is left of the chain `whole` after reading `output` from `visited`. */
  predicate OnChain(pages: seq<PageImage>, whole: Option<Blob>, current: nat, left: nat, remaining: nat,
                    output: seq<byte>, visited: seq<nat>) {
    whole == Continued(output, visited, ParseChain(pages, current, left, remaining))
  }

  /** The local cycle check and the caller's reachability set both record `visited`, without a repeat. */
  ghost predicate Marks(visited: seq<nat>, local: set<nat>, seen: Option<set<nat>>, seen': Option<set<nat>>) {
    && local == Grown({}, multiset(visited)) && seen' == Marked(seen, multiset(visited))
    && Distinct(multiset(visited), Visited(seen))
  }

  /** `read_overflow_blob`: reads a chain exactly when it is canonical and visits no page twice. */
  method ReadOverflowBlob(pager: Pager, first: nat, length: nat, seen: Option<set<nat>>, limit: nat)
      returns (r: Result<seq<byte>>, seen': Option<set<nat>>)
    requires pager.Valid()
    modifies pager.cache
    ensures pager.Valid()
    ensures var blob := ParseRef(pager.file.pages, Overflow(length, first), limit);
            && (r.Ok? <==> !pager.poisoned && blob.Some? && Distinct(multiset(blob.value.chain), Visited(seen)))
            && (r.Ok? ==> r.value == blob.value.bytes && seen' == Marked(seen, multiset(blob.value.chain)))
  {
    hide ReadableAt, Distinct, Grown, At, ParseChain, Pager.Valid, OnChain, Marks;
    seen' := seen;
    if length == 0 || length > limit {
      return Err(Corruption), seen';
    }
    var count := ChainPages(length);
    var firstChunk := length - (count - 1) * OVERFLOW_CELL_CAPACITY;
    var current := first;
    var local: set<nat> := {};
    var output: seq<byte> := [];
    ghost var visited: seq<nat> := [];
    ghost var pages := pager.file.pages;
    ghost var whole := ParseChain(pages, first, count, length);
    var index := 0;
    StartOfChain(pages, first, count, length, seen);
    while index < count
      invariant 0 <= index <= count && |output| <= length
      invariant pager.Valid() && pager.file.pages == pages
      invariant length - |output| == if index == 0 then length else (count - index) * OVERFLOW_CELL_CAPACITY
      invariant index > 0 ==> !pager.poisoned
      invariant Marks(visited, local, seen, seen')
      invariant OnChain(pages, whole, current, count - index, length - |output|, output, visited)
    {
      if current == ROOT_NONE || current in local || (seen'.Some? && current in seen'.value) {
        NextIsRefused(pages, whole, current, count - index, length - |output|, output, visited, local, seen, seen');
        return Err(Corruption), seen';
      }
      MarkNext(visited, current, local, seen, seen');
      local := local + {current};
      seen' := if seen'.Some? then Some(seen'.value + {current}) else None;
      NextOnChain(pages, whole, current, count - index, length - |output|, output, visited);
      var page := pager.ReadPage(current);
      if page.Err? {
        return Err(page.error), seen';
      }
      if !page.value.OverflowPage? {
        return Err(Corruption), seen';
      }
      var expected := if index == 0 then firstChunk else OVERFLOW_CELL_CAPACITY;
      assert expected == FirstChunk(length - |output|, count - index);
      if |page.value.chunk| != expected {
        return Err(Corruption), seen';
      }
      output := output + page.value.chunk;
      visited := visited + [current];
      current := page.value.next;
      index := index + 1;
    }
    EndOfChain(pages, whole, current, length - |output|, output, visited);
    AllMarked(visited, local, seen, seen');
    if current != ROOT_NONE {
      return Err(Corruption), seen';
    }
    return Ok(output), seen';
  }

  lemma StartOfChain(pages: seq<PageImage>, first: nat, count: nat, length: nat, seen: Option<set<nat>>)
    ensures OnChain(pages, ParseChain(pages, first, count, length), first, count, length, [], [])
    ensures Marks([], {}, seen, seen)
  {
    var whole := ParseChain(pages, first, count, length);
    if whole.Some? {
      assert [] + whole.value.bytes == whole.value.bytes && [] + whole.value.chain == whole.value.chain;
    }
    var none: seq<nat> := [];
    assert multiset(none) == multiset{};
    DistinctNone({});
    DistinctNone(Visited(seen));
  }

  lemma NextOnChain(pages: seq<PageImage>, whole: Option<Blob>, current: nat, left: nat, remaining: nat,
                    output: seq<byte>, visited: seq<nat>)
    requires left > 0 && OnChain(pages, whole, current, left, remaining, output, visited)
    ensures !ReadableAt(pages, current) ==> whole.None?
    ensures forall page :: ReadableAt(pages, current) && At(pages, current, page) ==>
              if !page.OverflowPage? || |page.chunk| != FirstChunk(remaining, left) then whole.None?
              else OnChain(pages, whole, page.next, left - 1, remaining - |page.chunk|, output + page.chunk,
                           visited + [current])
  {
    hide ReadableAt;
    forall page | ReadableAt(pages, current) && At(pages, current, page) && page.OverflowPage?
                  && |page.chunk| == FirstChunk(remaining, left)
      ensures OnChain(pages, whole, page.next, left - 1, remaining - |page.chunk|, output + page.chunk,
                      visited + [current])
    {
      var rest := ParseChain(pages, page.next, left - 1, remaining - |page.chunk|);
      if rest.Some? {
        assert output + (page.chunk + rest.value.bytes) == output + page.chunk + rest.value.bytes;
        assert visited + ([current] + rest.value.chain) == visited + [current] + rest.value.chain;
      }
    }
  }

  lemma EndOfChain(pages: seq<PageImage>, whole: Option<Blob>, current: nat, remaining: nat, output: seq<byte>,
                   visited: seq<nat>)
    requires OnChain(pages, whole, current, 0, remaining, output, visited)
    ensures whole == if current == ROOT_NONE then Some(Blob(output, visited)) else None
  {
    assert output + [] == output && visited + [] == visited;
  }

  /** Ending early or meeting a marked page means the chain is not acceptable. */
  lemma NextIsRefused(pages: seq<PageImage>, whole: Option<Blob>, current: nat, left: nat, remaining: nat,
                      output: seq<byte>, visited: seq<nat>, local: set<nat>, seen: Option<set<nat>>,
                      seen': Option<set<nat>>)
    requires left > 0 && OnChain(pages, whole, current, left, remaining, output, visited)
    requires Marks(visited, local, seen, seen')
    requires current == ROOT_NONE || current in local || (seen'.Some? && current in seen'.value)
    ensures whole.Some? ==> !Distinct(multiset(whole.value.chain), Visited(seen))
  {
    var rest := ParseChain(pages, current, left, remaining);
    if rest.Some? {
      ParseChainHolds(pages, current, left, remaining);
      GrownMembers({}, Visited(seen), multiset(visited));
      RepeatIsNotDistinct(visited, current, rest.value.chain, Visited(seen));
    }
  }

  lemma MarkNext(visited: seq<nat>, id: nat, local: set<nat>, seen: Option<set<nat>>, seen': Option<set<nat>>)
    requires Marks(visited, local, seen, seen')
    requires id !in local && (seen'.Some? ==> id !in seen'.value)
    ensures Marks(visited + [id], local + {id}, seen, if seen'.Some? then Some(seen'.value + {id}) else None)
  {
    hide Distinct, Grown;
    SubsetDistinct(multiset(visited), Visited(seen));
    VisitNext(visited, id, {});
    VisitNext(visited, id, Visited(seen));
  }

  lemma AllMarked(visited: seq<nat>, local: set<nat>, seen: Option<set<nat>>, seen': Option<set<nat>>)
    requires Marks(visited, local, seen, seen')
    ensures Distinct(multiset(visited), Visited(seen)) && seen' == Marked(seen, multiset(visited))
  {
  }

  lemma SubsetDistinct(foot: multiset<nat>, seen: set<nat>)
    requires Distinct(foot, seen)
    ensures Distinct(foot, {})
  {
  }

  // ---------- reading the blobs of one page ----------

  /** The first blobs of `refs` are read and their pages marked. */
  ghost predicate BlobsRead(pages: seq<PageImage>, refs: seq<Ref>, limit: nat, blobs: seq<Blob>,
                            seen: Option<set<nat>>, seen': Option<set<nat>>) {
    && |blobs| <= |refs|
    && (forall i :: 0 <= i < |blobs| ==> ParseRef(pages, refs[i], limit) == Some(blobs[i]))
    && (seen.Some? ==> Distinct(BlobsFoot(blobs), seen.value))
    && seen' == Marked(seen, BlobsFoot(blobs))
  }

  /** All of `refs` can be read, and no page of theirs was visited before. */
  ghost predicate Readable(pages: seq<PageImage>, refs: seq<Ref>, limit: nat, seen: set<nat>) {
    BlobsParse(pages, refs, limit) && Distinct(BlobsFoot(BlobsAt(pages, refs, limit)), seen)
  }

  ghost predicate RefReadable(pages: seq<PageImage>, ref: Ref, limit: nat, seen: set<nat>) {
    var blob := ParseRef(pages, ref, limit);
    blob.Some? && Distinct(multiset(blob.value.chain), seen)
  }

  lemma {:induction false} BlobsFootConcat(a: seq<Blob>, b: seq<Blob>)
    ensures BlobsFoot(a + b) == BlobsFoot(a) + BlobsFoot(b)
    decreases |a|
  {
    if a == [] {
      assert a + b == b;
    } else {
      assert (a + b)[1..] == a[1..] + b;
      BlobsFootConcat(a[1..], b);
    }
  }

  lemma BlobsFootOne(blob: Blob)
    ensures BlobsFoot([blob]) == multiset(blob.chain)
  {
    assert [blob][1..] == [];
    assert BlobsFoot([blob][1..]) == multiset{};
  }

  lemma NoBlobsRead(pages: seq<PageImage>, refs: seq<Ref>, limit: nat, seen: Option<set<nat>>)
    ensures BlobsRead(pages, refs, limit, [], seen, seen)
  {
    DistinctNone(Visited(seen));
  }

  lemma NextBlobRead(pages: seq<PageImage>, refs: seq<Ref>, limit: nat, blobs: seq<Blob>, seen: Option<set<nat>>,
                     seen': Option<set<nat>>)
    requires BlobsRead(pages, refs, limit, blobs, seen, seen') && |blobs| < |refs|
    requires RefReadable(pages, refs[|blobs|], limit, Visited(seen'))
    ensures var blob := ParseRef(pages, refs[|blobs|], limit).value;
            BlobsRead(pages, refs, limit, blobs + [blob], seen, Marked(seen', multiset(blob.chain)))
  {
    hide Distinct, Grown, ParseRef;
    var blob := ParseRef(pages, refs[|blobs|], limit).value;
    BlobsFootConcat(blobs, [blob]);
    BlobsFootOne(blob);
    if seen.Some? { DistinctParts(BlobsFoot(blobs), multiset(blob.chain), seen.value); }
  }

  lemma BlobRefused(pages: seq<PageImage>, refs: seq<Ref>, limit: nat, blobs: seq<Blob>, seen: Option<set<nat>>,
                    seen': Option<set<nat>>)
    requires BlobsRead(pages, refs, limit, blobs, seen, seen') && |blobs| < |refs|
    requires !RefReadable(pages, refs[|blobs|], limit, Visited(seen'))
    ensures !Readable(pages, refs, limit, Visited(seen))
  {
    hide Distinct, Grown, ParseRef;
    if Readable(pages, refs, limit, Visited(seen)) {
      var all := BlobsAt(pages, refs, limit);
      var blob := all[|blobs|];
      assert all == blobs + ([blob] + all[|blobs| + 1..]);
      BlobsFootConcat(blobs, [blob] + all[|blobs| + 1..]);
      BlobsFootConcat([blob], all[|blobs| + 1..]);
      BlobsFootOne(blob);
      var rest := BlobsFoot(all[|blobs| + 1..]);
      DistinctParts(BlobsFoot(blobs), multiset(blob.chain) + rest, Visited(seen));
      DistinctParts(multiset(blob.chain), rest, Grown(Visited(seen), BlobsFoot(blobs)));
      if seen.None? { SubsetDistinct(multiset(blob.chain), Grown({}, BlobsFoot(blobs))); }
    }
  }

  lemma AllBlobsRead(pages: seq<PageImage>, refs: seq<Ref>, limit: nat, blobs: seq<Blob>, seen: Option<set<nat>>,
                     seen': Option<set<nat>>)
    requires BlobsRead(pages, refs, limit, blobs, seen, seen') && |blobs| == |refs|
    ensures BlobsParse(pages, refs, limit) && blobs == BlobsAt(pages, refs, limit)
    ensures seen' == Marked(seen, BlobsFoot(blobs))
    ensures seen.Some? ==> Readable(pages, refs, limit, seen.value)
  {
    hide Distinct, Grown, ParseRef;
  }

  /** The key of a cell, inline or through `load_key_blob`. */
  method LoadKey(pager: Pager, ref: Ref, seen: Option<set<nat>>) returns (r: Result<StoredKey>, seen': Option<set<nat>>)
    requires pager.Valid() && !pager.poisoned
    modifies pager.cache
    ensures pager.Valid()
    ensures r.Ok? <==> RefReadable(pager.file.pages, ref, MAX_TREE_KEY_BYTES, Visited(seen))
    ensures r.Ok? ==>
              var blob := ParseRef(pager.file.pages, ref, MAX_TREE_KEY_BYTES);
              && blob.Some? && r.value == StoredKey(blob.value.bytes, ref)
              && seen' == Marked(seen, multiset(blob.value.chain))
  {
    hide Distinct, Grown, Pager.Valid, ParseChain;
    seen' := seen;
    if ref.Inline? {
      if |ref.bytes| > MAX_TREE_KEY_BYTES {
        return Err(Corruption), seen';
      }
      var none: seq<nat> := [];
      assert multiset(none) == multiset{};
      DistinctNone(Visited(seen));
      return Ok(StoredKey(ref.bytes, ref)), seen';
    }
    var bytes, after := ReadOverflowBlob(pager, ref.first, ref.length, seen, MAX_TREE_KEY_BYTES);
    assert ref == Overflow(ref.length, ref.first);
    if bytes.Err? {
      return Err(bytes.error), after;
    }
    return Ok(StoredKey(bytes.value, ref)), after;
  }

  // ---------- leaf and internal pages ----------

  predicate Increasing(blobs: seq<Blob>) {
    forall i :: 0 <= i < |blobs| - 1 ==> Less(blobs[i].bytes, blobs[i + 1].bytes)
  }

  predicate SaneValue(ref: Ref) {
    match ref
    case Inline(bytes) => |bytes| <= MAX_TREE_VALUE_BYTES
    case Overflow(length, first) => 0 < length <= MAX_TREE_VALUE_BYTES && first >= SUPERBLOCK_COUNT
  }

  predicate SaneValues(refs: seq<Ref>) {
    forall i :: 0 <= i < |refs| ==> SaneValue(refs[i])
  }

  /** The in-memory entries of a leaf whose keys are `keys`. */
  function DecodedLeaf(keys: seq<Blob>, cells: seq<LeafCell>): (entries: seq<LeafEntry>)
    requires |keys| == |cells|
    ensures |entries| == |cells|
    ensures forall i :: 0 <= i < |cells| ==>
              entries[i].key.bytes == keys[i].bytes && entries[i].value == cells[i].value
  {
    seq(|cells|, i requires 0 <= i < |cells| => LeafEntry(StoredKey(keys[i].bytes, cells[i].key), cells[i].value))
  }

  lemma LeafDecoded(keys: seq<Blob>, cells: seq<LeafCell>, entries: seq<LeafEntry>)
    requires |keys| == |cells| == |entries|
    requires forall j :: 0 <= j < |cells| ==>
               entries[j] == LeafEntry(StoredKey(keys[j].bytes, cells[j].key), cells[j].value)
    ensures entries == DecodedLeaf(keys, cells)
  {
  }

  ghost predicate LeafDecodes(pages: seq<PageImage>, cells: seq<LeafCell>, seen: set<nat>) {
    && Readable(pages, KeyRefs(cells), MAX_TREE_KEY_BYTES, seen)
    && Increasing(BlobsAt(pages, KeyRefs(cells), MAX_TREE_KEY_BYTES))
    && SaneValues(ValueRefs(cells))
  }

  /** `decode_leaf` and `validate_leaf_order`. */
  method DecodeLeaf(pager: Pager, cells: seq<LeafCell>, seen: Option<set<nat>>)
      returns (r: Result<seq<LeafEntry>>, seen': Option<set<nat>>)
    requires pager.Valid() && !pager.poisoned
    modifies pager.cache
    ensures pager.Valid()
    ensures LeafDecodes(pager.file.pages, cells, Visited(seen)) ==> r.Ok?
    ensures r.Ok? ==>
              && BlobsParse(pager.file.pages, KeyRefs(cells), MAX_TREE_KEY_BYTES)
              && var keys := BlobsAt(pager.file.pages, KeyRefs(cells), MAX_TREE_KEY_BYTES);
                 && r.value == DecodedLeaf(keys, cells) && Increasing(keys)
                 && SaneValues(ValueRefs(cells)) && seen' == Marked(seen, BlobsFoot(keys))
    ensures r.Ok? && seen.Some? ==> LeafDecodes(pager.file.pages, cells, seen.value)
  {
    hide BlobsRead, Readable, RefReadable, ParseRef, Marked, Pager.Valid, Less, KeyRefs, ValueRefs, BlobsParse,
      BlobsAt, BlobsFoot, SaneValue, Coherent, DecodedLeaf;
    var entries: seq<LeafEntry> := [];
    ghost var pages, refs, limit := pager.file.pages, KeyRefs(cells), MAX_TREE_KEY_BYTES;
    ghost var keys: seq<Blob> := [];
    seen' := seen;
    NoBlobsRead(pages, refs, limit, seen);
    var i := 0;
    while i < |cells|
      invariant 0 <= i <= |cells| && |keys| == i && |entries| == i
      invariant pager.Valid() && pager.file.pages == pages && !pager.poisoned
      invariant BlobsRead(pages, refs, limit, keys, seen, seen')
      invariant forall j :: 0 <= j < i ==>
                  entries[j] == LeafEntry(StoredKey(keys[j].bytes, cells[j].key), cells[j].value)
      invariant forall j :: 0 <= j < i ==> SaneValue(cells[j].value)
    {
      var key, after := LoadKey(pager, cells[i].key, seen');
      if key.Err? {
        BlobRefused(pages, refs, limit, keys, seen, seen');
        return Err(key.error), after;
      }
      if !SaneValue(cells[i].value) {
        assert !SaneValue(ValueRefs(cells)[i]);
        return Err(Corruption), after;
      }
      NextBlobRead(pages, refs, limit, keys, seen, seen');
      keys := keys + [ParseRef(pages, refs[i], limit).value];
      entries := entries + [LeafEntry(key.value, cells[i].value)];
      seen' := after;
      i := i + 1;
    }
    AllBlobsRead(pages, refs, limit, keys, seen, seen');
    LeafDecoded(keys, cells, entries);
    i := 1;
    while i < |entries|
      invariant 1 <= i
      invariant pager.Valid() && pager.file.pages == pages && !pager.poisoned
      invariant forall j :: 0 <= j < i - 1 && j < |entries| - 1 ==> Less(keys[j].bytes, keys[j + 1].bytes)
    {
      if !Less(entries[i - 1].key.bytes, entries[i].key.bytes) {
        assert !Less(keys[i - 1].bytes, keys[i - 1 + 1].bytes);
        return Err(Corruption), seen';
      }
      i := i + 1;
    }
    return Ok(entries), seen';
  }

  function DecodedInternal(keys: seq<Blob>, cells: seq<InternalCell>): (children: seq<ChildRef>)
    requires |keys| == |cells|
    ensures |children| == |cells|
    ensures forall i :: 0 <= i < |cells| ==> children[i] == ChildRef(keys[i].bytes, cells[i].child)
  {
    seq(|cells|, i requires 0 <= i < |cells| => ChildRef(keys[i].bytes, cells[i].child))
  }

  ghost predicate InternalDecodes(pages: seq<PageImage>, cells: seq<InternalCell>, seen: set<nat>) {
    && cells != []
    && Readable(pages, SeparatorRefs(cells), MAX_TREE_KEY_BYTES, seen)
    && Increasing(BlobsAt(pages, SeparatorRefs(cells), MAX_TREE_KEY_BYTES))
    && forall i :: 0 <= i < |cells| ==> cells[i].child >= SUPERBLOCK_COUNT
  }

  predicate OrderedChildren(children: seq<ChildRef>) {
    forall i :: 0 <= i < |children| - 1 ==> Less(children[i].minKey, children[i + 1].minKey)
  }

  predicate ValidChildRefs(children: seq<ChildRef>) {
    && children != []
    && (forall i :: 0 <= i < |children| ==>
          |children[i].minKey| <= MAX_TREE_KEY_BYTES && children[i].pageId >= SUPERBLOCK_COUNT)
    && OrderedChildren(children)
  }

  /** `decode_internal`, ending in `validate_child_refs`. */
  method DecodeInternal(pager: Pager, cells: seq<InternalCell>, seen: Option<set<nat>>)
      returns (r: Result<seq<ChildRef>>, seen': Option<set<nat>>)
    requires pager.Valid() && !pager.poisoned
    modifies pager.cache
    ensures pager.Valid()
    ensures InternalDecodes(pager.file.pages, cells, Visited(seen)) ==> r.Ok?
    ensures r.Ok? ==>
              && BlobsParse(pager.file.pages, SeparatorRefs(cells), MAX_TREE_KEY_BYTES)
              && var keys := BlobsAt(pager.file.pages, SeparatorRefs(cells), MAX_TREE_KEY_BYTES);
                 && r.value == DecodedInternal(keys, cells) && ValidChildRefs(r.value)
                 && seen' == Marked(seen, BlobsFoot(keys))
    ensures r.Ok? && seen.Some? ==> InternalDecodes(pager.file.pages, cells, seen.value)
  {
    hide BlobsRead, Readable, RefReadable, ParseRef, Marked, Pager.Valid, Less;
    var children: seq<ChildRef> := [];
    ghost var pages, refs, limit := pager.file.pages, SeparatorRefs(cells), MAX_TREE_KEY_BYTES;
    ghost var keys: seq<Blob> := [];
    seen' := seen;
    NoBlobsRead(pages, refs, limit, seen);
    var i := 0;
    while i < |cells|
      invariant 0 <= i <= |cells| && |keys| == i && |children| == i
      invariant pager.Valid() && pager.file.pages == pages && !pager.poisoned
      invariant BlobsRead(pages, refs, limit, keys, seen, seen')
      invariant forall j :: 0 <= j < i ==> children[j] == ChildRef(keys[j].bytes, cells[j].child)
      invariant forall j :: 0 <= j < i ==> cells[j].child >= SUPERBLOCK_COUNT
    {
      if cells[i].child < SUPERBLOCK_COUNT {
        return Err(Corruption), seen';
      }
      var key, after := LoadKey(pager, cells[i].separator, seen');
      if key.Err? {
        BlobRefused(pages, refs, limit, keys, seen, seen');
        return Err(key.error), after;
      }
      NextBlobRead(pages, refs, limit, keys, seen, seen');
      keys := keys + [ParseRef(pages, refs[i], limit).value];
      children := children + [ChildRef(key.value.bytes, cells[i].child)];
      seen' := after;
      i := i + 1;
    }
    AllBlobsRead(pages, refs, limit, keys, seen, seen');
    BlobLimits(pages, refs, limit);
    assert children == DecodedInternal(keys, cells);
    if !ValidChildRefs(children) {
      SameOrder(keys, cells);
      return Err(Corruption), seen';
    }
    SameOrder(keys, cells);
    return Ok(children), seen';
  }

  lemma SameOrder(keys: seq<Blob>, cells: seq<InternalCell>)
    requires |keys| == |cells|
    ensures OrderedChildren(DecodedInternal(keys, cells)) <==> Increasing(keys)
  {
    hide Less;
    var children := DecodedInternal(keys, cells);
    if Increasing(keys) {
      forall i | 0 <= i < |children| - 1 ensures Less(children[i].minKey, children[i + 1].minKey) {
        assert Less(keys[i].bytes, keys[i + 1].bytes);
      }
    }
    if OrderedChildren(children) {
      forall i | 0 <= i < |keys| - 1 ensures Less(keys[i].bytes, keys[i + 1].bytes) {
        assert Less(children[i].minKey, children[i + 1].minKey);
      }
    }
  }

  lemma BlobLimits(pages: seq<PageImage>, refs: seq<Ref>, limit: nat)
    requires BlobsParse(pages, refs, limit)
    ensures forall i :: 0 <= i < |refs| ==> |BlobsAt(pages, refs, limit)[i].bytes| <= limit
  {
    hide ParseRef;
    BlobsHold(pages, refs, limit);
  }

  // ---------- what a parsed page says about its tree ----------

  lemma {:induction false} FootOfEntries(keys: seq<Blob>, values: seq<Blob>)
    requires |keys| == |values|
    ensures EntriesFoot(EntriesOf(keys, values)) == BlobsFoot(keys) + BlobsFoot(values)
    decreases |keys|
  {
    if keys != [] {
      assert EntriesOf(keys, values)[1..] == EntriesOf(keys[1..], values[1..]);
      FootOfEntries(keys[1..], values[1..]);
    }
  }

  lemma IncreasingIsSorted(keys: seq<Blob>, values: seq<Blob>)
    requires |keys| == |values|
    ensures Increasing(keys) <==> Sorted(EntryPairs(EntriesOf(keys, values)))
  {
    hide Less;
    var pairs := EntryPairs(EntriesOf(keys, values));
    if Increasing(keys) {
      forall i, j | 0 <= i < j < |pairs| ensures Less(pairs[i].key, pairs[j].key) {
        IncreasingApart(keys, i, j);
      }
    }
    if Sorted(pairs) {
      forall i | 0 <= i < |keys| - 1 ensures Less(keys[i].bytes, keys[i + 1].bytes) {
        assert Less(pairs[i].key, pairs[i + 1].key);
      }
    }
  }

  lemma {:induction false} IncreasingApart(keys: seq<Blob>, i: nat, j: nat)
    requires Increasing(keys) && i < j < |keys|
    ensures Less(keys[i].bytes, keys[j].bytes)
    decreases j
  {
    hide Less;
    assert Less(keys[j - 1].bytes, keys[j - 1 + 1].bytes);
    if i < j - 1 {
      IncreasingApart(keys, i, j - 1);
      LessTransitive(keys[i].bytes, keys[j - 1].bytes, keys[j].bytes);
    }
  }

  /** When the page below `id` is a leaf, what accepting it takes, in the order it is checked. */
  lemma AcceptedLeaf(pages: seq<PageImage>, id: nat, fuel: nat, cells: seq<LeafCell>, seen: set<nat>)
    requires fuel > 0 && ReadableAt(pages, id) && At(pages, id, LeafPage(cells))
    ensures Accepted(Parse(pages, id, fuel), seen) <==>
              && id !in seen
              && LeafDecodes(pages, cells, seen + {id})
              && Readable(pages, ValueRefs(cells), MAX_TREE_VALUE_BYTES,
                          Grown(seen + {id}, BlobsFoot(BlobsAt(pages, KeyRefs(cells), MAX_TREE_KEY_BYTES))))
              && cells != []
    ensures LeafParses(pages, cells) ==>
              var keys := BlobsAt(pages, KeyRefs(cells), MAX_TREE_KEY_BYTES);
              var values := BlobsAt(pages, ValueRefs(cells), MAX_TREE_VALUE_BYTES);
              && Parse(pages, id, fuel) == Some(Leaf(id, EntriesOf(keys, values)))
              && Grown(seen, Foot(Parse(pages, id, fuel).value))
                 == Grown(Grown(seen + {id}, BlobsFoot(keys)), BlobsFoot(values))
  {
    hide Distinct, Grown, ReadableAt, ParseRef, BlobsParse, BlobsAt, Sorted, Increasing, SaneValues;
    if LeafParses(pages, cells) {
      var keys := BlobsAt(pages, KeyRefs(cells), MAX_TREE_KEY_BYTES);
      var values := BlobsAt(pages, ValueRefs(cells), MAX_TREE_VALUE_BYTES);
      FootOfEntries(keys, values);
      assert Foot(Parse(pages, id, fuel).value) == multiset{id} + (BlobsFoot(keys) + BlobsFoot(values));
      DistinctParts(multiset{id}, BlobsFoot(keys) + BlobsFoot(values), seen);
      DistinctParts(BlobsFoot(keys), BlobsFoot(values), seen + {id});
      DistinctOne(id, seen);
      IncreasingIsSorted(keys, values);
      ParsedValuesAreSane(pages, ValueRefs(cells));
      if Distinct(Foot(Parse(pages, id, fuel).value), seen) {
        DistinctHasNoDuplicates(Foot(Parse(pages, id, fuel).value), seen);
      }
    }
  }

  lemma ParsedValuesAreSane(pages: seq<PageImage>, refs: seq<Ref>)
    requires BlobsParse(pages, refs, MAX_TREE_VALUE_BYTES)
    ensures SaneValues(refs)
  {
    forall i | 0 <= i < |refs| ensures SaneValue(refs[i]) {
      assert ParseRef(pages, refs[i], MAX_TREE_VALUE_BYTES).Some?;
    }
  }

  // ---------- the reachability check ----------

  /** The value chains of a leaf: `validate_value_reachability` for every entry. */
  method ValidateValues(pager: Pager, entries: seq<LeafEntry>, ghost refs: seq<Ref>, seen: set<nat>)
      returns (r: Result<()>, seen': set<nat>)
    requires pager.Valid() && !pager.poisoned
    requires |entries| == |refs| && SaneValues(refs)
    requires forall i :: 0 <= i < |entries| ==> entries[i].value == refs[i]
    modifies pager.cache
    ensures pager.Valid()
    ensures r.Ok? <==> Readable(pager.file.pages, refs, MAX_TREE_VALUE_BYTES, seen)
    ensures r.Ok? ==>
              && BlobsParse(pager.file.pages, refs, MAX_TREE_VALUE_BYTES)
              && seen' == Grown(seen, BlobsFoot(BlobsAt(pager.file.pages, refs, MAX_TREE_VALUE_BYTES)))
  {
    hide BlobsRead, Readable, RefReadable, ParseRef, Grown, Distinct, Pager.Valid;
    ghost var pages, limit := pager.file.pages, MAX_TREE_VALUE_BYTES;
    ghost var blobs: seq<Blob> := [];
    var marked := Some(seen);
    NoBlobsRead(pages, refs, limit, Some(seen));
    var i := 0;
    while i < |entries|
      invariant 0 <= i <= |entries| && |blobs| == i && marked.Some?
      invariant pager.Valid() && pager.file.pages == pages && !pager.poisoned
      invariant BlobsRead(pages, refs, limit, blobs, Some(seen), marked)
    {
      assert SaneValue(refs[i]);
      InlineIsReadable(pages, refs[i], limit, marked.value);
      if entries[i].value.Overflow? {
        var ref := entries[i].value;
        var bytes, after := ReadOverflowBlob(pager, ref.first, ref.length, marked, MAX_TREE_VALUE_BYTES);
        OverflowReadable(pages, ref.length, ref.first, limit, marked.value);
        if bytes.Err? {
          BlobRefused(pages, refs, limit, blobs, Some(seen), marked);
          return Err(bytes.error), seen;
        }
        NextBlobRead(pages, refs, limit, blobs, Some(seen), marked);
        marked := after;
      } else {
        NextBlobRead(pages, refs, limit, blobs, Some(seen), marked);
      }
      blobs := blobs + [ParseRef(pages, refs[i], limit).value];
      i := i + 1;
    }
    AllBlobsRead(pages, refs, limit, blobs, Some(seen), marked);
    return Ok(()), marked.value;
  }

  lemma InlineIsReadable(pages: seq<PageImage>, ref: Ref, limit: nat, seen: set<nat>)
    ensures ref.Inline? && |ref.bytes| <= limit ==>
              && ParseRef(pages, ref, limit).Some? && RefReadable(pages, ref, limit, seen)
              && Grown(seen, multiset(ParseRef(pages, ref, limit).value.chain)) == seen
  {
    var none: seq<nat> := [];
    assert multiset(none) == multiset{};
    DistinctNone(seen);
  }

  lemma OverflowReadable(pages: seq<PageImage>, length: nat, first: nat, limit: nat, seen: set<nat>)
    ensures RefReadable(pages, Overflow(length, first), limit, seen) <==>
              var blob := ParseRef(pages, Overflow(length, first), limit);
              blob.Some? && Distinct(multiset(blob.value.chain), seen)
  {
  }

  method ValidateLeaf(pager: Pager, id: nat, cells: seq<LeafCell>, ghost seen: set<nat>, visited: set<nat>,
                      ghost fuel: nat) returns (r: Result<SubtreeBounds>, seen': set<nat>)
    requires pager.Valid() && !pager.poisoned && fuel > 0
    requires ReadableAt(pager.file.pages, id) && At(pager.file.pages, id, LeafPage(cells))
    requires id !in seen && visited == seen + {id}
    modifies pager.cache
    ensures pager.Valid()
    ensures r.Ok? <==> Accepted(Parse(pager.file.pages, id, fuel), seen)
    ensures r.Ok? ==> BoundsOf(Parse(pager.file.pages, id, fuel), seen, r.value, seen')
  {
    hide *;
    ghost var pages := pager.file.pages;
    var entries, marked := DecodeLeaf(pager, cells, Some(visited));
    if entries.Err? {
      if Accepted(Parse(pages, id, fuel), seen) { LeafRefused(pages, id, fuel, cells, seen); }
      return Err(entries.error), visited;
    }
    ghost var keys := BlobsAt(pages, KeyRefs(cells), MAX_TREE_KEY_BYTES);
    var reached, after := ValidateValues(pager, entries.value, ValueRefs(cells), marked.value);
    if reached.Err? {
      if Accepted(Parse(pages, id, fuel), seen) { LeafRefused(pages, id, fuel, cells, seen); }
      return Err(reached.error), visited;
    }
    if entries.value == [] {
      if Accepted(Parse(pages, id, fuel), seen) { LeafRefused(pages, id, fuel, cells, seen); }
      return Err(Corruption), visited;
    }
    var last := |entries.value| - 1;
    LeafIsAccepted(pages, id, fuel, cells, seen);
    return Ok(SubtreeBounds(entries.value[0].key.bytes, entries.value[last].key.bytes, 1)), after;
  }

  lemma LeafRefused(pages: seq<PageImage>, id: nat, fuel: nat, cells: seq<LeafCell>, seen: set<nat>)
    requires fuel > 0 && ReadableAt(pages, id) && At(pages, id, LeafPage(cells))
    requires Accepted(Parse(pages, id, fuel), seen)
    ensures LeafDecodes(pages, cells, seen + {id}) && cells != []
    ensures Readable(pages, ValueRefs(cells), MAX_TREE_VALUE_BYTES,
                     Grown(seen + {id}, BlobsFoot(BlobsAt(pages, KeyRefs(cells), MAX_TREE_KEY_BYTES))))
  {
    AcceptedLeaf(pages, id, fuel, cells, seen);
  }

  lemma LeafIsAccepted(pages: seq<PageImage>, id: nat, fuel: nat, cells: seq<LeafCell>, seen: set<nat>)
    requires fuel > 0 && ReadableAt(pages, id) && At(pages, id, LeafPage(cells))
    requires id !in seen && cells != [] && LeafDecodes(pages, cells, seen + {id})
    requires Readable(pages, ValueRefs(cells), MAX_TREE_VALUE_BYTES,
                      Grown(seen + {id}, BlobsFoot(BlobsAt(pages, KeyRefs(cells), MAX_TREE_KEY_BYTES))))
    ensures Accepted(Parse(pages, id, fuel), seen) && LeafParses(pages, cells)
    ensures var keys := BlobsAt(pages, KeyRefs(cells), MAX_TREE_KEY_BYTES);
            var values := BlobsAt(pages, ValueRefs(cells), MAX_TREE_VALUE_BYTES);
            BoundsOf(Parse(pages, id, fuel), seen, SubtreeBounds(keys[0].bytes, keys[|keys| - 1].bytes, 1),
                     Grown(Grown(seen + {id}, BlobsFoot(keys)), BlobsFoot(values)))
  {
    hide ReadableAt, At, Parse, Grown, Distinct, Accepted, BlobsParse, BlobsAt, Foot, BlobsFoot;
    AcceptedLeaf(pages, id, fuel, cells, seen);
  }

  /** What a validated subtree reports. */
  ghost predicate BoundsOf(found: Option<Tree>, seen: set<nat>, bounds: SubtreeBounds, seen': set<nat>) {
    && found.Some?
    && bounds == SubtreeBounds(First(found.value), LastKey(found.value), Height(found.value))
    && seen' == Grown(seen, Foot(found.value))
  }

  /** The first children are accepted, agree with their separators, and report `bounds`. */
  ghost predicate KidsAccepted(pages: seq<PageImage>, children: seq<ChildRef>, fuel: nat, kids: seq<Tree>,
                               bounds: seq<SubtreeBounds>, seen: set<nat>, seen': set<nat>) {
    && |kids| == |bounds| <= |children|
    && (forall i :: 0 <= i < |kids| ==>
          && Parse(pages, children[i].pageId, fuel) == Some(kids[i])
          && SearchTree(kids[i]) && Branching(kids[i]) && First(kids[i]) == children[i].minKey
          && bounds[i] == SubtreeBounds(First(kids[i]), LastKey(kids[i]), Height(kids[i])))
    && Distinct(FootAll(kids), seen) && seen' == Grown(seen, FootAll(kids))
  }

  lemma NextKidAccepted(pages: seq<PageImage>, children: seq<ChildRef>, fuel: nat, kids: seq<Tree>,
                        bounds: seq<SubtreeBounds>, seen: set<nat>, seen': set<nat>, next: SubtreeBounds,
                        after: set<nat>)
    requires KidsAccepted(pages, children, fuel, kids, bounds, seen, seen') && |kids| < |children|
    requires Accepted(Parse(pages, children[|kids|].pageId, fuel), seen')
    requires BoundsOf(Parse(pages, children[|kids|].pageId, fuel), seen', next, after)
    requires next.minKey == children[|kids|].minKey
    ensures KidsAccepted(pages, children, fuel, kids + [Parse(pages, children[|kids|].pageId, fuel).value],
                         bounds + [next], seen, after)
    ensures Parse(pages, children[|kids|].pageId, fuel).Some?
  {
    hide Parse, SearchTree, Branching, Foot, FootAll, Distinct, Grown, First, LastKey;
    var kid := Parse(pages, children[|kids|].pageId, fuel).value;
    FootConcat(kids, [kid]);
    FootOne(kid);
    DistinctParts(FootAll(kids), Foot(kid), seen);
  }

  /** The part of accepting an internal page that concerns its children. */
  ghost predicate NodeAccepted(pages: seq<PageImage>, children: seq<ChildRef>, fuel: nat, kids: seq<Tree>,
                               seen: set<nat>) {
    && 2 <= |children| == |kids|
    && (forall i :: 0 <= i < |kids| ==>
          && Parse(pages, children[i].pageId, fuel) == Some(kids[i])
          && SearchTree(kids[i]) && Branching(kids[i]) && First(kids[i]) == children[i].minKey
          && Height(kids[i]) == Height(kids[0]))
    && Adjacent(kids)
    && Distinct(FootAll(kids), seen)
  }

  lemma KidRefused(pages: seq<PageImage>, children: seq<ChildRef>, fuel: nat, kids: seq<Tree>,
                   bounds: seq<SubtreeBounds>, seen: set<nat>, seen': set<nat>, all: seq<Tree>)
    requires KidsAccepted(pages, children, fuel, kids, bounds, seen, seen') && |kids| < |children|
    requires NodeAccepted(pages, children, fuel, all, seen)
    ensures Accepted(Parse(pages, children[|kids|].pageId, fuel), seen')
    ensures Parse(pages, children[|kids|].pageId, fuel) == Some(all[|kids|])
    ensures First(all[|kids|]) == children[|kids|].minKey
  {
    hide Parse, SearchTree, Branching, Foot, FootAll, Distinct, Grown, First, LastKey, Adjacent;
    var at := |kids|;
    assert all[..at] == kids;
    assert all == kids + ([all[at]] + all[at + 1..]);
    FootConcat(kids, [all[at]] + all[at + 1..]);
    FootConcat([all[at]], all[at + 1..]);
    FootOne(all[at]);
    DistinctParts(FootAll(kids), Foot(all[at]) + FootAll(all[at + 1..]), seen);
    DistinctParts(Foot(all[at]), FootAll(all[at + 1..]), Grown(seen, FootAll(kids)));
  }

  /** What makes children with separators `keys` below page `id` an acceptable tree. */
  ghost predicate NodeChecks(id: nat, keys: seq<Blob>, kids: seq<Tree>, seen: set<nat>) {
    && id !in seen && 2 <= |keys| == |kids|
    && (forall i :: 0 <= i < |kids| ==>
          && SearchTree(kids[i]) && Branching(kids[i]) && First(kids[i]) == keys[i].bytes
          && Height(kids[i]) == Height(kids[0]))
    && Adjacent(kids)
    && Distinct(BlobsFoot(keys), seen + {id})
    && Distinct(FootAll(kids), Grown(seen + {id}, BlobsFoot(keys)))
  }

  lemma FootOfNode(id: nat, keys: seq<Blob>, kids: seq<Tree>, seen: set<nat>)
    ensures Distinct(Foot(Node(id, keys, kids)), seen) <==>
              && id !in seen && Distinct(BlobsFoot(keys), seen + {id})
              && Distinct(FootAll(kids), Grown(seen + {id}, BlobsFoot(keys)))
    ensures Grown(seen, Foot(Node(id, keys, kids))) == Grown(Grown(seen + {id}, BlobsFoot(keys)), FootAll(kids))
  {
    hide Distinct, Grown;
    assert Foot(Node(id, keys, kids)) == multiset{id} + (BlobsFoot(keys) + FootAll(kids));
    DistinctParts(multiset{id}, BlobsFoot(keys) + FootAll(kids), seen);
    DistinctParts(BlobsFoot(keys), FootAll(kids), seen + {id});
    DistinctOne(id, seen);
  }

  lemma KidsOfSearchTree(t: Tree)
    requires t.Node? && SearchTree(t)
    ensures Adjacent(t.kids)
    ensures forall i :: 0 <= i < |t.kids| ==> SearchTree(t.kids[i]) && Height(t.kids[i]) == Height(t) - 1
  {
    hide Distinct, Grown, Sorted, Adjacent, Less, Foot, FootAll, First;
    var height := Height(t) - 1;
    FlattenOfNode(t);
    FootParts(t);
    SortedKidsAreAdjacent(t.kids, height);
    forall i | 0 <= i < |t.kids|
      ensures SearchTree(t.kids[i]) && Height(t.kids[i]) == height
    {
      ShapeHeight(t.kids[i], height);
      KidsAreSorted(t.kids, i);
      KidFootPart(t.kids, i);
      PartHasNoDuplicates(Foot(t.kids[i]), Foot(t));
    }
  }

  lemma AcceptedHasChecks(t: Tree, seen: set<nat>)
    requires t.Node? && Accepted(Some(t), seen)
    ensures NodeChecks(t.id, t.separators, t.kids, seen)
  {
    hide Distinct, Grown, Sorted, Adjacent, Less, Foot, FootAll, Flatten, First;
    KidsOfSearchTree(t);
    FootOfNode(t.id, t.separators, t.kids, seen);
  }

  lemma ChecksAreAccepted(id: nat, keys: seq<Blob>, kids: seq<Tree>, seen: set<nat>)
    requires NodeChecks(id, keys, kids, seen)
    ensures var t := Node(id, keys, kids);
            Accepted(Some(t), seen) && First(t) == First(kids[0]) && LastKey(t) == LastKey(kids[|kids| - 1])
  {
    hide Distinct, Grown, Sorted, Adjacent, Less, Foot, FootAll, Flatten;
    var t := Node(id, keys, kids);
    FootOfNode(id, keys, kids, seen);
    DistinctHasNoDuplicates(Foot(t), seen);
    AdjacentKidsAreSorted(kids, Height(kids[0]));
    LastOfNode(kids, Height(kids[0]));
    FlattenOfNode(t);
  }

  lemma ChecksOrderKeys(id: nat, keys: seq<Blob>, kids: seq<Tree>, seen: set<nat>)
    requires NodeChecks(id, keys, kids, seen)
    ensures Increasing(keys)
  {
    hide Distinct, Grown, Sorted, Less, Foot, FootAll, Flatten, Branching;
    AdjacentKidsAreSorted(kids, Height(kids[0]));
    forall i | 0 <= i < |keys| - 1
      ensures Less(keys[i].bytes, keys[i + 1].bytes)
    {
      FirstsIncrease(kids, Height(kids[0]), i, i + 1);
    }
  }

  lemma ParseOfNode(pages: seq<PageImage>, id: nat, fuel: nat, cells: seq<InternalCell>)
    requires fuel > 0 && ReadableAt(pages, id) && At(pages, id, InternalPage(cells))
    ensures Parse(pages, id, fuel).Some? <==>
              BlobsParse(pages, SeparatorRefs(cells), MAX_TREE_KEY_BYTES) && KidsParse(pages, cells, fuel - 1)
    ensures Parse(pages, id, fuel).Some? ==>
              && Parse(pages, id, fuel).value
                 == Node(id, BlobsAt(pages, SeparatorRefs(cells), MAX_TREE_KEY_BYTES), KidsAt(pages, cells, fuel - 1))
              && forall i :: 0 <= i < |cells| ==>
                   Parse(pages, cells[i].child, fuel - 1) == Some(KidsAt(pages, cells, fuel - 1)[i])
  {
    hide ReadableAt, BlobsParse, BlobsAt;
  }

  /** Accepting an internal page implies every check on the way. */
  lemma AcceptedNode(pages: seq<PageImage>, id: nat, fuel: nat, cells: seq<InternalCell>, seen: set<nat>)
    requires fuel > 0 && ReadableAt(pages, id) && At(pages, id, InternalPage(cells))
    requires Accepted(Parse(pages, id, fuel), seen)
    ensures Parse(pages, id, fuel).Some?
    ensures id !in seen && InternalDecodes(pages, cells, seen + {id})
    ensures var keys := BlobsAt(pages, SeparatorRefs(cells), MAX_TREE_KEY_BYTES);
            var t := Parse(pages, id, fuel).value;
            && t == Node(id, keys, t.kids)
            && NodeAccepted(pages, DecodedInternal(keys, cells), fuel - 1, t.kids,
                            Grown(seen + {id}, BlobsFoot(keys)))
  {
    hide Distinct, Grown, ReadableAt, At, Parse, BlobsParse, BlobsAt, Adjacent, Increasing, SearchTree, Branching,
      KidsParse, KidsAt, BlobsFoot, FootAll, Foot, First, Height;
    ParseOfNode(pages, id, fuel, cells);
    var t := Parse(pages, id, fuel).value;
    AcceptedHasChecks(t, seen);
    ChecksOrderKeys(id, t.separators, t.kids, seen);
    forall i | 0 <= i < |cells|
      ensures cells[i].child >= SUPERBLOCK_COUNT
    {
      ChildIsReadable(pages, cells[i].child, fuel - 1);
    }
  }

  lemma ChildIsReadable(pages: seq<PageImage>, id: nat, fuel: nat)
    requires Parse(pages, id, fuel).Some?
    ensures ReadableAt(pages, id) && id >= SUPERBLOCK_COUNT
  {
  }

  /** The checks on an internal page are enough to accept it. */
  lemma NodeIsAccepted(pages: seq<PageImage>, id: nat, fuel: nat, cells: seq<InternalCell>, seen: set<nat>,
                       keys: seq<Blob>, kids: seq<Tree>)
    requires fuel > 0 && ReadableAt(pages, id) && At(pages, id, InternalPage(cells))
    requires id !in seen && InternalDecodes(pages, cells, seen + {id})
    requires keys == BlobsAt(pages, SeparatorRefs(cells), MAX_TREE_KEY_BYTES)
    requires NodeAccepted(pages, DecodedInternal(keys, cells), fuel - 1, kids, Grown(seen + {id}, BlobsFoot(keys)))
    ensures Accepted(Parse(pages, id, fuel), seen)
    ensures BoundsOf(Parse(pages, id, fuel), seen,
                     SubtreeBounds(First(kids[0]), LastKey(kids[|kids| - 1]), Height(kids[0]) + 1),
                     Grown(Grown(seen + {id}, BlobsFoot(keys)), FootAll(kids)))
  {
    hide Distinct, Grown, ReadableAt, At, Parse, BlobsParse, BlobsAt, Adjacent, Increasing, SearchTree, Branching,
      KidsAt, BlobsFoot, FootAll, Foot, First, LastKey;
    var children := DecodedInternal(keys, cells);
    forall i | 0 <= i < |cells| ensures Parse(pages, cells[i].child, fuel - 1) == Some(kids[i]) {
      assert Parse(pages, children[i].pageId, fuel - 1) == Some(kids[i]);
    }
    ParseOfNode(pages, id, fuel, cells);
    assert KidsAt(pages, cells, fuel - 1) == kids;
    FootOfNode(id, keys, kids, seen);
    ChecksAreAccepted(id, keys, kids, seen);
  }

  /**
   * `validate_subtree`: accepts exactly the subtrees that are search trees with at least two children
   * per internal page and no page reached twice or visited before.
   */
  method ValidateSubtree(pager: Pager, id: nat, depth: nat, seen: set<nat>)
      returns (r: Result<SubtreeBounds>, seen': set<nat>)
    requires pager.Valid() && depth <= MAX_TREE_HEIGHT
    modifies pager.cache
    ensures pager.Valid()
    ensures r.Ok? <==>
              !pager.poisoned && Accepted(Parse(pager.file.pages, id, MAX_TREE_HEIGHT - depth), seen)
    ensures r.Ok? ==> BoundsOf(Parse(pager.file.pages, id, MAX_TREE_HEIGHT - depth), seen, r.value, seen')
    decreases MAX_TREE_HEIGHT - depth, 0
  {
    hide ReadableAt, At, Accepted, BoundsOf, Pager.Valid, Fit;
    seen' := seen;
    UnreadableIsRefused(pager.file.pages, id, MAX_TREE_HEIGHT - depth, seen);
    if depth >= MAX_TREE_HEIGHT || id in seen {
      return Err(Corruption), seen';
    }
    var visited := seen + {id};
    var page := pager.ReadPage(id);
    if page.Err? {
      return Err(page.error), visited;
    }
    if page.value.LeafPage? {
      r, seen' := ValidateLeaf(pager, id, page.value.leafCells, seen, visited, MAX_TREE_HEIGHT - depth);
    } else if page.value.InternalPage? {
      r, seen' := ValidateInternal(pager, id, depth, page.value.internalCells, seen, visited);
    } else {
      OverflowIsRefused(pager.file.pages, id, MAX_TREE_HEIGHT - depth, page.value);
      return Err(Corruption), visited;
    }
  }

  lemma UnreadableIsRefused(pages: seq<PageImage>, id: nat, fuel: nat, seen: set<nat>)
    ensures fuel == 0 || id in seen || !ReadableAt(pages, id) ==> !Accepted(Parse(pages, id, fuel), seen)
  {
    if Accepted(Parse(pages, id, fuel), seen) {
      ParseHolds(pages, id, fuel);
      FootParts(Parse(pages, id, fuel).value);
    }
  }

  lemma OverflowIsRefused(pages: seq<PageImage>, id: nat, fuel: nat, page: Page)
    requires At(pages, id, page) && page.OverflowPage?
    ensures Parse(pages, id, fuel).None?
    ensures forall seen :: !Accepted(Parse(pages, id, fuel), seen)
  {
  }

  method ValidateInternal(pager: Pager, id: nat, depth: nat, cells: seq<InternalCell>, ghost seen: set<nat>,
                          visited: set<nat>) returns (r: Result<SubtreeBounds>, seen': set<nat>)
    requires pager.Valid() && !pager.poisoned && depth < MAX_TREE_HEIGHT
    requires ReadableAt(pager.file.pages, id) && At(pager.file.pages, id, InternalPage(cells))
    requires id !in seen && visited == seen + {id}
    modifies pager.cache
    ensures pager.Valid()
    ensures r.Ok? <==> Accepted(Parse(pager.file.pages, id, MAX_TREE_HEIGHT - depth), seen)
    ensures r.Ok? ==> BoundsOf(Parse(pager.file.pages, id, MAX_TREE_HEIGHT - depth), seen, r.value, seen')
    decreases MAX_TREE_HEIGHT - depth - 1, 1
  {
    hide ReadableAt, At, Accepted, BoundsOf, Pager.Valid, Fit, InternalDecodes, KidsAccepted, NodeAccepted, Parse,
      BlobsParse, BlobsAt, Grown;
    ghost var pages, fuel := pager.file.pages, MAX_TREE_HEIGHT - depth;
    ghost var accepted := Accepted(Parse(pages, id, fuel), seen);
    ghost var all: seq<Tree> := [];
    if accepted {
      AcceptedNode(pages, id, fuel, cells, seen);
      all := Parse(pages, id, fuel).value.kids;
    }
    var decoded, marked := DecodeInternal(pager, cells, Some(visited));
    if decoded.Err? {
      return Err(decoded.error), visited;
    }
    var children := decoded.value;
    ghost var keys := BlobsAt(pages, SeparatorRefs(cells), MAX_TREE_KEY_BYTES);
    ghost var reached := marked.value;
    if |children| < 2 {
      if accepted { NodeSize(pages, children, fuel - 1, all, reached); }
      return Err(Corruption), visited;
    }
    seen' := marked.value;
    var bounds: seq<SubtreeBounds> := [];
    ghost var kids: seq<Tree> := [];
    NoKidsAccepted(pages, children, fuel - 1, seen');
    var i := 0;
    while i < |children|
      invariant 0 <= i <= |children| && |kids| == i
      invariant pager.Valid() && pager.file.pages == pages && !pager.poisoned
      invariant KidsAccepted(pages, children, fuel - 1, kids, bounds, reached, seen')
    {
      var next, after := ValidateSubtree(pager, children[i].pageId, depth + 1, seen');
      if accepted { KidRefused(pages, children, fuel - 1, kids, bounds, reached, seen', all); }
      if next.Err? {
        return Err(next.error), visited;
      }
      if next.value.minKey != children[i].minKey {
        BoundsMinimum(Parse(pages, children[i].pageId, fuel - 1), seen', next.value, after);
        return Err(Corruption), visited;
      }
      NextKidAccepted(pages, children, fuel - 1, kids, bounds, reached, seen', next.value, after);
      kids := kids + [Parse(pages, children[i].pageId, fuel - 1).value];
      bounds := bounds + [next.value];
      seen' := after;
      i := i + 1;
    }
    if accepted { AllKidsAccepted(pages, children, fuel - 1, kids, bounds, reached, seen', all); }
    KidBounds(pages, children, fuel - 1, kids, bounds, reached, seen');
    if exists j :: 1 <= j < |bounds| && bounds[j].height != bounds[0].height {
      return Err(Corruption), visited;
    }
    if exists j :: 0 <= j < |bounds| - 1 && !Less(bounds[j].maxKey, bounds[j + 1].minKey) {
      return Err(Corruption), visited;
    }
    KidsMakeNode(pages, children, fuel - 1, kids, bounds, reached, seen');
    NodeIsAccepted(pages, id, fuel, cells, seen, keys, kids);
    r := Ok(SubtreeBounds(bounds[0].minKey, bounds[|bounds| - 1].maxKey, bounds[0].height + 1));
  }

  lemma NodeSize(pages: seq<PageImage>, children: seq<ChildRef>, fuel: nat, kids: seq<Tree>, seen: set<nat>)
    requires NodeAccepted(pages, children, fuel, kids, seen)
    ensures |children| >= 2
  {
  }

  lemma NoKidsAccepted(pages: seq<PageImage>, children: seq<ChildRef>, fuel: nat, seen: set<nat>)
    ensures KidsAccepted(pages, children, fuel, [], [], seen, seen)
  {
    DistinctNone(seen);
  }

  lemma BoundsMinimum(found: Option<Tree>, seen: set<nat>, bounds: SubtreeBounds, seen': set<nat>)
    requires BoundsOf(found, seen, bounds, seen')
    ensures found.Some? && bounds.minKey == First(found.value)
  {
  }

  /** The bounds decide height agreement and order of the children. */
  lemma KidBounds(pages: seq<PageImage>, children: seq<ChildRef>, fuel: nat, kids: seq<Tree>,
                  bounds: seq<SubtreeBounds>, seen: set<nat>, seen': set<nat>)
    requires KidsAccepted(pages, children, fuel, kids, bounds, seen, seen')
    ensures |bounds| == |kids|
    ensures forall i :: 0 <= i < |kids| ==> bounds[i].height == Height(kids[i])
    ensures Adjacent(kids) <==> forall j :: 0 <= j < |bounds| - 1 ==> Less(bounds[j].maxKey, bounds[j + 1].minKey)
  {
    hide Parse, SearchTree, Branching, FootAll, Distinct, Grown, First, LastKey, Less;
    if Adjacent(kids) {
      forall j | 0 <= j < |bounds| - 1 ensures Less(bounds[j].maxKey, bounds[j + 1].minKey) {
        assert Less(LastKey(kids[j]), First(kids[j + 1]));
      }
    }
    if forall j :: 0 <= j < |bounds| - 1 ==> Less(bounds[j].maxKey, bounds[j + 1].minKey) {
      forall j | 0 <= j < |kids| - 1 ensures Less(LastKey(kids[j]), First(kids[j + 1])) {
        assert Less(bounds[j].maxKey, bounds[j + 1].minKey);
      }
    }
  }

  lemma AllKidsAccepted(pages: seq<PageImage>, children: seq<ChildRef>, fuel: nat, kids: seq<Tree>,
                        bounds: seq<SubtreeBounds>, seen: set<nat>, seen': set<nat>, all: seq<Tree>)
    requires KidsAccepted(pages, children, fuel, kids, bounds, seen, seen') && |kids| == |children|
    requires NodeAccepted(pages, children, fuel, all, seen)
    ensures kids == all && Adjacent(kids)
    ensures forall i :: 0 <= i < |kids| ==> Height(kids[i]) == Height(kids[0])
  {
    hide Parse, SearchTree, Branching, FootAll, Distinct, Grown, First, LastKey, Adjacent;
  }

  lemma KidsMakeNode(pages: seq<PageImage>, children: seq<ChildRef>, fuel: nat, kids: seq<Tree>,
                     bounds: seq<SubtreeBounds>, seen: set<nat>, seen': set<nat>)
    requires KidsAccepted(pages, children, fuel, kids, bounds, seen, seen') && 2 <= |children| == |kids|
    requires Adjacent(kids)
    requires forall i :: 1 <= i < |bounds| ==> bounds[i].height == bounds[0].height
    ensures NodeAccepted(pages, children, fuel, kids, seen)
    ensures seen' == Grown(seen, FootAll(kids))
    ensures bounds[0] == SubtreeBounds(First(kids[0]), LastKey(kids[0]), Height(kids[0]))
    ensures bounds[|kids| - 1].maxKey == LastKey(kids[|kids| - 1])
  {
    hide Parse, SearchTree, Branching, FootAll, Distinct, Grown, First, LastKey, Adjacent;
  }

  // ---------- decoding the nodes of a search tree ----------

  function KeysOf(entries: seq<Entry>): (keys: seq<Blob>)
    ensures |keys| == |entries| && forall i :: 0 <= i < |entries| ==> keys[i] == entries[i].key
  {
    seq(|entries|, i requires 0 <= i < |entries| => entries[i].key)
  }

  function ValuesOf(entries: seq<Entry>): (values: seq<Blob>)
    ensures |values| == |entries| && forall i :: 0 <= i < |entries| ==> values[i] == entries[i].value
  {
    seq(|entries|, i requires 0 <= i < |entries| => entries[i].value)
  }

  lemma PartIsDistinct(part: multiset<nat>, ids: multiset<nat>)
    requires part <= ids && NoDuplicates(ids)
    ensures Distinct(part, {})
  {
    PartHasNoDuplicates(part, ids);
    NoDuplicatesIsDistinct(part);
  }

  lemma LeafDecodesBack(pages: seq<PageImage>, t: Tree)
    requires t.Leaf? && Holds(pages, t) && SearchTree(t)
    ensures ReadableAt(pages, t.id) && At(pages, t.id, LeafPage(LeafCells(t.entries)))
    ensures LeafDecodes(pages, LeafCells(t.entries), {})
    ensures BlobsAt(pages, KeyRefs(LeafCells(t.entries)), MAX_TREE_KEY_BYTES) == KeysOf(t.entries)
  {
    hide Fit, ParseRef, Distinct, Less, BlobsParse, BlobsAt, Foot, EntriesFoot, BlobsFoot, Increasing, Sorted,
      BlobHolds, SaneValues, SaneValue;
    var cells, keys, values := LeafCells(t.entries), KeysOf(t.entries), ValuesOf(t.entries);
    forall i | 0 <= i < |cells|
      ensures BlobHolds(pages, keys[i], MAX_TREE_KEY_BYTES) && BlobHolds(pages, values[i], MAX_TREE_VALUE_BYTES)
    {
      assert EntryHolds(pages, t.entries[i]);
    }
    BlobsFound(pages, KeyRefs(cells), MAX_TREE_KEY_BYTES, keys);
    BlobsFound(pages, ValueRefs(cells), MAX_TREE_VALUE_BYTES, values);
    ParsedValuesAreSane(pages, ValueRefs(cells));
    assert EntriesOf(keys, values) == t.entries;
    FootOfEntries(keys, values);
    FootParts(t);
    assert BlobsFoot(keys) <= EntriesFoot(t.entries);
    PartIsDistinct(BlobsFoot(keys), Foot(t));
    IncreasingIsSorted(keys, values);
  }

  lemma NodeDecodesBack(pages: seq<PageImage>, t: Tree)
    requires t.Node? && Holds(pages, t) && SearchTree(t)
    ensures ReadableAt(pages, t.id) && At(pages, t.id, InternalPage(InternalCells(t.separators, t.kids)))
    ensures InternalDecodes(pages, InternalCells(t.separators, t.kids), {})
    ensures BlobsAt(pages, SeparatorRefs(InternalCells(t.separators, t.kids)), MAX_TREE_KEY_BYTES) == t.separators
  {
    hide Fit, ParseRef, Distinct, Less, BlobsParse, BlobsAt, Foot, FootAll, BlobsFoot, Increasing, Sorted,
      BlobHolds;
    var cells := InternalCells(t.separators, t.kids);
    BlobsFound(pages, SeparatorRefs(cells), MAX_TREE_KEY_BYTES, t.separators);
    FootParts(t);
    PartIsDistinct(BlobsFoot(t.separators), Foot(t));
    KidsOfSearchTree(t);
    FlattenOfNode(t);
    SeparatorsIncrease(t);
    forall i | 0 <= i < |cells| ensures cells[i].child >= SUPERBLOCK_COUNT {
      HeldIsCommitted(pages, t.kids[i]);
    }
  }

  lemma HeldIsCommitted(pages: seq<PageImage>, t: Tree)
    requires Holds(pages, t)
    ensures Committed(pages, t.id)
  {
  }

  lemma SeparatorsIncrease(t: Tree)
    requires t.Node? && SearchTree(t)
    ensures Increasing(t.separators)
  {
    hide Less, Sorted, Foot;
    FlattenOfNode(t);
    forall i | 0 <= i < |t.separators| - 1
      ensures Less(t.separators[i].bytes, t.separators[i + 1].bytes)
    {
      FirstsIncrease(t.kids, Height(t) - 1, i, i + 1);
    }
  }

  // ---------- lookup ----------

  function MinKeys(children: seq<ChildRef>): (keys: seq<Key>)
    ensures |keys| == |children| && forall i :: 0 <= i < |children| ==> keys[i] == children[i].minKey
  {
    seq(|children|, i requires 0 <= i < |children| => children[i].minKey)
  }

  /** `route_child`: the child to descend into, after checking the child list. */
  function RouteChild(children: seq<ChildRef>, key: Key): (r: Result<nat>)
    ensures r.Ok? <==> ValidChildRefs(children)
    ensures r.Ok? ==>
              && r.value < |children|
              && (r.value > 0 ==> LessEq(children[r.value].minKey, key))
              && (r.value + 1 < |children| ==> Less(key, children[r.value + 1].minKey))
  {
    if !ValidChildRefs(children) then Err(InvalidInput)
    else
      var at := Route(MinKeys(children), key);
      if at + 1 < |children| then LessTotal(children[at + 1].minKey, key); Ok(at) else Ok(at)
  }

  /** The value a tree holds for a key. */
  function Find(t: Tree, key: Key): Option<Value> {
    if key in Contents(t) then Some(Contents(t)[key]) else None
  }

  function KeyPairs(entries: seq<LeafEntry>): (pairs: seq<Pair>)
    ensures |pairs| == |entries| && forall i :: 0 <= i < |entries| ==> pairs[i].key == entries[i].key.bytes
  {
    seq(|entries|, i requires 0 <= i < |entries| => Pair(entries[i].key.bytes, []))
  }

  /** Binary search over a decoded leaf: the first entry not below `key`. */
  function Position(entries: seq<LeafEntry>, key: Key): nat {
    LowerBound(KeyPairs(entries), key)
  }

  lemma PositionIsLowerBound(entries: seq<LeafEntry>, pairs: seq<Pair>, key: Key)
    requires |entries| == |pairs| && forall i :: 0 <= i < |pairs| ==> entries[i].key.bytes == pairs[i].key
    ensures Position(entries, key) == LowerBound(pairs, key)
  {
    hide LowerBound;
    LowerBoundUnique(pairs, key, Position(entries, key));
  }

  method LoadValue(pager: Pager, ref: Ref) returns (r: Result<Value>)
    requires pager.Valid()
    requires ref.Inline? ==> |ref.bytes| <= MAX_TREE_VALUE_BYTES
    modifies pager.cache
    ensures pager.Valid()
    ensures var blob := ParseRef(pager.file.pages, ref, MAX_TREE_VALUE_BYTES);
            && (!pager.poisoned && RefReadable(pager.file.pages, ref, MAX_TREE_VALUE_BYTES, {}) ==> r.Ok?)
            && (r.Ok? ==> blob.Some? && r.value == blob.value.bytes)
  {
    hide Distinct, Grown, Pager.Valid, ParseChain;
    if ref.Inline? {
      return Ok(ref.bytes);
    }
    assert ref == Overflow(ref.length, ref.first);
    var bytes, _ := ReadOverflowBlob(pager, ref.first, ref.length, None, MAX_TREE_VALUE_BYTES);
    r := bytes;
  }

  lemma DescendToChild(t: Tree, children: seq<ChildRef>, key: Key)
    requires t.Node? && SearchTree(t) && |children| == |t.kids|
    requires forall i :: 0 <= i < |children| ==> children[i] == ChildRef(First(t.kids[i]), t.kids[i].id)
    ensures var at := Route(MinKeys(children), key);
            && KeysBelow(FlattenAll(t.kids[..at]), key) && KeysAbove(FlattenAll(t.kids[at + 1..]), key)
            && Find(t, key) == Find(t.kids[at], key)
            && SearchTree(t.kids[at]) && Height(t.kids[at]) == Height(t) - 1
  {
    hide Foot, FootAll, Less, Flatten, FlattenAll, First, Route, MapOf, Sorted;
    KidsOfSearchTree(t);
    FlattenOfNode(t);
    RouteSeparates(t.kids, Height(t) - 1, MinKeys(children), key);
    LookupThroughChild(t.kids, Route(MinKeys(children), key), key);
  }

  /** The entry under binary search decides the lookup in a leaf. */
  lemma FindInLeaf(t: Tree, key: Key)
    requires t.Leaf? && SearchTree(t)
    ensures var at := LowerBound(EntryPairs(t.entries), key);
            Find(t, key) == if at < |t.entries| && t.entries[at].key.bytes == key
                            then Some(t.entries[at].value.bytes) else None
  {
    LookupIsMapLookup(EntryPairs(t.entries), key);
  }

  lemma ValueIsReadable(pages: seq<PageImage>, t: Tree, at: nat)
    requires t.Leaf? && Holds(pages, t) && SearchTree(t) && at < |t.entries|
    ensures RefReadable(pages, LeafCells(t.entries)[at].value, MAX_TREE_VALUE_BYTES, {})
    ensures ParseRef(pages, LeafCells(t.entries)[at].value, MAX_TREE_VALUE_BYTES) == Some(t.entries[at].value)
  {
    hide Fit, ParseRef, Distinct, Less, Foot, EntriesFoot, Sorted, BlobHolds;
    assert EntryHolds(pages, t.entries[at]);
    ParseRefExact(pages, LeafCells(t.entries)[at].value, MAX_TREE_VALUE_BYTES, t.entries[at].value);
    FootParts(t);
    EntryFootPart(t.entries, at);
    PartIsDistinct(multiset(t.entries[at].value.chain), Foot(t));
  }

  /** `get_uninstrumented` below a published root: exactly the map's answer. */
  method Lookup(pager: Pager, root: nat, key: Key, ghost t: Tree) returns (r: Result<Option<Value>>)
    requires pager.Valid() && !pager.poisoned
    requires Holds(pager.file.pages, t) && SearchTree(t) && t.id == root && Height(t) <= MAX_TREE_HEIGHT
    modifies pager.cache
    ensures pager.Valid()
    ensures r == Ok(Find(t, key))
  {
    hide *;
    var pageId := root;
    ghost var node := t;
    ghost var pages := pager.file.pages;
    var depth := 0;
    while depth < MAX_TREE_HEIGHT
      invariant 0 <= depth <= MAX_TREE_HEIGHT
      invariant pager.Valid() && pager.file.pages == pages && !pager.poisoned
      invariant Holds(pages, node) && SearchTree(node) && node.id == pageId
      invariant Height(node) <= MAX_TREE_HEIGHT - depth
      invariant Find(t, key) == Find(node, key)
    {
      if node.Leaf? { LeafDecodesBack(pages, node); } else { NodeDecodesBack(pages, node); }
      var page := pager.ReadPage(pageId);
      if page.Err? {
        return Err(ErrorOf(page));
      }
      SamePage(pages, pageId, page.value);
      if page.value.LeafPage? {
        var entries, _ := DecodeLeaf(pager, page.value.leafCells, None);
        if entries.Err? {
          return Err(ErrorOf(entries));
        }
        var at := Position(entries.value, key);
        LeafAnswer(pages, node, entries.value, key);
        if at < |entries.value| && entries.value[at].key.bytes == key {
          var value := LoadValue(pager, entries.value[at].value);
          if value.Err? {
            return Err(ErrorOf(value));
          }
          return Ok(Some(value.value));
        }
        return Ok(None);
      } else if page.value.InternalPage? {
        var children, _ := DecodeInternal(pager, page.value.internalCells, None);
        if children.Err? {
          return Err(ErrorOf(children));
        }
        var at := RouteChild(children.value, key);
        if at.Err? {
          return Err(ErrorOf(at));
        }
        NodeAnswer(pages, node, children.value, key);
        pageId := children.value[at.value].pageId;
        node := node.kids[at.value];
      } else {
        return Err(Corruption);
      }
      depth := depth + 1;
    }
    HeightIsPositive(node);
    return Err(Corruption);
  }

  lemma SamePage(pages: seq<PageImage>, id: nat, page: Page)
    ensures forall other :: At(pages, id, page) && At(pages, id, other) ==> page == other
  {
  }

  lemma HeightIsPositive(t: Tree)
    ensures Height(t) >= 1
  {
  }

  lemma LeafAnswer(pages: seq<PageImage>, t: Tree, entries: seq<LeafEntry>, key: Key)
    requires t.Leaf? && Holds(pages, t) && SearchTree(t)
    requires entries == DecodedLeaf(KeysOf(t.entries), LeafCells(t.entries))
    ensures var at := Position(entries, key);
            if at < |entries| && entries[at].key.bytes == key then
              && RefReadable(pages, entries[at].value, MAX_TREE_VALUE_BYTES, {})
              && (entries[at].value.Inline? ==> |entries[at].value.bytes| <= MAX_TREE_VALUE_BYTES)
              && ParseRef(pages, entries[at].value, MAX_TREE_VALUE_BYTES).Some?
              && Find(t, key) == Some(ParseRef(pages, entries[at].value, MAX_TREE_VALUE_BYTES).value.bytes)
            else Find(t, key) == None
  {
    hide Holds, SearchTree, Find, RefReadable, ParseChain, Position, LowerBound, Less;
    PositionIsLowerBound(entries, EntryPairs(t.entries), key);
    FindInLeaf(t, key);
    var at := Position(entries, key);
    if at < |entries| { ValueIsReadable(pages, t, at); }
  }

  lemma NodeAnswer(pages: seq<PageImage>, t: Tree, children: seq<ChildRef>, key: Key)
    requires t.Node? && Holds(pages, t) && SearchTree(t) && |t.separators| == |t.kids|
    requires children == DecodedInternal(t.separators, InternalCells(t.separators, t.kids))
    requires RouteChild(children, key).Ok?
    ensures var at := RouteChild(children, key).value;
            && Holds(pages, t.kids[at]) && SearchTree(t.kids[at]) && children[at].pageId == t.kids[at].id
            && Height(t.kids[at]) == Height(t) - 1 && Find(t, key) == Find(t.kids[at], key)
  {
    hide Find, Route, Less, First;
    DescendToChild(t, children, key);
  }
}
