/** The file-backed pager: durable page and superblock writes with injected faults, and recovery. */
module PageStore {
  import opened Options
  import opened SplitArithmetic
  import opened BtreePages
  import opened Superblocks
  import Bytes
  import Cache = PageCache

  datatype PageImage = Whole(page: Page) | Torn

  /** The page file: superblock slots, data pages from id 2 up, and bytes after the last whole page. */
  class PageFile {
    var slots: Slots
    var pages: seq<PageImage>
    var tail: nat

    constructor ()
      ensures slots == Slots(Unreadable, Unreadable) && pages == [] && tail == 0
    {
      slots := Slots(Unreadable, Unreadable);
      pages := [];
      tail := 0;
    }
  }

  /** A committed state: the superblock in force and the pages it commits. */
  datatype View = View(block: Superblock, pages: seq<PageImage>)

  /** What `open` makes of a file: at most one page of trailing bytes is dropped, anything else fails. */
  function Recover(slots: Slots, pages: seq<PageImage>, tail: nat): Option<View> {
    match Choose(slots)
    case Corrupt => None
    case Chosen(_, block) =>
      var committed := block.pageCount - SUPERBLOCK_COUNT;
      if |pages| < committed then None
      else if (|pages| - committed) * PAGE_SIZE + tail > PAGE_SIZE then None
      else Some(View(block, pages[..committed]))
  }

  /** A file is recovered exactly with its committed pages there and at most one page beyond them, whole or cut. */
  lemma RecoveredExactly(slots: Slots, pages: seq<PageImage>, tail: nat, view: View)
    requires tail < PAGE_SIZE
    ensures Recover(slots, pages, tail) == Some(view) <==>
              && (exists slot :: Choose(slots) == Chosen(slot, view.block))
              && view.block.pageCount == |view.pages| + SUPERBLOCK_COUNT && view.pages <= pages
              && (pages == view.pages || (|pages| == |view.pages| + 1 && tail == 0))
  {
    hide Choose;
    if exists slot :: Choose(slots) == Chosen(slot, view.block) {
      var slot :| Choose(slots) == Chosen(slot, view.block);
      if |pages| >= |view.pages| { assert pages[..|view.pages|] == view.pages <==> view.pages <= pages; }
    }
  }

  predicate Committed(pages: seq<PageImage>, id: nat) {
    SUPERBLOCK_COUNT <= id < |pages| + SUPERBLOCK_COUNT
  }

  predicate At(pages: seq<PageImage>, id: nat, page: Page) {
    Committed(pages, id) && pages[id - SUPERBLOCK_COUNT] == Whole(page)
  }

  /** The page's cells fit its body, and any link it carries leads below the end of the file. */
  predicate Sane(page: Page, pageCount: nat) {
    FitsPage(page) && (page.OverflowPage? ==> page.next < pageCount)
  }

  /** The page reads back whole and sane. */
  predicate ReadableAt(pages: seq<PageImage>, id: nat) {
    && Committed(pages, id)
    && pages[id - SUPERBLOCK_COUNT].Whole?
    && Sane(pages[id - SUPERBLOCK_COUNT].page, |pages| + SUPERBLOCK_COUNT)
  }

  /** Every cached page is the committed page. */
  ghost predicate Coherent(cached: map<nat, Page>, pages: seq<PageImage>) {
    forall id :: id in cached ==> At(pages, id, cached[id]) && ReadableAt(pages, id)
  }

  lemma CoherentAfterInsert(before: map<nat, Page>, after: map<nat, Page>, pages: seq<PageImage>, id: nat)
    requires Coherent(before, pages)
    requires id in after && At(pages, id, after[id]) && ReadableAt(pages, id)
    requires forall other :: other in after && other != id ==> other in before && after[other] == before[other]
    ensures Coherent(after, pages)
  {
  }

  lemma CachedIsCommitted(cached: map<nat, Page>, pages: seq<PageImage>, id: nat)
    requires Coherent(cached, pages) && id in cached
    ensures At(pages, id, cached[id]) && ReadableAt(pages, id)
  {
  }

  lemma CoherentAfterAppend(cached: map<nat, Page>, pages: seq<PageImage>, image: PageImage)
    requires Coherent(cached, pages)
    ensures Coherent(cached, pages + [image])
  {
  }

  lemma CoherentWithout(cached: map<nat, Page>, pages: seq<PageImage>, id: nat)
    requires Coherent(cached, pages)
    ensures Coherent(cached - {id}, pages)
  {
  }

  lemma CoherentAfterOverwrite(cached: map<nat, Page>, pages: seq<PageImage>, id: nat, page: Page)
    requires Coherent(cached, pages) && Committed(pages, id)
    ensures Coherent(cached - {id}, pages[id - SUPERBLOCK_COUNT := Whole(page)])
  {
  }

  /** Fail durable write number `event` after the given extent. */
  datatype Fault = Fault(event: nat, extent: WriteExtent)

  /** The fault strikes one of the durable writes from number `first` to just before `end`. */
  predicate Strikes(fault: Option<Fault>, first: nat, end: nat) {
    fault.Some? && first <= fault.value.event < end
  }

  datatype RecoveredAllocation = RecoveredAllocation(pageId: nat, availableBytes: nat)

  lemma RecoverExact(slots: Slots, pages: seq<PageImage>, slot: nat, block: Superblock)
    requires Choose(slots) == Chosen(slot, block) && block.pageCount == |pages| + SUPERBLOCK_COUNT
    ensures Recover(slots, pages, 0) == Some(View(block, pages))
  {
    assert pages[..|pages|] == pages;
  }

  lemma RecoverTrailing(slots: Slots, base: seq<PageImage>, pages: seq<PageImage>, tail: nat, slot: nat,
                        block: Superblock)
    requires Choose(slots) == Chosen(slot, block) && block.pageCount == |base| + SUPERBLOCK_COUNT
    requires (pages == base && tail < PAGE_SIZE) || (tail == 0 && |pages| == |base| + 1 && base <= pages)
    ensures Recover(slots, pages, tail) == Some(View(block, base))
  {
    assert pages[..|base|] == base;
  }

  class Pager {
    const file: PageFile
    const cache: Cache.PageCache<Page>
    var active: Superblock
    var activeSlot: nat
    var recoveredAllocation: Option<RecoveredAllocation>
    var poisoned: bool
    var fault: Option<Fault>
    var events: nat

    /** The state a reopen of the file would commit to. */
    ghost function Recovered(): Option<View>
      reads file
    {
      Recover(file.slots, file.pages, file.tail)
    }

    /** A usable handle: its superblock is the one in force and the cache agrees with the file. */
    ghost predicate Live()
      reads this, file, cache
    {
      && !poisoned
      && Choose(file.slots) == Chosen(activeSlot, active)
      && active.pageCount == |file.pages| + SUPERBLOCK_COUNT
      && active.pageCount * PAGE_SIZE < Bytes.U64_LIMIT
      && file.tail == 0
      && Coherent(cache.pages, file.pages)
    }

    /** Holds across every call, failed or not. */
    ghost predicate Valid(): (holds: bool)
      reads this, file, cache
      ensures holds ==>
                && Recovered().Some?
                && (|Recovered().value.pages| + SUPERBLOCK_COUNT) * PAGE_SIZE < Bytes.U64_LIMIT
    {
      && cache.Valid()
      && Recovered().Some? && (|Recovered().value.pages| + SUPERBLOCK_COUNT) * PAGE_SIZE < Bytes.U64_LIMIT
      && (!poisoned ==> Live())
    }

    /** No superblock generation or page number is left for another commit. */
    predicate Exhausted()
      reads this
    {
      active.generation + 1 >= Bytes.U64_LIMIT || (active.pageCount + 1) * PAGE_SIZE >= Bytes.U64_LIMIT
    }

    /** The injected fault struck the last durable write, after it was complete and synchronized. */
    predicate LastWriteLanded()
      reads this
    {
      fault.Some? && fault.value.extent == Synced && events == fault.value.event + 1
    }

    lemma LiveView()
      requires Live()
      ensures Recovered() == Some(View(active, file.pages))
    {
      RecoverExact(file.slots, file.pages, activeSlot, active);
    }

    /** `create_new`: two initial superblocks, synchronized. */
    constructor CreateNew(file: PageFile, capacity: nat)
      requires capacity > 0
      requires file.pages == [] && file.tail == 0
      modifies file
      ensures Valid() && Live() && fresh(cache)
      ensures this.file == file && fault == None && events == 0 && active == INITIAL && file.pages == []
      ensures Recovered() == Some(View(INITIAL, []))
    {
      this.file := file;
      cache := new Cache.PageCache<Page>(capacity);
      active := INITIAL;
      activeSlot := 0;
      recoveredAllocation := None;
      poisoned := false;
      fault := None;
      events := 0;
      new;
      file.slots := Slots(Readable(INITIAL), Readable(INITIAL));
    }

    constructor FromSuperblock(file: PageFile, capacity: nat, slot: nat, block: Superblock)
      requires capacity > 0
      requires Choose(file.slots) == Chosen(slot, block) && Recover(file.slots, file.pages, file.tail).Some?
      requires block.pageCount * PAGE_SIZE < Bytes.U64_LIMIT
      modifies file
      ensures Valid() && Live() && fresh(cache)
      ensures this.file == file && fault == None && events == 0
      ensures Recovered() == old(Recover(file.slots, file.pages, file.tail))
      ensures recoveredAllocation.Some? <==>
                old((|file.pages| - (block.pageCount - SUPERBLOCK_COUNT)) * PAGE_SIZE + file.tail) > 0
    {
      this.file := file;
      cache := new Cache.PageCache<Page>(capacity);
      active := block;
      activeSlot := slot;
      var committed := block.pageCount - SUPERBLOCK_COUNT;
      var extra := (|file.pages| - committed) * PAGE_SIZE + file.tail;
      recoveredAllocation := if extra > 0 then Some(RecoveredAllocation(block.pageCount, extra)) else None;
      poisoned := false;
      fault := None;
      events := 0;
      new;
      if extra > 0 {
        file.pages := file.pages[..committed];
        file.tail := 0;
      }
      LiveView();
    }

    /** `open` succeeds exactly on recoverable files and commits to what `Recover` says. */
    static method Open(file: PageFile, capacity: nat) returns (r: Result<Pager>)
      modifies file
      ensures r.Ok? <==>
                && capacity > 0
                && var view := Recover(old(file.slots), old(file.pages), old(file.tail));
                   view.Some? && view.value.block.pageCount * PAGE_SIZE < Bytes.U64_LIMIT
      ensures r.Ok? ==>
                && fresh(r.value) && fresh(r.value.cache) && r.value.file == file
                && r.value.Valid() && r.value.Live()
                && r.value.fault == None && r.value.events == 0
                && r.value.Recovered() == Recover(old(file.slots), old(file.pages), old(file.tail))
      ensures r.Err? ==> unchanged(file)
    {
      if capacity == 0 {
        return Err(InvalidInput);
      }
      var choice := Choose(file.slots);
      if choice.Corrupt? || Recover(file.slots, file.pages, file.tail).None?
         || choice.block.pageCount * PAGE_SIZE >= Bytes.U64_LIMIT {
        return Err(Corruption);
      }
      var pager := new Pager.FromSuperblock(file, capacity, choice.slot, choice.block);
      return Ok(pager);
    }

    /** Consumes one durable-write event and says how far it gets. */
    method NextWrite() returns (extent: WriteExtent, failed: bool)
      modifies this`events
      ensures events == old(events) + 1
      ensures failed <==> fault.Some? && fault.value.event == old(events)
      ensures extent == if failed then fault.value.extent else Synced
    {
      failed := fault.Some? && fault.value.event == events;
      extent := if failed then fault.value.extent else Synced;
      events := events + 1;
    }

    /** `write_superblock_durable` of the next generation into the inactive slot. */
    method WriteSuperblock(next: Superblock) returns (failed: bool)
      requires Choose(file.slots) == Chosen(activeSlot, active)
      requires next.generation == active.generation + 1 && Decodes(next)
      modifies this`events, file`slots
      ensures events == old(events) + 1
      ensures failed <==> fault.Some? && fault.value.event == old(events)
      ensures if failed && !fault.value.extent.Synced?
              then Choose(file.slots) == Chosen(activeSlot, active)
              else Choose(file.slots) == Chosen(AlternateSlot(activeSlot), next)
    {
      hide Choose, WriteSlot, AlternateSlot;
      var extent, hit := NextWrite();
      InactiveWriteIsAtomic(file.slots, activeSlot, active, next, extent);
      file.slots := WriteSlot(file.slots, AlternateSlot(activeSlot), next, extent);
      failed := hit;
    }

    /** `write_durable_bytes` of one page at the committed end of the file. */
    method AppendImage(page: Page) returns (failed: bool)
      requires file.tail == 0
      modifies this`events, file`pages, file`tail
      ensures events == old(events) + 1
      ensures failed <==> fault.Some? && fault.value.event == old(events)
      ensures !failed ==> file.pages == old(file.pages) + [Whole(page)] && file.tail == 0
      ensures failed ==>
                || (file.pages == old(file.pages) && file.tail < PAGE_SIZE)
                || (file.pages == old(file.pages) + [Whole(page)] && file.tail == 0)
    {
      var extent, hit := NextWrite();
      match extent {
        case NotStarted =>
        case TornWrite(kept) =>
          file.tail := if kept < PAGE_SIZE then kept else PAGE_SIZE - 1;
        case Synced =>
          file.pages := file.pages + [Whole(page)];
      }
      failed := hit;
    }

    /** `write_durable_bytes` of one page over a committed one. */
    method OverwriteImage(at: nat, page: Page) returns (failed: bool)
      requires at < |file.pages|
      modifies this`events, file`pages
      ensures events == old(events) + 1 && (failed <==> Strikes(fault, old(events), old(events) + 1))
      ensures !failed ==> file.pages == old(file.pages)[at := Whole(page)]
      ensures |file.pages| == |old(file.pages)|
      ensures forall i :: 0 <= i < |file.pages| && i != at ==> file.pages[i] == old(file.pages)[i]
    {
      var extent, hit := NextWrite();
      match extent {
        case NotStarted =>
        case TornWrite(_) =>
          file.pages := file.pages[at := Torn];
        case Synced =>
          file.pages := file.pages[at := Whole(page)];
      }
      failed := hit;
    }

    /** Caches a committed page; whatever the cache held under its id may be outdated. */
    method Remember(id: nat, page: Page)
      requires cache.Valid() && Coherent(cache.pages - {id}, file.pages)
      requires At(file.pages, id, page) && ReadableAt(file.pages, id)
      modifies cache
      ensures cache.Valid() && Coherent(cache.pages, file.pages) && cache.history == old(cache.history) + [id]
    {
      hide Coherent, Cache.PageCache.Valid;
      ghost var before := cache.pages;
      cache.Insert(id, page);
      CoherentAfterInsert(before - {id}, cache.pages, file.pages, id);
    }

    method ReadPage(id: nat) returns (r: Result<Page>)
      requires Valid()
      modifies cache
      ensures Valid()
      ensures r.Ok? <==> !poisoned && ReadableAt(file.pages, id)
      ensures r.Ok? ==> At(file.pages, id, r.value)
      ensures r.Err? ==> r.error == if poisoned then Error.Poisoned
                                    else if !Committed(file.pages, id) then InvalidInput else Corruption
      ensures cache.history == if r.Ok? then old(cache.history) + [id] else old(cache.history)
    {
      hide Coherent, Recover, Choose, WriteSlot, AlternateSlot, FitsPage;
      if poisoned {
        return Err(Error.Poisoned);
      }
      if id < SUPERBLOCK_COUNT || id >= active.pageCount {
        return Err(InvalidInput);
      }
      var cached := cache.Get(id);
      if cached.Some? {
        CachedIsCommitted(cache.pages, file.pages, id);
        return Ok(cached.value);
      }
      var image := file.pages[id - SUPERBLOCK_COUNT];
      if image.Torn? {
        return Err(Corruption);
      }
      if !Sane(image.page, active.pageCount) {
        return Err(Corruption);
      }
      CoherentWithout(cache.pages, file.pages, id);
      Remember(id, image.page);
      return Ok(image.page);
    }

    /** The two durable writes of an allocation: the page at the end, then a superblock that counts it. */
    method AppendAndPublish(page: Page, next: Superblock) returns (failed: bool)
      requires Live()
      requires next == Superblock(active.generation + 1, active.pageCount + 1, active.root)
      modifies this`events, file
      ensures failed <==> Strikes(fault, old(events), old(events) + 2)
      ensures if failed then Strikes(fault, old(events), events) else events == old(events) + 2
      ensures !failed ==>
                && Choose(file.slots) == Chosen(AlternateSlot(activeSlot), next)
                && file.pages == old(file.pages) + [Whole(page)] && file.tail == 0
      ensures Recovered() == Some(View(active, old(file.pages))) ||
              Recovered() == Some(View(next, old(file.pages) + [Whole(page)]))
    {
      hide Coherent, Recover, Choose, WriteSlot, AlternateSlot, FitsPage;
      ghost var base, written := file.pages, file.pages + [Whole(page)];
      failed := AppendImage(page);
      RecoverTrailing(file.slots, base, file.pages, file.tail, activeSlot, active);
      if failed {
        return;
      }
      assert file.pages == written;
      failed := WriteSuperblock(next);
      if Choose(file.slots) == Chosen(activeSlot, active) {
        RecoverTrailing(file.slots, base, file.pages, 0, activeSlot, active);
      } else {
        RecoverExact(file.slots, file.pages, AlternateSlot(activeSlot), next);
      }
    }

    /** `commit_new_page`: refuses stale ids and exhausted counters, then appends and publishes. */
    method CommitNewPage(id: nat, page: Page) returns (r: Result<nat>)
      requires Valid()
      requires Sane(page, id + 1)
      modifies this`active, this`activeSlot, this`poisoned, this`events, file, cache
      ensures Valid()
      ensures Recovered().value.block.root == old(Recovered()).value.block.root
      ensures Recovered().value.pages == old(Recovered()).value.pages ||
              Recovered().value.pages == old(Recovered()).value.pages + [Whole(page)]
      ensures r.Ok? ==>
                && !poisoned && !old(poisoned)
                && r.value == id == |old(file.pages)| + SUPERBLOCK_COUNT
                && file.pages == old(file.pages) + [Whole(page)]
                && active == Superblock(old(active).generation + 1, old(active).pageCount + 1, old(active).root)
                && events == old(events) + 2
      ensures r.Ok? <==>
                && !old(poisoned) && id == old(active).pageCount && !old(Exhausted())
                && !Strikes(fault, old(events), old(events) + 2)
      ensures old(events) <= events && (poisoned ==> old(poisoned) || Strikes(fault, old(events), events))
      ensures r.Err? ==> r.error == if old(poisoned) then Error.Poisoned
                                    else if id != old(active).pageCount then InvalidInput
                                    else if old(Exhausted()) then Corruption else Io
      ensures cache.history == if r.Ok? then old(cache.history) + [id] else old(cache.history)
      ensures r.Err? && !poisoned ==>
                unchanged(file) && active == old(active) && (id != active.pageCount || Exhausted())
      ensures old(poisoned) ==> r.Err? && unchanged(file)
    {
      hide Coherent, Recover, Choose, WriteSlot, AlternateSlot, FitsPage;
      if poisoned {
        return Err(Error.Poisoned);
      }
      LiveView();
      if id != active.pageCount {
        return Err(InvalidInput);
      }
      if active.generation + 1 >= Bytes.U64_LIMIT || (active.pageCount + 1) * PAGE_SIZE >= Bytes.U64_LIMIT {
        return Err(Corruption);
      }
      var next := Superblock(active.generation + 1, active.pageCount + 1, active.root);
      var failed := AppendAndPublish(page, next);
      if failed {
        poisoned := true;
        return Err(Io);
      }
      active := next;
      activeSlot := AlternateSlot(activeSlot);
      CoherentAfterAppend(cache.pages, old(file.pages), Whole(page));
      CoherentWithout(cache.pages, file.pages, id);
      Remember(id, page);
      RecoverExact(file.slots, file.pages, activeSlot, active);
      return Ok(id);
    }

    /** `commit_recycled_page`: overwrites one committed page in place, no superblock. */
    method CommitRecycledPage(id: nat, page: Page) returns (r: Result<nat>)
      requires Valid()
      requires Sane(page, |file.pages| + SUPERBLOCK_COUNT)
      modifies this`poisoned, this`events, file`pages, cache
      ensures Valid()
      ensures Recovered().value.block == old(Recovered()).value.block
      ensures |Recovered().value.pages| == |old(Recovered()).value.pages|
      ensures forall other: nat :: Committed(old(Recovered()).value.pages, other) && other != id ==>
                Recovered().value.pages[other - SUPERBLOCK_COUNT]
                == old(Recovered()).value.pages[other - SUPERBLOCK_COUNT]
      ensures r.Ok? ==>
                && !poisoned && !old(poisoned)
                && r.value == id && Committed(old(file.pages), id)
                && file.pages == old(file.pages)[id - SUPERBLOCK_COUNT := Whole(page)]
                && events == old(events) + 1
      ensures r.Ok? <==>
                && !old(poisoned) && Committed(old(file.pages), id)
                && !Strikes(fault, old(events), old(events) + 1)
      ensures old(events) <= events && (poisoned ==> old(poisoned) || Strikes(fault, old(events), events))
      ensures r.Err? ==> r.error == if old(poisoned) then Error.Poisoned
                                    else if !Committed(old(file.pages), id) then InvalidInput else Io
      ensures cache.history == if r.Ok? then old(cache.history) + [id] else old(cache.history)
      ensures r.Err? && !poisoned ==> unchanged(file) && !Committed(old(file.pages), id)
      ensures old(poisoned) ==> r.Err? && unchanged(file)
    {
      hide Coherent, Recover, Choose, WriteSlot, AlternateSlot, FitsPage;
      if poisoned {
        return Err(Error.Poisoned);
      }
      LiveView();
      if id < SUPERBLOCK_COUNT || id >= active.pageCount {
        return Err(InvalidInput);
      }
      var at := id - SUPERBLOCK_COUNT;
      var failed := OverwriteImage(at, page);
      RecoverExact(file.slots, file.pages, activeSlot, active);
      if failed {
        poisoned := true;
        return Err(Io);
      }
      CoherentAfterOverwrite(cache.pages, old(file.pages), id, page);
      Remember(id, page);
      return Ok(id);
    }

    /** `set_root`: one superblock write makes the whole new tree visible, or none of it. */
    method SetRoot(root: nat) returns (r: Result<()>)
      requires Valid()
      modifies this`active, this`activeSlot, this`poisoned, this`events, file`slots, cache
      ensures Valid()
      ensures Recovered().value.pages == old(Recovered()).value.pages
      ensures r.Ok? ==> !poisoned && !old(poisoned) && active.root == root == Recovered().value.block.root
                        && (root == ROOT_NONE || ReadableAt(file.pages, root))
      ensures r.Ok? ==>
                if root == old(active).root then active == old(active) && events == old(events)
                else active == Superblock(old(active).generation + 1, old(active).pageCount, root)
                     && events == old(events) + 1
      ensures r.Ok? <==>
                && !old(poisoned) && (root == ROOT_NONE || ReadableAt(file.pages, root))
                && (root == old(active).root ||
                    (old(active).generation + 1 < Bytes.U64_LIMIT && !Strikes(fault, old(events), old(events) + 1)))
      ensures old(events) <= events && (poisoned ==> old(poisoned) || Strikes(fault, old(events), events))
      ensures r.Err? ==> r.error == if old(poisoned) then Error.Poisoned
                                    else if root != ROOT_NONE && !Committed(file.pages, root) then InvalidInput
                                    else if Strikes(fault, old(events), events) then Io else Corruption
      ensures r.Err? ==>
                || Recovered() == old(Recovered())
                || (&& poisoned && Recovered().value.block.root == root
                    && LastWriteLanded())
      ensures r.Err? && !poisoned ==>
                && unchanged(file) && active == old(active)
                && (Exhausted() || (root != ROOT_NONE && !ReadableAt(file.pages, root)))
      ensures old(poisoned) ==> r.Err? && unchanged(file)
    {
      hide Coherent, Recover, Choose, WriteSlot, AlternateSlot, FitsPage, ReadableAt, Cache.PageCache.Valid;
      if poisoned {
        return Err(Error.Poisoned);
      }
      LiveView();
      if root != ROOT_NONE {
        var page := ReadPage(root);
        if page.Err? {
          return Err(page.error);
        }
      }
      if root == active.root {
        return Ok(());
      }
      if active.generation + 1 >= Bytes.U64_LIMIT {
        return Err(Corruption);
      }
      var next := Superblock(active.generation + 1, active.pageCount, root);
      var failed := WriteSuperblock(next);
      if Choose(file.slots) == Chosen(activeSlot, active) {
        RecoverExact(file.slots, file.pages, activeSlot, active);
      } else {
        RecoverExact(file.slots, file.pages, AlternateSlot(activeSlot), next);
      }
      if failed {
        poisoned := true;
        return Err(Io);
      }
      active := next;
      activeSlot := AlternateSlot(activeSlot);
      return Ok(());
    }
  }
}
