/** The two mirrored superblocks: which one recovery trusts, and what every interrupted write leaves. */
module Superblocks {

  const SUPERBLOCK_COUNT: nat := 2
  const ROOT_NONE: nat := 0

  /** Superblock contents; the slot is the position in the pair. */
  datatype Superblock = Superblock(generation: nat, pageCount: nat, root: nat)

  /** What a physical slot holds: the fields of an intact block, or bytes that fail its checksum or framing. */
  datatype SlotImage = Readable(block: Superblock) | Unreadable

  datatype Slots = Slots(first: SlotImage, second: SlotImage)

  datatype Choice = Corrupt | Chosen(slot: nat, block: Superblock)

  const INITIAL := Superblock(0, SUPERBLOCK_COUNT, ROOT_NONE)

  /** The field checks of `Superblock::decode`: a root, if any, lies among the committed data pages. */
  predicate Decodes(block: Superblock) {
    && block.pageCount >= SUPERBLOCK_COUNT
    && (block.root == ROOT_NONE || SUPERBLOCK_COUNT <= block.root < block.pageCount)
  }

  function DecodedSlot(image: SlotImage): SlotImage {
    if image.Readable? && Decodes(image.block) then image else Unreadable
  }

  function Gap(a: nat, b: nat): nat {
    if a < b then b - a else a - b
  }

  /** `choose_superblock` on what the two slots decode to. */
  function Choose(slots: Slots): (choice: Choice)
    ensures choice.Chosen? ==> Decodes(choice.block) && choice.slot <= 1
  {
    match (DecodedSlot(slots.first), DecodedSlot(slots.second))
    case (Readable(a), Readable(b)) =>
      if Gap(a.generation, b.generation) > 1 then Corrupt
      else if a.generation == b.generation && (a.pageCount != b.pageCount || a.root != b.root) then Corrupt
      else if b.generation > a.generation then Chosen(1, b)
      else Chosen(0, a)
    case (Readable(a), Unreadable) => Chosen(0, a)
    case (Unreadable, Readable(b)) => Chosen(1, b)
    case (Unreadable, Unreadable) => Corrupt
  }

  /** Slot `slot` holds this block, intact and sound. */
  predicate HeldIn(slots: Slots, slot: nat, block: Superblock) {
    slot < SUPERBLOCK_COUNT && Decodes(block)
    && (if slot == 0 then slots.first else slots.second) == Readable(block)
  }

  /**
   * Recovery takes the newest intact superblock, the first slot of two equal ones, and nothing at all when the two
   * are intact but are neither equal nor of neighbouring generations.
   */
  lemma ChosenExactly(slots: Slots, slot: nat, block: Superblock)
    ensures Choose(slots) == Chosen(slot, block) <==>
              && HeldIn(slots, slot, block)
              && forall other, rival :: HeldIn(slots, other, rival) && other != slot ==>
                   rival.generation + 1 == block.generation || (rival == block && slot < other)
  {
    if Choose(slots) != Chosen(slot, block) && HeldIn(slots, slot, block) {
      var other := AlternateSlot(slot);
      var image := if other == 0 then slots.first else slots.second;
      assert image.Readable? && HeldIn(slots, other, image.block);
    }
  }

  function AlternateSlot(slot: nat): nat {
    if slot == 0 then 1 else 0
  }

  /** How far a durable write gets: not started, torn after `kept` bytes, or complete and synchronized. */
  datatype WriteExtent = NotStarted | TornWrite(kept: nat) | Synced

  function WriteSlot(slots: Slots, slot: nat, block: Superblock, extent: WriteExtent): Slots {
    match extent
    case NotStarted => slots
    case TornWrite(_) => if slot == 0 then slots.(first := Unreadable) else slots.(second := Unreadable)
    case Synced => if slot == 0 then slots.(first := Readable(block)) else slots.(second := Readable(block))
  }

  /** A write of the next generation into the inactive slot switches atomically. */
  lemma InactiveWriteIsAtomic(slots: Slots, slot: nat, block: Superblock, next: Superblock, extent: WriteExtent)
    requires Choose(slots) == Chosen(slot, block)
    requires next.generation == block.generation + 1 && Decodes(next)
    ensures Choose(WriteSlot(slots, AlternateSlot(slot), next, extent))
         == if extent.Synced? then Chosen(AlternateSlot(slot), next) else Chosen(slot, block)
  {
  }

  // ---------- whole runs ----------

  /** One metadata commit: a changed root, or one more page. */
  datatype Commit = SetRoot(root: nat) | Allocate

  datatype Event = Event(commit: Commit, extent: WriteExtent)

  function Next(block: Superblock, commit: Commit): Superblock {
    match commit
    case SetRoot(root) => Superblock(block.generation + 1, block.pageCount, root)
    case Allocate => Superblock(block.generation + 1, block.pageCount + 1, block.root)
  }

  /** Every root that was to be installed was a committed page at that moment, as `set_root` demands. */
  predicate Issued(events: seq<Event>) {
    events == []
    || (Issued(events[..|events| - 1])
        && Decodes(Next(Fold(Completed(events[..|events| - 1])), events[|events| - 1].commit)))
  }

  /** The slots after a run in which every interrupted commit is followed by a reopen. */
  function Run(events: seq<Event>): Slots {
    if events == [] then Slots(Readable(INITIAL), Readable(INITIAL))
    else
      var slots := Run(events[..|events| - 1]);
      var event := events[|events| - 1];
      match Choose(slots)
      case Corrupt => slots
      case Chosen(slot, block) =>
        WriteSlot(slots, AlternateSlot(slot), Next(block, event.commit), event.extent)
  }

  function Completed(events: seq<Event>): seq<Commit> {
    if events == [] then []
    else
      var before := Completed(events[..|events| - 1]);
      var event := events[|events| - 1];
      if event.extent.Synced? then before + [event.commit] else before
  }

  function Fold(commits: seq<Commit>): Superblock {
    if commits == [] then INITIAL else Next(Fold(commits[..|commits| - 1]), commits[|commits| - 1])
  }

  /** The other slot is unreadable, one generation behind, or both are still the initial pair. */
  predicate Mirrored(slots: Slots, slot: nat, block: Superblock) {
    && Choose(slots) == Chosen(slot, block)
    && var other := if slot == 0 then slots.second else slots.first;
       DecodedSlot(other).Readable? ==>
         || other.block.generation + 1 == block.generation
         || other.block == block == INITIAL
  }

  lemma MirroredStep(slots: Slots, slot: nat, block: Superblock, next: Superblock, extent: WriteExtent)
    requires Mirrored(slots, slot, block)
    requires next.generation == block.generation + 1 && Decodes(next)
    ensures var after := WriteSlot(slots, AlternateSlot(slot), next, extent);
            if extent.Synced? then Mirrored(after, AlternateSlot(slot), next) else Mirrored(after, slot, block)
  {
  }

  /**
   * Over any run of commits, torn writes, crashes and reopens, recovery always finds a superblock, it is
   * the fold of exactly the completed commits, and the other slot is unreadable or the one before it.
   */
  lemma {:induction false} RecoveryFindsEveryCompletedCommit(events: seq<Event>)
    requires Issued(events)
    ensures var choice := Choose(Run(events));
            && choice.Chosen?
            && choice.block == Fold(Completed(events))
            && choice.block.generation == |Completed(events)|
            && Mirrored(Run(events), choice.slot, choice.block)
    decreases |events|
  {
    if events != [] {
      hide Choose, Next, WriteSlot, AlternateSlot, Decodes;
      var front, event := events[..|events| - 1], events[|events| - 1];
      RecoveryFindsEveryCompletedCommit(front);
      var before := Choose(Run(front));
      var next := Next(before.block, event.commit);
      NextGeneration(before.block, event.commit);
      MirroredStep(Run(front), before.slot, before.block, next, event.extent);
      var done := Completed(front);
      if event.extent.Synced? {
        assert Completed(events) == done + [event.commit];
        assert (done + [event.commit])[..|done|] == done;
      }
    }
  }

  lemma NextGeneration(block: Superblock, commit: Commit)
    ensures Next(block, commit).generation == block.generation + 1
    ensures Next(block, commit).pageCount >= block.pageCount
  {
  }

  lemma {:induction false} FoldedPageCountGrows(commits: seq<Commit>, k: nat)
    requires k <= |commits|
    ensures Fold(commits[..k]).pageCount <= Fold(commits).pageCount
    decreases |commits|
  {
    if k < |commits| {
      FoldedPageCountGrows(commits[..|commits| - 1], k);
      NextGeneration(Fold(commits[..|commits| - 1]), commits[|commits| - 1]);
      assert commits[..|commits| - 1][..k] == commits[..k];
    } else {
      assert commits[..k] == commits;
    }
  }

  /** The recovered page count never drops below one whose superblock write completed. */
  lemma RecoveredPageCountNeverDrops(events: seq<Event>, k: nat)
    requires k <= |events| && Issued(events)
    ensures Choose(Run(events[..k])).Chosen? && Choose(Run(events)).Chosen?
    ensures Choose(Run(events[..k])).block.pageCount <= Choose(Run(events)).block.pageCount
  {
    hide Choose, Next, Run, Fold, Decodes;
    IssuedPrefix(events, k);
    RecoveryFindsEveryCompletedCommit(events[..k]);
    RecoveryFindsEveryCompletedCommit(events);
    CompletedPrefix(events, k);
    var some := Completed(events[..k]);
    assert some == Completed(events)[..|some|];
    FoldedPageCountGrows(Completed(events), |some|);
  }

  lemma {:induction false} IssuedPrefix(events: seq<Event>, k: nat)
    requires k <= |events| && Issued(events)
    ensures Issued(events[..k])
    decreases |events|
  {
    if k < |events| {
      IssuedPrefix(events[..|events| - 1], k);
      assert events[..|events| - 1][..k] == events[..k];
    } else {
      assert events[..k] == events;
    }
  }

  lemma {:induction false} CompletedPrefix(events: seq<Event>, k: nat)
    requires k <= |events|
    ensures Completed(events[..k]) <= Completed(events)
    decreases |events|
  {
    if k < |events| {
      CompletedPrefix(events[..|events| - 1], k);
      assert events[..|events| - 1][..k] == events[..k];
    } else {
      assert events[..k] == events;
    }
  }
}
