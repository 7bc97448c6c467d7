# Verified model of the database laboratory's storage core

Dafny models of four connected parts of the repository, with machine-checked proofs about them.

- **B+ tree over a mirrored-superblock pager** (`SplitArithmetic`, `Superblocks`, `PageCache`, `BtreePages`,
  `PageStore`, `PageBudget`, `SlottedPage`, `TreeCells`, `TreeModel`, `TreeParse`, `TreeReader`, `InsertForecast`,
  `TreeLevels`, `Allocation`, `BPlusTree`, `TreeRuns`). The pager, its cache and the tree are classes over a page file whose durable writes can
  be interrupted at any event: before the write, torn, or after it is synchronized. `TreeParse.Denoted` says which
  key/value map a page file stands for; every tree operation is proved against it.
- **Append log** (`Bytes`, `LogFormat`, `TornAppends`, `LogScan`, `AppendLog`, `LogCompaction`). Record codec,
  scanner, engine with poisoning and reopen, and the compaction that rewrites a log.
- **Generation protocol** (`Generations`, `GenerationProgress`, `GenerationRecovery`, `GenerationSwitch`,
  `GenerationNames`). A transition system in which any number of routed writers, compact switches, cleanups and orphan
  retirements interleave with process crashes; what each of them achieves when it is left alone; when a directory that does not verify can verify again; one switch as ordered directory effects
  under loss of unsynchronized entries; and the canonical names.
- **Self-contained algorithms** (`Crc32`, `CommitMarker`, `Shrink`, `RelationalIndex`, `QueryLaws`, `ExperimentTrace`,
  `TraceLaws`).

`Options` holds the one shared option type. `dafny verify dfyconfig.toml` checks everything.

## How the main results fit together

*Tree.* `TreeParse.Parse` reads a tree out of committed pages; `ParseHolds` and `ParseFinds` show that the pages
determine it. `TreeReader.ValidateSubtree` accepts exactly the parsed trees that are sorted, of uniform height, with
at least two children per internal page and no page reached twice, so `BPlusTree.Open` is an if-and-only-if. An
insertion works level by level (`TreeLevels`), writes only pages outside the reachable set (`Allocation`), and is
published by one superblock write; whether it goes through, and whether `open` will take the result, is foretold from
cell sizes alone (`InsertForecast`). `BPlusTree.Put` therefore either succeeds with the map updated, or leaves a file
that still denotes the old tree, or the new one when its last durable write, the root superblock, was complete.
`CrashRun` lifts this to runs: a new file, any puts, any number of handles, each with a fault of its own.
Every writing method also accounts for itself (`PageBudget`): how many pages it writes is foretold, they are taken from
the pool before the file grows, and it goes through exactly when no fault strikes one of its durable writes and no
counter of the format runs out. So `Put` succeeds exactly under conditions that hold or fail before it starts, and a
handle is never poisoned without a fault. `TreeRuns` lifts that to runs without faults.

*Log.* Encoding and scanning are inverse in both directions, on every cut; which tails the scanner takes is stated in
terms of the encoder (`TornAppends`). The engine's contracts say what each call leaves in the file for every persisted
prefix of a failed append; `RunScript` compares whole scripts of mutations, failures and reopens with a ledger that
mentions no file.

*Generations.* `Inv` is kept by each of the 23 kinds of steps. Its consequences are stated over runs. The steps allow
more than the program does (a process holding the lease may do any sequence of maintenance steps, and the redundant
re-inspections of the compaction source are not required), so the safety results do not depend on them. Conversely
`GenerationProgress` runs the program's own sequences to their ends, so that the steps are not less than it does.

*Relational layer.* The indexed executors are proved equal to the scans, `QueryLaws` says which rows a scan answers with,
and `RelationalIndex.TransactionLeaves` which rows a transaction leaves, neither in terms of the executors themselves.

## What the proofs say about the code

- `choose_split` can leave one child on a side (`SplitArithmetic.LargeSeparatorsStrandAChild`,
  `InsertForecast.AcceptedTreeStrands`). Such a put succeeds, and the published tree is then refused by `open` and by
  the next `put`, because both validate first. It happens exactly when a divided internal level on the searched path
  violates one of two inequalities on the costs at its ends (`SplitArithmetic.TwoOnEachSideExactly`).
- A leaf or an internal page that is overfull need not divide at all (`SplitArithmetic.FullPageCellBlocksInsertion`,
  `InsertForecast.FullCellIsBlocked`). It divides exactly when no cell is too large for both pages
  (`SplitArithmetic.DividesExactly`).
- `InsertForecast.ForecastPut` evaluates both conditions along the searched path before anything is written, and the
  contract of `Put` is stated with it. The size premise `TreeLevels.ModestPair` (half a page for a leaf cell, a third
  of one for its separator) satisfies both for every tree built under it.
- A compact switch cannot always be recovered from as its directory stands. While the copy is built, and until the
  removal of its dot-named staging file is synchronized together with the candidate, that file can be among the
  surviving names, and then the directory scan fails (`GenerationSwitch.LostRemovalBlocksRecovery`). Nothing is lost:
  once the file is removed recovery finds the old generation. `GenerationSwitch.CompactSwitch` says exactly when.
- A scan also fails beyond 8192 entries, and nothing checks for room first. A switch needs room for four names besides
  those it starts from, three once it is complete; from 8190 entries it publishes its marker and then fails its own
  final verification (`GenerationSwitch.FullDirectoryBlocksRecovery`). Reservations are never removed, so ordinary
  steps reach the limit, and then cleanup, which verifies first, cannot help
  (`GenerationRecovery.ReservationsFillTheDirectory`). `GenerationRecovery.VerifiesAgainExactly` tells exactly which
  directories can still be brought back by the program's own steps.
- The scanner takes some tails that no interrupted append leaves, because a length or checksum field that is cut is
  not looked at, nor is the record checksum of a record that is not whole (`LogScan.AcceptedTailNeedNotBeACut`,
  `TornAppends.CutExactly`).
- `docs/append-log-offline-compact-switch.md` line 16 says that routed writers may run while the compact copy is
  built. In the code the copy's staging file, named with a leading dot, lies in the generation directory, and a
  directory scan rejects it. So while a copy is under construction no routed append and no verification succeeds
  (`Generations.CopyInProgressRefusesWriters`), and if the compacting process dies then, no step of the protocol ever
  removes the file (`Generations.CrashedCopyBlocksTheDirectory`). In every reachable state the directory verifies if
  and only if no such file is visible and the entries are not too many (`Generations.VerifiesExactly`). Safety is not
  affected. The model follows the code.
- A poisoned handle normally refuses every read, because the pager refuses the page. When its tree was empty `get`
  asks for no page and still answers that nothing is there, even if the failed put became durable
  (`BPlusTree.BPlusTree.Get`, poisoned case).
- Some checks can never fail: the materialized-separator size check of `commit_internal_with_cells`, the
  `checked_sub` on reclaimed bytes, the zero-padding comparison of `parse_canonical_id`, and the structural check at
  the end of `build_generated_trace`.

## Model

| member | source | states |
|---|---|---|
| SplitArithmetic.ChooseSplit | crates/db-storage-btree/src/tree.rs:1055-1079 | A split is returned exactly when a two-page division exists, and it is the first least-imbalanced one |
| SplitArithmetic.DividesExactly | crates/db-storage-btree/src/tree.rs:1055-1079 | An overfull page has a two-page division if and only if no cell is too large both for the page before it and for the page after it |
| SplitArithmetic.SmallCellsDivide | crates/db-storage-btree/src/tree.rs:361-404 | When no cell exceeds a bound and the excess leaves room for one, the page divides |
| SplitArithmetic.TwoOnEachSideExactly | crates/db-storage-btree/src/tree.rs:548-555 | The chosen division leaves two cells or more on each side if and only if twice the first cost plus the second is below the sum and twice the last plus the last but one is at most the sum |
| SplitArithmetic.SmallSeparatorsKeepTwo | crates/db-storage-btree/src/tree.rs:548-555 | Separators of at most a third of a page satisfy both end conditions |
| SplitArithmetic.LargeSeparatorsStrandAChild | crates/db-storage-btree/src/tree.rs:1055-1079 | Three 1500-byte separators divide 1 and 2: the chosen split strands one child, and the end condition fails |
| SplitArithmetic.FullPageCellBlocksInsertion | crates/db-storage-btree/src/tree.rs:375-383 | A full-page cell between two half-page cells admits no division although both neighbours fitted before |
| Superblocks.InactiveWriteIsAtomic | crates/db-storage-btree/src/lib.rs:636-645 | Writing the next generation into the inactive slot switches recovery if and only if the write was complete |
| Superblocks.ChosenExactly | crates/db-storage-btree/src/lib.rs:1098-1134 | A superblock is chosen if and only if it is intact and any other intact one is a single generation behind, or its equal in the second slot; otherwise recovery refuses |
| Superblocks.RecoveryFindsEveryCompletedCommit | crates/db-storage-btree/src/lib.rs:1098-1134 | Over any run of commits (each installed root passing `set_root`'s check), torn writes and reopens recovery finds the fold of exactly the completed commits, and the other slot is unreadable or one generation behind |
| Superblocks.RecoveredPageCountNeverDrops | crates/db-storage-btree/src/lib.rs:559-616 | The recovered page count never falls below one whose superblock write completed |
| PageCache.HitMovesToBack | crates/db-storage-btree/src/lib.rs:948-957 | Using a resident page makes it the most recent of the history's last distinct ids |
| PageCache.MissAppendsAndEvicts | crates/db-storage-btree/src/lib.rs:934-946 | Using an absent page drops exactly the least recently used one when the cache is full |
| PageCache.PageCache.Touch | crates/db-storage-btree/src/lib.rs:948-957 | The in-place queue stays the recency order of the whole access history |
| PageCache.PageCache.Insert | crates/db-storage-btree/src/lib.rs:934-946 | Size never exceeds capacity; exactly the least recently used page is evicted; all other pages are unchanged |
| PageStore.Pager.Open | crates/db-storage-btree/src/lib.rs:441-503 | Succeeds exactly on recoverable files and commits to the recovered superblock, dropping at most one trailing page |
| PageStore.RecoveredExactly | crates/db-storage-btree/src/lib.rs:441-503 | A file is recovered to a view if and only if its chosen superblock counts exactly the view's pages, they begin the file, and at most one page, whole or cut, lies beyond them |
| PageStore.Pager.CommitNewPage | crates/db-storage-btree/src/lib.rs:559-616 | Succeeds if and only if the pager is usable, the id is the next one, no counter is exhausted and no fault strikes one of its two durable writes, poisons only when one does, and tells these causes apart; a reopen after any interruption sees the old committed pages or those plus the new one, with the same root; the cache agrees with the file and has used the page exactly on success |
| PageStore.Pager.CommitRecycledPage | crates/db-storage-btree/src/lib.rs:618-634 | Succeeds if and only if the pager is usable, the page is committed and no fault strikes the one write, poisons only when one does; only the recycled page can change, whatever happens to the write |
| PageStore.Pager.SetRoot | crates/db-storage-btree/src/lib.rs:754-782 | Succeeds if and only if the pager is usable, the root is none or reads back, and it is unchanged or its superblock can be written and no fault strikes; the recovered root changes only if the superblock write was complete, every other failure leaves the recovered state unchanged |
| PageStore.Pager.ReadPage | crates/db-storage-btree/src/lib.rs:723-749 | Succeeds exactly on committed, whole, sane pages of an unpoisoned pager and returns the committed page, cached or not; the page is then the most recently used, and a failure leaves the recency order alone |
| PageBudget.HighWaterMark | crates/db-storage-btree/src/tree/reuse.rs:7-37 | With the pool holding every unreachable page, writing n pages makes the file exactly as large as it was, or as the reachable pages and the n new ones together, whichever is more |
| PageBudget.SpentAdds | crates/db-storage-btree/src/tree/reuse.rs:23-37 | Writing a pages and then b spends what writing a + b does, and is affordable exactly when that is |
| SlottedPage.ChainCheckDecidesTiling | crates/db-storage-btree/src/lib.rs:1075-1093 | Sorting slots by start and comparing neighbours accepts exactly the ranges that cover each payload byte once |
| SlottedPage.ValidatePageBytes | crates/db-storage-btree/src/lib.rs:960-1096 | Accepts exactly the well-formed page images: valid header, zero gap, slots tiling the payload |
| SlottedPage.InsertKeepsPage | crates/db-storage-btree/src/lib.rs:285-331 | The image after an insertion is well formed and its cells are the old ones followed by the new one |
| SlottedPage.DataPage.InsertCell | crates/db-storage-btree/src/lib.rs:285-331 | Succeeds exactly when the cell is non-empty and fits; otherwise the page bytes are untouched |
| SlottedPage.DataPage.Cell | crates/db-storage-btree/src/lib.rs:334-347 | Returns the stored cell for every occupied slot and an error beyond |
| SlottedPage.LinkKeepsPage | crates/db-storage-btree/src/lib.rs:234-279 | Setting a valid link keeps the page well formed and every cell unchanged |
| SlottedPage.DataPage.SetLink | crates/db-storage-btree/src/lib.rs:234-279 | Succeeds exactly on a page of the right kind with a link that names no superblock and not the page itself; otherwise the bytes are untouched |
| SlottedPage.PackCells | crates/db-storage-btree/src/tree.rs:427-431 | Packing a level into a new page succeeds exactly when its cells are non-empty and fit the body, and the cells read back |
| SlottedPage.DamagedPageIsRejected | crates/db-storage-btree/src/lib.rs:1176-1191 | Damage within four consecutive bytes of a page is always rejected |
| TreeCells.LeafCellRoundTrip | crates/db-storage-btree/src/tree.rs:698-745 | Decoding an encoded leaf cell gives the cell back |
| TreeCells.LeafCellCanonical | crates/db-storage-btree/src/tree.rs:801-911 | Every leaf cell that decodes is the one encoding of its result |
| TreeCells.InternalCellRoundTrip | crates/db-storage-btree/src/tree.rs:780-798 | Decoding an encoded internal cell gives the cell back |
| TreeCells.InternalCellCanonical | crates/db-storage-btree/src/tree.rs:913-996 | Every internal cell that decodes is the one encoding of its result |
| TreeCells.PackLeaf | crates/db-storage-btree/src/tree.rs:419-436 | A leaf packs into one image exactly when its typed cells fit, and the stored cells decode back |
| TreeCells.PackInternal | crates/db-storage-btree/src/tree.rs:484-488 | The same for an internal page |
| TreeModel.InsertIsMapUpdate | crates/db-storage-btree/src/tree.rs:330-345 | Inserting a pair into a sorted sequence at the searched position is updating the map |
| TreeModel.LookupIsMapLookup | crates/db-storage-btree/src/tree.rs:244-253 | Searching a sorted sequence answers as the map does |
| TreeModel.RouteSeparates | crates/db-storage-btree/src/tree.rs:1037-1044 | Everything left of the routed child is below the key and everything right of it is above |
| TreeModel.InsertThroughChild | crates/db-storage-btree/src/tree.rs:346-353 | Splicing the rewritten child in inserts the pair into the whole node |
| TreeModel.Frame | crates/db-storage-btree/src/tree.rs:67-74 | A tree survives every write that avoids the pages it occupies |
| TreeModel.HeightIsBounded | crates/db-storage-btree/src/tree.rs:320-325 | A tree with two children per internal page in an addressable file is at most 52 high, so the height limit is out of reach |
| TreeParse.ParseRefExact | crates/db-storage-btree/src/tree/overflow.rs:113-212 | A reference reads back to exactly the blobs whose canonical chain the pages hold |
| TreeParse.ParseHolds | crates/db-storage-btree/src/tree.rs:801-996 | A tree that reads back is stored by the pages |
| TreeParse.ParseFinds | crates/db-storage-btree/src/tree.rs:801-996 | The pages determine the tree: a shaped tree they store is the one that reads back |
| TreeReader.ReadOverflowBlob | crates/db-storage-btree/src/tree/overflow.rs:113-212 | Reads a chain exactly when it is canonical, complete and reaches no page twice, and returns its bytes |
| TreeReader.DecodeLeaf | crates/db-storage-btree/src/tree.rs:801-911 | Succeeds exactly when keys read back, are strictly increasing, and visit no page twice |
| TreeReader.DecodeInternal | crates/db-storage-btree/src/tree.rs:913-996 | The same for separators and child references |
| TreeReader.AcceptedNode | crates/db-storage-btree/src/tree.rs:548-599 | An acceptable internal page passes every check, in the order they are made |
| TreeReader.NodeIsAccepted | crates/db-storage-btree/src/tree.rs:548-599 | The checks on an internal page suffice: separators equal minima, equal heights, disjoint adjacent ranges, distinct pages |
| TreeReader.ValidateSubtree | crates/db-storage-btree/src/tree.rs:504-605 | Accepts exactly the search trees with two children per internal page and no page reached twice, and reports their bounds |
| TreeReader.Lookup | crates/db-storage-btree/src/tree.rs:235-270 | Below a stored search tree the lookup returns exactly the map's answer |
| InsertForecast.LevelBlockedExactly | crates/db-storage-btree/src/tree.rs:361-404 | A level is blocked if and only if it is overfull and some cell fits on neither page |
| InsertForecast.AcceptedTreeStrands | crates/db-storage-btree/src/tree.rs:548-555 | A concrete accepted tree and pair whose put goes through and leaves an internal page with one child |
| InsertForecast.FullCellIsBlocked | crates/db-storage-btree/src/tree.rs:375-383 | A concrete leaf and pair, each fitting a page, whose put cannot divide the leaf |
| TreeLevels.DividedLevelKeepsTwo | crates/db-storage-btree/src/tree.rs:386-404 | A divided internal level leaves two children on each page if and only if its separator costs satisfy the end conditions |
| TreeLevels.ModestForecast | crates/db-storage-btree/src/tree.rs:313-404 | Under the size premises an insertion is blocked nowhere on its path and strands no child |
| TreeLevels.LeafRewritten | crates/db-storage-btree/src/tree.rs:361-384 | One or two leaves of the same height hold the old pairs with the new one inserted, with the least keys the forecast names |
| TreeLevels.NodeRewritten | crates/db-storage-btree/src/tree.rs:386-404 | One or two internal pages of the same height hold the old pairs with the new one inserted, with separators equal to minima; all keep two children if and only if the forecast says so |
| TreeLevels.LeafPagesForeseen | crates/db-storage-btree/src/tree.rs:361-384 | The pages foretold for rewriting a leaf are those its level needs once the pair is in place |
| TreeLevels.NodePagesForeseen | crates/db-storage-btree/src/tree.rs:386-404 | The pages foretold for rewriting an internal page are those of the child below it, of the overflow chains of all separators, and of the level |
| TreeLevels.NodeSize | crates/db-storage-btree/src/tree.rs:386-404 | The rewritten subtree occupies, chains included, as many pages as foretold |
| BPlusTree.BPlusTree.WriteTreePage | crates/db-storage-btree/src/tree/reuse.rs:23-37 | Writes the first page of the pool, or the end of the file if the pool is empty; succeeds exactly when that is affordable; whatever happens to the write, only a page outside the old tree can change |
| BPlusTree.BPlusTree.CommitOverflowBlob | crates/db-storage-btree/src/tree/overflow.rs:97-111 | On success the fresh pages form the canonical chain of the bytes; it writes one page a chunk and succeeds exactly when they are affordable |
| BPlusTree.BPlusTree.CommitLeafLevel | crates/db-storage-btree/src/tree.rs:361-384 | On success one leaf, or two divided at the chosen split, store exactly the entries; it succeeds exactly when there are entries, a division exists if one is needed and its one or two pages are affordable |
| BPlusTree.BPlusTree.CommitInternalLevel | crates/db-storage-btree/src/tree.rs:386-404 | On success one page, or two divided at the chosen split, store exactly the children with canonical separators, two on each if and only if the end conditions hold; it succeeds exactly when the children are valid, a division exists if one is needed and the pages of its levels and separators are affordable |
| BPlusTree.BPlusTree.RewriteInsert | crates/db-storage-btree/src/tree.rs:313-359 | The subtree is rewritten into the forecast one or two of the same height with the pair inserted, on as many fresh pages as foretold; it succeeds exactly when it is not forecast as blocked and these pages are affordable |
| BPlusTree.BPlusTree.RefreshReusablePages | crates/db-storage-btree/src/tree/reuse.rs:7-21 | The pool becomes exactly the committed pages outside the reachable set, in page order |
| BPlusTree.BPlusTree.Open | crates/db-storage-btree/src/tree.rs:99-112 | Succeeds exactly on recoverable files whose root leads to an acceptable tree |
| BPlusTree.BPlusTree.Get | crates/db-storage-btree/src/tree.rs:222-233 | Returns the denoted map's answer; fails exactly for an oversized key or a poisoned handle of a non-empty tree |
| BPlusTree.BPlusTree.Put | crates/db-storage-btree/src/tree.rs:279-311 | Succeeds if and only if the input is in size, the handle usable, the old tree acceptable, the forecast not blocked, and no fault or exhausted counter meets one of the foretold page writes or the root superblock; it poisons only when a fault strikes. Success updates the denoted map, returns the previous value, adds at most one level, and leaves the file at the larger of its old length and the reachable pages plus the foretold ones; any failure leaves the old tree, or the new one only if the root superblock was complete; the new tree is acceptable if and only if the forecast keeps two children at every divided internal level |
| BPlusTree.ModestIsForetold | crates/db-storage-btree/src/tree.rs:279-311 | Within the size premise a put is never blocked and its result is always acceptable |
| BPlusTree.OldTreeSurvives | crates/db-storage-btree/src/lib.rs:441-503 | Writes outside the reachable set leave the recovered tree exactly as it was |
| BPlusTree.NewTree | crates/db-storage-btree/src/tree.rs:308-308 | Once the root pointer leads to it, the file denotes the updated map |
| BPlusTree.CrashRun | crates/db-storage-btree/src/tree.rs:279-311 | In any run of puts of any size, handles, faults and reopenings the file denotes the acknowledged puts plus at most the last one of each handle; only a reopening that finds an unacceptable tree ends it early, never within the size premise |
| TreeRuns.UpdateOnce | crates/db-storage-btree/src/tree.rs:279-311 | On a tree that holds the one key at most, in a file of at most two pages and with no fault ahead, a put of a pair that needs no overflow page succeeds and keeps all of that |
| TreeRuns.UpdateRun | crates/db-storage-btree/src/tree/reuse.rs:7-37 | Any run of such puts of one key on a new file succeeds throughout, ends with the last value, and its file has two data pages at most |
| LogFormat.WholeRecordReadsBack | crates/db-storage-log/src/lib.rs:646-687 | A whole encoded record, whatever follows it, is read back |
| LogFormat.AcceptedRecordIsEncoding | crates/db-storage-log/src/lib.rs:836-900 | Every record the scanner accepts is the encoding of its result |
| LogFormat.CutRecordIsTorn | crates/db-storage-log/src/lib.rs:902-979 | Every proper cut of a record is a recoverable tail, never corruption |
| LogScan.ScanIsExact | crates/db-storage-log/src/lib.rs:689-802 | Scanning the image of a history reports that history, its boundary and its tail |
| TornAppends.TornTailExactly | crates/db-storage-log/src/lib.rs:902-979 | At a record boundary the scanner reports a recoverable tail if and only if the tail is shorter than some storable record and agrees with it up to the last whole field before the record checksum |
| TornAppends.CutExactly | crates/db-storage-log/src/lib.rs:902-979 | Such a tail is a cut of an encodable record if and only if the field it ends in can be completed: a length within its limit, the header checksum, or a payload with the stored checksum |
| TornAppends.MissingPayloadCompletes | crates/db-storage-log/src/lib.rs:741-757 | With four payload bytes or more missing it always is |
| LogScan.ScanSucceedsExactlyOnImages | crates/db-storage-log/src/lib.rs:689-802 | The scan succeeds if and only if the file is an encoded log followed by nothing or by a tail that agrees with a record up to its last whole field |
| LogScan.AcceptedTailNeedNotBeACut | crates/db-storage-log/src/lib.rs:928-936 | After every log there is an accepted tail that is a prefix of no record: half of an impossible key length |
| LogScan.ImageIsUnique | crates/db-storage-log/src/lib.rs:689-802 | At most one history and tail explain a file |
| LogScan.EveryCutRecovers | crates/db-storage-log/src/lib.rs:689-802 | Every cut of a valid log at or after the file header replays exactly the records wholly before it and reports a tail exactly when it is off a boundary |
| LogScan.ScanFile | crates/db-storage-log/src/lib.rs:689-802 | The loop over offset, sequence and map computes the scan |
| LogScan.LastEntryDecides | crates/db-storage-log/src/lib.rs:775-783 | A key maps to a value if and only if its last mutation in the history puts that value, and is absent if and only if it has none or its last is a delete |
| AppendLog.InterruptedAppend | crates/db-storage-log/src/lib.rs:317-354 | A log with any persisted prefix of one more record is the image of the log with or without that record |
| AppendLog.LogEngine.Append | crates/db-storage-log/src/lib.rs:294-366 | Appends only to a file that still is the acknowledged log; success, failure after a persisted prefix, and refusal each determine the file and the handle, which a refusal poisons exactly when the file is no longer that log and the record would have had room |
| AppendLog.LogEngine.Mutate | crates/db-storage-log/src/lib.rs:385-405 | Succeeds if and only if the record is accepted and no fault meets the write; then the previous value is returned, a put key has its value, a deleted key none, every other key what it had, and the file is the extended log; on failure the values are unchanged |
| AppendLog.LogEngine.Reopen | crates/db-storage-log/src/lib.rs:407-499 | Recovers the scanned history, truncating and reporting a torn tail, and never forgets what the handle had acknowledged |
| AppendLog.LogEngine.MutateAlone | crates/db-storage-log/src/lib.rs:294-366 | Without an outside writer a failed append is durable exactly when its whole record persisted |
| AppendLog.LogEngine.ReopenAlone | crates/db-storage-log/src/lib.rs:407-499 | Without an outside writer a reopen succeeds and recovers exactly the durable history |
| AppendLog.RunScript | crates/db-storage-log/src/lib.rs:203-234 | Over any script of mutations, write failures and reopens the file holds exactly the ledger's mutations and each acknowledgement agrees with it |
| LogCompaction.EntriesAreSortedPairs | crates/db-storage-log/src/lib.rs:243-260 | Inspection lists every live pair once, in key order |
| LogCompaction.CompactLogReplaysToSameMap | crates/db-cli/src/log_compaction.rs:205-222 | One put per live entry replays to the same map |
| LogCompaction.CompactionNeverGrows | crates/db-cli/src/log_compaction.rs:125-137 | The compact log has one record per live key and is at most as long as the source |
| LogCompaction.CompactLogToFreshFile | crates/db-cli/src/log_compaction.rs:59-156 | Without a concurrent writer it succeeds exactly on a clean source and free names, changes no other name, and writes the compact log |
| GenerationNames.ParseIsExact | crates/db-cli/src/generation_directory.rs:341-373 | A name parses to an id exactly when it is the canonical name of that id |
| GenerationNames.ClassifyIsExact | crates/db-cli/src/generation_directory.rs:224-248 | Every canonical name is recognized as its own kind and id, and nothing else is recognized |
| GenerationNames.TwentyDigitsAreCanonical | crates/db-cli/src/generation_directory.rs:369-371 | Twenty digits are the zero-padded decimal of the number they denote, so that comparison never rejects |
| GenerationNames.ScanNamespace | crates/db-cli/src/generation_directory.rs:207-257 | Succeeds exactly on at most 8192 entries that all have canonical names and, if reservations, are empty files; lists exactly their ids |
| GenerationNames.CompactingNameIsRejected | crates/db-cli/src/log_compaction.rs:276-287 | The staging name of a compaction into a generation log is not a canonical name |
| Generations.StepKeepsInv | crates/db-cli/src/generation_compaction.rs:165-260 | Every step of every process keeps the protocol invariant |
| Generations.NoAcknowledgedWriteIsLost | crates/db-cli/src/generation_engine.rs:77-160 | After any run the authoritative log replays to the initial log followed by every landed record in lease order, acknowledged ones included |
| Generations.StaleCandidateIsNeverPublished | crates/db-cli/src/generation_compaction.rs:200-228 | A marker is linked only for a log that equals the authoritative state at that moment |
| Generations.FreshCopyPassesRecheck | crates/db-cli/src/generation_compaction.rs:203-216 | The copy made by an undisturbed switch passes the locked recheck |
| Generations.RecheckFindsNoDrift | crates/db-cli/src/generation_compaction.rs:203-213 | Equal inspection reports of a grown log mean equal contents, so drift is always noticed |
| Generations.ReservedIdIsFresh | crates/db-cli/src/generation_reservation.rs:90-123 | A reserved id was never used for anything and exceeds every id issued before |
| Generations.IdsAreNeverReused | crates/db-cli/src/generation_directory.rs:63-93 | Over any run reserved ids strictly increase and stay reserved |
| Generations.AuthorityNeverDrops | crates/db-cli/src/generation_engine.rs:77-106 | No step lowers the highest marker |
| Generations.RemovalKeepsFrontier | crates/db-cli/src/generation_cleanup.rs:88-224 | Cleanup and orphan retirement leave the allocation frontier exactly unchanged |
| Generations.VerifiesExactly | crates/db-cli/src/generation_directory.rs:109-221 | In every reachable state the directory verifies if and only if no compaction staging file is visible and there are at most 8192 entries |
| GenerationRecovery.VerifiesAgainExactly | crates/db-cli/src/generation_directory.rs:207-257 | From a reachable state some run makes the directory verify again if and only if the names that live processes cannot remove by themselves contain no compaction staging file and are at most 8192 |
| GenerationRecovery.BlockedForever | crates/db-cli/src/generation_directory.rs:217-221 | Otherwise no run of any steps ever does |
| GenerationRecovery.TooManyReservations | crates/db-cli/src/generation_reservation.rs:90-123 | Once the reservations alone exceed the limit the directory never verifies again |
| GenerationRecovery.ReservationsFillTheDirectory | crates/db-cli/src/generation_reservation.rs:90-123 | A run of 8191 reservations on a new directory, each after a successful verification, reaches 8193 entries and blocks the directory for good |
| Generations.WriterAppendsExactly | crates/db-cli/src/generation_engine.rs:77-160 | In every state with the invariant, a current unpoisoned handle that holds the lease lands its record if and only if the directory verifies and the log still is what the handle knows; otherwise it lands nothing, and a lagging handle is poisoned |
| Generations.CopyInProgressRefusesWriters | crates/db-cli/src/log_compaction.rs:276-287 | In every reachable state where some compact copy is under construction no verification and no routed append succeeds |
| Generations.OrphanedCopyBlocksForever | crates/db-cli/src/generation_directory.rs:248-248 | A staging file whose process is gone is removed by no step, so the directory never verifies again |
| Generations.CrashedCopyBlocksTheDirectory | crates/db-cli/src/generation_directory.rs:248-248 | That state is reached by a switch whose process dies while it copies |
| GenerationProgress.RoutedHandleKnowsTheLog | crates/db-cli/src/generation_engine.rs:77-160 | In every state with the invariant, routing under the lease in a directory that verifies gives an unpoisoned handle on the authoritative generation that knows exactly its records, and cuts a torn tail |
| GenerationProgress.RoutedWriterLands | crates/db-cli/src/generation_engine.rs:168-203 | There, routing and then appending a storable mutation lands exactly that one record, acknowledged |
| GenerationProgress.LockMoves | crates/db-cli/src/generation_engine.rs:77-106 | The lease is taken exactly when free, given up exactly by its owner, left stale by a dead owner or a failed removal, and freed again exactly when stale |
| GenerationProgress.SwitchCompletes | crates/db-cli/src/generation_compaction.rs:165-260 | In any state with the invariant where the lease is free, the directory verifies with a clean authoritative log, and ids and three entries are to spare, a process can take the fourteen steps of a compact switch to the end; the directory then verifies with the reserved id as its authority, the same map, and one record per live key |
| GenerationProgress.CleanupCompletes | crates/db-cli/src/generation_cleanup.rs:88-224 | A cleanup under the lease can run to its end, removes exactly the markers and logs below authority and the staging markers up to it, changes nothing else, and the directory still verifies |
| GenerationProgress.RetirementCompletes | crates/db-cli/src/generation_orphan.rs:167-302 | Retiring an orphan can run to its end and removes exactly its log and its staging marker |
| GenerationSwitch.Reserve | crates/db-cli/src/generation_reservation.rs:90-123 | The reservation is the one change, and it stops the switch exactly when its synchronization or verification fails, the latter also for lack of room |
| GenerationSwitch.StageCandidate | crates/db-cli/src/generation_publication.rs:145-186 | Until the staging marker is complete nothing of the new id is published; past the first synchronization the candidate is in every version |
| GenerationSwitch.LinkMarker | crates/db-cli/src/generation_publication.rs:188-215 | The final marker is visible only beside the synchronized candidate it binds, in every version once the directory was synchronized after it |
| GenerationSwitch.CompactSwitch | crates/db-cli/src/generation_compaction.rs:165-260 | Wherever the switch stops, also for too many entries, and whatever unsynchronized entries are lost, recovery finds the old or the new generation with the same map if and only if the copy's staging file does not survive and at most 8192 entries do, and likewise once that file is removed; it can survive at exactly five points; survivors never exceed the limit if and only if the base leaves room for the names of the point; only the old is found before the final link, only the new after the final synchronization; a completed switch recovers; no loss touches a name of another id, and what a completed switch leaves visible is exactly the old names, the reservation, the log of one record per live key and the marker that binds all of it (and its staging copy if that could not be removed) |
| GenerationSwitch.PeakDecides | crates/db-cli/src/generation_directory.rs:217-221 | Every set of survivors fits a scan if and only if the fullest version since the last synchronization does |
| GenerationSwitch.PendingCopyMaySurvive | crates/db-cli/src/log_compaction.rs:205-241 | A loss can leave the staging file behind if and only if it was visible since the last synchronization |
| GenerationSwitch.LostRemovalBlocksRecovery | crates/db-cli/src/generation_directory.rs:109-113 | A concrete stopped switch whose lost staging removal leaves a directory from which nothing is recovered |
| GenerationSwitch.FullDirectoryBlocksRecovery | crates/db-cli/src/generation_compaction.rs:234-245 | A concrete base of 8190 entries on which a switch without any fault publishes its marker, fails its final verification and leaves nothing to recover |
| GenerationSwitch.SurvivorAround | crates/db-cli/src/generation_compaction.rs:548-570 | With the candidate durable, losing the unsynchronized final marker recovers the old generation, keeping it recovers the new one (if the entries are not too many), and the staging file of the copy is gone |
| Crc32.TableStep | crates/db-cli/src/generation_marker.rs:188-194 | One table lookup equals eight bit steps of the definition in section 8 of RFC 1952 |
| Crc32.BuildCrc32Table | crates/db-cli/src/generation_marker.rs:240-258 | Every table entry is eight bit steps of its index |
| Crc32.Crc32Ieee.Feed | crates/db-cli/src/generation_marker.rs:188-194 | The register after any run of calls is the bitwise register after the concatenated input |
| Crc32.StreamedChecksum | crates/db-cli/src/generation_marker.rs:202-206 | Streaming in any chunks equals one shot |
| Crc32.CheckValue | crates/db-cli/src/generation_marker.rs:188-206 | The checksum of the one letter "a" is the published e8b7be43 |
| Crc32.BurstNeverCollides | crates/db-cli/src/generation_marker.rs:188-206 | Equal-length inputs that differ only within four consecutive bytes never have equal checksums |
| CommitMarker.EncodeCommitMarker | crates/db-cli/src/generation_marker.rs:68-91 | Succeeds exactly on a non-zero generation with a consistent prefix and fills the 64-byte block |
| CommitMarker.DecodeInvertsEncode | crates/db-cli/src/generation_marker.rs:93-169 | Decoding an encoded marker under its file name gives the marker back |
| CommitMarker.DecodeAcceptsOnlyEncodings | crates/db-cli/src/generation_marker.rs:93-169 | Every accepted block is the one encoding of its result |
| CommitMarker.TamperedMarkerIsRejected | crates/db-cli/src/generation_marker.rs:93-169 | An encoded marker changed within four consecutive bytes is rejected |
| Shrink.MinimizeFailingWorkload | crates/db-core/src/shrink.rs:12-72 | Terminates for every predicate; the result still fails, is a subsequence with the original metadata, and is 1-minimal; errors only on invalid or non-failing input or a failing predicate |
| RelationalIndex.BuildEntries | crates/db-storage-log/src/maintained_index.rs:43-50 | The index lists, per indexed cell, exactly its rows in primary-key order |
| RelationalIndex.MatchingRows | crates/db-storage-log/src/maintained_index.rs:58-83 | For every table state the index selects exactly the scan's rows, in primary-key order |
| RelationalIndex.IndexIsDetermined | crates/db-storage-log/src/maintained_index.rs:226-234 | A maintained index equals a fresh build over the same table |
| RelationalIndex.ApplyKeepsTables | crates/db-storage-log/src/relational.rs:197-234 | Transactions keep rows unique and in key order, keep every table, and change no schema |
| RelationalIndex.OperationMeans | crates/db-storage-log/src/relational.rs:197-234 | After an upsert a table has the given row and its old rows with another key, after a delete its old rows with another key, after a create none; every other table is unchanged |
| RelationalIndex.AcceptedExactly | crates/db-storage-log/src/relational.rs:197-234 | An operation is accepted if and only if a created table is new with a valid schema, an upserted row fits its table's columns, or a deleted key fits the key column |
| RelationalIndex.TransactionLeaves | crates/db-storage-log/src/relational.rs:197-234 | The row a transaction leaves under a key is that of its last operation on that key, or the old row if it has none; tables and schemas stay |
| RelationalIndex.MaintainedIndexEngine.RegisterIndex | crates/db-storage-log/src/maintained_index.rs:149-162 | Succeeds exactly on an existing column not yet indexed, adds that one index, and every index is a fresh build |
| RelationalIndex.MaintainedIndexEngine.Commit | crates/db-storage-log/src/maintained_index.rs:166-170 | All operations or none; the rows left are those of the last operation on each key; afterwards every registered index is a fresh build, and rebuilding never fails |
| RelationalIndex.DriverThenAll | crates/db-storage-log/src/maintained_index.rs:189-217 | Filtering one driver's rows by every predicate equals filtering all rows |
| RelationalIndex.MaintainedIndexEngine.ExecuteQuery | crates/db-storage-log/src/maintained_index.rs:173-185 | Same outcome as the scan for every table state and set of indexes |
| RelationalIndex.MaintainedIndexEngine.ExecuteAll | crates/db-storage-log/src/maintained_index.rs:189-217 | Same outcome as the conjunctive scan |
| RelationalIndex.MaintainedIndexEngine.ExecuteAny | crates/db-storage-log/src/disjunctive_query.rs:53-85 | Same outcome as the disjunctive scan: no duplicate, primary-key order |
| QueryLaws.ComparesByOrder | crates/db-storage-log/src/query.rs:206-214 | The five operators are the order of numbers and the bytewise order of texts, with every number before every text |
| QueryLaws.ComparesExactlyOne | crates/db-storage-log/src/query.rs:206-214 | Less is not greater-or-equal, greater is not less-or-equal, equal is both, and less and greater mirror each other |
| QueryLaws.PredicateAcceptedExactly | crates/db-storage-log/src/query.rs:180-204 | A predicate is accepted if and only if its column exists and its literal has that column's type |
| QueryLaws.ProjectionAcceptedExactly | crates/db-storage-log/src/query.rs:155-178 | A projection is accepted if and only if it asks for everything or for distinct existing columns, one at least |
| QueryLaws.QueryMeans | crates/db-storage-log/src/query.rs:87-112 | A query answers, in key order, with exactly the table's rows that satisfy the predicate, each shown by its named columns |
| QueryLaws.ConjunctionMeans | crates/db-storage-log/src/query.rs:114-135 | The same for the rows that satisfy every predicate |
| QueryLaws.DisjunctionMeans | crates/db-storage-log/src/disjunctive_query.rs:31-45 | The same for the rows that satisfy some predicate |
| ExperimentTrace.KeysKeepOrder | crates/db-core/src/experiment.rs:754-756 | Big-endian keys sort bytewise as their ids |
| ExperimentTrace.MeasuredBounds | crates/db-core/src/experiment.rs:368-421 | Step count and payload of the measured steps stay within the precomputed bounds |
| ExperimentTrace.GeneratedIsValid | crates/db-core/src/experiment.rs:58-165 | Every valid configuration generates a trace that passes every structural check |
| ExperimentTrace.BuildGeneratedTrace | crates/db-core/src/experiment.rs:340-437 | Succeeds exactly on valid configurations with the specified trace |
| ExperimentTrace.ValidateTrace | crates/db-core/src/experiment.rs:210-226 | Accepts exactly the traces their embedded configuration generates |
| TraceLaws.GeneratedContains | crates/db-core/src/experiment.rs:340-437 | A generated trace, position by position: the setup puts every id, every even id, or nothing, as the profile says; the operations stand in order, and a reopen follows exactly those whose number is a multiple of the interval |
| TraceLaws.OperationSuits | crates/db-core/src/experiment.rs:374-412 | Each operation is the one its profile makes of the first number drawn for it: reads of an existing id below 80 and of an absent one otherwise; puts, gets, scans and deletes below 40, 70, 85 and 100; ids of the key space only |
| TraceLaws.ScanFollows | crates/db-core/src/experiment.rs:738-752 | A scan starts at an id of the key space, and its window holds exactly the ids of the key space among the next `rangeLimit` |
| TraceLaws.FirstDraw | crates/db-core/src/experiment.rs:770-785 | The first number drawn from seed 0 is the published one of SplitMix64 |

## Left out

- Deletion, range scans and rebalancing of the B+ tree, and its amplification and timing counters.
- The LSM and memory engines, legacy migration and cutover, the command line, JSON archives, host preflight, and the
  Windows variants of the generation files.
- BPlusTree.BPlusTree.Get: the read counters it updates are not modelled.
- PageStore.Pager.ReadPage: a page image is either whole or torn, and a torn one never reads back; that the page
  checksum detects every torn write is an assumption, of which SlottedPage.DamagedPageIsRejected proves a part.
- PageStore.Pager.CommitNewPage: refuses the last page number whose file extent fits 64 bits one page before the source
  does, at 2^52 pages; its comparison of the physical length with the committed one is left out because no other
  process writes the page file.
- PageStore.Pager.Open: a superblock slot holds the fields of an intact block or is unreadable; its byte encoding and
  checksum are not modelled, and a file too short for two slots is one whose slots are unreadable.
- Right-sibling links of leaf pages are modelled in SlottedPage but not in the tree's typed pages: the tree never sets
  one, and its validator refuses a page that has one.
- TreeReader.RouteChild and Position: binary search is replaced by the position it finds on strictly increasing keys.
- AppendLog.LogEngine.Append: the running fingerprint of the acknowledged prefix is compared by contents, and reads
  and metadata calls of the file do not fail.
- LogCompaction.CompactLogToFreshFile: no writer runs beside it; the interleaved case is in Generations.
- Generations.NoAcknowledgedWriteIsLost: crashes are of processes, so visible names persist; loss of unsynchronized
  entries is treated within one switch, in GenerationSwitch, because a failed directory synchronization releases the
  lease with the marker visible.
- Generations.StepKeepsInv: the lock file is one shared cell; its owner record is not modelled, and clearing a stale
  lock presupposes, as the operator must confirm, that no live process holds it.
- Freshness of reads across several handles: a handle serves its cached values while the marker is unchanged.
- GenerationSwitch.CompactSwitch: no other process is at work, so the source re-inspections always agree; contents of
  logs and markers are synchronized before their names are linked, as the code does.
- Shrink.MinimizeFailingWorkload: the predicate is a total function of the workload; a panicking one is not modelled.
- RelationalIndex.MaintainedIndexEngine.Commit: the transaction encoding with its size limit and the spelling rules of
  names are left to the relational layer; durability of the commit is a parameter.
- Symlink and file-identity checks, permissions, and error texts; errors carry only their class.
