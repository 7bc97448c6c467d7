/**
 * One compact switch as ordered directory effects: what any loss of unsynchronized directory entries can
 * leave behind, at every point where the switch may stop.
 */
module GenerationSwitch {
  import opened LogFormat
  import opened LogScan
  import opened LogCompaction
  import GenerationNames

  datatype Name =
    | LogName(id: nat)
    | MarkerName(id: nat)
    | StagingName(id: nat)
    | ReservationName(id: nat)
    | CopyName(id: nat)

  /** Contents are synchronized before their name is relied on; only a staging marker can be cut short. */
  datatype Artifact =
    | LogImage(records: seq<Mutation>)
    | Marker(bound: seq<Mutation>)
    | PartialMarker
    | Reservation

  type Names = map<Name, Artifact>

  const MAX_ENTRIES: nat := GenerationNames.MAX_DIRECTORY_ENTRIES

  predicate Agree(a: Names, b: Names, name: Name) {
    (name in a <==> name in b) && (name in a ==> a[name] == b[name])
  }

  /** A namespace whose every entry is some version of it since the last directory synchronization. */
  ghost predicate Survivor(history: seq<Names>, m: Names) {
    forall name: Name :: VersionOf(history, m, name)
  }

  predicate VersionOf(history: seq<Names>, m: Names, name: Name) {
    exists i :: 0 <= i < |history| && Agree(m, history[i], name)
  }

  class SyncedDirectory {
    var visible: Names
    /** Every visible namespace since the last synchronization, the synchronized one first. */
    ghost var history: seq<Names>

    ghost predicate Valid()
      reads this
    {
      history != [] && history[|history| - 1] == visible
    }

    constructor (names: Names)
      ensures Valid() && visible == names && history == [names]
    {
      visible := names;
      history := [names];
    }

    method Create(name: Name, artifact: Artifact)
      requires Valid()
      modifies this
      ensures Valid() && visible == old(visible)[name := artifact] && history == old(history) + [visible]
    {
      visible := visible[name := artifact];
      history := history + [visible];
    }

    method Remove(name: Name)
      requires Valid()
      modifies this
      ensures Valid() && visible == old(visible) - {name} && history == old(history) + [visible]
    {
      visible := visible - {name};
      history := history + [visible];
    }

    /** A failed synchronization promises nothing about what was pending. */
    method Sync(fails: bool) returns (synced: bool)
      requires Valid()
      modifies this`history
      ensures Valid() && synced == !fails
      ensures history == if synced then [visible] else old(history)
    {
      synced := !fails;
      if synced {
        history := [visible];
      }
    }
  }

  /**
   * Where a switch may stop: the injected fault points, the directory synchronizations that may fail, and the three
   * verifications of the directory on the way.
   */
  datatype Point =
    | ReservationSyncFails
    | ReservedVerificationFails
    | CopyUnderConstruction
    | CompactCandidatePublished
    | LockedVerificationFails
    | CriticalSectionVerified
    | GenerationSyncFails
    | GenerationDurable
    | StagingMarkerPartiallyWritten
    | StagingMarkerDurable
    | FinalMarkerLinked
    | FinalSyncFails
    | FinalDirectoryDurable
    | MarkerPublicationCompleted
    | FinalVerificationFails
    | Nowhere

  /** A directory scan accepts every name except a compaction staging file, and so many entries at most. */
  ghost predicate Scannable(m: Names) {
    (forall k: nat :: CopyName(k) !in m) && |m| <= MAX_ENTRIES
  }

  /** What the names select: the highest marker, whose log starts with what it binds and replays to the live map. */
  ghost predicate Selects(m: Names, id: nat, live: Store) {
    && MarkerName(id) in m && m[MarkerName(id)].Marker?
    && (forall other: nat :: MarkerName(other) in m ==> other <= id)
    && LogName(id) in m && m[LogName(id)].LogImage?
    && m[MarkerName(id)].bound <= m[LogName(id)].records
    && Replay(m[LogName(id)].records) == live
  }

  /** What recovery finds: it first scans the directory, then follows the highest marker. */
  ghost predicate Recovers(m: Names, id: nat, live: Store) {
    Scannable(m) && Selects(m, id, live)
  }

  /** A settled directory: generation `id` is authoritative with this log, and nothing uses `next`. */
  ghost predicate Settled(m: Names, id: nat, records: seq<Mutation>, next: nat) {
    && Recovers(m, id, Replay(records)) && m[LogName(id)] == LogImage(records) && id < next
    && forall name :: name in m ==> name.id < next
  }

  // ---------- what each phase of the switch guarantees of every version ----------

  /** Nothing but the new id has changed, and it has no marker. */
  ghost predicate Before(m: Names, base: Names, next: nat) {
    && (forall name: Name :: name.id != next ==> Agree(m, base, name))
    && MarkerName(next) !in m
  }

  /** The candidate log is in place; a marker of the new id, if any, binds exactly it. */
  ghost predicate Around(m: Names, base: Names, next: nat, copy: seq<Mutation>) {
    && (forall name: Name :: name.id != next ==> Agree(m, base, name))
    && LogName(next) in m && m[LogName(next)] == LogImage(copy)
    && (MarkerName(next) in m ==> m[MarkerName(next)] == Marker(copy))
    && ReservationName(next) in m && CopyName(next) !in m
  }

  ghost predicate AllBefore(history: seq<Names>, base: Names, next: nat) {
    forall i :: 0 <= i < |history| ==> Before(history[i], base, next)
  }

  ghost predicate AllReserved(history: seq<Names>, next: nat) {
    forall i :: 0 <= i < |history| ==> ReservationName(next) in history[i]
  }

  ghost predicate AllAround(history: seq<Names>, base: Names, next: nat, copy: seq<Mutation>) {
    forall i :: 0 <= i < |history| ==> Around(history[i], base, next, copy)
  }

  /** One more visible namespace that still has not published the new id. */
  lemma BeforeGrows(history: seq<Names>, m: Names, base: Names, next: nat)
    requires AllBefore(history, base, next) && Before(m, base, next)
    ensures AllBefore(history + [m], base, next)
    ensures AllReserved(history, next) && ReservationName(next) in m ==> AllReserved(history + [m], next)
  {
    hide Before;
  }

  lemma AroundGrows(history: seq<Names>, m: Names, base: Names, next: nat, copy: seq<Mutation>)
    requires AllAround(history, base, next, copy) && Around(m, base, next, copy)
    ensures AllAround(history + [m], base, next, copy)
    ensures AllMarked(history, next) && MarkerName(next) in m ==> AllMarked(history + [m], next)
  {
    hide Around;
  }

  lemma BeforeEdit(m: Names, base: Names, next: nat, name: Name, artifact: Artifact)
    requires Before(m, base, next) && name.id == next && name != MarkerName(next)
    ensures Before(m[name := artifact], base, next) && Before(m - {name}, base, next)
  {
  }

  lemma AroundEdit(m: Names, base: Names, next: nat, copy: seq<Mutation>, artifact: Artifact)
    requires Around(m, base, next, copy)
    ensures Around(m[StagingName(next) := artifact], base, next, copy)
    ensures Around(m - {StagingName(next)}, base, next, copy)
    ensures Around(m[MarkerName(next) := Marker(copy)], base, next, copy)
  {
  }

  lemma AroundStarts(m: Names, base: Names, next: nat, copy: seq<Mutation>)
    requires Before(m, base, next) && ReservationName(next) in m && CopyName(next) !in m
    requires LogName(next) in m && m[LogName(next)] == LogImage(copy)
    ensures Around(m, base, next, copy) && AllAround([m], base, next, copy)
  {
  }

  lemma OneNamespace(m: Names, base: Names, next: nat)
    ensures Before(m, base, next) ==> AllBefore([m], base, next)
    ensures ReservationName(next) in m ==> AllReserved([m], next)
    ensures MarkerName(next) in m ==> AllMarked([m], next)
  {
  }

  lemma LastIsBefore(history: seq<Names>, base: Names, next: nat)
    requires history != [] && AllBefore(history, base, next)
    ensures Before(history[|history| - 1], base, next)
    ensures AllReserved(history, next) ==> ReservationName(next) in history[|history| - 1]
  {
  }

  lemma VersionBefore(history: seq<Names>, m: Names, base: Names, next: nat, name: Name)
    requires AllBefore(history, base, next) && VersionOf(history, m, name)
    ensures name.id != next ==> Agree(m, base, name)
    ensures name == MarkerName(next) ==> name !in m
    ensures AllReserved(history, next) && name == ReservationName(next) ==> name in m
  {
    var i :| 0 <= i < |history| && Agree(m, history[i], name);
    assert Before(history[i], base, next);
  }

  lemma VersionAround(history: seq<Names>, m: Names, base: Names, next: nat, copy: seq<Mutation>, name: Name)
    requires AllAround(history, base, next, copy) && VersionOf(history, m, name)
    ensures name.id != next ==> Agree(m, base, name)
    ensures name == LogName(next) ==> name in m && m[name] == LogImage(copy)
    ensures name == MarkerName(next) && name in m ==> m[name] == Marker(copy)
    ensures name == ReservationName(next) ==> name in m
    ensures name == CopyName(next) ==> name !in m
  {
    var i :| 0 <= i < |history| && Agree(m, history[i], name);
    assert Around(history[i], base, next, copy);
  }

  /** Selection looks only at markers and at the log of the highest one. */
  lemma OldStillSelected(m: Names, base: Names, id: nat, live: Store, next: nat)
    requires Selects(base, id, live) && id < next && MarkerName(next) !in m
    requires forall name: Name :: name.id != next ==> Agree(m, base, name)
    ensures Selects(m, id, live)
  {
    hide Replay;
    assert Agree(m, base, MarkerName(id)) && Agree(m, base, LogName(id));
    forall other: nat | MarkerName(other) in m ensures other <= id {
      assert Agree(m, base, MarkerName(other));
    }
  }

  lemma NewSelected(m: Names, base: Names, id: nat, live: Store, next: nat, copy: seq<Mutation>)
    requires Selects(base, id, live) && id < next && Replay(copy) == live
    requires MarkerName(next) in m && m[MarkerName(next)] == Marker(copy)
    requires LogName(next) in m && m[LogName(next)] == LogImage(copy)
    requires forall name: Name :: name.id != next ==> Agree(m, base, name)
    ensures Selects(m, next, live)
  {
    hide Replay;
    forall other: nat | MarkerName(other) in m ensures other <= next {
      assert other != next ==> Agree(m, base, MarkerName(other));
    }
  }

  /** Besides its size, the one thing about a version that can stop a scan is the staging file of the new id. */
  lemma OnlyNewCopyBlocks(m: Names, base: Names, next: nat)
    requires Scannable(base) && forall name: Name :: name.id != next ==> Agree(m, base, name)
    ensures Scannable(m) <==> CopyName(next) !in m && |m| <= MAX_ENTRIES
    ensures Scannable(m - {CopyName(next)}) <==> |m - {CopyName(next)}| <= MAX_ENTRIES
  {
    forall k: nat | k != next ensures CopyName(k) !in m {
      assert Agree(m, base, CopyName(k));
    }
  }

  lemma SelectionIgnoresCopies(m: Names, id: nat, live: Store, next: nat)
    ensures Selects(m - {CopyName(next)}, id, live) <==> Selects(m, id, live)
  {
    hide Replay;
    var without := m - {CopyName(next)};
    assert MarkerName(id) in without <==> MarkerName(id) in m;
    assert LogName(id) in without <==> LogName(id) in m;
    assert forall other: nat :: MarkerName(other) in without <==> MarkerName(other) in m;
  }

  /** Generation `id` is found exactly when the staging file is absent, or removed, and the entries are not too many. */
  ghost predicate RecoversUnlessCopy(m: Names, id: nat, live: Store, next: nat) {
    && (Recovers(m, id, live) <==> CopyName(next) !in m && |m| <= MAX_ENTRIES)
    && (Recovers(m - {CopyName(next)}, id, live) <==> |m - {CopyName(next)}| <= MAX_ENTRIES)
  }

  lemma SelectedIsRecovered(m: Names, base: Names, id: nat, live: Store, next: nat)
    requires Scannable(base) && forall name: Name :: name.id != next ==> Agree(m, base, name)
    requires Selects(m, id, live)
    ensures RecoversUnlessCopy(m, id, live, next)
  {
    hide Selects, Scannable;
    OnlyNewCopyBlocks(m, base, next);
    SelectionIgnoresCopies(m, id, live, next);
  }

  lemma SurvivorBefore(history: seq<Names>, m: Names, base: Names, id: nat, records: seq<Mutation>, next: nat)
    requires Settled(base, id, records, next) && AllBefore(history, base, next) && Survivor(history, m)
    ensures RecoversUnlessCopy(m, id, Replay(records), next)
    ensures AllReserved(history, next) ==> ReservationName(next) in m
  {
    hide Replay, AllBefore, AllReserved, VersionOf, Selects, Scannable, Agree;
    forall name: Name ensures name.id != next ==> Agree(m, base, name) {
      VersionBefore(history, m, base, next, name);
    }
    VersionBefore(history, m, base, next, MarkerName(next));
    VersionBefore(history, m, base, next, ReservationName(next));
    OldStillSelected(m, base, id, Replay(records), next);
    SelectedIsRecovered(m, base, id, Replay(records), next);
  }

  lemma SurvivorAround(history: seq<Names>, m: Names, base: Names, id: nat, records: seq<Mutation>, next: nat)
    requires Settled(base, id, records, next) && Survivor(history, m)
    requires AllAround(history, base, next, Compacted(records))
    ensures RecoversUnlessCopy(m, if MarkerName(next) in m then next else id, Replay(records), next)
    ensures ReservationName(next) in m && CopyName(next) !in m
  {
    hide Replay, Compacted, AllAround, VersionOf, Selects, Scannable, Agree, RecoversUnlessCopy;
    CompactedMeansTheSame(records);
    var copy := Compacted(records);
    forall name: Name ensures name.id != next ==> Agree(m, base, name) {
      VersionAround(history, m, base, next, copy, name);
    }
    VersionAround(history, m, base, next, copy, MarkerName(next));
    VersionAround(history, m, base, next, copy, LogName(next));
    VersionAround(history, m, base, next, copy, ReservationName(next));
    VersionAround(history, m, base, next, copy, CopyName(next));
    var found := if MarkerName(next) in m then next else id;
    if MarkerName(next) in m {
      NewSelected(m, base, id, Replay(records), next, copy);
    } else {
      OldStillSelected(m, base, id, Replay(records), next);
    }
    SelectedIsRecovered(m, base, found, Replay(records), next);
  }

  /** Losing every unsynchronized entry from some point on is one of the possible losses. */
  lemma VersionSurvives(history: seq<Names>, i: nat)
    requires i < |history|
    ensures Survivor(history, history[i])
  {
    forall name: Name ensures VersionOf(history, history[i], name) {
      assert Agree(history[i], history[i], name);
    }
  }

  /**
   * Whatever survives a loss of unsynchronized entries: recovery finds the old or the new generation, with the
   * same map, exactly when the compaction staging file is not among the survivors and they are not too many; and
   * once that file is removed, exactly when they are not too many.
   */
  ghost predicate StoppedSafely(history: seq<Names>, id: nat, next: nat, live: Store) {
    forall m :: Survivor(history, m) ==> FoundInEither(m, id, next, live)
  }

  ghost predicate FoundInEither(m: Names, id: nat, next: nat, live: Store) {
    var without := m - {CopyName(next)};
    && ((Recovers(m, id, live) || Recovers(m, next, live)) <==> CopyName(next) !in m && |m| <= MAX_ENTRIES)
    && ((Recovers(without, id, live) || Recovers(without, next, live)) <==> |without| <= MAX_ENTRIES)
  }

  ghost predicate KeepsReservation(history: seq<Names>, next: nat) {
    forall m :: Survivor(history, m) ==> ReservationName(next) in m
  }

  /** Only generation `id` can be found, exactly when no staging file survives and the entries are not too many. */
  ghost predicate FindsOnly(history: seq<Names>, id: nat, live: Store, next: nat) {
    forall m :: Survivor(history, m) ==> RecoversUnlessCopy(m, id, live, next)
  }

  /** A loss can leave the staging file of the compact copy behind. */
  ghost predicate MayLeaveCopy(history: seq<Names>, next: nat) {
    exists m :: Survivor(history, m) && CopyName(next) in m
  }

  predicate CopyPending(history: seq<Names>, next: nat) {
    exists i :: 0 <= i < |history| && CopyName(next) in history[i]
  }

  lemma PendingCopyMaySurvive(history: seq<Names>, next: nat)
    ensures MayLeaveCopy(history, next) <==> CopyPending(history, next)
  {
    if MayLeaveCopy(history, next) {
      var m :| Survivor(history, m) && CopyName(next) in m;
      assert VersionOf(history, m, CopyName(next));
      var i :| 0 <= i < |history| && Agree(m, history[i], CopyName(next));
      assert CopyName(next) in history[i];
    }
    if CopyPending(history, next) {
      var i: nat :| i < |history| && CopyName(next) in history[i];
      VersionSurvives(history, i);
    }
  }

  /** Where the staging file's removal is not yet synchronized. */
  predicate CopyUnsettled(stop: Point) {
    || stop.CopyUnderConstruction? || stop.CompactCandidatePublished? || stop.LockedVerificationFails?
    || stop.CriticalSectionVerified? || stop.GenerationSyncFails?
  }

  predicate StopsCandidate(stop: Point) {
    || stop.ReservationSyncFails? || stop.ReservedVerificationFails? || stop.CopyUnderConstruction?
    || stop.CompactCandidatePublished?
  }

  predicate BeforeLink(stop: Point) {
    || StopsCandidate(stop) || stop.LockedVerificationFails? || stop.CriticalSectionVerified?
    || stop.GenerationSyncFails? || stop.GenerationDurable? || stop.StagingMarkerPartiallyWritten?
    || stop.StagingMarkerDurable?
  }

  // ---------- how many entries there are ----------

  /** How many names of the new id, other than the staging file of the copy, can be visible where the switch stops. */
  function Extra(stop: Point): (extra: nat)
    ensures 1 <= extra <= 4
  {
    if stop.ReservationSyncFails? || stop.ReservedVerificationFails? || stop.CopyUnderConstruction? then 1
    else if stop.StagingMarkerPartiallyWritten? || stop.StagingMarkerDurable? then 3
    else if BeforeLink(stop) then 2
    else 4
  }

  predicate NewIdIsFree(base: Names, next: nat) {
    forall name: Name :: name.id == next ==> name !in base
  }

  /** Without the staging file of the copy, `m` has exactly, or at most, the names of `full`. */
  predicate Shows(m: Names, full: Names, next: nat) {
    m.Keys - {CopyName(next)} == full.Keys
  }

  predicate ShowsAtMost(m: Names, full: Names, next: nat) {
    m.Keys - {CopyName(next)} <= full.Keys
  }

  lemma OneMoreName(m: Names, name: Name, artifact: Artifact)
    ensures name !in m ==> |m[name := artifact]| == |m| + 1
    ensures name in m ==> |m[name := artifact]| == |m| && |m - {name}| == |m| - 1
  {
    assert m[name := artifact].Keys == m.Keys + {name};
    assert (m - {name}).Keys == m.Keys - {name};
    assert name in m ==> m.Keys + {name} == m.Keys;
  }

  lemma ShowsItself(m: Names, next: nat, artifact: Artifact)
    requires CopyName(next) !in m
    ensures Shows(m, m, next) && Shows(m[CopyName(next) := artifact], m, next)
  {
  }

  lemma ShowsCount(m: Names, full: Names, next: nat)
    ensures Shows(m, full, next) ==> |m - {CopyName(next)}| == |full|
    ensures ShowsAtMost(m, full, next) ==> |m - {CopyName(next)}| <= |full|
    ensures CopyName(next) !in m ==> m - {CopyName(next)} == m
  {
    var shown := (m - {CopyName(next)}).Keys;
    assert shown == m.Keys - {CopyName(next)};
    if ShowsAtMost(m, full, next) { SubsetCount(shown, full.Keys); }
  }

  lemma SubsetCount<T>(a: set<T>, b: set<T>)
    requires a <= b
    ensures |a| <= |b|
  {
    assert b == a + (b - a);
  }

  /** No version has more names than `full`, and one has all of them, staging files of the copy aside. */
  ghost predicate Peak(history: seq<Names>, full: Names, next: nat) {
    && (forall i :: 0 <= i < |history| ==> ShowsAtMost(history[i], full, next))
    && (exists i :: 0 <= i < |history| && Shows(history[i], full, next))
  }

  lemma PeakStarts(m: Names, next: nat)
    requires CopyName(next) !in m
    ensures Peak([m], m, next)
  {
    ShowsItself(m, next, Reservation);
    assert [m][0] == m;
  }

  lemma PeakGrows(history: seq<Names>, m: Names, before: Names, after: Names, next: nat)
    requires Peak(history, before, next) && before.Keys <= after.Keys && Shows(m, after, next)
    ensures Peak(history + [m], after, next)
  {
    assert (history + [m])[|history|] == m;
    assert forall i :: 0 <= i < |history| ==> (history + [m])[i] == history[i];
  }

  lemma PeakStays(history: seq<Names>, m: Names, full: Names, next: nat)
    requires Peak(history, full, next) && m.Keys - {CopyName(next)} <= full.Keys
    ensures Peak(history + [m], full, next)
  {
    var i :| 0 <= i < |history| && Shows(history[i], full, next);
    assert (history + [m])[i] == history[i];
    assert forall i :: 0 <= i < |history| ==> (history + [m])[i] == history[i];
  }

  /** Every survivor is small enough for a scan, staging file aside. */
  ghost predicate AlwaysFits(history: seq<Names>, next: nat) {
    forall m :: Survivor(history, m) ==> |m - {CopyName(next)}| <= MAX_ENTRIES
  }

  lemma SurvivorShows(history: seq<Names>, m: Names, full: Names, next: nat)
    requires Peak(history, full, next) && Survivor(history, m)
    ensures ShowsAtMost(m, full, next)
  {
    forall name | name in m && name != CopyName(next) ensures name in full.Keys {
      assert VersionOf(history, m, name);
      var i :| 0 <= i < |history| && Agree(m, history[i], name);
      assert ShowsAtMost(history[i], full, next);
      assert name in history[i].Keys - {CopyName(next)};
    }
  }

  /** Whatever is lost, the survivors fit a scan, exactly when the fullest version does. */
  lemma PeakDecides(history: seq<Names>, full: Names, next: nat)
    requires Peak(history, full, next)
    ensures AlwaysFits(history, next) <==> |full| <= MAX_ENTRIES
  {
    hide Survivor, Shows, ShowsAtMost;
    var i: nat :| i < |history| && Shows(history[i], full, next);
    VersionSurvives(history, i);
    ShowsCount(history[i], full, next);
    forall m | Survivor(history, m) ensures |m - {CopyName(next)}| <= |full| {
      SurvivorShows(history, m, full, next);
      ShowsCount(m, full, next);
    }
  }

  lemma SettledIsFree(base: Names, id: nat, records: seq<Mutation>, next: nat)
    requires Settled(base, id, records, next)
    ensures NewIdIsFree(base, next) && CopyName(next) !in base
  {
    hide Selects, Scannable;
  }

  /** Where a switch stops: at the chosen point, or at the first verification that meets too many entries. */
  function StopOf(fault: Point, size: nat, stagingStays: bool): Point {
    if fault.ReservationSyncFails? then fault
    else if size + 1 > MAX_ENTRIES then ReservedVerificationFails
    else if StopsCandidate(fault) then fault
    else if size + 2 > MAX_ENTRIES then LockedVerificationFails
    else if fault.Nowhere? && size + 3 + (if stagingStays then 1 else 0) > MAX_ENTRIES then FinalVerificationFails
    else fault
  }

  /** Before anything of the new id is published, with `full` as the fullest version since the last synchronization. */
  ghost predicate Unpublished(history: seq<Names>, full: Names, base: Names, next: nat) {
    AllBefore(history, base, next) && Peak(history, full, next)
  }

  lemma UnpublishedGrows(history: seq<Names>, m: Names, before: Names, full: Names, base: Names, next: nat)
    requires Unpublished(history, before, base, next) && Before(m, base, next)
    requires before.Keys <= full.Keys && Shows(m, full, next)
    ensures Unpublished(history + [m], full, base, next)
    ensures AllReserved(history, next) && ReservationName(next) in m ==> AllReserved(history + [m], next)
    ensures CopyPending(history, next) || CopyName(next) in m ==> CopyPending(history + [m], next)
  {
    hide Before, Peak, Shows, AllBefore;
    BeforeGrows(history, m, base, next);
    PeakGrows(history, m, before, full, next);
    assert (history + [m])[|history|] == m;
    assert forall i :: 0 <= i < |history| ==> (history + [m])[i] == history[i];
  }

  lemma UnpublishedStarts(m: Names, base: Names, next: nat)
    requires Before(m, base, next) && CopyName(next) !in m
    ensures Unpublished([m], m, base, next) && !CopyPending([m], next)
    ensures ReservationName(next) in m ==> AllReserved([m], next)
  {
    hide Before, Peak;
    OneNamespace(m, base, next);
    PeakStarts(m, next);
  }

  /** Reserves the id and verifies the directory again. */
  method Reserve(dir: SyncedDirectory, id: nat, next: nat, records: seq<Mutation>, fault: Point)
      returns (stopped: bool)
    requires dir.Valid() && dir.history == [dir.visible] && Settled(dir.visible, id, records, next)
    modifies dir
    ensures dir.Valid() && dir.visible == old(dir.visible)[ReservationName(next) := Reservation]
    ensures |dir.visible| == |old(dir.visible)| + 1
    ensures Unpublished(dir.history, dir.visible, old(dir.visible), next) && !CopyPending(dir.history, next)
    ensures !fault.ReservationSyncFails? ==> AllReserved(dir.history, next) && dir.history == [dir.visible]
    ensures stopped <==>
            fault.ReservationSyncFails? || fault.ReservedVerificationFails? || |old(dir.visible)| + 1 > MAX_ENTRIES
  {
    hide Replay, Settled, Before, Unpublished, AllReserved, NewIdIsFree;
    ghost var base := dir.visible;
    NothingChanged(base, id, records, next);
    SettledIsFree(base, id, records, next);
    NewNameIsFree(base, next, ReservationName(next));
    dir.Create(ReservationName(next), Reservation);
    BeforeEdit(base, base, next, ReservationName(next), Reservation);
    OneMoreName(base, ReservationName(next), Reservation);
    UnpublishedStarts(base, base, next);
    ShowsItself(dir.visible, next, Reservation);
    UnpublishedGrows([base], dir.visible, base, dir.visible, base, next);
    UnpublishedStarts(dir.visible, base, next);
    assert CopyName(next) !in ([base] + [dir.visible])[0] && CopyName(next) !in ([base] + [dir.visible])[1];
    var reserved := dir.Sync(fault.ReservationSyncFails?);
    stopped := !reserved || fault.ReservedVerificationFails? || |dir.visible| > MAX_ENTRIES;
  }

  lemma NewNameIsFree(base: Names, next: nat, name: Name)
    requires NewIdIsFree(base, next) && name.id == next
    ensures name !in base
  {
  }

  /** Builds the compact copy under its staging name, links it as the new log and drops the staging name. */
  method BuildCandidate(dir: SyncedDirectory, next: nat, ghost base: Names, records: seq<Mutation>, fault: Point)
      returns (ghost full: Names)
    requires dir.Valid() && dir.history == [dir.visible] && ReservationName(next) in dir.visible
    requires Unpublished(dir.history, dir.visible, base, next) && AllReserved(dir.history, next)
    requires CopyName(next) !in dir.visible && LogName(next) !in dir.visible
    modifies dir
    ensures dir.Valid() && Unpublished(dir.history, full, base, next) && AllReserved(dir.history, next)
    ensures CopyPending(dir.history, next)
    ensures |full| == |old(dir.visible)| + if fault.CopyUnderConstruction? then 0 else 1
    ensures !fault.CopyUnderConstruction? ==>
              full == dir.visible == old(dir.visible)[LogName(next) := LogImage(Compacted(records))]
  {
    hide Replay, Compacted, Before, Unpublished, AllReserved, Shows, CopyPending;
    var copy := LogImage(Compacted(records));
    full := dir.visible;
    FirstIsBefore(full, base, next);
    CandidateVersions(full, base, next, copy);
    dir.Create(CopyName(next), copy);
    ghost var copied := dir.visible;
    UnpublishedGrows([full], copied, full, full, base, next);
    if fault.CopyUnderConstruction? {
      return full;
    }
    dir.Create(LogName(next), copy);
    ghost var linked, whole := dir.visible, full[LogName(next) := copy];
    UnpublishedGrows([full] + [copied], linked, full, whole, base, next);
    dir.Remove(CopyName(next));
    UnpublishedGrows([full] + [copied] + [linked], whole, whole, whole, base, next);
    return whole;
  }

  lemma CandidateVersions(full: Names, base: Names, next: nat, copy: Artifact)
    requires Before(full, base, next) && CopyName(next) !in full && LogName(next) !in full
    ensures var whole, copied := full[LogName(next) := copy], full[CopyName(next) := copy];
            var linked := copied[LogName(next) := copy];
            && Before(copied, base, next) && Before(linked, base, next) && Before(whole, base, next)
            && Shows(copied, full, next) && Shows(linked, whole, next) && Shows(whole, whole, next)
            && linked - {CopyName(next)} == whole && |whole| == |full| + 1 && full.Keys <= whole.Keys
  {
    hide Before, Shows;
    var whole := full[LogName(next) := copy];
    BeforeEdit(full, base, next, CopyName(next), copy);
    BeforeEdit(full[CopyName(next) := copy], base, next, LogName(next), copy);
    BeforeEdit(full, base, next, LogName(next), copy);
    ShowsItself(full, next, copy);
    ShowsItself(whole, next, copy);
    OneMoreName(full, LogName(next), copy);
    TwoUpdates(full, CopyName(next), LogName(next), copy);
  }

  lemma TwoUpdates<K, V>(m: map<K, V>, a: K, b: K, value: V)
    requires a != b && a !in m
    ensures m[a := value][b := value] == m[b := value][a := value]
    ensures m[b := value][a := value] - {a} == m[b := value]
    ensures m.Keys <= m[b := value].Keys
  {
  }

  lemma FirstIsBefore(m: Names, base: Names, next: nat)
    requires Unpublished([m], m, base, next)
    ensures Before(m, base, next)
  {
    assert [m][0] == m;
  }

  lemma NothingChanged(base: Names, id: nat, records: seq<Mutation>, next: nat)
    requires Settled(base, id, records, next)
    ensures Before(base, base, next) && AllBefore([base], base, next)
    ensures CopyName(next) !in base
  {
  }

  ghost predicate AllMarked(history: seq<Names>, next: nat) {
    forall i :: 0 <= i < |history| ==> MarkerName(next) in history[i]
  }

  /** The candidate is in place and durable; `full` is the fullest version since the last synchronization. */
  ghost predicate Publishing(history: seq<Names>, full: Names, base: Names, next: nat, copy: seq<Mutation>) {
    AllAround(history, base, next, copy) && Peak(history, full, next)
  }

  lemma PublishingStarts(m: Names, base: Names, next: nat, copy: seq<Mutation>)
    requires Around(m, base, next, copy)
    ensures Publishing([m], m, base, next, copy) && CopyName(next) !in m
    ensures MarkerName(next) in m ==> AllMarked([m], next)
  {
    hide Agree;
    OneNamespace(m, base, next);
    PeakStarts(m, next);
  }

  lemma PublishingGrows(history: seq<Names>, m: Names, before: Names, base: Names, next: nat, copy: seq<Mutation>)
    requires Publishing(history, before, base, next, copy) && Around(m, base, next, copy) && before.Keys <= m.Keys
    ensures Publishing(history + [m], m, base, next, copy)
  {
    hide Before, Peak, Shows, AllAround, Agree;
    AroundGrows(history, m, base, next, copy);
    ShowsItself(m, next, PartialMarker);
    PeakGrows(history, m, before, m, next);
  }

  /** The staging marker of a durable candidate, in two writes. */
  method StageMarker(dir: SyncedDirectory, next: nat, ghost base: Names, copy: seq<Mutation>, fault: Point)
    requires dir.Valid() && dir.history == [dir.visible] && StagingName(next) !in dir.visible
    requires Around(dir.visible, base, next, copy) && Before(dir.visible, base, next)
    modifies dir
    ensures dir.Valid() && |dir.visible| == |old(dir.visible)| + 1 && Around(dir.visible, base, next, copy)
    ensures Publishing(dir.history, dir.visible, base, next, copy)
    ensures Unpublished(dir.history, dir.visible, base, next) && AllReserved(dir.history, next)
    ensures !CopyPending(dir.history, next)
    ensures StagingName(next) in dir.visible && MarkerName(next) !in dir.visible
    ensures !fault.StagingMarkerPartiallyWritten? ==>
              dir.visible == old(dir.visible)[StagingName(next) := Marker(copy)]
  {
    hide Replay, Before, Around, Unpublished, Publishing, AllReserved, Shows;
    ghost var candidate := dir.visible;
    PublishingStarts(candidate, base, next, copy);
    AroundHasReservation(candidate, base, next, copy);
    UnpublishedStarts(candidate, base, next);
    StagedVersion(candidate, base, next, copy, PartialMarker);
    dir.Create(StagingName(next), PartialMarker);
    ghost var partial := dir.visible;
    PublishingGrows([candidate], partial, candidate, base, next, copy);
    UnpublishedGrows([candidate], partial, candidate, partial, base, next);
    if fault.StagingMarkerPartiallyWritten? {
      return;
    }
    StagedVersion(partial, base, next, copy, Marker(copy));
    dir.Create(StagingName(next), Marker(copy));
    PublishingGrows([candidate] + [partial], dir.visible, partial, base, next, copy);
    UnpublishedGrows([candidate] + [partial], dir.visible, partial, dir.visible, base, next);
    assert dir.visible == candidate[StagingName(next) := Marker(copy)];
  }

  lemma StagedVersion(m: Names, base: Names, next: nat, copy: seq<Mutation>, artifact: Artifact)
    requires Around(m, base, next, copy) && Before(m, base, next)
    ensures var staged := m[StagingName(next) := artifact];
            && Around(staged, base, next, copy) && Before(staged, base, next)
            && |staged| == |m| + (if StagingName(next) in m then 0 else 1)
            && Shows(staged, staged, next) && m.Keys <= staged.Keys
            && ReservationName(next) in staged && CopyName(next) !in staged && MarkerName(next) !in staged
  {
    hide Agree;
    AroundEdit(m, base, next, copy, artifact);
    BeforeEdit(m, base, next, StagingName(next), artifact);
    OneMoreName(m, StagingName(next), artifact);
    AroundHasReservation(m, base, next, copy);
  }

  lemma AroundHasReservation(m: Names, base: Names, next: nat, copy: seq<Mutation>)
    requires Around(m, base, next, copy)
    ensures ReservationName(next) in m && CopyName(next) !in m
  {
  }

  function Staged(m: Names, next: nat, copy: seq<Mutation>): Names {
    m[StagingName(next) := Marker(copy)]
  }

  /** The final marker beside the staging one, which is dropped unless that fails. */
  function Linked(m: Names, next: nat, copy: seq<Mutation>, stagingStays: bool): Names {
    var full := m[MarkerName(next) := Marker(copy)];
    if stagingStays then full else full - {StagingName(next)}
  }

  /** The second half: the final marker linked, made durable, and its staging name dropped unless that fails. */
  method LinkMarker(dir: SyncedDirectory, next: nat, ghost base: Names, copy: seq<Mutation>, fault: Point,
                    stagingStays: bool) returns (ghost full: Names)
    requires dir.Valid() && MarkerName(next) !in dir.visible && StagingName(next) in dir.visible
    requires Around(dir.visible, base, next, copy) && Publishing(dir.history, dir.visible, base, next, copy)
    modifies dir
    ensures dir.Valid() && MarkerName(next) in dir.visible && Publishing(dir.history, full, base, next, copy)
    ensures |full| == |old(dir.visible)| + 1
    ensures fault.FinalMarkerLinked? || fault.FinalSyncFails? || AllMarked(dir.history, next)
    ensures !fault.FinalMarkerLinked? && !fault.FinalSyncFails? && !fault.FinalDirectoryDurable? ==>
              dir.visible == Linked(old(dir.visible), next, copy, stagingStays)
    ensures |dir.visible| == |full| -
              if fault.FinalMarkerLinked? || fault.FinalSyncFails? || fault.FinalDirectoryDurable? || stagingStays
              then 0 else 1
  {
    hide Replay, Before, Around, Publishing, AllMarked;
    ghost var staged := dir.visible;
    dir.Create(MarkerName(next), Marker(copy));
    full := dir.visible;
    AroundEdit(staged, base, next, copy, Marker(copy));
    OneMoreName(staged, MarkerName(next), Marker(copy));
    PublishingGrows(old(dir.history), full, staged, base, next, copy);
    PublishingStarts(full, base, next, copy);
    if fault.FinalMarkerLinked? {
      return full;
    }
    var durable := dir.Sync(fault.FinalSyncFails?);
    if !durable || fault.FinalDirectoryDurable? || stagingStays {
      return full;
    }
    dir.Remove(StagingName(next));
    AroundEdit(full, base, next, copy, Marker(copy));
    OneMoreName(full, StagingName(next), Marker(copy));
    PublishingEnds(full, base, next, copy);
  }

  lemma PublishingEnds(full: Names, base: Names, next: nat, copy: seq<Mutation>)
    requires Around(full, base, next, copy) && Around(full - {StagingName(next)}, base, next, copy)
    requires MarkerName(next) in full
    ensures Publishing([full] + [full - {StagingName(next)}], full, base, next, copy)
    ensures AllMarked([full] + [full - {StagingName(next)}], next)
  {
    hide Agree;
    var last := full - {StagingName(next)};
    PublishingStarts(full, base, next, copy);
    OneNamespace(full, base, next);
    AroundGrows([full], last, base, next, copy);
    PeakStays([full], last, full, next);
  }

  /** The first half of `publish_generation_marker`: candidate durable, then the staging marker. */
  method StageCandidate(dir: SyncedDirectory, next: nat, ghost base: Names, records: seq<Mutation>, fault: Point)
      returns (stopped: bool)
    requires dir.Valid() && Unpublished(dir.history, dir.visible, base, next) && AllReserved(dir.history, next)
    requires CopyPending(dir.history, next) && StagingName(next) !in dir.visible && CopyName(next) !in dir.visible
    requires LogName(next) in dir.visible && dir.visible[LogName(next)] == LogImage(Compacted(records))
    modifies dir
    ensures dir.Valid() && Unpublished(dir.history, dir.visible, base, next) && AllReserved(dir.history, next)
    ensures CopyPending(dir.history, next) <==> fault.GenerationSyncFails?
    ensures stopped <==> fault.GenerationSyncFails? || fault.GenerationDurable?
                         || fault.StagingMarkerPartiallyWritten? || fault.StagingMarkerDurable?
    ensures if fault.GenerationSyncFails? || fault.GenerationDurable? then dir.visible == old(dir.visible)
            else |dir.visible| == |old(dir.visible)| + 1
                 && StagingName(next) in dir.visible && MarkerName(next) !in dir.visible
    ensures !stopped ==>
              && dir.visible == Staged(old(dir.visible), next, Compacted(records))
              && Around(dir.visible, base, next, Compacted(records))
              && Publishing(dir.history, dir.visible, base, next, Compacted(records))
  {
    hide Replay, Compacted, Before, Around, Unpublished, Publishing, AllReserved, CopyPending;
    var copy := Compacted(records);
    LastIsCandidate(dir.history, base, next, copy);
    UnpublishedStarts(dir.visible, base, next);
    var durable := dir.Sync(fault.GenerationSyncFails?);
    if !durable || fault.GenerationDurable? {
      return true;
    }
    StageMarker(dir, next, base, copy, fault);
    stopped := fault.StagingMarkerPartiallyWritten? || fault.StagingMarkerDurable?;
  }

  lemma LastIsCandidate(history: seq<Names>, base: Names, next: nat, copy: seq<Mutation>)
    requires history != [] && AllReserved(history, next)
    requires var last := history[|history| - 1];
             && Unpublished(history, last, base, next)
             && LogName(next) in last && last[LogName(next)] == LogImage(copy) && CopyName(next) !in last
    ensures var last := history[|history| - 1];
            Before(last, base, next) && Around(last, base, next, copy) && ReservationName(next) in last
  {
    hide Before, Peak, AllBefore, AllReserved;
    LastIsBefore(history, base, next);
    AroundStarts(history[|history| - 1], base, next, copy);
  }

  /**
   * A switch that started from `size` entries and stopped at `stop`. Whatever unsynchronized entries are then lost,
   * the old generation or the new one is selected, with the same live map, and recovery finds it exactly when the
   * staging file of the copy does not survive and the entries are not too many. That file can survive at exactly the
   * points of `CopyUnsettled`; survivors are never too many exactly when `size` leaves room for the `Extra` names of
   * the point. Only the old generation can be found if the final marker was not linked yet, only the new one once the
   * directory was synchronized after it.
   */
  ghost predicate StoppedAt(stop: Point, history: seq<Names>, visible: Names, size: nat, id: nat, next: nat,
                            live: Store)
  {
    && StoppedSafely(history, id, next, live)
    && (MayLeaveCopy(history, next) <==> CopyUnsettled(stop))
    && (AlwaysFits(history, next) <==> size + Extra(stop) <= MAX_ENTRIES)
    && (!stop.ReservationSyncFails? ==> KeepsReservation(history, next))
    && (BeforeLink(stop) ==> FindsOnly(history, id, live, next))
    && (stop.FinalMarkerLinked? || stop.FinalSyncFails? ==>
          (Recovers(visible, next, live) <==> size + 4 <= MAX_ENTRIES))
    && (!BeforeLink(stop) && !stop.FinalMarkerLinked? && !stop.FinalSyncFails? ==>
          FindsOnly(history, next, live, next))
    && (stop.Nowhere? ==> Recovers(visible, next, live))
  }

  /** No loss touches a name of any other id. */
  ghost predicate OthersKept(history: seq<Names>, base: Names, next: nat) {
    forall m, name: Name :: Survivor(history, m) && name.id != next ==> Agree(m, base, name)
  }

  lemma UnpublishedKeepsOthers(history: seq<Names>, base: Names, next: nat)
    requires AllBefore(history, base, next)
    ensures OthersKept(history, base, next)
  {
    hide AllBefore, VersionOf, Agree;
    forall m, name: Name | Survivor(history, m) && name.id != next ensures Agree(m, base, name) {
      VersionBefore(history, m, base, next, name);
    }
  }

  lemma PublishingKeepsOthers(history: seq<Names>, base: Names, next: nat, copy: seq<Mutation>)
    requires AllAround(history, base, next, copy)
    ensures OthersKept(history, base, next)
  {
    hide AllAround, VersionOf, Agree;
    forall m, name: Name | Survivor(history, m) && name.id != next ensures Agree(m, base, name) {
      VersionAround(history, m, base, next, copy, name);
    }
  }

  /** The namespace a completed switch leaves: the reservation, the compact log and the marker that binds all of it. */
  function Switched(base: Names, next: nat, copy: seq<Mutation>, stagingStays: bool): Names {
    var published := base[ReservationName(next) := Reservation][LogName(next) := LogImage(copy)]
                         [MarkerName(next) := Marker(copy)];
    if stagingStays then published[StagingName(next) := Marker(copy)] else published
  }

  lemma SwitchedNames(base: Names, next: nat, copy: seq<Mutation>, stagingStays: bool)
    requires NewIdIsFree(base, next)
    ensures var candidate := base[ReservationName(next) := Reservation][LogName(next) := LogImage(copy)];
            Linked(Staged(candidate, next, copy), next, copy, stagingStays)
              == Switched(base, next, copy, stagingStays)
  {
  }

  /** The whole switch, which stops at the chosen point or where a verification on the way meets too many entries. */
  method CompactSwitch(dir: SyncedDirectory, id: nat, next: nat, records: seq<Mutation>, fault: Point,
                       stagingStays: bool) returns (completed: bool)
    requires dir.Valid() && dir.history == [dir.visible] && Settled(dir.visible, id, records, next)
    modifies dir
    ensures dir.Valid()
    ensures var size := |old(dir.visible)|;
            var stop := StopOf(fault, size, stagingStays);
            && (completed <==> stop.Nowhere?)
            && StoppedAt(stop, dir.history, dir.visible, size, id, next, Replay(records))
    ensures OthersKept(dir.history, old(dir.visible), next)
    ensures completed ==> dir.visible == Switched(old(dir.visible), next, Compacted(records), stagingStays)
  {
    hide Replay, Compacted, Unpublished, AllReserved, Settled, CopyPending, StoppedAt, NewIdIsFree, Extra,
      CopyUnsettled, OthersKept, Switched, Linked, Staged;
    ghost var base, size := dir.visible, |dir.visible|;
    ghost var stop := StopOf(fault, size, stagingStays);
    SettledIsFree(base, id, records, next);
    NewNamesAreFree(base, next);
    SwitchedNames(base, next, Compacted(records), stagingStays);
    ExtraSteps();
    var stopped := Reserve(dir, id, next, records, fault);
    if stopped {
      StoppedUnpublished(stop, dir.history, dir.visible, base, id, records, next);
      return false;
    }
    ghost var full := BuildCandidate(dir, next, base, records, fault);
    if StopsCandidate(fault) || |dir.visible| > MAX_ENTRIES || fault.LockedVerificationFails? {
      StoppedUnpublished(stop, dir.history, full, base, id, records, next);
      return false;
    }
    completed := SwitchAuthority(dir, id, next, base, records, fault, stagingStays);
  }

  /** The critical section after its recheck: publish the marker and verify the new authority. */
  method SwitchAuthority(dir: SyncedDirectory, id: nat, next: nat, ghost base: Names, records: seq<Mutation>,
                         fault: Point, stagingStays: bool) returns (completed: bool)
    requires dir.Valid() && Settled(base, id, records, next)
    requires !StopsCandidate(fault) && !fault.LockedVerificationFails?
    requires Unpublished(dir.history, dir.visible, base, next) && AllReserved(dir.history, next)
    requires CopyPending(dir.history, next) && |dir.visible| == |base| + 2 <= MAX_ENTRIES
    requires LogName(next) in dir.visible && dir.visible[LogName(next)] == LogImage(Compacted(records))
    requires CopyName(next) !in dir.visible && StagingName(next) !in dir.visible && MarkerName(next) !in dir.visible
    modifies dir
    ensures dir.Valid()
    ensures var stop := StopOf(fault, |base|, stagingStays);
            && (completed <==> stop.Nowhere?)
            && StoppedAt(stop, dir.history, dir.visible, |base|, id, next, Replay(records))
    ensures OthersKept(dir.history, base, next)
    ensures completed ==>
              var copy := Compacted(records);
              dir.visible == Linked(Staged(old(dir.visible), next, copy), next, copy, stagingStays)
  {
    hide Replay, Compacted, Unpublished, Publishing, AllReserved, AllMarked, Settled, CopyPending, StoppedAt, Extra,
      CopyUnsettled, Around, OthersKept, Linked, Staged;
    ExtraSteps();
    completed := false;
    if fault.CriticalSectionVerified? {
      StoppedUnpublished(fault, dir.history, dir.visible, base, id, records, next);
      return;
    }
    var stopped := StageCandidate(dir, next, base, records, fault);
    if stopped {
      StoppedUnpublished(fault, dir.history, dir.visible, base, id, records, next);
      return;
    }
    ghost var full := LinkMarker(dir, next, base, Compacted(records), fault, stagingStays);
    completed := fault.Nowhere? && |dir.visible| <= MAX_ENTRIES;
    StoppedPublished(StopOf(fault, |base|, stagingStays), dir.history, full, base, id, records, next);
  }

  lemma NewNamesAreFree(base: Names, next: nat)
    requires NewIdIsFree(base, next)
    ensures CopyName(next) !in base && LogName(next) !in base && StagingName(next) !in base && MarkerName(next) !in base
  {
  }

  lemma ExtraSteps()
    ensures Extra(ReservationSyncFails) == Extra(ReservedVerificationFails) == Extra(CopyUnderConstruction) == 1
    ensures Extra(CompactCandidatePublished) == Extra(LockedVerificationFails) == Extra(CriticalSectionVerified) == 2
    ensures Extra(GenerationSyncFails) == Extra(GenerationDurable) == 2
    ensures Extra(StagingMarkerPartiallyWritten) == Extra(StagingMarkerDurable) == 3
    ensures forall stop: Point :: !BeforeLink(stop) ==> Extra(stop) == 4
    ensures forall stop: Point :: CopyUnsettled(stop) ==> BeforeLink(stop) && !stop.GenerationDurable?
    ensures CopyUnsettled(CopyUnderConstruction) && CopyUnsettled(CompactCandidatePublished)
    ensures CopyUnsettled(LockedVerificationFails) && CopyUnsettled(CriticalSectionVerified)
    ensures CopyUnsettled(GenerationSyncFails)
    ensures !CopyUnsettled(ReservationSyncFails) && !CopyUnsettled(ReservedVerificationFails)
    ensures !CopyUnsettled(StagingMarkerPartiallyWritten) && !CopyUnsettled(StagingMarkerDurable)
  {
  }

  lemma StoppedUnpublished(stop: Point, history: seq<Names>, full: Names, base: Names, id: nat, records: seq<Mutation>,
                           next: nat)
    requires Settled(base, id, records, next) && Unpublished(history, full, base, next) && history != []
    requires BeforeLink(stop) && |full| == |base| + Extra(stop) && (CopyPending(history, next) <==> CopyUnsettled(stop))
    requires !stop.ReservationSyncFails? ==> AllReserved(history, next)
    ensures StoppedAt(stop, history, history[|history| - 1], |base|, id, next, Replay(records))
    ensures OthersKept(history, base, next)
  {
    hide Replay, AllBefore, AllReserved, Settled, Peak, StoppedSafely, FindsOnly, KeepsReservation, AlwaysFits,
      CopyPending, MayLeaveCopy, CopyUnsettled, Extra, Recovers, OthersKept;
    UnpublishedKeepsOthers(history, base, next);
    StoppedBefore(history, base, id, records, next);
    PeakDecides(history, full, next);
    PendingCopyMaySurvive(history, next);
  }

  lemma StoppedPublished(stop: Point, history: seq<Names>, full: Names, base: Names, id: nat, records: seq<Mutation>,
                         next: nat)
    requires Settled(base, id, records, next) && Publishing(history, full, base, next, Compacted(records))
    requires history != [] && MarkerName(next) in history[|history| - 1]
    requires !BeforeLink(stop) && |full| == |base| + Extra(stop)
    requires stop.FinalMarkerLinked? || stop.FinalSyncFails? ==> |history[|history| - 1]| == |base| + 4
    requires stop.FinalMarkerLinked? || stop.FinalSyncFails? || AllMarked(history, next)
    requires stop.Nowhere? ==> |history[|history| - 1]| <= MAX_ENTRIES
    ensures StoppedAt(stop, history, history[|history| - 1], |base|, id, next, Replay(records))
    ensures OthersKept(history, base, next)
  {
    hide Replay, Compacted, AllMarked, Settled, Peak, AllAround, StoppedSafely, FindsOnly, KeepsReservation,
      AlwaysFits, MayLeaveCopy, Extra, Recovers, OthersKept;
    PublishingKeepsOthers(history, base, next, Compacted(records));
    StoppedPublishing(history, full, base, id, records, next);
  }

  lemma StoppedPublishing(history: seq<Names>, full: Names, base: Names, id: nat, records: seq<Mutation>, next: nat)
    requires Settled(base, id, records, next) && Publishing(history, full, base, next, Compacted(records))
    requires history != []
    ensures StoppedSafely(history, id, next, Replay(records)) && KeepsReservation(history, next)
    ensures !MayLeaveCopy(history, next)
    ensures AllMarked(history, next) ==> FindsOnly(history, next, Replay(records), next)
    ensures var last := history[|history| - 1];
            MarkerName(next) in last ==> (Recovers(last, next, Replay(records)) <==> |last| <= MAX_ENTRIES)
    ensures AlwaysFits(history, next) <==> |full| <= MAX_ENTRIES
  {
    hide Replay, Compacted, AllAround, AllMarked, Settled, Peak, StoppedSafely, FindsOnly, KeepsReservation, AlwaysFits,
      MayLeaveCopy, CopyPending, Recovers;
    StoppedAround(history, base, id, records, next);
    PeakDecides(history, full, next);
    PendingCopyMaySurvive(history, next);
  }

  lemma StoppedBefore(history: seq<Names>, base: Names, id: nat, records: seq<Mutation>, next: nat)
    requires Settled(base, id, records, next) && AllBefore(history, base, next)
    ensures StoppedSafely(history, id, next, Replay(records)) && FindsOnly(history, id, Replay(records), next)
    ensures AllReserved(history, next) ==> KeepsReservation(history, next)
  {
    hide Replay, Survivor, Recovers, AllBefore, AllReserved, Settled;
    forall m | Survivor(history, m)
      ensures RecoversUnlessCopy(m, id, Replay(records), next)
      ensures AllReserved(history, next) ==> ReservationName(next) in m
      ensures Recovers(m, next, Replay(records)) ==> CopyName(next) !in m && |m| <= MAX_ENTRIES
      ensures Recovers(m - {CopyName(next)}, next, Replay(records)) ==> |m - {CopyName(next)}| <= MAX_ENTRIES
    {
      SurvivorBefore(history, m, base, id, records, next);
      RecoveredIsScanned(m, next, Replay(records), next);
      RecoveredIsScanned(m - {CopyName(next)}, next, Replay(records), next);
    }
  }

  lemma RecoveredIsScanned(m: Names, id: nat, live: Store, k: nat)
    ensures Recovers(m, id, live) ==> CopyName(k) !in m && |m| <= MAX_ENTRIES
  {
  }

  lemma SurvivorMarked(history: seq<Names>, m: Names, next: nat)
    requires Survivor(history, m)
    ensures AllMarked(history, next) ==> MarkerName(next) in m
  {
    assert VersionOf(history, m, MarkerName(next));
  }

  lemma StoppedAround(history: seq<Names>, base: Names, id: nat, records: seq<Mutation>, next: nat)
    requires Settled(base, id, records, next) && AllAround(history, base, next, Compacted(records)) && history != []
    ensures StoppedSafely(history, id, next, Replay(records)) && KeepsReservation(history, next)
    ensures !MayLeaveCopy(history, next)
    ensures AllMarked(history, next) ==> FindsOnly(history, next, Replay(records), next)
    ensures var last := history[|history| - 1];
            MarkerName(next) in last ==> (Recovers(last, next, Replay(records)) <==> |last| <= MAX_ENTRIES)
  {
    hide Replay, Compacted, Recovers, AllAround, Settled, AllMarked, Survivor, RecoversUnlessCopy;
    var last := history[|history| - 1];
    VersionSurvives(history, |history| - 1);
    SurvivorFound(history, last, base, id, records, next);
    forall m | Survivor(history, m)
      ensures FoundInEither(m, id, next, Replay(records))
      ensures ReservationName(next) in m && CopyName(next) !in m
      ensures AllMarked(history, next) ==> RecoversUnlessCopy(m, next, Replay(records), next)
    {
      SurvivorFound(history, m, base, id, records, next);
    }
  }

  lemma SurvivorFound(history: seq<Names>, m: Names, base: Names, id: nat, records: seq<Mutation>, next: nat)
    requires Settled(base, id, records, next) && AllAround(history, base, next, Compacted(records))
    requires Survivor(history, m)
    ensures FoundInEither(m, id, next, Replay(records))
    ensures ReservationName(next) in m && CopyName(next) !in m
    ensures AllMarked(history, next) ==> RecoversUnlessCopy(m, next, Replay(records), next)
    ensures MarkerName(next) in m ==> (Recovers(m, next, Replay(records)) <==> |m| <= MAX_ENTRIES)
  {
    hide Replay, Compacted, Recovers, AllAround, Settled, AllMarked, Survivor;
    SurvivorAround(history, m, base, id, records, next);
    SurvivorMarked(history, m, next);
    RecoveredIsScanned(m, id, Replay(records), next);
    RecoveredIsScanned(m, next, Replay(records), next);
    assert m - {CopyName(next)} == m;
  }

  // ---------- inputs on which recovery fails ----------

  /**
   * A stopped switch that cannot be recovered from as the directory stands: generation 1 is empty, the candidate of
   * generation 2 is in place and its staging file already removed, but that removal is lost.
   */
  lemma LostRemovalBlocksRecovery()
    ensures var base: Names := map[MarkerName(1) := Marker([]), LogName(1) := LogImage([])];
            var reserved := base[ReservationName(2) := Reservation];
            var copied := reserved[CopyName(2) := LogImage([])];
            var linked := copied[LogName(2) := LogImage([])];
            var history := [reserved, copied, linked, linked - {CopyName(2)}];
            && Settled(base, 1, [], 2)
            && Survivor(history, copied)
            && forall id: nat, live: Store :: !Recovers(copied, id, live)
  {
    var base: Names := map[MarkerName(1) := Marker([]), LogName(1) := LogImage([])];
    var reserved := base[ReservationName(2) := Reservation];
    var copied := reserved[CopyName(2) := LogImage([])];
    var linked := copied[LogName(2) := LogImage([])];
    var history := [reserved, copied, linked, linked - {CopyName(2)}];
    VersionSurvives(history, 1);
    forall id: nat, live: Store ensures !Recovers(copied, id, live) {
      RecoveredIsScanned(copied, id, live, 2);
    }
  }

  /** Generation 1, empty and authoritative, with every later id below `next` reserved. */
  function Crowded(next: nat): Names {
    if next <= 2 then map[MarkerName(1) := Marker([]), LogName(1) := LogImage([])]
    else Crowded(next - 1)[ReservationName(next - 1) := Reservation]
  }

  lemma {:induction false} CrowdedHolds(next: nat)
    requires next >= 2
    ensures var m := Crowded(next);
            && |m| == next
            && MarkerName(1) in m && m[MarkerName(1)] == Marker([]) && LogName(1) in m && m[LogName(1)] == LogImage([])
            && forall name :: name in m ==> name.id < next && !name.CopyName? && (name.MarkerName? ==> name.id == 1)
  {
    if next > 2 { CrowdedHolds(next - 1); }
  }

  /**
   * A full directory: from 8190 entries a switch that meets no fault publishes its marker and then fails its own
   * final verification, and from then on nothing is recovered.
   */
  lemma FullDirectoryBlocksRecovery()
    ensures var base := Crowded(8190);
            var after := base[ReservationName(8190) := Reservation][LogName(8190) := LogImage([])]
                             [MarkerName(8190) := Marker([])];
            && |base| == 8190 && Settled(base, 1, [], 8190)
            && StopOf(Nowhere, |base|, false).FinalVerificationFails?
            && Selects(after, 8190, Replay([]))
            && forall id: nat, live: Store :: !Recovers(after, id, live)
  {
    hide Crowded, Replay;
    var base := Crowded(8190);
    CrowdedHolds(8190);
    var after := base[ReservationName(8190) := Reservation][LogName(8190) := LogImage([])]
                     [MarkerName(8190) := Marker([])];
    forall id: nat, live: Store ensures !Recovers(after, id, live) {
      RecoveredIsScanned(after, id, live, 0);
    }
  }
}
