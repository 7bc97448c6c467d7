/**
 * The generation protocol: routed writers, compact switches, cleanup and orphan retirement over one
 * directory, interleaved step by step, with process crashes at any point.
 */
module Generations {
  import opened LogFormat
  import opened LogScan
  import opened LogCompaction
  import GenerationNames

  // ---------- the directory ----------

  /** A generation log as the scanner sees it: its whole records, and how many bytes of a torn one follow. */
  datatype Log = Log(records: seq<Mutation>, torn: nat)

  /**
   * Visible names: generation logs, final markers with the prefix each one binds, staging markers,
   * reservations, and the dot-named staging files of running compactions.
   */
  datatype Directory = Directory(logs: map<nat, Log>, markers: map<nat, seq<Mutation>>, staging: set<nat>,
                                 reservations: set<nat>, compacting: set<nat>)

  ghost function Highest(ids: set<nat>): (highest: nat)
    requires ids != {}
    ensures highest in ids && forall id :: id in ids ==> id <= highest
  {
    HighestExists(ids);
    var highest: nat :| highest in ids && forall id :: id in ids ==> id <= highest;
    highest
  }

  lemma {:induction false} HighestExists(ids: set<nat>)
    requires ids != {}
    ensures exists highest: nat :: highest in ids && forall id :: id in ids ==> id <= highest
    decreases |ids|
  {
    var some: nat :| some in ids;
    var rest := ids - {some};
    if rest == {} {
      assert ids == {some};
    } else {
      HighestExists(rest);
      var best: nat :| best in rest && forall id :: id in rest ==> id <= best;
      var top := if best < some then some else best;
      assert ids == rest + {some};
      assert top in ids && forall id :: id in ids ==> id <= top;
    }
  }

  lemma HighestIs(ids: set<nat>, highest: nat)
    requires highest in ids && forall id :: id in ids ==> id <= highest
    ensures ids != {} && Highest(ids) == highest
  {
  }

  const MAX_ENTRIES: nat := GenerationNames.MAX_DIRECTORY_ENTRIES

  function NameCount(dir: Directory): nat {
    |dir.logs| + |dir.markers| + |dir.staging| + |dir.reservations| + |dir.compacting|
  }

  /** `scan_generation_namespace` accepts only canonical names, and so many of them at most. */
  predicate Scannable(dir: Directory) {
    dir.compacting == {} && NameCount(dir) <= MAX_ENTRIES
  }

  ghost function Authority(dir: Directory): nat
    requires dir.markers != map[]
  {
    Highest(dir.markers.Keys)
  }

  function Observed(dir: Directory): set<nat> {
    dir.logs.Keys + dir.markers.Keys + dir.staging + dir.reservations
  }

  /** `highest_observed_generation`. */
  ghost function Frontier(dir: Directory): nat
    requires Observed(dir) != {}
  {
    Highest(Observed(dir))
  }

  /** `verify_generation_directory`: the highest marker's log exists and starts with the prefix it binds. */
  ghost predicate Verified(dir: Directory) {
    && Scannable(dir) && dir.markers != map[]
    && var a := Authority(dir); a in dir.logs && dir.markers[a] <= dir.logs[a].records
  }

  /** What inspecting a log reports; comparing two reports is all the protocol ever does. */
  datatype Inspected = Inspected(recordCount: nat, bytes: nat, torn: nat, entries: Store)

  function Inspection(log: Log): Inspected {
    Inspected(|log.records|, TotalLength(log.records), log.torn, Replay(log.records))
  }

  // ---------- processes ----------

  /** A routed engine handle: the generation it is routed to and the history it has acknowledged or read. */
  datatype Handle = NoHandle | Routed(gen: nat, known: seq<Mutation>, poisoned: bool)

  /** How far a compact switch has come. From `Checked` on it holds the lease; at last its staging marker remains. */
  datatype Build =
    | NoBuild
    | Reserved(id: nat)
    | Resolved(id: nat, base: nat)
    | Inspecting(id: nat, base: nat, source: Log)
    | Copying(id: nat, base: nat, source: Log, copy: seq<Mutation>)
    | Linked(id: nat, base: nat, source: Log)
    | Built(id: nat, base: nat, source: Log)
    | Checked(id: nat)
    | Staged(id: nat)
    | Published(id: nat)

  datatype Process = Process(handle: Handle, build: Build)

  /** The writer lock file: absent, owned by a live process, or left behind by a dead one. */
  datatype Lock = Free | Held(owner: nat) | Stale

  /** A record that reached the authoritative log in full, and whether its writer was told so. */
  datatype Landed = Landed(mutation: Mutation, acknowledged: bool)

  datatype State = State(dir: Directory, lock: Lock, processes: map<nat, Process>, landed: seq<Landed>,
                         issued: seq<nat>)

  function Of(s: State, p: nat): Process {
    if p in s.processes then s.processes[p] else Process(NoHandle, NoBuild)
  }

  function WithBuild(s: State, p: nat, build: Build): State {
    s.(processes := s.processes[p := Of(s, p).(build := build)])
  }

  function WithHandle(s: State, p: nat, handle: Handle): State {
    s.(processes := s.processes[p := Of(s, p).(handle := handle)])
  }

  function WithDir(s: State, dir: Directory): State {
    s.(dir := dir)
  }

  function Mutations(landed: seq<Landed>): seq<Mutation> {
    if landed == [] then [] else Mutations(landed[..|landed| - 1]) + [landed[|landed| - 1].mutation]
  }

  // ---------- steps ----------

  /** How one append ends: acknowledged, failed after the whole record landed, or failed before. */
  datatype Outcome = Acknowledged | LandedUnacknowledged | Cut(persisted: nat)

  datatype Step =
    | Acquire(p: nat)
    | Release(p: nat, removed: bool)
    | Crash(p: nat)
    | ClearStale
    | Route(p: nat)
    | Poison(p: nat)
    | Append(p: nat, mutation: Mutation, outcome: Outcome)
    | Reserve(p: nat)
    | Resolve(p: nat)
    | Inspect(p: nat)
    | StartCopy(p: nat)
    | LinkCopy(p: nat)
    | DropStagingCopy(p: nat, removed: bool)
    | Abandon(p: nat, removeCopy: bool, removeOutput: bool)
    | Recheck(p: nat)
    | StageMarker(p: nat)
    | LinkMarker(p: nat)
    | DropStagingMarker(p: nat, removed: bool)
    | RemoveMarker(p: nat, id: nat)
    | RemoveStaging(p: nat, id: nat)
    | RemoveLog(p: nat, id: nat)
    | RetireStaging(p: nat, id: nat)
    | RetireLog(p: nat, id: nat)

  /** A process that holds the lease and is not inside a compact switch of its own. */
  predicate Working(s: State, p: nat) {
    s.lock == Held(p) && Of(s, p).build.NoBuild?
  }

  /** A retirable orphan: reserved, above authority, with a log and without a marker. */
  ghost predicate Orphan(dir: Directory, id: nat)
    requires dir.markers != map[]
  {
    id > Authority(dir) && id !in dir.markers && id in dir.reservations && id in dir.logs
  }

  ghost predicate Enabled(s: State, step: Step) {
    var dir := s.dir;
    match step
    case Acquire(p) => s.lock.Free?
    case Release(p, _) => s.lock == Held(p)
    case Crash(p) => true
    case ClearStale => s.lock.Stale?
    case Route(p) => Working(s, p) && Verified(dir)
    case Poison(p) => Of(s, p).handle.Routed?
    case Append(p, m, outcome) =>
      && Working(s, p) && Scannable(dir) && dir.markers != map[]
      && var h := Of(s, p).handle;
         h.Routed? && !h.poisoned && h.gen == Authority(dir) && h.gen in dir.logs && Storable(m)
    case Reserve(p) => Working(s, p) && Verified(dir) && Frontier(dir) + 1 < 0x1_0000_0000_0000_0000
    case Resolve(p) => Of(s, p).build.Reserved? && s.lock != Held(p) && Verified(dir)
                       && Authority(dir) < Of(s, p).build.id
    case Inspect(p) => Of(s, p).build.Resolved? && Of(s, p).build.base in dir.logs
    case StartCopy(p) =>
      var b := Of(s, p).build;
      && b.Inspecting? && b.base in dir.logs && dir.logs[b.base].torn == 0
      && b.id !in dir.compacting && b.id !in dir.logs
    case LinkCopy(p) => Of(s, p).build.Copying? && Of(s, p).build.id !in dir.logs
    case DropStagingCopy(p, _) => Of(s, p).build.Linked?
    case Abandon(p, _, _) => !Of(s, p).build.NoBuild?
    case Recheck(p) =>
      var b := Of(s, p).build;
      && s.lock == Held(p) && b.Built? && Verified(dir)
      && Authority(dir) == b.base && Inspection(dir.logs[b.base]) == Inspection(b.source)
      && b.id in dir.logs && CompactState(dir.logs[b.id], b.source)
    case StageMarker(p) =>
      var b := Of(s, p).build;
      && s.lock == Held(p) && b.Checked? && Scannable(dir)
      && (forall id :: id in dir.markers ==> id < b.id)
      && b.id in dir.logs && dir.logs[b.id].torn == 0
    case LinkMarker(p) =>
      var b := Of(s, p).build;
      s.lock == Held(p) && b.Staged? && b.id in dir.staging && b.id in dir.logs && b.id !in dir.markers
    case DropStagingMarker(p, _) => s.lock == Held(p) && Of(s, p).build.Published?
    case RemoveMarker(p, id) => Working(s, p) && Verified(dir) && id in dir.markers && id < Authority(dir)
    case RemoveStaging(p, id) => Working(s, p) && Verified(dir) && id in dir.staging && id <= Authority(dir)
    case RemoveLog(p, id) =>
      && Working(s, p) && Verified(dir) && id in dir.logs && id < Authority(dir)
      && forall marked :: marked in dir.markers ==> marked >= Authority(dir)
    case RetireStaging(p, id) => Working(s, p) && Verified(dir) && Orphan(dir, id) && id in dir.staging
    case RetireLog(p, id) => Working(s, p) && Verified(dir) && Orphan(dir, id) && id !in dir.staging
  }

  /** `validate_compact_state`: a clean log with one record per live key of the inspected source. */
  predicate CompactState(compact: Log, source: Log) {
    && compact.torn == 0
    && |compact.records| == |Replay(compact.records)|
    && Replay(compact.records) == Replay(source.records)
  }

  ghost function Do(s: State, step: Step): State
    requires Enabled(s, step)
  {
    var dir := s.dir;
    match step
    case Acquire(p) => s.(lock := Held(p))
    case Release(p, removed) =>
      var b := Of(s, p).build;
      var freed := s.(lock := if removed then Free else Stale);
      if b.Checked? || b.Staged? || b.Published? then WithBuild(freed, p, NoBuild) else freed
    case Crash(p) =>
      s.(processes := s.processes - {p}, lock := if s.lock == Held(p) then Stale else s.lock)
    case ClearStale => s.(lock := Free)
    case Route(p) =>
      var a := Authority(dir);
      var records := dir.logs[a].records;
      WithHandle(WithDir(s, dir.(logs := dir.logs[a := Log(records, 0)])), p, Routed(a, records, false))
    case Poison(p) => WithHandle(s, p, Of(s, p).handle.(poisoned := true))
    case Append(p, m, outcome) => DoAppend(s, p, m, outcome)
    case Reserve(p) =>
      var id := Frontier(dir) + 1;
      WithBuild(WithDir(s, dir.(reservations := dir.reservations + {id})).(issued := s.issued + [id]), p, Reserved(id))
    case Resolve(p) => WithBuild(s, p, Resolved(Of(s, p).build.id, Authority(dir)))
    case Inspect(p) =>
      var b := Of(s, p).build;
      WithBuild(s, p, Inspecting(b.id, b.base, dir.logs[b.base]))
    case StartCopy(p) =>
      var b := Of(s, p).build;
      WithBuild(WithDir(s, dir.(compacting := dir.compacting + {b.id})), p,
                Copying(b.id, b.base, b.source, Compacted(dir.logs[b.base].records)))
    case LinkCopy(p) =>
      var b := Of(s, p).build;
      WithBuild(WithDir(s, dir.(logs := dir.logs[b.id := Log(b.copy, 0)])), p, Linked(b.id, b.base, b.source))
    case DropStagingCopy(p, removed) =>
      var b := Of(s, p).build;
      var dropped := if removed then dir.(compacting := dir.compacting - {b.id}) else dir;
      WithBuild(WithDir(s, dropped), p, Built(b.id, b.base, b.source))
    case Abandon(p, removeCopy, removeOutput) => DoAbandon(s, p, removeCopy, removeOutput)
    case Recheck(p) => WithBuild(s, p, Checked(Of(s, p).build.id))
    case StageMarker(p) =>
      var id := Of(s, p).build.id;
      WithBuild(WithDir(s, dir.(staging := dir.staging + {id})), p, Staged(id))
    case LinkMarker(p) =>
      var id := Of(s, p).build.id;
      WithBuild(WithDir(s, dir.(markers := dir.markers[id := dir.logs[id].records])), p, Published(id))
    case DropStagingMarker(p, removed) =>
      var id := Of(s, p).build.id;
      WithBuild(WithDir(s, if removed then dir.(staging := dir.staging - {id}) else dir), p, NoBuild)
    case RemoveMarker(p, id) => WithDir(s, dir.(markers := dir.markers - {id}))
    case RemoveStaging(p, id) => WithDir(s, dir.(staging := dir.staging - {id}))
    case RemoveLog(p, id) => WithDir(s, dir.(logs := dir.logs - {id}))
    case RetireStaging(p, id) => WithDir(s, dir.(staging := dir.staging - {id}))
    case RetireLog(p, id) => WithDir(s, dir.(logs := dir.logs - {id}))
  }

  /** The append is made only when the file still is what the handle knows; otherwise the handle is poisoned. */
  ghost function DoAppend(s: State, p: nat, m: Mutation, outcome: Outcome): State
    requires Enabled(s, Append(p, m, outcome))
  {
    var h, dir := Of(s, p).handle, s.dir;
    if dir.logs[h.gen] != Log(h.known, 0) then WithHandle(s, p, h.(poisoned := true))
    else
      match outcome
      case Acknowledged =>
        WithHandle(WithDir(s, dir.(logs := dir.logs[h.gen := Log(h.known + [m], 0)])), p, h.(known := h.known + [m]))
        .(landed := s.landed + [Landed(m, true)])
      case LandedUnacknowledged =>
        WithHandle(WithDir(s, dir.(logs := dir.logs[h.gen := Log(h.known + [m], 0)])), p, h.(poisoned := true))
        .(landed := s.landed + [Landed(m, false)])
      case Cut(persisted) =>
        WithHandle(WithDir(s, dir.(logs := dir.logs[h.gen := Log(h.known, persisted)])), p, h.(poisoned := true))
  }

  /** A compact switch that fails before its critical section may remove what it created itself. */
  ghost function DoAbandon(s: State, p: nat, removeCopy: bool, removeOutput: bool): State
    requires Enabled(s, Abandon(p, removeCopy, removeOutput))
  {
    var b, dir := Of(s, p).build, s.dir;
    var copyGone :=
      if removeCopy && (b.Copying? || b.Linked?) then dir.(compacting := dir.compacting - {b.id}) else dir;
    var outputGone := if removeOutput && b.Linked? then copyGone.(logs := copyGone.logs - {b.id}) else copyGone;
    WithBuild(WithDir(s, outputGone), p, NoBuild)
  }

  // ---------- runs ----------

  /** One committed generation, nothing in progress. */
  function Start(first: nat, records: seq<Mutation>, landed: seq<Landed>): State {
    State(Directory(map[first := Log(records, 0)], map[first := records], {}, {}, {}), Free, map[], landed, [])
  }

  ghost predicate Possible(s: State, steps: seq<Step>)
    decreases |steps|
  {
    steps == [] || (Enabled(s, steps[0]) && Possible(Do(s, steps[0]), steps[1..]))
  }

  ghost function After(s: State, steps: seq<Step>): State
    requires Possible(s, steps)
    decreases |steps|
  {
    if steps == [] then s else After(Do(s, steps[0]), steps[1..])
  }

  // ---------- the invariant ----------

  /** The authoritative log exists, extends what its marker binds, and replays to everything that landed. */
  ghost predicate AuthorityHolds(s: State) {
    && s.dir.markers != map[]
    && var a := Authority(s.dir);
       && a in s.dir.logs
       && s.dir.markers[a] <= s.dir.logs[a].records
       && Replay(s.dir.logs[a].records) == Replay(Mutations(s.landed))
  }

  /** Every id in use by a compact switch is its own and reserved, and unpublished until it links the marker. */
  ghost predicate IdsHold(s: State) {
    && (forall p :: !Of(s, p).build.NoBuild? ==>
          && Of(s, p).build.id in s.dir.reservations
          && (Of(s, p).build.Published? || Of(s, p).build.id !in s.dir.markers))
    && (forall p, q :: p != q && !Of(s, p).build.NoBuild? && !Of(s, q).build.NoBuild? ==>
          Of(s, p).build.id != Of(s, q).build.id)
  }

  /** Reservations were issued in strictly increasing order and are all still there. */
  ghost predicate IssuesHold(s: State) {
    && (forall i, j :: 0 <= i < j < |s.issued| ==> s.issued[i] < s.issued[j])
    && (forall i :: 0 <= i < |s.issued| ==> s.issued[i] in s.dir.reservations)
  }

  /** A source that is still authoritative has only grown since it was inspected. */
  ghost predicate SourcesHold(s: State)
    requires s.dir.markers != map[]
  {
    var a := Authority(s.dir);
    forall p :: var b := Of(s, p).build;
      && (b.Resolved? || b.Inspecting? || b.Copying? || b.Linked? || b.Built? ==> b.base <= a)
      && (b.Inspecting? || b.Copying? || b.Linked? || b.Built? ==>
            b.base == a ==> a in s.dir.logs && b.source.records <= s.dir.logs[a].records)
  }

  /** A candidate that passed the locked recheck still equals the authoritative state. */
  ghost predicate CandidateHolds(s: State) {
    forall p :: var b := Of(s, p).build;
      && (b.Checked? || b.Staged? ==>
            && s.lock == Held(p) && b.id in s.dir.logs && s.dir.logs[b.id].torn == 0
            && Replay(s.dir.logs[b.id].records) == Replay(Mutations(s.landed)))
      && (b.Staged? ==> forall id :: id in s.dir.markers ==> id < b.id)
      && (b.Published? ==> s.lock == Held(p))
  }

  /** A handle never runs ahead of authority, and what it knows is a prefix of the log it is routed to. */
  ghost predicate HandlesHold(s: State)
    requires s.dir.markers != map[]
  {
    var a := Authority(s.dir);
    forall p :: var h := Of(s, p).handle;
      h.Routed? ==> h.gen <= a && (h.gen == a ==> a in s.dir.logs && h.known <= s.dir.logs[a].records)
  }

  ghost predicate Inv(s: State) {
    && AuthorityHolds(s) && IdsHold(s) && IssuesHold(s) && SourcesHold(s) && CandidateHolds(s) && HandlesHold(s)
  }

  lemma StartHolds(first: nat, records: seq<Mutation>, landed: seq<Landed>)
    requires Replay(records) == Replay(Mutations(landed))
    ensures Inv(Start(first, records, landed))
  {
    HighestIs({first}, first);
    assert map[first := records].Keys == {first};
  }

  lemma SameAuthority(d: Directory, e: Directory)
    requires d.markers != map[] && d.markers.Keys == e.markers.Keys
    ensures e.markers != map[] && Authority(d) == Authority(e)
  {
    assert e.markers.Keys != {};
  }

  // ---------- every step keeps the invariant ----------

  function Actor(step: Step): nat {
    if step.ClearStale? then 0 else step.p
  }

  lemma OthersUnchanged(s: State, step: Step)
    requires Enabled(s, step)
    ensures forall q :: q != Actor(step) ==> Of(Do(s, step), q) == Of(s, q)
    ensures step.ClearStale? ==> forall q :: Of(Do(s, step), q) == Of(s, q)
  {
  }

  lemma RecheckFindsNoDrift(s: State, p: nat)
    requires Inv(s) && Enabled(s, Recheck(p))
    ensures var b := Of(s, p).build;
            && b.source.records == s.dir.logs[b.base].records
            && Replay(s.dir.logs[b.id].records) == Replay(Mutations(s.landed))
  {
    hide Replay, Mutations, TotalLength, NameCount;
  }

  lemma LockStep(s: State, step: Step)
    requires Inv(s) && Enabled(s, step) && (step.Acquire? || step.ClearStale? || step.Poison?)
    ensures Inv(Do(s, step))
  {
    hide Replay, Mutations, TotalLength, NameCount;
    OthersUnchanged(s, step);
  }

  lemma ReleaseStep(s: State, p: nat, removed: bool)
    requires Inv(s) && Enabled(s, Release(p, removed))
    ensures Inv(Do(s, Release(p, removed)))
  {
    hide Replay, Mutations, TotalLength, NameCount;
    OthersUnchanged(s, Release(p, removed));
  }

  lemma CrashStep(s: State, p: nat)
    requires Inv(s)
    ensures Inv(Do(s, Crash(p)))
  {
    hide Replay, Mutations, TotalLength, NameCount;
    OthersUnchanged(s, Crash(p));
    assert Of(Do(s, Crash(p)), p) == Process(NoHandle, NoBuild);
  }

  lemma SourceStep(s: State, step: Step)
    requires Inv(s) && Enabled(s, step) && (step.Resolve? || step.Inspect?)
    ensures Inv(Do(s, step))
  {
    hide Replay, Mutations, TotalLength, NameCount;
    OthersUnchanged(s, step);
  }

  lemma RecheckStep(s: State, p: nat)
    requires Inv(s) && Enabled(s, Recheck(p))
    ensures Inv(Do(s, Recheck(p)))
  {
    hide Replay, Mutations, TotalLength, NameCount;
    OthersUnchanged(s, Recheck(p));
    RecheckFindsNoDrift(s, p);
  }

  lemma RouteStep(s: State, p: nat)
    requires Inv(s) && Enabled(s, Route(p))
    ensures Inv(Do(s, Route(p)))
  {
    hide Replay, Mutations, TotalLength, NameCount;
    OthersUnchanged(s, Route(p));
    SameAuthority(s.dir, Do(s, Route(p)).dir);
  }

  lemma LandedStep(landed: seq<Landed>, records: seq<Mutation>, m: Mutation, acknowledged: bool)
    requires Replay(records) == Replay(Mutations(landed))
    ensures Replay(records + [m]) == Replay(Mutations(landed + [Landed(m, acknowledged)]))
  {
    assert (landed + [Landed(m, acknowledged)])[..|landed|] == landed;
    ReplayStep(records, m);
    ReplayStep(Mutations(landed), m);
  }

  lemma AppendStep(s: State, p: nat, m: Mutation, outcome: Outcome)
    requires Inv(s) && Enabled(s, Append(p, m, outcome))
    ensures Inv(Do(s, Append(p, m, outcome)))
  {
    hide Replay, Mutations, TotalLength, NameCount;
    var t := Do(s, Append(p, m, outcome));
    OthersUnchanged(s, Append(p, m, outcome));
    SameAuthority(s.dir, t.dir);
    LandedStep(s.landed, s.dir.logs[Authority(s.dir)].records, m, true);
    LandedStep(s.landed, s.dir.logs[Authority(s.dir)].records, m, false);
  }

  lemma ReserveStep(s: State, p: nat)
    requires Inv(s) && Enabled(s, Reserve(p))
    ensures Inv(Do(s, Reserve(p)))
  {
    hide Replay, Mutations, TotalLength, NameCount;
    OthersUnchanged(s, Reserve(p));
    SameAuthority(s.dir, Do(s, Reserve(p)).dir);
  }

  lemma StartCopyStep(s: State, p: nat)
    requires Inv(s) && Enabled(s, StartCopy(p))
    ensures Inv(Do(s, StartCopy(p)))
  {
    hide Replay, Mutations, TotalLength, NameCount, Compacted;
    OthersUnchanged(s, StartCopy(p));
    SameAuthority(s.dir, Do(s, StartCopy(p)).dir);
  }

  lemma DropCopyStep(s: State, p: nat, removed: bool)
    requires Inv(s) && Enabled(s, DropStagingCopy(p, removed))
    ensures Inv(Do(s, DropStagingCopy(p, removed)))
  {
    hide Replay, Mutations, TotalLength, NameCount;
    OthersUnchanged(s, DropStagingCopy(p, removed));
    SameAuthority(s.dir, Do(s, DropStagingCopy(p, removed)).dir);
  }

  lemma LinkCopyStep(s: State, p: nat)
    requires Inv(s) && Enabled(s, LinkCopy(p))
    ensures Inv(Do(s, LinkCopy(p)))
  {
    hide Replay, Mutations, TotalLength, NameCount;
    OthersUnchanged(s, LinkCopy(p));
    SameAuthority(s.dir, Do(s, LinkCopy(p)).dir);
  }

  lemma AbandonStep(s: State, p: nat, removeCopy: bool, removeOutput: bool)
    requires Inv(s) && Enabled(s, Abandon(p, removeCopy, removeOutput))
    ensures Inv(Do(s, Abandon(p, removeCopy, removeOutput)))
  {
    hide Replay, Mutations, TotalLength, NameCount;
    OthersUnchanged(s, Abandon(p, removeCopy, removeOutput));
    SameAuthority(s.dir, Do(s, Abandon(p, removeCopy, removeOutput)).dir);
  }

  lemma StageStep(s: State, p: nat)
    requires Inv(s) && Enabled(s, StageMarker(p))
    ensures Inv(Do(s, StageMarker(p)))
  {
    hide Replay, Mutations, TotalLength, NameCount;
    OthersUnchanged(s, StageMarker(p));
    SameAuthority(s.dir, Do(s, StageMarker(p)).dir);
  }

  lemma PublishStep(s: State, p: nat)
    requires Inv(s) && Enabled(s, LinkMarker(p))
    ensures Inv(Do(s, LinkMarker(p)))
    ensures Authority(Do(s, LinkMarker(p)).dir) == Of(s, p).build.id > Authority(s.dir)
  {
    hide Replay, Mutations, TotalLength, NameCount;
    var t := Do(s, LinkMarker(p));
    OthersUnchanged(s, LinkMarker(p));
    HighestIs(t.dir.markers.Keys, Of(s, p).build.id);
  }

  lemma DropMarkerStep(s: State, p: nat, removed: bool)
    requires Inv(s) && Enabled(s, DropStagingMarker(p, removed))
    ensures Inv(Do(s, DropStagingMarker(p, removed)))
  {
    hide Replay, Mutations, TotalLength, NameCount;
    OthersUnchanged(s, DropStagingMarker(p, removed));
    SameAuthority(s.dir, Do(s, DropStagingMarker(p, removed)).dir);
  }

  /** Removing names never touches the authoritative marker or log. */
  lemma RemoveMarkerStep(s: State, p: nat, id: nat)
    requires Inv(s) && Enabled(s, RemoveMarker(p, id))
    ensures Inv(Do(s, RemoveMarker(p, id))) && Authority(Do(s, RemoveMarker(p, id)).dir) == Authority(s.dir)
  {
    hide Replay, Mutations, TotalLength, NameCount;
    OthersUnchanged(s, RemoveMarker(p, id));
    HighestIs(Do(s, RemoveMarker(p, id)).dir.markers.Keys, Authority(s.dir));
  }

  lemma RemoveStagingStep(s: State, step: Step)
    requires Inv(s) && Enabled(s, step) && (step.RemoveStaging? || step.RetireStaging?)
    ensures Inv(Do(s, step)) && Authority(Do(s, step).dir) == Authority(s.dir)
  {
    hide Replay, Mutations, TotalLength, NameCount;
    OthersUnchanged(s, step);
    HighestIs(Do(s, step).dir.markers.Keys, Authority(s.dir));
  }

  lemma RemoveLogStep(s: State, p: nat, id: nat)
    requires Inv(s) && Enabled(s, RemoveLog(p, id))
    ensures Inv(Do(s, RemoveLog(p, id))) && Authority(Do(s, RemoveLog(p, id)).dir) == Authority(s.dir)
  {
    hide Replay, Mutations, TotalLength, NameCount;
    OthersUnchanged(s, RemoveLog(p, id));
    HighestIs(Do(s, RemoveLog(p, id)).dir.markers.Keys, Authority(s.dir));
  }

  lemma RetireLogStep(s: State, p: nat, id: nat)
    requires Inv(s) && Enabled(s, RetireLog(p, id))
    ensures Inv(Do(s, RetireLog(p, id))) && Authority(Do(s, RetireLog(p, id)).dir) == Authority(s.dir)
  {
    hide Replay, Mutations, TotalLength, NameCount;
    OthersUnchanged(s, RetireLog(p, id));
    HighestIs(Do(s, RetireLog(p, id)).dir.markers.Keys, Authority(s.dir));
  }

  lemma StepKeepsInv(s: State, step: Step)
    requires Inv(s) && Enabled(s, step)
    ensures Inv(Do(s, step))
  {
    hide Inv, Enabled, Do;
    match step
    case Route(p) => RouteStep(s, p);
    case Append(p, m, outcome) => AppendStep(s, p, m, outcome);
    case Reserve(p) => ReserveStep(s, p);
    case StageMarker(p) => StageStep(s, p);
    case LinkMarker(p) => PublishStep(s, p);
    case DropStagingMarker(p, removed) => DropMarkerStep(s, p, removed);
    case StartCopy(p) => StartCopyStep(s, p);
    case LinkCopy(p) => LinkCopyStep(s, p);
    case DropStagingCopy(p, removed) => DropCopyStep(s, p, removed);
    case Abandon(p, removeCopy, removeOutput) => AbandonStep(s, p, removeCopy, removeOutput);
    case RemoveMarker(p, id) => RemoveMarkerStep(s, p, id);
    case RemoveStaging(_, _) => RemoveStagingStep(s, step);
    case RemoveLog(p, id) => RemoveLogStep(s, p, id);
    case RetireStaging(_, _) => RemoveStagingStep(s, step);
    case RetireLog(p, id) => RetireLogStep(s, p, id);
    case Acquire(_) => LockStep(s, step);
    case ClearStale => LockStep(s, step);
    case Poison(_) => LockStep(s, step);
    case Release(p, removed) => ReleaseStep(s, p, removed);
    case Crash(p) => CrashStep(s, p);
    case Resolve(_) => SourceStep(s, step);
    case Inspect(_) => SourceStep(s, step);
    case Recheck(p) => RecheckStep(s, p);
  }

  // ---------- what holds over whole runs ----------

  lemma {:induction false} RunKeepsInv(s: State, steps: seq<Step>)
    requires Inv(s) && Possible(s, steps)
    ensures Inv(After(s, steps))
    decreases |steps|
  {
    hide Inv, Enabled, Do;
    if steps != [] {
      StepKeepsInv(s, steps[0]);
      RunKeepsInv(Do(s, steps[0]), steps[1..]);
    }
  }

  /** The record one step lands in full, and whether its writer is told so. */
  ghost function Landing(s: State, step: Step): seq<Landed>
    requires Enabled(s, step)
  {
    if step.Append? && s.dir.logs[Of(s, step.p).handle.gen] == Log(Of(s, step.p).handle.known, 0)
       && !step.outcome.Cut?
    then [Landed(step.mutation, step.outcome.Acknowledged?)]
    else []
  }

  /** All records a run lands, in the order in which their writers held the lease. */
  ghost function Landings(s: State, steps: seq<Step>): seq<Landed>
    requires Possible(s, steps)
    decreases |steps|
  {
    if steps == [] then [] else Landing(s, steps[0]) + Landings(Do(s, steps[0]), steps[1..])
  }

  lemma LandedNow(s: State, step: Step)
    requires Enabled(s, step)
    ensures Do(s, step).landed == s.landed + Landing(s, step)
  {
    hide Verified, Frontier, Authority, Replay, TotalLength, NameCount;
  }

  lemma {:induction false} LandedIsLandings(s: State, steps: seq<Step>)
    requires Possible(s, steps)
    ensures After(s, steps).landed == s.landed + Landings(s, steps)
    decreases |steps|
  {
    hide Enabled, Do, Landing;
    if steps != [] {
      LandedNow(s, steps[0]);
      LandedIsLandings(Do(s, steps[0]), steps[1..]);
    } else {
      assert s.landed + [] == s.landed;
    }
  }

  /**
   * No acknowledged write is lost: after any interleaving of routed mutations, compact switches, cleanups,
   * retirements, stale-lock clears and crashes, the authoritative log replays to the initial log followed by
   * every landed record in lease order. A record lands unless its append was cut, and an acknowledged one was not.
   */
  lemma NoAcknowledgedWriteIsLost(first: nat, base: seq<Landed>, steps: seq<Step>)
    requires Possible(Start(first, Mutations(base), base), steps)
    ensures var start := Start(first, Mutations(base), base);
            var end := After(start, steps);
            && end.dir.markers != map[]
            && Authority(end.dir) in end.dir.logs
            && Replay(end.dir.logs[Authority(end.dir)].records) == Replay(Mutations(base + Landings(start, steps)))
  {
    hide Enabled, Do, Replay, Mutations, IdsHold, IssuesHold, SourcesHold, CandidateHolds, HandlesHold;
    var start := Start(first, Mutations(base), base);
    StartHolds(first, Mutations(base), base);
    RunKeepsInv(start, steps);
    LandedIsLandings(start, steps);
  }

  /** A marker is only ever linked for a log that equals the authoritative state at that moment. */
  lemma StaleCandidateIsNeverPublished(s: State, p: nat)
    requires Inv(s) && Enabled(s, LinkMarker(p))
    ensures var id := Of(s, p).build.id;
            && id > Authority(s.dir)
            && Replay(s.dir.logs[id].records) == Replay(s.dir.logs[Authority(s.dir)].records)
            && s.dir.logs[id].torn == 0
  {
    hide Replay, Mutations, TotalLength, NameCount;
  }

  /** An undisturbed switch is never refused: the copy it made passes the locked recheck. */
  lemma FreshCopyPassesRecheck(s: State, p: nat)
    requires Inv(s) && s.lock == Held(p) && Of(s, p).build.Built? && Scannable(s.dir)
    requires var b := Of(s, p).build;
             && b.base == Authority(s.dir) && s.dir.logs[b.base] == b.source
             && b.id in s.dir.logs && s.dir.logs[b.id] == Log(Compacted(b.source.records), 0)
    ensures Enabled(s, Recheck(p))
  {
    hide Replay, Mutations, TotalLength, NameCount;
    CompactLogReplaysToSameMap(Replay(Of(s, p).build.source.records));
  }

  /** A freshly reserved id was never used for anything and exceeds every id issued before. */
  lemma ReservedIdIsFresh(s: State, p: nat)
    requires Inv(s) && Enabled(s, Reserve(p))
    ensures var id := Do(s, Reserve(p)).issued[|s.issued|];
            && id !in Observed(s.dir)
            && (forall used :: used in Observed(s.dir) ==> used < id)
            && (forall i :: 0 <= i < |s.issued| ==> s.issued[i] < id)
            && id in Do(s, Reserve(p)).dir.reservations
  {
    hide Replay, Mutations, TotalLength, NameCount;
  }

  /** Reservations are never given up. */
  lemma ReservationsStay(s: State, step: Step)
    requires Enabled(s, step)
    ensures s.dir.reservations <= Do(s, step).dir.reservations
  {
    hide Verified, Frontier, Authority, Replay, TotalLength, NameCount;
  }

  /** Over a whole run, reserved ids strictly increase and stay reserved. */
  lemma IdsAreNeverReused(first: nat, base: seq<Landed>, steps: seq<Step>)
    requires Possible(Start(first, Mutations(base), base), steps)
    ensures var end := After(Start(first, Mutations(base), base), steps);
            && (forall i, j :: 0 <= i < j < |end.issued| ==> end.issued[i] < end.issued[j])
            && (forall i :: 0 <= i < |end.issued| ==> end.issued[i] in end.dir.reservations)
  {
    hide Enabled, Do, Replay, Mutations, IdsHold, AuthorityHolds, SourcesHold, CandidateHolds, HandlesHold;
    StartHolds(first, Mutations(base), base);
    RunKeepsInv(Start(first, Mutations(base), base), steps);
  }

  /** The highest marker never goes down. */
  lemma AuthorityNeverDrops(s: State, step: Step)
    requires Inv(s) && Enabled(s, step)
    ensures Do(s, step).dir.markers != map[] && Authority(Do(s, step).dir) >= Authority(s.dir)
  {
    hide Enabled, Do, IdsHold, IssuesHold, SourcesHold, CandidateHolds, HandlesHold;
    StepKeepsInv(s, step);
    match step
    case LinkMarker(p) => PublishStep(s, p);
    case RemoveMarker(p, id) => RemoveMarkerStep(s, p, id);
    case _ => MarkersStay(s, step);
  }

  lemma MarkersStay(s: State, step: Step)
    requires Enabled(s, step) && !step.LinkMarker? && !step.RemoveMarker?
    ensures Do(s, step).dir.markers == s.dir.markers
  {
    hide Verified, Frontier, Authority, Replay, TotalLength, NameCount, Scannable, CompactState, Orphan, Of, Compacted;
  }

  predicate Removal(step: Step) {
    step.RemoveMarker? || step.RemoveStaging? || step.RemoveLog? || step.RetireStaging? || step.RetireLog?
  }

  /** Cleanup and retirement leave the allocation frontier exactly where it was. */
  lemma RemovalKeepsFrontier(s: State, step: Step)
    requires Inv(s) && Enabled(s, step) && Removal(step)
    ensures Observed(s.dir) != {} && Observed(Do(s, step).dir) != {}
    ensures Frontier(Do(s, step).dir) == Frontier(s.dir)
  {
    hide Replay, Mutations, TotalLength, NameCount, IdsHold, IssuesHold, SourcesHold, CandidateHolds, HandlesHold;
    var before, after := Observed(s.dir), Observed(Do(s, step).dir);
    assert Authority(s.dir) in s.dir.markers.Keys;
    assert Authority(s.dir) in before;
    assert after <= before;
    var top := Frontier(s.dir);
    assert top in after;
    HighestIs(after, top);
  }

  /**
   * In every reachable state the directory verifies exactly when no compaction staging file is visible and there are
   * not too many entries.
   */
  lemma VerifiesExactly(s: State)
    requires Inv(s)
    ensures Verified(s.dir) <==> s.dir.compacting == {} && NameCount(s.dir) <= MAX_ENTRIES
  {
    hide Replay, Mutations, TotalLength, NameCount;
  }

  /** A staging file of a compaction whose process is gone. */
  ghost predicate OrphanedCopy(s: State, id: nat) {
    && id in s.dir.compacting && id in s.dir.reservations
    && forall p :: !Of(s, p).build.NoBuild? ==> Of(s, p).build.id != id
  }

  lemma OrphanedCopyStays(s: State, step: Step, id: nat)
    requires Inv(s) && Enabled(s, step) && OrphanedCopy(s, id)
    ensures OrphanedCopy(Do(s, step), id)
  {
    hide Replay, Mutations, TotalLength, NameCount, SourcesHold, CandidateHolds, HandlesHold, AuthorityHolds,
      IssuesHold;
    OthersUnchanged(s, step);
  }

  /** No protocol step ever removes it: from then on every verification fails, until it is deleted by hand. */
  lemma {:induction false} OrphanedCopyBlocksForever(s: State, steps: seq<Step>, id: nat)
    requires Inv(s) && OrphanedCopy(s, id) && Possible(s, steps)
    ensures !Verified(After(s, steps).dir)
    decreases |steps|
  {
    hide Inv, Enabled, Do;
    if steps != [] {
      StepKeepsInv(s, steps[0]);
      OrphanedCopyStays(s, steps[0], id);
      OrphanedCopyBlocksForever(Do(s, steps[0]), steps[1..], id);
    }
  }

  /** A current, usable handle that holds the lease. */
  ghost predicate MayWrite(s: State, p: nat)
    requires s.dir.markers != map[]
  {
    Working(s, p) && var h := Of(s, p).handle; h.Routed? && !h.poisoned && h.gen == Authority(s.dir)
  }

  /** Such a handle lands a record exactly when the directory verifies and the log still is what the handle knows. */
  lemma WriterAppendsExactly(s: State, p: nat, m: Mutation)
    requires Inv(s) && MayWrite(s, p) && Storable(m)
    ensures Enabled(s, Append(p, m, Acknowledged)) && Landing(s, Append(p, m, Acknowledged)) == [Landed(m, true)]
            <==> Verified(s.dir) && s.dir.logs[Authority(s.dir)] == Log(Of(s, p).handle.known, 0)
    ensures Enabled(s, Append(p, m, Acknowledged)) && s.dir.logs[Authority(s.dir)] != Log(Of(s, p).handle.known, 0) ==>
              Of(Do(s, Append(p, m, Acknowledged)), p).handle.poisoned
  {
    hide Replay, Mutations, TotalLength, NameCount;
    VerifiesExactly(s);
  }

  predicate CopyUnderway(s: State, p: nat) {
    Of(s, p).build.Copying? || Of(s, p).build.Linked?
  }

  /** The staging file of every copy under construction is visible. */
  ghost predicate CopiesVisible(s: State) {
    forall p :: CopyUnderway(s, p) ==> Of(s, p).build.id in s.dir.compacting
  }

  lemma StepKeepsCopiesVisible(s: State, step: Step)
    requires Inv(s) && CopiesVisible(s) && Enabled(s, step)
    ensures CopiesVisible(Do(s, step))
  {
    hide Replay, Mutations, TotalLength, NameCount, SourcesHold, CandidateHolds, HandlesHold, AuthorityHolds,
      IssuesHold, Verified, Frontier, Orphan, CompactState, Compacted;
    OthersUnchanged(s, step);
  }

  lemma {:induction false} RunKeepsCopiesVisible(s: State, steps: seq<Step>)
    requires Inv(s) && CopiesVisible(s) && Possible(s, steps)
    ensures CopiesVisible(After(s, steps))
    decreases |steps|
  {
    hide Inv, Enabled, Do, CopiesVisible;
    if steps != [] {
      StepKeepsCopiesVisible(s, steps[0]);
      StepKeepsInv(s, steps[0]);
      RunKeepsCopiesVisible(Do(s, steps[0]), steps[1..]);
    }
  }

  /**
   * In every reachable state: while any process has a compact copy under construction, from the creation of its
   * staging file to its removal, no process can append through a route and no verification succeeds.
   */
  lemma CopyInProgressRefusesWriters(first: nat, records: seq<Mutation>, landed: seq<Landed>, steps: seq<Step>, p: nat)
    requires Replay(records) == Replay(Mutations(landed)) && Possible(Start(first, records, landed), steps)
    requires CopyUnderway(After(Start(first, records, landed), steps), p)
    ensures var s := After(Start(first, records, landed), steps);
            !Verified(s.dir) && forall q, m, outcome :: !Enabled(s, Append(q, m, outcome))
  {
    hide Replay, Mutations, Inv, Possible, After;
    var start := Start(first, records, landed);
    StartHolds(first, records, landed);
    assert CopiesVisible(start);
    RunKeepsCopiesVisible(start, steps);
    assert Of(After(start, steps), p).build.id in After(start, steps).dir.compacting;
  }

  /** Generation 1 is authoritative, id 2 is reserved, and a compact switch has come as far as `build`. */
  function Switching(lock: Lock, reserved: bool, compacting: bool, build: Build): State {
    var ids: set<nat> := if reserved then {2} else {};
    var copies: set<nat> := if compacting then {2} else {};
    State(Directory(map[1 := Log([], 0)], map[1 := []], {}, ids, copies), lock,
          if build.NoBuild? then map[] else map[0 := Process(NoHandle, build)], [],
          if reserved then [2] else [])
  }

  /** What a compact switch leaves behind when its process dies while it copies. */
  function CrashedWhileCopying(): State {
    Switching(Free, true, true, NoBuild)
  }

  lemma FewEntries(dir: Directory)
    requires dir.logs == map[1 := Log([], 0)] && dir.markers == map[1 := []] && dir.staging == {}
    requires (dir.reservations == {2} || dir.reservations == {}) && (dir.compacting == {2} || dir.compacting == {})
    ensures NameCount(dir) <= MAX_ENTRIES
  {
  }

  lemma OneGeneration(s: State, build: Build)
    requires s == Switching(s.lock, s.dir.reservations == {2}, s.dir.compacting == {2}, build)
    ensures s.dir.markers != map[] && Authority(s.dir) == 1
    ensures s.dir.compacting == {} ==> Verified(s.dir)
    ensures Observed(s.dir) != {} && Frontier(s.dir) == if s.dir.reservations == {2} then 2 else 1
  {
    hide NameCount;
    FewEntries(s.dir);
    assert s.dir.markers.Keys == {1} && s.dir.logs.Keys == {1};
    HighestIs({1}, 1);
    HighestIs(Observed(s.dir), if s.dir.reservations == {2} then 2 else 1);
  }

  lemma SwitchReserves()
    ensures var s := Switching(Held(0), false, false, NoBuild);
            Enabled(s, Reserve(0)) && Do(s, Reserve(0)) == Switching(Held(0), true, false, Build.Reserved(2))
  {
    hide Verified, Frontier, Authority, NameCount;
    var s := Switching(Held(0), false, false, NoBuild);
    OneGeneration(s, NoBuild);
  }

  lemma SwitchResolves()
    ensures var s := Switching(Free, true, false, Build.Reserved(2));
            Enabled(s, Resolve(0)) && Do(s, Resolve(0)) == Switching(Free, true, false, Resolved(2, 1))
  {
    hide Verified, Frontier, Authority, NameCount;
    OneGeneration(Switching(Free, true, false, Build.Reserved(2)), Build.Reserved(2));
  }

  lemma SwitchCopies()
    ensures var s := Switching(Free, true, false, Inspecting(2, 1, Log([], 0)));
            && Enabled(s, StartCopy(0)) && Enabled(Do(s, StartCopy(0)), Crash(0))
            && Do(Do(s, StartCopy(0)), Crash(0)) == CrashedWhileCopying()
  {
    hide Verified, Frontier, Authority, Compacted, NameCount;
    var s := Switching(Free, true, false, Inspecting(2, 1, Log([], 0)));
    assert Do(s, StartCopy(0)).processes.Keys == {0};
    assert Do(Do(s, StartCopy(0)), Crash(0)).processes == map[];
  }

  const CopyThenCrash: seq<Step> :=
    [Acquire(0), Reserve(0), Release(0, true), Resolve(0), Inspect(0), StartCopy(0), Crash(0)]

  lemma RunOne(s: State, step: Step, rest: seq<Step>, steps: seq<Step>)
    requires Enabled(s, step) && Possible(Do(s, step), rest) && steps == [step] + rest
    ensures Possible(s, steps) && After(s, steps) == After(Do(s, step), rest)
  {
    assert steps[1..] == rest;
  }

  lemma SwitchLocks()
    ensures var s := Start(1, [], []);
            Enabled(s, Acquire(0)) && Do(s, Acquire(0)) == Switching(Held(0), false, false, NoBuild)
    ensures var s := Switching(Held(0), true, false, Build.Reserved(2));
            Enabled(s, Release(0, true)) && Do(s, Release(0, true)) == Switching(Free, true, false, Build.Reserved(2))
    ensures var s := Switching(Free, true, false, Resolved(2, 1));
            Enabled(s, Inspect(0)) && Do(s, Inspect(0)) == Switching(Free, true, false, Inspecting(2, 1, Log([], 0)))
  {
  }

  /** That state is reachable by an ordinary switch. */
  lemma CrashedCopyIsReachable()
    ensures Possible(Start(1, [], []), CopyThenCrash)
    ensures After(Start(1, [], []), CopyThenCrash) == CrashedWhileCopying()
  {
    hide *;
    SwitchLocks();
    SwitchReserves();
    SwitchResolves();
    SwitchCopies();
    var s0, s1, s2 := Start(1, [], []), Switching(Held(0), false, false, NoBuild),
      Switching(Held(0), true, false, Build.Reserved(2));
    var s3, s4 := Switching(Free, true, false, Build.Reserved(2)), Switching(Free, true, false, Resolved(2, 1));
    var s5 := Switching(Free, true, false, Inspecting(2, 1, Log([], 0)));
    var s6 := Do(s5, StartCopy(0));
    NoMoreSteps(Do(s6, Crash(0)));
    RunOne(s6, Crash(0), [], [Crash(0)]);
    RunOne(s5, StartCopy(0), [Crash(0)], [StartCopy(0), Crash(0)]);
    RunOne(s4, Inspect(0), [StartCopy(0), Crash(0)], [Inspect(0), StartCopy(0), Crash(0)]);
    RunOne(s3, Resolve(0), [Inspect(0), StartCopy(0), Crash(0)], [Resolve(0), Inspect(0), StartCopy(0), Crash(0)]);
    ThreeMore(s0, s1, s2, s3, [Resolve(0), Inspect(0), StartCopy(0), Crash(0)]);
    CopyThenCrashIs();
  }

  lemma ThreeMore(s0: State, s1: State, s2: State, s3: State, rest: seq<Step>)
    requires Enabled(s0, Acquire(0)) && Do(s0, Acquire(0)) == s1
    requires Enabled(s1, Reserve(0)) && Do(s1, Reserve(0)) == s2
    requires Enabled(s2, Release(0, true)) && Do(s2, Release(0, true)) == s3
    requires Possible(s3, rest)
    ensures var steps := [Acquire(0), Reserve(0), Release(0, true)] + rest;
            Possible(s0, steps) && After(s0, steps) == After(s3, rest)
  {
    hide *;
    RunOne(s2, Release(0, true), rest, [Release(0, true)] + rest);
    RunOne(s1, Reserve(0), [Release(0, true)] + rest, [Reserve(0), Release(0, true)] + rest);
    RunOne(s0, Acquire(0), [Reserve(0), Release(0, true)] + rest, [Acquire(0), Reserve(0), Release(0, true)] + rest);
  }

  lemma CopyThenCrashIs()
    ensures CopyThenCrash
         == [Acquire(0), Reserve(0), Release(0, true)] + [Resolve(0), Inspect(0), StartCopy(0), Crash(0)]
  {
  }

  lemma NoMoreSteps(s: State)
    ensures Possible(s, []) && After(s, []) == s
  {
  }

  /** From there no run of the protocol ever verifies the directory again. */
  lemma CrashedCopyBlocksTheDirectory(steps: seq<Step>)
    requires Possible(CrashedWhileCopying(), steps)
    ensures !Verified(After(CrashedWhileCopying(), steps).dir)
  {
    hide TotalLength, Inv, Enabled, Do, Possible, After;
    CrashedCopyIsReachable();
    StartHolds(1, [], []);
    RunKeepsInv(Start(1, [], []), CopyThenCrash);
    assert OrphanedCopy(CrashedWhileCopying(), 2);
    OrphanedCopyBlocksForever(CrashedWhileCopying(), steps, 2);
  }
}
