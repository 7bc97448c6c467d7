/** What the protocol gets done: routed writers land records, cleanup leaves nothing obsolete, a switch completes. */
module GenerationProgress {
  import opened LogFormat
  import opened LogScan
  import opened LogCompaction
  import opened Generations
  import opened GenerationRecovery

  // ---------- routed writers ----------

  /** A handle that was just routed knows the whole authoritative log, whose torn tail is gone. */
  lemma RoutedHandleKnowsTheLog(s: State, p: nat)
    requires Inv(s) && Working(s, p) && Verified(s.dir)
    ensures Enabled(s, Route(p))
    ensures var t, a := Do(s, Route(p)), Authority(s.dir);
            && a in s.dir.logs && t.lock == s.lock && Of(t, p).build == Of(s, p).build
            && Of(t, p).handle == Routed(a, s.dir.logs[a].records, false)
            && t.dir == s.dir.(logs := s.dir.logs[a := Log(s.dir.logs[a].records, 0)])
            && Inv(t) && Authority(t.dir) == a && Verified(t.dir)
  {
    hide Replay, Mutations, NameCount, IdsHold, SourcesHold, CandidateHolds, HandlesHold, IssuesHold;
    StepKeepsInv(s, Route(p));
    var t := Do(s, Route(p));
    SameAuthority(s.dir, t.dir);
    SameNames(s.dir, t.dir);
    VerifiesExactly(s);
    VerifiesExactly(t);
  }

  lemma SameNames(d: Directory, e: Directory)
    requires d.logs.Keys == e.logs.Keys && d.markers.Keys == e.markers.Keys && d.staging == e.staging
    requires d.reservations == e.reservations && d.compacting == e.compacting
    ensures NameCount(d) == NameCount(e)
  {
    assert |d.logs| == |d.logs.Keys| && |e.logs| == |e.logs.Keys|;
    assert |d.markers| == |d.markers.Keys| && |e.markers| == |e.markers.Keys|;
  }

  /** Whoever holds the lease on a directory that verifies can route and land a record, acknowledged. */
  lemma RoutedWriterLands(s: State, p: nat, m: Mutation)
    requires Inv(s) && Working(s, p) && Verified(s.dir) && Storable(m)
    ensures var steps := [Route(p), Append(p, m, Acknowledged)];
            Possible(s, steps) && Landings(s, steps) == [Landed(m, true)]
  {
    hide Inv, Enabled, Do, Verified, Landing;
    RoutedHandleKnowsTheLog(s, p);
    var t := Do(s, Route(p));
    MayWriteNow(s, t, p);
    WriterAppendsExactly(t, p, m);
    RouteLandsNothing(s, p);
    var last := Append(p, m, Acknowledged);
    assert [Route(p), last][1..] == [last] && [last][1..] == [];
    NoMoreSteps(Do(t, last));
    assert Possible(t, [last]);
    assert Landings(t, [last]) == Landing(t, last) + Landings(Do(t, last), []);
  }

  lemma MayWriteNow(s: State, t: State, p: nat)
    requires Working(s, p) && t.lock == s.lock && Of(t, p).build == Of(s, p).build && Inv(t)
    requires Of(t, p).handle.Routed? && !Of(t, p).handle.poisoned && Of(t, p).handle.gen == Authority(t.dir)
    ensures MayWrite(t, p)
  {
    hide IdsHold, SourcesHold, CandidateHolds, HandlesHold, IssuesHold;
  }

  lemma RouteLandsNothing(s: State, p: nat)
    requires Enabled(s, Route(p))
    ensures Landing(s, Route(p)) == []
  {
    hide Verified;
  }

  // ---------- single steps ----------

  /** The lock passes from nobody to one process and back, and a crash or a failed removal leaves it stale. */
  lemma LockMoves(s: State, p: nat, removed: bool)
    ensures Enabled(s, Acquire(p)) <==> s.lock.Free?
    ensures s.lock.Free? ==> Do(s, Acquire(p)) == s.(lock := Held(p))
    ensures Enabled(s, Release(p, removed)) <==> s.lock == Held(p)
    ensures s.lock == Held(p) ==> Do(s, Release(p, removed)).lock == if removed then Free else Stale
    ensures Enabled(s, ClearStale) <==> s.lock.Stale?
    ensures s.lock.Stale? ==> Do(s, ClearStale) == s.(lock := Free)
    ensures var t := Do(s, Crash(p));
            && Of(t, p) == Process(NoHandle, NoBuild) && t.dir == s.dir
            && t.lock == if s.lock == Held(p) then Stale else s.lock
  {
  }

  // ---------- cleanup ----------

  /** A removal leaves the directory verified, with the same authority. */
  lemma RemovalStaysVerified(s: State, step: Step)
    requires Inv(s) && Enabled(s, step) && Removal(step) && Verified(s.dir)
    requires Contained(Do(s, step).dir, s.dir) && Do(s, step).processes == s.processes && Do(s, step).lock == s.lock
    ensures var t := Do(s, step); Inv(t) && Verified(t.dir) && (Working(s, step.p) ==> Working(t, step.p))
  {
    hide Inv, Enabled, Do, Verified, NameCount;
    StepKeepsInv(s, step);
    VerifiesExactly(s);
    VerifiesExactly(Do(s, step));
    MoreNamesBlock(Do(s, step).dir, s.dir);
  }

  lemma MarkerGone(s: State, p: nat, id: nat)
    requires Inv(s) && Working(s, p) && Verified(s.dir) && id in s.dir.markers && id < Authority(s.dir)
    ensures Enabled(s, RemoveMarker(p, id))
    ensures var t := Do(s, RemoveMarker(p, id));
            && t == s.(dir := s.dir.(markers := s.dir.markers - {id}))
            && Inv(t) && Working(t, p) && Verified(t.dir) && Authority(t.dir) == Authority(s.dir)
  {
    RemoveMarkerParts(s, p, id);
    hide Inv, Verified, Authority, NameCount;
    RemoveMarkerStep(s, p, id);
    RemovalStaysVerified(s, RemoveMarker(p, id));
  }

  lemma RemoveMarkerParts(s: State, p: nat, id: nat)
    requires Working(s, p) && Verified(s.dir) && id in s.dir.markers && id < Authority(s.dir)
    ensures Enabled(s, RemoveMarker(p, id))
    ensures Do(s, RemoveMarker(p, id)) == s.(dir := s.dir.(markers := s.dir.markers - {id}))
  {
    hide Verified, Authority;
  }

  lemma LogGone(s: State, p: nat, id: nat)
    requires Inv(s) && Working(s, p) && Verified(s.dir) && id in s.dir.logs && id < Authority(s.dir)
    requires forall marked :: marked in s.dir.markers ==> marked >= Authority(s.dir)
    ensures Enabled(s, RemoveLog(p, id))
    ensures var t := Do(s, RemoveLog(p, id));
            && t == s.(dir := s.dir.(logs := s.dir.logs - {id}))
            && Inv(t) && Working(t, p) && Verified(t.dir) && Authority(t.dir) == Authority(s.dir)
  {
    hide Inv, Verified, Authority, NameCount;
    RemoveLogStep(s, p, id);
    RemovalStaysVerified(s, RemoveLog(p, id));
  }

  lemma StagingGone(s: State, p: nat, id: nat)
    requires Inv(s) && Working(s, p) && Verified(s.dir) && id in s.dir.staging && id <= Authority(s.dir)
    ensures Enabled(s, RemoveStaging(p, id))
    ensures var t := Do(s, RemoveStaging(p, id));
            && t == s.(dir := s.dir.(staging := s.dir.staging - {id}))
            && Inv(t) && Working(t, p) && Verified(t.dir) && Authority(t.dir) == Authority(s.dir)
  {
    hide Inv, Verified, Authority, NameCount;
    RemoveStagingStep(s, RemoveStaging(p, id));
    RemovalStaysVerified(s, RemoveStaging(p, id));
  }

  function From<V>(names: map<nat, V>, first: nat): map<nat, V> {
    map id | id in names && id >= first :: names[id]
  }

  function Above(ids: set<nat>, last: nat): set<nat> {
    set id | id in ids && id > last
  }

  /** What cleanup is for: the authoritative generation and whatever is newer. */
  ghost function Cleaned(dir: Directory): Directory
    requires dir.markers != map[]
  {
    var a := Authority(dir);
    dir.(markers := From(dir.markers, a), logs := From(dir.logs, a), staging := Above(dir.staging, a))
  }

  lemma VerifiedIsMarked(dir: Directory)
    requires Verified(dir)
    ensures dir.markers != map[] && Authority(dir) in dir.markers
    ensures forall id :: id in dir.markers ==> id <= Authority(dir)
  {
  }

  lemma {:induction false} CleanMarkers(s: State, p: nat) returns (steps: seq<Step>)
    requires Inv(s) && Working(s, p) && Verified(s.dir)
    ensures Possible(s, steps)
    ensures var t := After(s, steps);
            && t == s.(dir := s.dir.(markers := From(s.dir.markers, Authority(s.dir))))
            && Inv(t) && Working(t, p) && Verified(t.dir) && Authority(t.dir) == Authority(s.dir)
    decreases |s.dir.markers|
  {
    VerifiedIsMarked(s.dir);
    hide Inv, Enabled, Do, Verified, Authority;
    if id :| id in s.dir.markers && id < Authority(s.dir) {
      MarkerGone(s, p, id);
      var t := Do(s, RemoveMarker(p, id));
      FewerNames(s.dir.markers, id);
      var rest := CleanMarkers(t, p);
      steps := [RemoveMarker(p, id)] + rest;
      RunOne(s, RemoveMarker(p, id), rest, steps);
      assert From(t.dir.markers, Authority(s.dir)) == From(s.dir.markers, Authority(s.dir));
    } else {
      steps := [];
      NoMoreSteps(s);
      assert From(s.dir.markers, Authority(s.dir)) == s.dir.markers;
    }
  }

  lemma FewerNames<V>(names: map<nat, V>, id: nat)
    requires id in names
    ensures |names - {id}| < |names|
  {
    assert (names - {id}).Keys == names.Keys - {id};
  }

  lemma {:induction false} CleanLogs(s: State, p: nat) returns (steps: seq<Step>)
    requires Inv(s) && Working(s, p) && Verified(s.dir)
    requires forall marked :: marked in s.dir.markers ==> marked >= Authority(s.dir)
    ensures Possible(s, steps)
    ensures var t := After(s, steps);
            && t == s.(dir := s.dir.(logs := From(s.dir.logs, Authority(s.dir))))
            && Inv(t) && Working(t, p) && Verified(t.dir) && Authority(t.dir) == Authority(s.dir)
    decreases |s.dir.logs|
  {
    VerifiedIsMarked(s.dir);
    hide Inv, Enabled, Do, Verified, Authority;
    if id :| id in s.dir.logs && id < Authority(s.dir) {
      LogGone(s, p, id);
      var t := Do(s, RemoveLog(p, id));
      FewerNames(s.dir.logs, id);
      var rest := CleanLogs(t, p);
      steps := [RemoveLog(p, id)] + rest;
      RunOne(s, RemoveLog(p, id), rest, steps);
      assert From(t.dir.logs, Authority(s.dir)) == From(s.dir.logs, Authority(s.dir));
    } else {
      steps := [];
      NoMoreSteps(s);
      assert From(s.dir.logs, Authority(s.dir)) == s.dir.logs;
    }
  }

  lemma {:induction false} CleanStaging(s: State, p: nat) returns (steps: seq<Step>)
    requires Inv(s) && Working(s, p) && Verified(s.dir)
    ensures Possible(s, steps)
    ensures var t := After(s, steps);
            && t == s.(dir := s.dir.(staging := Above(s.dir.staging, Authority(s.dir))))
            && Inv(t) && Working(t, p) && Verified(t.dir) && Authority(t.dir) == Authority(s.dir)
    decreases |s.dir.staging|
  {
    VerifiedIsMarked(s.dir);
    hide Inv, Enabled, Do, Verified, Authority;
    if id :| id in s.dir.staging && id <= Authority(s.dir) {
      StagingGone(s, p, id);
      var t := Do(s, RemoveStaging(p, id));
      var rest := CleanStaging(t, p);
      steps := [RemoveStaging(p, id)] + rest;
      RunOne(s, RemoveStaging(p, id), rest, steps);
      assert Above(t.dir.staging, Authority(s.dir)) == Above(s.dir.staging, Authority(s.dir));
    } else {
      steps := [];
      NoMoreSteps(s);
      assert Above(s.dir.staging, Authority(s.dir)) == s.dir.staging;
    }
  }

  lemma {:induction false} RunBoth(s: State, first: seq<Step>, rest: seq<Step>)
    requires Possible(s, first) && Possible(After(s, first), rest)
    ensures Possible(s, first + rest) && After(s, first + rest) == After(After(s, first), rest)
    decreases |first|
  {
    hide Enabled, Do;
    if first == [] {
      assert first + rest == rest;
    } else {
      RunBoth(Do(s, first[0]), first[1..], rest);
      assert (first + rest)[1..] == first[1..] + rest;
    }
  }

  /** A process that holds the lease can clean up completely, and touches nothing else. */
  lemma CleanupCompletes(s: State, p: nat) returns (steps: seq<Step>)
    requires Inv(s) && Working(s, p) && Verified(s.dir)
    ensures s.dir.markers != map[] && Possible(s, steps) && After(s, steps) == s.(dir := Cleaned(s.dir))
    ensures Verified(After(s, steps).dir)
  {
    assert s.dir.markers != map[];
    hide Inv, Enabled, Do, Verified, Authority, Possible, After;
    var markers := CleanMarkers(s, p);
    var s1 := After(s, markers);
    var logs := CleanLogs(s1, p);
    var s2 := After(s1, logs);
    var staging := CleanStaging(s2, p);
    RunBoth(s1, logs, staging);
    RunBoth(s, markers, logs + staging);
    steps := markers + (logs + staging);
  }

  /** An orphan is retired completely: its staging marker and its log go, its reservation stays. */
  lemma RetirementCompletes(s: State, p: nat, id: nat) returns (steps: seq<Step>)
    requires Inv(s) && Working(s, p) && Verified(s.dir) && Orphan(s.dir, id)
    ensures Possible(s, steps)
    ensures After(s, steps)
         == s.(dir := s.dir.(logs := s.dir.logs - {id}, staging := s.dir.staging - {id}))
    ensures Verified(After(s, steps).dir)
  {
    if id in s.dir.staging {
      RetiredStaging(s, p, id);
      var t := Do(s, RetireStaging(p, id));
      RetiredLog(t, p, id);
      var u := Do(t, RetireLog(p, id));
      steps := [RetireStaging(p, id), RetireLog(p, id)];
      hide *;
      NoMoreSteps(u);
      RunOne(t, RetireLog(p, id), [], [RetireLog(p, id)]);
      RunOne(s, RetireStaging(p, id), [RetireLog(p, id)], steps);
    } else {
      RetiredLog(s, p, id);
      steps := [RetireLog(p, id)];
      assert s.dir.staging - {id} == s.dir.staging;
      hide *;
      NoMoreSteps(Do(s, RetireLog(p, id)));
      RunOne(s, RetireLog(p, id), [], steps);
    }
  }

  lemma RetiredStaging(s: State, p: nat, id: nat)
    requires Inv(s) && Working(s, p) && Verified(s.dir) && Orphan(s.dir, id) && id in s.dir.staging
    ensures Enabled(s, RetireStaging(p, id))
    ensures var t := Do(s, RetireStaging(p, id));
            && t == s.(dir := s.dir.(staging := s.dir.staging - {id}))
            && Inv(t) && Working(t, p) && Verified(t.dir) && Orphan(t.dir, id)
  {
    hide Inv, Verified, Authority, NameCount;
    RemoveStagingStep(s, RetireStaging(p, id));
    RemovalStaysVerified(s, RetireStaging(p, id));
  }

  lemma RetiredLog(s: State, p: nat, id: nat)
    requires Inv(s) && Working(s, p) && Verified(s.dir) && Orphan(s.dir, id) && id !in s.dir.staging
    ensures Enabled(s, RetireLog(p, id))
    ensures var t := Do(s, RetireLog(p, id)); t == s.(dir := s.dir.(logs := s.dir.logs - {id})) && Verified(t.dir)
  {
    hide Inv, Verified, Authority, NameCount;
    RetireLogStep(s, p, id);
    RemovalStaysVerified(s, RetireLog(p, id));
  }

  // ---------- a switch by itself ----------

  /** The directory while the switch to `id` proceeds: its reservation, its copy, its log, its markers. */
  function SwitchDir(dir: Directory, id: nat, copy: seq<Mutation>, copying: bool, linked: bool, staged: bool,
                     marked: bool): Directory {
    Directory(if linked then dir.logs[id := Log(copy, 0)] else dir.logs,
              if marked then dir.markers[id := copy] else dir.markers,
              if staged then dir.staging + {id} else dir.staging,
              dir.reservations + {id},
              if copying then dir.compacting + {id} else dir.compacting)
  }

  /** The state of the one process at work, everything else as in `s`. */
  function SwitchState(s: State, p: nat, dir: Directory, lock: Lock, build: Build, id: nat): State {
    State(dir, lock, s.processes[p := Process(Of(s, p).handle, build)], s.landed, s.issued + [id])
  }

  /** A directory at rest with room for three more names, and a lock nobody holds. */
  ghost predicate MaySwitch(s: State, p: nat) {
    && Inv(s) && s.lock.Free? && Of(s, p).build.NoBuild? && Verified(s.dir)
    && NameCount(s.dir) + 3 <= MAX_ENTRIES && Frontier(s.dir) + 1 < 0x1_0000_0000_0000_0000
    && s.dir.logs[Authority(s.dir)].torn == 0
  }

  lemma NextIdIsFresh(s: State, p: nat)
    requires MaySwitch(s, p)
    ensures Observed(s.dir) != {} && s.dir.markers != map[] && s.dir.compacting == {}
    ensures var id := Frontier(s.dir) + 1;
            && id !in s.dir.logs && id !in s.dir.markers && id !in s.dir.staging && id !in s.dir.reservations
            && Authority(s.dir) < id && forall marked :: marked in s.dir.markers ==> marked < id
  {
    hide Inv, NameCount;
    assert Authority(s.dir) in Observed(s.dir);
  }

  lemma OneMoreKey<V>(names: map<nat, V>, id: nat, value: V)
    requires id !in names
    ensures |names[id := value]| == |names| + 1
  {
    assert names[id := value].Keys == names.Keys + {id};
  }

  lemma CountOfSwitch(dir: Directory, id: nat, copy: seq<Mutation>)
    requires id !in dir.logs && id !in dir.markers && id !in dir.reservations
    ensures NameCount(SwitchDir(dir, id, copy, false, false, false, false)) == NameCount(dir) + 1
    ensures NameCount(SwitchDir(dir, id, copy, false, true, false, false)) == NameCount(dir) + 2
    ensures NameCount(SwitchDir(dir, id, copy, false, true, false, true)) == NameCount(dir) + 3
  {
    OneMoreKey(dir.logs, id, Log(copy, 0));
    OneMoreKey(dir.markers, id, copy);
  }

  /** Names of the new id that leave the markers alone leave the directory verified. */
  lemma StillVerified(dir: Directory, e: Directory)
    requires Verified(dir) && e.markers == dir.markers && e.compacting == {} && NameCount(e) <= MAX_ENTRIES
    requires forall other :: other in dir.logs ==> other in e.logs && e.logs[other] == dir.logs[other]
    ensures Verified(e) && Authority(e) == Authority(dir)
  {
    hide NameCount;
    SameAuthority(dir, e);
  }

  /** From the lock to the released reservation. */
  lemma SwitchReservesId(s: State, p: nat, copy: seq<Mutation>)
    requires MaySwitch(s, p)
    ensures Enabled(s, Acquire(p)) && Enabled(Do(s, Acquire(p)), Reserve(p))
    ensures var reserved := Do(Do(s, Acquire(p)), Reserve(p));
            var id := Frontier(s.dir) + 1;
            && reserved == SwitchState(s, p, SwitchDir(s.dir, id, copy, false, false, false, false), Held(p),
                                       Build.Reserved(id), id)
            && Enabled(reserved, Release(p, true))
            && Do(reserved, Release(p, true))
               == SwitchState(s, p, SwitchDir(s.dir, id, copy, false, false, false, false), Free,
                              Build.Reserved(id), id)
  {
    hide Inv, Verified, Frontier, Authority, NameCount;
  }

  // One step each, of process `p` in a directory `dir`.

  lemma ResolveAlone(s: State, p: nat, dir: Directory, id: nat)
    requires Verified(dir) && Authority(dir) < id
    ensures var t := SwitchState(s, p, dir, Free, Build.Reserved(id), id);
            && Enabled(t, Resolve(p))
            && Do(t, Resolve(p)) == SwitchState(s, p, dir, Free, Resolved(id, Authority(dir)), id)
  {
    hide Verified, Authority;
  }

  lemma InspectAlone(s: State, p: nat, dir: Directory, id: nat, base: nat)
    requires base in dir.logs
    ensures var t := SwitchState(s, p, dir, Free, Resolved(id, base), id);
            && Enabled(t, Inspect(p))
            && Do(t, Inspect(p)) == SwitchState(s, p, dir, Free, Inspecting(id, base, dir.logs[base]), id)
  {
    hide Verified, Authority;
  }

  lemma CopyAlone(s: State, p: nat, dir: Directory, id: nat, base: nat)
    requires base in dir.logs && dir.logs[base].torn == 0 && id !in dir.compacting && id !in dir.logs
    ensures var source := dir.logs[base];
            var copy := Compacted(source.records);
            var t := SwitchState(s, p, dir, Free, Inspecting(id, base, source), id);
            && Enabled(t, StartCopy(p))
            && Do(t, StartCopy(p)) == SwitchState(s, p, dir.(compacting := dir.compacting + {id}), Free,
                                                  Copying(id, base, source, copy), id)
  {
    hide Verified, Authority, Compacted;
  }

  lemma LinkAlone(s: State, p: nat, dir: Directory, id: nat, base: nat, source: Log, copy: seq<Mutation>)
    requires id !in dir.logs
    ensures var t := SwitchState(s, p, dir, Free, Copying(id, base, source, copy), id);
            && Enabled(t, LinkCopy(p))
            && Do(t, LinkCopy(p)) == SwitchState(s, p, dir.(logs := dir.logs[id := Log(copy, 0)]), Free,
                                                 Linked(id, base, source), id)
  {
    hide Verified, Authority, Compacted;
  }

  lemma DropAlone(s: State, p: nat, dir: Directory, id: nat, base: nat, source: Log)
    ensures var t := SwitchState(s, p, dir, Free, Linked(id, base, source), id);
            && Enabled(t, DropStagingCopy(p, true))
            && Do(t, DropStagingCopy(p, true)) == SwitchState(s, p, dir.(compacting := dir.compacting - {id}), Free,
                                                              Built(id, base, source), id)
  {
    hide Verified, Authority;
  }

  lemma AcquireAlone(s: State, p: nat, dir: Directory, id: nat, base: nat, source: Log)
    ensures var t := SwitchState(s, p, dir, Free, Built(id, base, source), id);
            && Enabled(t, Acquire(p))
            && Do(t, Acquire(p)) == SwitchState(s, p, dir, Held(p), Built(id, base, source), id)
  {
    hide Verified, Authority;
  }

  lemma RecheckAlone(s: State, p: nat, dir: Directory, id: nat, base: nat)
    requires Verified(dir) && Authority(dir) == base && id in dir.logs && CompactState(dir.logs[id], dir.logs[base])
    ensures var t := SwitchState(s, p, dir, Held(p), Built(id, base, dir.logs[base]), id);
            && Enabled(t, Recheck(p))
            && Do(t, Recheck(p)) == SwitchState(s, p, dir, Held(p), Checked(id), id)
  {
    hide Authority, CompactState, Generations.Inspection, Scannable;
  }

  lemma StageAlone(s: State, p: nat, dir: Directory, id: nat)
    requires Scannable(dir) && id in dir.logs && dir.logs[id].torn == 0
    requires forall marked :: marked in dir.markers ==> marked < id
    ensures var t := SwitchState(s, p, dir, Held(p), Checked(id), id);
            && Enabled(t, StageMarker(p))
            && Do(t, StageMarker(p)) == SwitchState(s, p, dir.(staging := dir.staging + {id}), Held(p), Staged(id), id)
  {
    hide Verified, Authority, Scannable;
  }

  lemma MarkAlone(s: State, p: nat, dir: Directory, id: nat)
    requires id in dir.staging && id in dir.logs && id !in dir.markers
    ensures var t := SwitchState(s, p, dir, Held(p), Staged(id), id);
            && Enabled(t, LinkMarker(p))
            && Do(t, LinkMarker(p)) == SwitchState(s, p, dir.(markers := dir.markers[id := dir.logs[id].records]),
                                                   Held(p), Published(id), id)
  {
    hide Verified, Authority;
  }

  lemma FinishAlone(s: State, p: nat, dir: Directory, id: nat)
    ensures var t := SwitchState(s, p, dir, Held(p), Published(id), id);
            var u := SwitchState(s, p, dir.(staging := dir.staging - {id}), Held(p), NoBuild, id);
            && Enabled(t, DropStagingMarker(p, true)) && Do(t, DropStagingMarker(p, true)) == u
            && Enabled(u, Release(p, true))
            && Do(u, Release(p, true)) == SwitchState(s, p, dir.(staging := dir.staging - {id}), Free, NoBuild, id)
  {
    hide Verified, Authority;
  }

  lemma CopyIsCompact(source: Log)
    ensures CompactState(Log(Compacted(source.records), 0), source)
  {
    hide Replay;
    CompactLogReplaysToSameMap(Replay(source.records));
  }

  /** The switch of one process, start to end. */
  function SwitchSteps(p: nat): seq<Step> {
    [Acquire(p), Reserve(p), Release(p, true)]
    + [Resolve(p), Inspect(p), StartCopy(p), LinkCopy(p), DropStagingCopy(p, true)]
    + [Acquire(p), Recheck(p), StageMarker(p), LinkMarker(p), DropStagingMarker(p, true), Release(p, true)]
  }

  /** What a switch has done: a new authoritative generation beside the old one, and its reservation. */
  ghost function Switched(s: State, p: nat): State
    requires MaySwitch(s, p)
  {
    var id, copy := Frontier(s.dir) + 1, Compacted(s.dir.logs[Authority(s.dir)].records);
    SwitchState(s, p, SwitchDir(s.dir, id, copy, false, true, false, true), Free, NoBuild, id)
  }

  lemma Three(s0: State, s1: State, s2: State, s3: State, a: Step, b: Step, c: Step)
    requires Enabled(s0, a) && Do(s0, a) == s1 && Enabled(s1, b) && Do(s1, b) == s2
    requires Enabled(s2, c) && Do(s2, c) == s3
    ensures Possible(s0, [a, b, c]) && After(s0, [a, b, c]) == s3
  {
    hide *;
    NoMoreSteps(s3);
    RunOne(s2, c, [], [c]);
    RunOne(s1, b, [c], [b, c]);
    RunOne(s0, a, [b, c], [a, b, c]);
  }

  lemma Five(s0: State, s1: State, s2: State, s3: State, s4: State, s5: State, a: Step, b: Step, c: Step, d: Step,
             e: Step)
    requires Enabled(s0, a) && Do(s0, a) == s1 && Enabled(s1, b) && Do(s1, b) == s2
    requires Enabled(s2, c) && Do(s2, c) == s3 && Enabled(s3, d) && Do(s3, d) == s4
    requires Enabled(s4, e) && Do(s4, e) == s5
    ensures Possible(s0, [a, b, c, d, e]) && After(s0, [a, b, c, d, e]) == s5
  {
    hide *;
    Three(s2, s3, s4, s5, c, d, e);
    RunOne(s1, b, [c, d, e], [b, c, d, e]);
    RunOne(s0, a, [b, c, d, e], [a, b, c, d, e]);
  }

  lemma FirstPart(s: State, p: nat, copy: seq<Mutation>)
    requires MaySwitch(s, p)
    ensures var id, steps := Frontier(s.dir) + 1, [Acquire(p), Reserve(p), Release(p, true)];
            && Possible(s, steps)
            && After(s, steps) == SwitchState(s, p, SwitchDir(s.dir, id, copy, false, false, false, false), Free,
                                              Build.Reserved(id), id)
  {
    SwitchReservesId(s, p, copy);
    hide *;
    var s1 := Do(s, Acquire(p));
    var s2 := Do(s1, Reserve(p));
    Three(s, s1, s2, Do(s2, Release(p, true)), Acquire(p), Reserve(p), Release(p, true));
  }

  /** The copy, in a directory where the id is reserved and nothing else happens. */
  lemma SecondPart(s: State, p: nat, dir: Directory, id: nat)
    requires Verified(dir) && Authority(dir) < id && dir.logs[Authority(dir)].torn == 0
    requires id !in dir.compacting && id !in dir.logs
    ensures var base := Authority(dir);
            var source := dir.logs[base];
            var steps := [Resolve(p), Inspect(p), StartCopy(p), LinkCopy(p), DropStagingCopy(p, true)];
            var t := SwitchState(s, p, dir, Free, Build.Reserved(id), id);
            && Possible(t, steps)
            && After(t, steps) == SwitchState(s, p, dir.(logs := dir.logs[id := Log(Compacted(source.records), 0)]),
                                              Free, Built(id, base, source), id)
  {
    var base := Authority(dir);
    var source := dir.logs[base];
    var copy := Compacted(source.records);
    var copying := dir.(compacting := dir.compacting + {id});
    var linked := copying.(logs := dir.logs[id := Log(copy, 0)]);
    hide Enabled, Do, Possible, After, Verified, Compacted, Authority, SwitchState;
    ResolveAlone(s, p, dir, id);
    InspectAlone(s, p, dir, id, base);
    CopyAlone(s, p, dir, id, base);
    LinkAlone(s, p, copying, id, base, source, copy);
    DropAlone(s, p, linked, id, base, source);
    assert dir.compacting + {id} - {id} == dir.compacting;
    var s3 := SwitchState(s, p, dir, Free, Build.Reserved(id), id);
    var s4 := SwitchState(s, p, dir, Free, Resolved(id, base), id);
    var s5 := SwitchState(s, p, dir, Free, Inspecting(id, base, source), id);
    var s6 := SwitchState(s, p, copying, Free, Copying(id, base, source, copy), id);
    var s7 := SwitchState(s, p, linked, Free, Linked(id, base, source), id);
    var s8 := SwitchState(s, p, dir.(logs := dir.logs[id := Log(copy, 0)]), Free, Built(id, base, source), id);
    Five(s3, s4, s5, s6, s7, s8, Resolve(p), Inspect(p), StartCopy(p), LinkCopy(p), DropStagingCopy(p, true));
  }

  /** The critical section, over an undisturbed source. */
  lemma ThirdPart(s: State, p: nat, dir: Directory, id: nat)
    requires Verified(dir) && id in dir.logs && id !in dir.staging && dir.logs[id].torn == 0
    requires CompactState(dir.logs[id], dir.logs[Authority(dir)])
    requires forall marked :: marked in dir.markers ==> marked < id
    ensures var base := Authority(dir);
            var steps := [Acquire(p), Recheck(p), StageMarker(p), LinkMarker(p), DropStagingMarker(p, true),
                          Release(p, true)];
            var t := SwitchState(s, p, dir, Free, Built(id, base, dir.logs[base]), id);
            && Possible(t, steps)
            && After(t, steps) == SwitchState(s, p, dir.(markers := dir.markers[id := dir.logs[id].records]), Free,
                                              NoBuild, id)
  {
    var base := Authority(dir);
    var staged := dir.(staging := dir.staging + {id});
    var marked := staged.(markers := dir.markers[id := dir.logs[id].records]);
    assert id !in dir.markers;
    hide Enabled, Do, Possible, After, CompactState, Authority, SwitchState;
    AcquireAlone(s, p, dir, id, base, dir.logs[base]);
    RecheckAlone(s, p, dir, id, base);
    StageAlone(s, p, dir, id);
    MarkAlone(s, p, staged, id);
    FinishAlone(s, p, marked, id);
    assert dir.staging + {id} - {id} == dir.staging;
    var s8 := SwitchState(s, p, dir, Free, Built(id, base, dir.logs[base]), id);
    var s9 := SwitchState(s, p, dir, Held(p), Built(id, base, dir.logs[base]), id);
    var s10 := SwitchState(s, p, dir, Held(p), Checked(id), id);
    var s11 := SwitchState(s, p, staged, Held(p), Staged(id), id);
    var s12 := SwitchState(s, p, marked, Held(p), Published(id), id);
    var finished := dir.(markers := dir.markers[id := dir.logs[id].records]);
    var s13, s14 := SwitchState(s, p, finished, Held(p), NoBuild, id), SwitchState(s, p, finished, Free, NoBuild, id);
    Five(s8, s9, s10, s11, s12, s13, Acquire(p), Recheck(p), StageMarker(p), LinkMarker(p), DropStagingMarker(p, true));
    var five := [Acquire(p), Recheck(p), StageMarker(p), LinkMarker(p), DropStagingMarker(p, true)];
    LastOne(s8, s13, s14, five, Release(p, true));
    assert five + [Release(p, true)] == [Acquire(p), Recheck(p), StageMarker(p), LinkMarker(p),
                                         DropStagingMarker(p, true), Release(p, true)];
  }

  lemma LastOne(s0: State, s1: State, s2: State, steps: seq<Step>, last: Step)
    requires Possible(s0, steps) && After(s0, steps) == s1 && Enabled(s1, last) && Do(s1, last) == s2
    ensures Possible(s0, steps + [last]) && After(s0, steps + [last]) == s2
  {
    hide *;
    NoMoreSteps(s2);
    RunOne(s1, last, [], [last]);
    RunBoth(s0, steps, [last]);
  }

  /**
   * A process alone completes its switch: the new generation is authoritative, holds the same map in one record per
   * live key, every older name is still there, and the lock is free again.
   */
  lemma SwitchCompletes(s: State, p: nat)
    requires MaySwitch(s, p)
    ensures Possible(s, SwitchSteps(p)) && After(s, SwitchSteps(p)) == Switched(s, p)
    ensures var dir, id := Switched(s, p).dir, Frontier(s.dir) + 1;
            && Verified(dir) && Authority(dir) == id
            && Replay(dir.logs[id].records) == Replay(s.dir.logs[Authority(s.dir)].records)
            && |dir.logs[id].records| == |Replay(dir.logs[id].records)|
  {
    NextIdIsFresh(s, p);
    var id, base := Frontier(s.dir) + 1, Authority(s.dir);
    assert base in s.dir.logs && s.dir.logs[base].torn == 0;
    hide Possible, After, Enabled, Do, Compacted, Replay, CompactState, SwitchDir, SwitchState, Switched, NameCount,
      Inv, Verified, Frontier, Authority;
    var copy := Compacted(s.dir.logs[base].records);
    var d1 := SwitchDir(s.dir, id, copy, false, false, false, false);
    var d4 := SwitchDir(s.dir, id, copy, false, true, false, false);
    SwitchDirs(s, p, id, copy);
    SameSwitch(s, p);
    CopyIsCompact(s.dir.logs[base]);
    FirstPart(s, p, copy);
    SecondPart(s, p, d1, id);
    ThirdPart(s, p, d4, id);
    SwitchedVerifies(s, p);
    CompactedMeansTheSame(s.dir.logs[base].records);
    CompactSize(s.dir.logs[base]);
    hide *;
    var afterFirst := SwitchState(s, p, d1, Free, Build.Reserved(id), id);
    var afterSecond := SwitchState(s, p, d4, Free, Built(id, base, s.dir.logs[base]), id);
    var first := [Acquire(p), Reserve(p), Release(p, true)];
    var second := [Resolve(p), Inspect(p), StartCopy(p), LinkCopy(p), DropStagingCopy(p, true)];
    var third := [Acquire(p), Recheck(p), StageMarker(p), LinkMarker(p), DropStagingMarker(p, true), Release(p, true)];
    AllParts(s, afterFirst, afterSecond, Switched(s, p), first, second, third);
    StepsOf(p);
  }

  lemma CompactSize(source: Log)
    ensures |Compacted(source.records)| == |Replay(Compacted(source.records))|
  {
    CopyIsCompact(source);
  }

  lemma StepsOf(p: nat)
    ensures SwitchSteps(p)
         == [Acquire(p), Reserve(p), Release(p, true)]
            + [Resolve(p), Inspect(p), StartCopy(p), LinkCopy(p), DropStagingCopy(p, true)]
            + [Acquire(p), Recheck(p), StageMarker(p), LinkMarker(p), DropStagingMarker(p, true), Release(p, true)]
  {
  }

  lemma AllParts(s0: State, s1: State, s2: State, s3: State, a: seq<Step>, b: seq<Step>, c: seq<Step>)
    requires Possible(s0, a) && After(s0, a) == s1 && Possible(s1, b) && After(s1, b) == s2
    requires Possible(s2, c) && After(s2, c) == s3
    ensures Possible(s0, a + b + c) && After(s0, a + b + c) == s3
  {
    hide *;
    RunBoth(s0, a, b);
    RunBoth(s0, a + b, c);
  }

  /** The directories of the parts fit together. */
  lemma SameSwitch(s: State, p: nat)
    requires MaySwitch(s, p)
    ensures var id, base := Frontier(s.dir) + 1, Authority(s.dir);
            var copy := Compacted(s.dir.logs[base].records);
            var d1 := SwitchDir(s.dir, id, copy, false, false, false, false);
            var d4 := SwitchDir(s.dir, id, copy, false, true, false, false);
            && base in d1.logs && base in d4.logs && d1.logs[base] == s.dir.logs[base] == d4.logs[base]
            && d4 == d1.(logs := d1.logs[id := Log(copy, 0)]) && d4.logs[id] == Log(copy, 0)
            && Switched(s, p) == SwitchState(s, p, d4.(markers := d4.markers[id := copy]), Free, NoBuild, id)
            && id in Switched(s, p).dir.logs && Switched(s, p).dir.logs[id] == Log(copy, 0)
            && id in d4.logs && d4.staging == s.dir.staging && d4.markers == s.dir.markers
  {
    hide Inv, NameCount, Compacted;
    NextIdIsFresh(s, p);
  }

  lemma SwitchDirs(s: State, p: nat, id: nat, copy: seq<Mutation>)
    requires MaySwitch(s, p) && id == Frontier(s.dir) + 1
    ensures var d1 := SwitchDir(s.dir, id, copy, false, false, false, false);
            && Verified(d1) && Authority(d1) == Authority(s.dir) && id !in d1.logs && id !in d1.compacting
    ensures var d4 := SwitchDir(s.dir, id, copy, false, true, false, false);
            Verified(d4) && Authority(d4) == Authority(s.dir)
  {
    hide Inv;
    NextIdIsFresh(s, p);
    CountOfSwitch(s.dir, id, copy);
    hide Frontier, NameCount;
    StillVerified(s.dir, SwitchDir(s.dir, id, copy, false, false, false, false));
    StillVerified(s.dir, SwitchDir(s.dir, id, copy, false, true, false, false));
  }

  lemma SwitchedVerifies(s: State, p: nat)
    requires MaySwitch(s, p)
    ensures var dir, id := Switched(s, p).dir, Frontier(s.dir) + 1; Verified(dir) && Authority(dir) == id
  {
    hide Inv, Compacted;
    var id := Frontier(s.dir) + 1;
    NextIdIsFresh(s, p);
    CountOfSwitch(s.dir, id, Compacted(s.dir.logs[Authority(s.dir)].records));
    hide NameCount;
    HighestIs(Switched(s, p).dir.markers.Keys, id);
  }
}
