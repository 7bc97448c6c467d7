/**
 * When a generation directory that does not verify can verify again: what its live processes can still remove,
 * what nobody ever removes, and a run of ordinary steps that fills the directory for good.
 */
module GenerationRecovery {
  import opened LogFormat
  import opened LogScan
  import opened LogCompaction
  import opened Generations

  // ---------- what live processes can still remove ----------

  /** The compaction staging files, candidate logs and staging markers whose processes are still at work on them. */
  function OwnCopies(s: State): set<nat> {
    set p | p in s.processes && CopyUnderway(s, p) :: s.processes[p].build.id
  }

  function OwnLogs(s: State): set<nat> {
    set p | p in s.processes && s.processes[p].build.Linked? :: s.processes[p].build.id
  }

  function OwnStaging(s: State): set<nat> {
    set p | p in s.processes && s.processes[p].build.Published? :: s.processes[p].build.id
  }

  /** What is left when every process has removed what it may remove without verifying the directory first. */
  function Rest(s: State): Directory {
    s.dir.(logs := s.dir.logs - OwnLogs(s), staging := s.dir.staging - OwnStaging(s),
           compacting := s.dir.compacting - OwnCopies(s))
  }

  predicate Contained(a: Directory, b: Directory) {
    && a.logs.Keys <= b.logs.Keys && a.markers.Keys <= b.markers.Keys && a.staging <= b.staging
    && a.reservations <= b.reservations && a.compacting <= b.compacting
  }

  lemma SubsetCount<T>(a: set<T>, b: set<T>)
    requires a <= b
    ensures |a| <= |b|
  {
    assert b == a + (b - a);
  }

  lemma MoreNamesBlock(a: Directory, b: Directory)
    requires Contained(a, b)
    ensures NameCount(a) <= NameCount(b) && (Scannable(b) ==> Scannable(a))
  {
    SubsetCount(a.logs.Keys, b.logs.Keys);
    SubsetCount(a.markers.Keys, b.markers.Keys);
    SubsetCount(a.staging, b.staging);
    SubsetCount(a.reservations, b.reservations);
    SubsetCount(a.compacting, b.compacting);
  }

  lemma RestIsContained(s: State)
    ensures Contained(Rest(s), s.dir)
  {
  }

  // ---------- no step makes an overfull rest smaller ----------

  lemma OwnedBy(s: State, p: nat, id: nat)
    ensures CopyUnderway(s, p) && Of(s, p).build.id == id ==> id in OwnCopies(s)
    ensures Of(s, p).build.Linked? && Of(s, p).build.id == id ==> id in OwnLogs(s)
    ensures Of(s, p).build.Published? && Of(s, p).build.id == id ==> id in OwnStaging(s)
  {
  }

  lemma OwnerOf(s: State, id: nat)
    ensures id in OwnCopies(s) ==> exists p :: CopyUnderway(s, p) && Of(s, p).build.id == id
    ensures id in OwnLogs(s) ==> exists p :: Of(s, p).build.Linked? && Of(s, p).build.id == id
    ensures id in OwnStaging(s) ==> exists p :: Of(s, p).build.Published? && Of(s, p).build.id == id
  {
    if id in OwnCopies(s) {
      var p :| p in s.processes && CopyUnderway(s, p) && s.processes[p].build.id == id;
      assert Of(s, p) == s.processes[p];
    }
    if id in OwnLogs(s) {
      var p :| p in s.processes && s.processes[p].build.Linked? && s.processes[p].build.id == id;
      assert Of(s, p) == s.processes[p];
    }
    if id in OwnStaging(s) {
      var p :| p in s.processes && s.processes[p].build.Published? && s.processes[p].build.id == id;
      assert Of(s, p) == s.processes[p];
    }
  }

  /** What one step of process `p` can change of who owns what. */
  lemma OwnersElsewhere(s: State, t: State, p: nat, id: nat)
    requires forall q :: q != p ==> Of(t, q) == Of(s, q)
    ensures id in OwnCopies(s) ==> id in OwnCopies(t) || (CopyUnderway(s, p) && Of(s, p).build.id == id)
    ensures id in OwnLogs(s) ==> id in OwnLogs(t) || (Of(s, p).build.Linked? && Of(s, p).build.id == id)
    ensures id in OwnStaging(s) ==> id in OwnStaging(t) || (Of(s, p).build.Published? && Of(s, p).build.id == id)
  {
    hide OwnCopies, OwnLogs, OwnStaging;
    OwnerOf(s, id);
    forall q
      ensures CopyUnderway(s, q) && q != p && Of(s, q).build.id == id ==> id in OwnCopies(t)
      ensures Of(s, q).build.Linked? && q != p && Of(s, q).build.id == id ==> id in OwnLogs(t)
      ensures Of(s, q).build.Published? && q != p && Of(s, q).build.id == id ==> id in OwnStaging(t)
    {
      OwnedBy(t, q, id);
    }
  }

  lemma RestGrows(s: State, step: Step)
    requires Enabled(s, step) && !Scannable(s.dir) && !step.LinkMarker?
    ensures Contained(Rest(s), Rest(Do(s, step)))
  {
    hide Frontier, Authority, Replay, TotalLength, NameCount, Compacted, CompactState, OwnCopies, OwnLogs, OwnStaging;
    OthersUnchanged(s, step);
    var t := Do(s, step);
    forall id
      ensures id in Rest(s).logs.Keys ==> id in Rest(t).logs.Keys
      ensures id in Rest(s).compacting ==> id in Rest(t).compacting
      ensures id in Rest(s).staging ==> id in Rest(t).staging
    {
      OwnersElsewhere(t, s, Actor(step), id);
      OwnedBy(s, Actor(step), id);
    }
  }

  /** Linking a marker only trades its staging marker, which the process may now remove, for the marker. */
  lemma LinkingTrades(s: State, p: nat)
    requires Inv(s) && Enabled(s, LinkMarker(p))
    ensures var t := Do(s, LinkMarker(p));
            NameCount(Rest(t)) >= NameCount(Rest(s)) && Rest(t).compacting == Rest(s).compacting
  {
    hide Frontier, Authority, Replay, Mutations, TotalLength, Verified, AuthorityHolds, SourcesHold, CandidateHolds,
      HandlesHold, IssuesHold;
    var t, id := Do(s, LinkMarker(p)), Of(s, p).build.id;
    OthersUnchanged(s, LinkMarker(p));
    OwnedElsewhere(s, t, p);
    assert OwnStaging(t) == OwnStaging(s) + {id};
    assert Rest(t).staging == Rest(s).staging - {id};
    assert Rest(t).markers.Keys == Rest(s).markers.Keys + {id};
    SubsetCount(Rest(s).staging - {id}, Rest(s).staging);
    assert |Rest(s).staging| <= |Rest(s).staging - {id}| + 1 by {
      SubsetCount(Rest(s).staging, (Rest(s).staging - {id}) + {id});
    }
  }

  /** A process that turns from staging to published owns no copy and no log before or after. */
  lemma OwnedElsewhere(s: State, t: State, p: nat)
    requires Of(s, p).build.Staged? && Of(t, p).build == Published(Of(s, p).build.id)
    requires forall q :: q != p ==> Of(t, q) == Of(s, q)
    ensures OwnCopies(t) == OwnCopies(s) && OwnLogs(t) == OwnLogs(s)
    ensures OwnStaging(t) == OwnStaging(s) + {Of(s, p).build.id}
  {
    hide OwnCopies, OwnLogs, OwnStaging;
    forall id
      ensures id in OwnCopies(s) <==> id in OwnCopies(t)
      ensures id in OwnLogs(s) <==> id in OwnLogs(t)
      ensures id in OwnStaging(t) <==> id in OwnStaging(s) || id == Of(s, p).build.id
    {
      OwnersElsewhere(s, t, p, id);
      OwnersElsewhere(t, s, p, id);
      OwnedBy(t, p, id);
    }
  }

  lemma StepKeepsBlocked(s: State, step: Step)
    requires Inv(s) && Enabled(s, step) && !Scannable(Rest(s))
    ensures !Scannable(Rest(Do(s, step)))
  {
    hide Inv, Enabled, Do, Rest, NameCount;
    RestIsContained(s);
    MoreNamesBlock(Rest(s), s.dir);
    match step {
      case LinkMarker(p) => LinkingTrades(s, p);
      case _ =>
        RestGrows(s, step);
        MoreNamesBlock(Rest(s), Rest(Do(s, step)));
    }
  }

  lemma {:induction false} BlockedForever(s: State, steps: seq<Step>)
    requires Inv(s) && !Scannable(Rest(s)) && Possible(s, steps)
    ensures !Verified(After(s, steps).dir)
    decreases |steps|
  {
    hide Inv, Enabled, Do, Rest, NameCount;
    if steps == [] {
      RestIsContained(s);
      MoreNamesBlock(Rest(s), s.dir);
    } else {
      StepKeepsInv(s, steps[0]);
      StepKeepsBlocked(s, steps[0]);
      BlockedForever(Do(s, steps[0]), steps[1..]);
    }
  }

  // ---------- and the live processes can clean up the rest ----------

  /** The processes that may still remove something of their own. */
  function AtWork(s: State): set<nat> {
    set p | p in s.processes && (CopyUnderway(s, p) || s.processes[p].build.Published?)
  }

  lemma NobodyAtWork(s: State)
    requires AtWork(s) == {}
    ensures Rest(s) == s.dir
  {
    assert forall p :: p in s.processes ==> p !in AtWork(s);
  }

  /** One process removes what is its own. */
  function CleaningStep(s: State, p: nat): Step {
    if CopyUnderway(s, p) then Abandon(p, true, true) else DropStagingMarker(p, true)
  }

  lemma CleaningIsEnabled(s: State, p: nat)
    requires Inv(s) && p in AtWork(s)
    ensures Enabled(s, CleaningStep(s, p))
  {
    hide AuthorityHolds, IdsHold, IssuesHold, SourcesHold, HandlesHold;
  }

  lemma CleaningKeepsRest(s: State, p: nat)
    requires p in AtWork(s) && Enabled(s, CleaningStep(s, p))
    ensures var t := Do(s, CleaningStep(s, p)); Rest(t) == Rest(s) && AtWork(t) == AtWork(s) - {p}
  {
    hide NameCount, Frontier, Authority, Verified, OwnCopies, OwnLogs, OwnStaging;
    var t := Do(s, CleaningStep(s, p));
    OthersUnchanged(s, CleaningStep(s, p));
    assert Of(t, p).build.NoBuild?;
    forall id
      ensures id in Rest(t).logs.Keys <==> id in Rest(s).logs.Keys
      ensures id in Rest(t).compacting <==> id in Rest(s).compacting
      ensures id in Rest(t).staging <==> id in Rest(s).staging
    {
      OwnersElsewhere(s, t, p, id);
      OwnersElsewhere(t, s, p, id);
      OwnedBy(s, p, id);
    }
    assert Rest(t).logs == Rest(s).logs;
  }

  lemma {:induction false} CleanUp(s: State) returns (steps: seq<Step>)
    requires Inv(s) && Scannable(Rest(s))
    ensures Possible(s, steps) && Verified(After(s, steps).dir)
    decreases |AtWork(s)|
  {
    hide Inv, Enabled, Do, Rest, NameCount, AtWork;
    if AtWork(s) == {} {
      NobodyAtWork(s);
      VerifiesExactly(s);
      NoMoreSteps(s);
      return [];
    }
    var p :| p in AtWork(s);
    CleaningIsEnabled(s, p);
    CleaningKeepsRest(s, p);
    var step := CleaningStep(s, p);
    StepKeepsInv(s, step);
    var rest := CleanUp(Do(s, step));
    steps := [step] + rest;
    RunOne(s, step, rest, steps);
  }

  /**
   * From a reachable state the directory can be made to verify again, by whatever steps, exactly when what the live
   * processes cannot remove by themselves has no compaction staging file and not too many entries.
   */
  lemma VerifiesAgainExactly(s: State)
    requires Inv(s)
    ensures (exists steps :: Possible(s, steps) && Verified(After(s, steps).dir)) <==> Scannable(Rest(s))
  {
    hide Inv, Possible, After, Rest, Verified, Scannable;
    if steps :| Possible(s, steps) && Verified(After(s, steps).dir) {
      if !Scannable(Rest(s)) { BlockedForever(s, steps); }
    }
    if Scannable(Rest(s)) {
      var steps := CleanUp(s);
    }
  }

  lemma {:induction false} RunKeepsReservations(s: State, steps: seq<Step>)
    requires Possible(s, steps)
    ensures s.dir.reservations <= After(s, steps).dir.reservations
    decreases |steps|
  {
    hide Enabled, Do;
    if steps != [] {
      ReservationsStay(s, steps[0]);
      RunKeepsReservations(Do(s, steps[0]), steps[1..]);
    }
  }

  /** Once the reservations alone are too many, no run makes the directory verify again. */
  lemma TooManyReservations(s: State, steps: seq<Step>)
    requires |s.dir.reservations| > MAX_ENTRIES && Possible(s, steps)
    ensures !Verified(After(s, steps).dir)
  {
    hide Possible, After;
    RunKeepsReservations(s, steps);
    SubsetCount(s.dir.reservations, After(s, steps).dir.reservations);
  }

  // ---------- a run that fills the directory ----------

  /** Ids 2, 3, ... of the first `count` reservations. */
  function Ids(count: nat): (ids: set<nat>)
    ensures |ids| == count
    ensures forall id :: id in ids <==> 2 <= id <= count + 1
  {
    if count == 0 then {} else Ids(count - 1) + {count + 1}
  }

  /** An empty generation 1 and `count` reservations, with process 0 holding the lease and nothing in progress. */
  ghost predicate Filled(s: State, count: nat) {
    && s.dir == Directory(map[1 := Log([], 0)], map[1 := []], {}, Ids(count), {})
    && s.lock == Held(0)
    && forall p :: Of(s, p).build.NoBuild?
  }

  lemma FilledCounts(s: State, count: nat)
    requires Filled(s, count)
    ensures NameCount(s.dir) == count + 2 && s.dir.markers != map[] && Observed(s.dir) != {}
    ensures Authority(s.dir) == 1 && Frontier(s.dir) == count + 1
    ensures Verified(s.dir) <==> count + 2 <= MAX_ENTRIES
  {
    assert s.dir.markers.Keys == {1} && s.dir.logs.Keys == {1};
    HighestIs({1}, 1);
    HighestIs(Observed(s.dir), count + 1);
  }

  /** Reserving an id and giving up the switch, so many times over. */
  function ReserveTimes(times: nat): seq<Step> {
    if times == 0 then [] else [Reserve(0), Abandon(0, false, false)] + ReserveTimes(times - 1)
  }

  /** What a reservation changes: the new id is reserved and held by the process. */
  lemma ReserveEffect(s: State, p: nat)
    requires Enabled(s, Reserve(p))
    ensures var t, id := Do(s, Reserve(p)), Frontier(s.dir) + 1;
            && t.dir == s.dir.(reservations := s.dir.reservations + {id}) && t.lock == s.lock
            && Of(t, p).build == Build.Reserved(id) && forall q :: q != p ==> Of(t, q) == Of(s, q)
  {
    hide Frontier, Authority;
    OthersUnchanged(s, Reserve(p));
  }

  lemma ReserveAllowed(s: State, count: nat)
    requires Filled(s, count) && count + 2 <= MAX_ENTRIES
    ensures Enabled(s, Reserve(0))
  {
    hide Verified, NameCount, Frontier, Authority;
    FilledCounts(s, count);
  }

  lemma ReservedNext(s: State, count: nat)
    requires Filled(s, count) && count + 2 <= MAX_ENTRIES
    ensures Enabled(s, Reserve(0))
    ensures var t := Do(s, Reserve(0));
            && t.dir == s.dir.(reservations := Ids(count + 1)) && t.lock == Held(0)
            && Of(t, 0).build == Build.Reserved(count + 2) && forall p :: p != 0 ==> Of(t, p).build.NoBuild?
  {
    hide Verified, NameCount, Frontier, Authority, Do, Enabled;
    FilledCounts(s, count);
    ReserveAllowed(s, count);
    ReserveEffect(s, 0);
    assert Ids(count + 1) == Ids(count) + {count + 2};
  }

  lemma GivenUp(t: State, count: nat)
    requires t.dir == Directory(map[1 := Log([], 0)], map[1 := []], {}, Ids(count), {}) && t.lock == Held(0)
    requires Of(t, 0).build == Build.Reserved(count + 1) && forall p :: p != 0 ==> Of(t, p).build.NoBuild?
    ensures Enabled(t, Abandon(0, false, false)) && Filled(Do(t, Abandon(0, false, false)), count)
  {
    hide Verified, NameCount, Frontier, Authority, Ids;
    OthersUnchanged(t, Abandon(0, false, false));
  }

  lemma ReserveOnce(s: State, count: nat)
    requires Filled(s, count) && count + 2 <= MAX_ENTRIES
    ensures Enabled(s, Reserve(0)) && Enabled(Do(s, Reserve(0)), Abandon(0, false, false))
    ensures Filled(Do(Do(s, Reserve(0)), Abandon(0, false, false)), count + 1)
  {
    hide Enabled, Do, Ids;
    ReservedNext(s, count);
    GivenUp(Do(s, Reserve(0)), count + 1);
  }

  lemma {:induction false} ReserveManyTimes(s: State, count: nat, times: nat)
    requires Filled(s, count) && count + times + 1 <= MAX_ENTRIES
    ensures Possible(s, ReserveTimes(times)) && Filled(After(s, ReserveTimes(times)), count + times)
    decreases times
  {
    hide Enabled, Do, Filled;
    if times == 0 {
      NoMoreSteps(s);
    } else {
      ReserveOnce(s, count);
      var first := Do(s, Reserve(0));
      var second := Do(first, Abandon(0, false, false));
      ReserveManyTimes(second, count + 1, times - 1);
      var rest := ReserveTimes(times - 1);
      RunOne(first, Abandon(0, false, false), rest, [Abandon(0, false, false)] + rest);
      RunOne(s, Reserve(0), [Abandon(0, false, false)] + rest, ReserveTimes(times));
    }
  }

  lemma FilledForever(s: State, count: nat)
    requires Inv(s) && Filled(s, count) && count + 2 > MAX_ENTRIES
    ensures forall more :: Possible(s, more) ==> !Verified(After(s, more).dir)
  {
    hide Inv, Filled, Possible, After, NameCount, Verified, Rest;
    FilledCounts(s, count);
    FilledIsAtRest(s, count);
    forall more | Possible(s, more) ensures !Verified(After(s, more).dir) {
      BlockedForever(s, more);
    }
  }

  lemma StartIsFilled()
    ensures var start := Start(1, [], []); Enabled(start, Acquire(0)) && Filled(Do(start, Acquire(0)), 0) && Inv(start)
  {
    StartHolds(1, [], []);
  }

  /**
   * A reachable directory that verifies no more and never will: 8191 reservations, each of which verified the
   * directory first, and no staging file in sight.
   */
  lemma ReservationsFillTheDirectory()
    ensures var steps := [Acquire(0)] + ReserveTimes(8191);
            && Possible(Start(1, [], []), steps)
            && var end := After(Start(1, [], []), steps);
               && NameCount(end.dir) == 8193 && end.dir.compacting == {}
               && forall more :: Possible(end, more) ==> !Verified(After(end, more).dir)
  {
    hide Inv, Possible, After, NameCount, Verified, ReserveTimes, Enabled, Do;
    var start := Start(1, [], []);
    var steps := [Acquire(0)] + ReserveTimes(8191);
    StartIsFilled();
    ReserveManyTimes(Do(start, Acquire(0)), 0, 8191);
    RunOne(start, Acquire(0), ReserveTimes(8191), steps);
    RunKeepsInv(start, steps);
    FilledCounts(After(start, steps), 8191);
    FilledForever(After(start, steps), 8191);
  }

  lemma FilledIsAtRest(s: State, count: nat)
    requires Filled(s, count)
    ensures Rest(s) == s.dir
  {
    assert forall p :: p in s.processes ==> Of(s, p) == s.processes[p];
    assert AtWork(s) == {};
    NobodyAtWork(s);
  }
}
