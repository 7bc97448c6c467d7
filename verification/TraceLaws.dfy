/** What a generated trace contains: which steps at which positions, over which keys. */
module TraceLaws {
  import opened Options
  import opened Bytes
  import opened ExperimentTrace

  /** A put of some key id with a value of the configured size. */
  predicate PutsId(c: Config, step: Step, id: nat) {
    step.Put? && step.key == ExperimentKey(id) && |step.value| == c.valueBytes
  }

  ghost predicate IdBelow(key: seq<byte>, limit: nat) {
    exists id: nat :: id < limit && key == ExperimentKey(id)
  }

  /** A scan from a key id of the key space whose window holds the next `rangeLimit` ids that the key space has. */
  ghost predicate ScansFrom(c: Config, step: Step, first: nat) {
    && step.RangeScan? && step.limit == c.rangeLimit && step.end.Some?
    && first < c.keySpace && step.start == ExperimentKey(first)
    && forall id: nat :: id < c.keySpace ==>
         (Within(step, ExperimentKey(id)) <==> first <= id < first + c.rangeLimit)
  }

  predicate Within(step: Step, key: seq<byte>)
    requires step.RangeScan? && step.end.Some?
  {
    !Less(key, step.start) && Less(key, step.end.value)
  }

  ghost predicate Scans(c: Config, step: Step) {
    exists first: nat :: ScansFrom(c, step, first)
  }

  /** The steps a profile makes of a roll below 100. */
  ghost predicate Suits(c: Config, index: nat, roll: nat, step: Step) {
    match c.profile
    case PointRead =>
      && step.Get?
      && (roll < 80 <==> IdBelow(step.key, c.keySpace))
      && IdBelow(step.key, 2 * c.keySpace)
    case RangeScans => Scans(c, step)
    case SequentialWrite => PutsId(c, step, index)
    case RandomWrite => step.Put? && IdBelow(step.key, c.keySpace) && |step.value| == c.valueBytes
    case Mixed =>
      && (step.Put? <==> roll < 40)
      && (step.Get? <==> 40 <= roll < 70)
      && (step.RangeScan? <==> 70 <= roll < 85)
      && (step.Delete? <==> 85 <= roll)
      && (step.Put? ==> IdBelow(step.key, c.keySpace) && |step.value| == c.valueBytes)
      && (step.Get? || step.Delete? ==> IdBelow(step.key, c.keySpace))
      && (step.RangeScan? ==> Scans(c, step))
  }

  /** The first number drawn from seed 0, as published for this generator. */
  lemma FirstDraw()
    ensures Draw(Seeded(0)) == 0xe220_a839_7b1d_cdaf
  {
  }

  // ---------- one operation ----------

  lemma KeyOrder(a: nat, b: nat)
    requires a < U64_LIMIT && b < U64_LIMIT
    ensures Less(ExperimentKey(a), ExperimentKey(b)) <==> a < b
    ensures ExperimentKey(a) == ExperimentKey(b) <==> a == b
  {
    hide BigEndian, Less;
    WidthLimits();
    BigEndianKeepsOrder(a, b, KEY_BYTES);
  }

  lemma IdIs(id: nat, limit: nat)
    requires id < U64_LIMIT && limit < U64_LIMIT
    ensures IdBelow(ExperimentKey(id), limit) <==> id < limit
  {
    hide ExperimentKey;
    forall other: nat | other < limit ensures ExperimentKey(other) == ExperimentKey(id) ==> other == id {
      KeyOrder(other, id);
    }
  }

  lemma ScanFollows(c: Config, r: Rng)
    requires c.keySpace > 0
    ensures RangeStep(c, r).RangeScan? && Scans(c, RangeStep(c, r))
  {
    hide ExperimentKey, Draw, Less;
    var step, first := RangeStep(c, r), Bounded(r, c.keySpace);
    var end := if first + c.rangeLimit < c.keySpace then first + c.rangeLimit else c.keySpace;
    forall id: nat | id < c.keySpace
      ensures Within(step, ExperimentKey(id)) <==> first <= id < first + c.rangeLimit
    {
      KeyOrder(id, first);
      KeyOrder(id, end);
    }
    assert ScansFrom(c, step, first);
  }

  lemma ReadSuits(c: Config, index: nat, r: Rng)
    requires c.keySpace > 0 && c.profile.PointRead?
    ensures Suits(c, index, Bounded(r, 100), Operation(c, index, r).0)
  {
    hide ExperimentKey, Bounded, Advance, IdBelow;
    var id := Bounded(Advance(r), c.keySpace);
    IdIs(id, c.keySpace);
    IdIs(id, 2 * c.keySpace);
    IdIs(c.keySpace + id, c.keySpace);
    IdIs(c.keySpace + id, 2 * c.keySpace);
  }

  lemma MixedSuits(c: Config, index: nat, r: Rng)
    requires c.keySpace > 0 && c.profile.Mixed?
    ensures Suits(c, index, Bounded(r, 100), Operation(c, index, r).0)
  {
    hide ExperimentKey, Bounded, Advance, RangeStep, Scans, IdBelow, Filled, AfterFill;
    ScanFollows(c, Advance(r));
    IdIs(Bounded(Advance(r), c.keySpace), c.keySpace);
  }

  /** The operation mix of every profile, by the first number drawn for the operation. */
  lemma OperationSuits(c: Config, index: nat, r: Rng)
    requires c.keySpace > 0
    ensures Suits(c, index, Bounded(r, 100), Operation(c, index, r).0)
  {
    hide ExperimentKey, Bounded, Advance, RangeStep, Scans, IdBelow, Filled, AfterFill;
    match c.profile {
      case PointRead => ReadSuits(c, index, r);
      case Mixed => MixedSuits(c, index, r);
      case RangeScans => ScanFollows(c, r);
      case SequentialWrite =>
      case RandomWrite => IdIs(Bounded(r, c.keySpace), c.keySpace);
    }
  }

  // ---------- whole traces ----------

  /** Where the operation that follows `done` others stands among the measured steps. */
  function Position(c: Config, done: nat): nat
    requires c.reopenEvery != Some(0)
  {
    done + ReopenSteps(c, done)
  }

  /** The number drawn first for that operation. */
  function Roll(c: Config, done: nat, r: Rng): nat
    requires c.keySpace > 0 && c.reopenEvery != Some(0)
  {
    Bounded(MeasuredUpTo(c, done, r).rng, 100)
  }

  /** The operations stand in order, and a reopen follows exactly those whose number is a multiple of the interval. */
  ghost predicate Laid(c: Config, n: nat, r: Rng, steps: seq<Step>)
    requires c.keySpace > 0 && c.reopenEvery != Some(0)
  {
    && |steps| == Position(c, n)
    && forall done: nat :: done < n ==>
         && Position(c, done) < |steps| && Suits(c, done, Roll(c, done, r), steps[Position(c, done)])
         && (if ReopensAfter(c, done + 1)
             then Position(c, done) + 1 < |steps| && steps[Position(c, done) + 1] == Reopen
                  && Position(c, done + 1) == Position(c, done) + 2
             else Position(c, done + 1) == Position(c, done) + 1)
  }

  lemma {:induction false} MeasuredAreLaid(c: Config, n: nat, r: Rng)
    requires ConfigIsValid(c)
    ensures c.keySpace > 0 && c.reopenEvery != Some(0)
    ensures Laid(c, n, r, MeasuredUpTo(c, n, r).steps)
    decreases n
  {
    hide Laid, Operation, ReopenSteps, ReopensAfter;
    if n == 0 {
      NothingLaid(c, r);
    } else {
      MeasuredAreLaid(c, n - 1, r);
      var made := MeasuredUpTo(c, n - 1, r);
      var step := Operation(c, n - 1, made.rng).0;
      OneMoreLaid(c, n - 1, r, made);
      assert made.steps + [step] + [Reopen] == made.steps + [step, Reopen];
    }
  }

  lemma NothingLaid(c: Config, r: Rng)
    requires c.keySpace > 0 && c.reopenEvery != Some(0)
    ensures Laid(c, 0, r, [])
  {
    assert c.reopenEvery.Some? ==> 0 / c.reopenEvery.value == 0;
  }

  lemma OneMoreLaid(c: Config, done: nat, r: Rng, made: Made)
    requires ConfigIsValid(c) && made == MeasuredUpTo(c, done, r) && Laid(c, done, r, made.steps)
    ensures var step := Operation(c, done, made.rng).0;
            Laid(c, done + 1, r, made.steps + if ReopensAfter(c, done + 1) then [step, Reopen] else [step])
  {
    hide Operation, ReopenSteps, ReopensAfter, Suits, Bounded, MeasuredUpTo, ConfigIsValid;
    ReopenCount(c, done + 1);
    OperationSuits(c, done, made.rng);
    assert Roll(c, done, r) == Bounded(made.rng, 100);
  }

  /** The setup puts every id of the key space, or every even one, in order; the writing profiles start empty. */
  ghost predicate Prepared(c: Config, n: nat, steps: seq<Step>) {
    && |steps| == SetupCount(c.profile, n)
    && forall i :: 0 <= i < |steps| ==> PutsId(c, steps[i], if c.profile.Mixed? then 2 * i else i)
  }

  lemma {:induction false} SetupIsPrepared(c: Config, n: nat, r: Rng)
    ensures Prepared(c, n, SetupUpTo(c, n, r).steps)
    decreases n
  {
    hide Prepared, PutStep, AfterFill, HalfUp;
    if n == 0 || c.profile.SequentialWrite? || c.profile.RandomWrite? {
      NothingPrepared(c, n);
    } else {
      SetupIsPrepared(c, n - 1, r);
      PutPrepared(c, n, SetupUpTo(c, n - 1, r));
    }
  }

  lemma NothingPrepared(c: Config, n: nat)
    requires n == 0 || c.profile.SequentialWrite? || c.profile.RandomWrite?
    ensures Prepared(c, n, [])
  {
  }

  lemma PutPrepared(c: Config, n: nat, made: Made)
    requires n > 0 && !c.profile.SequentialWrite? && !c.profile.RandomWrite? && Prepared(c, n - 1, made.steps)
    ensures Prepared(c, n, if c.profile.Mixed? && (n - 1) % 2 != 0 then made.steps
                           else made.steps + [PutStep(c, n - 1, made.rng)])
  {
    hide PutsId, PutStep;
    StepPutsId(c, n - 1, made.rng);
  }

  lemma StepPutsId(c: Config, id: nat, r: Rng)
    ensures PutsId(c, PutStep(c, id, r), id)
  {
  }

  /** A generated trace, position by position. */
  lemma GeneratedContains(c: Config)
    requires ConfigIsValid(c)
    ensures c.keySpace > 0 && c.reopenEvery != Some(0)
    ensures Prepared(c, c.keySpace, Generated(c).setup)
    ensures Laid(c, c.operations, SetupUpTo(c, c.keySpace, Seeded(c.seed)).rng, Generated(c).measured)
  {
    hide Prepared, Laid, SetupUpTo, MeasuredUpTo, Seeded, ConfigIsValid;
    SetupIsPrepared(c, c.keySpace, Seeded(c.seed));
    MeasuredAreLaid(c, c.operations, SetupUpTo(c, c.keySpace, Seeded(c.seed)).rng);
  }
}
