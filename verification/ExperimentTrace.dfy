/** Seeded experiment traces: every configuration that validates yields a trace its own validator accepts. */
module ExperimentTrace {
  import opened Options
  import opened Bytes

  const MAX_EXPERIMENT_STEPS: nat := 1_000_000
  const MAX_PAYLOAD_BYTES: nat := 64 * 1024 * 1024
  const MAX_RANGE_LIMIT: nat := 1_000_000
  const MAX_KEY_BYTES: nat := 4 * 1024
  const MAX_VALUE_BYTES: nat := 1024 * 1024
  const KEY_BYTES: nat := 8
  const FORMAT_VERSION: nat := 1

  datatype Result<+T> = Ok(value: T) | Err

  datatype Profile = PointRead | RangeScans | SequentialWrite | RandomWrite | Mixed

  datatype Config = Config(seed: u64, profile: Profile, operations: u32, keySpace: u32, valueBytes: u32,
                           rangeLimit: u32, reopenEvery: Option<u32>)

  datatype Step =
    | Put(key: seq<byte>, value: seq<byte>)
    | Get(key: seq<byte>)
    | Delete(key: seq<byte>)
    | RangeScan(start: seq<byte>, end: Option<seq<byte>>, limit: u32)
    | Reopen

  datatype Trace = Trace(formatVersion: nat, profile: Profile, seed: Option<u64>, generator: Option<Config>,
                         setup: seq<Step>, measured: seq<Step>)

  // ---------- the generator's random numbers ----------

  /** The wrapper keeps bit-vector arithmetic out of everything below. */
  datatype Rng = Rng(state: bv64)

  function Advance(r: Rng): Rng {
    Rng(r.state + 0x9e37_79b9_7f4a_7c15)
  }

  function Mix(v0: bv64): bv64 {
    var v1 := (v0 ^ (v0 >> 30)) * 0xbf58_476d_1ce4_e5b9;
    var v2 := (v1 ^ (v1 >> 27)) * 0x94d0_49bb_1331_11eb;
    v2 ^ (v2 >> 31)
  }

  /** The number drawn from a state. */
  function Draw(r: Rng): nat {
    Mix(Advance(r).state) as nat
  }

  function Bounded(r: Rng, upper: nat): (n: nat)
    requires upper > 0
    ensures n < upper
  {
    Draw(r) % upper
  }

  function Seeded(seed: u64): Rng {
    Rng(seed as bv64)
  }

  class SplitMix64 {
    var rng: Rng

    constructor (seed: u64)
      ensures rng == Seeded(seed)
    {
      rng := Seeded(seed);
    }

    method Next() returns (value: nat)
      modifies this
      ensures value == Draw(old(rng)) && rng == Advance(old(rng))
    {
      rng := Advance(rng);
      value := Mix(rng.state) as nat;
    }

    method NextBounded(upper: nat) returns (value: nat)
      requires upper > 0
      modifies this
      ensures value == Bounded(old(rng), upper) && rng == Advance(old(rng))
    {
      var drawn := Next();
      value := drawn % upper;
    }

    /** `random_value`: eight bytes per draw, the last draw cut short. */
    method Fill(length: nat) returns (value: seq<byte>)
      modifies this
      ensures value == Filled(old(rng), length) && rng == AfterFill(old(rng), length)
    {
      hide Draw, Advance, LittleEndian;
      value := [];
      ghost var start := rng;
      while |value| < length
        invariant |value| <= length
        invariant value + Filled(rng, length - |value|) == Filled(start, length)
        invariant AfterFill(rng, length - |value|) == AfterFill(start, length)
        decreases length - |value|
      {
        ghost var before, so := rng, value;
        var drawn := Next();
        var take := if length - |value| < 8 then length - |value| else 8;
        value := value + LittleEndian(drawn, 8)[..take];
        assert Filled(before, length - |so|) == LittleEndian(drawn, 8)[..take] + Filled(rng, length - |value|);
        assert so + (LittleEndian(drawn, 8)[..take] + Filled(rng, length - |value|))
            == value + Filled(rng, length - |value|);
      }
      assert value + Filled(rng, 0) == value;
    }
  }

  function Filled(r: Rng, length: nat): (value: seq<byte>)
    ensures |value| == length
    decreases length
  {
    if length == 0 then []
    else
      var take := if length < 8 then length else 8;
      LittleEndian(Draw(r), 8)[..take] + Filled(Advance(r), length - take)
  }

  function AfterFill(r: Rng, length: nat): Rng
    decreases length
  {
    if length == 0 then r else AfterFill(Advance(r), length - if length < 8 then length else 8)
  }

  // ---------- keys ----------

  /** `to_be_bytes` at a given width. */
  function BigEndian(n: nat, width: nat): (bytes: seq<byte>)
    ensures |bytes| == width
  {
    if width == 0 then [] else BigEndian(n / 256, width - 1) + [n % 256]
  }

  function ExperimentKey(id: nat): seq<byte> {
    BigEndian(id, KEY_BYTES)
  }

  lemma {:induction false} LessOnAppend(a: seq<byte>, b: seq<byte>, x: byte, y: byte)
    requires |a| == |b|
    ensures Less(a + [x], b + [y]) <==> Less(a, b) || (a == b && x < y)
    decreases |a|
  {
    var p, q := a + [x], b + [y];
    if a == [] {
      assert p == [x] && q == [y];
    } else {
      assert p[1..] == a[1..] + [x] && q[1..] == b[1..] + [y];
      LessOnAppend(a[1..], b[1..], x, y);
      assert a == [a[0]] + a[1..] && b == [b[0]] + b[1..];
    }
  }

  /** Big-endian keys sort bytewise as their ids do. */
  lemma {:induction false} BigEndianKeepsOrder(a: nat, b: nat, width: nat)
    requires a < Power256(width) && b < Power256(width)
    ensures a < b <==> Less(BigEndian(a, width), BigEndian(b, width))
    ensures a == b <==> BigEndian(a, width) == BigEndian(b, width)
    decreases width
  {
    if width > 0 {
      BigEndianKeepsOrder(a / 256, b / 256, width - 1);
      LessOnAppend(BigEndian(a / 256, width - 1), BigEndian(b / 256, width - 1), a % 256, b % 256);
      var front := |BigEndian(a / 256, width - 1)|;
      assert BigEndian(a, width)[..front] == BigEndian(a / 256, width - 1);
      assert BigEndian(b, width)[..front] == BigEndian(b / 256, width - 1);
      assert BigEndian(a, width)[front] == a % 256 && BigEndian(b, width)[front] == b % 256;
    }
  }

  lemma KeysKeepOrder(a: nat, b: nat)
    requires a <= b < U64_LIMIT
    ensures LessEq(ExperimentKey(a), ExperimentKey(b))
  {
    WidthLimits();
    BigEndianKeepsOrder(a, b, KEY_BYTES);
  }

  // ---------- configurations ----------

  function HalfUp(n: nat): nat {
    (n + 1) / 2
  }

  /** How many setup puts the key ids below `n` give. */
  function SetupCount(profile: Profile, n: nat): nat {
    match profile
    case PointRead => n
    case RangeScans => n
    case Mixed => HalfUp(n)
    case SequentialWrite => 0
    case RandomWrite => 0
  }

  function SetupPuts(c: Config): nat {
    SetupCount(c.profile, c.keySpace)
  }

  function ReopenSteps(c: Config, operations: nat): nat
    requires c.reopenEvery != Some(0)
  {
    if c.reopenEvery.None? then 0 else operations / c.reopenEvery.value
  }

  function PutBytes(c: Config): nat {
    KEY_BYTES + c.valueBytes
  }

  function BytesPerOperation(c: Config): nat {
    match c.profile
    case PointRead => KEY_BYTES
    case RangeScans => 2 * KEY_BYTES
    case SequentialWrite => PutBytes(c)
    case RandomWrite => PutBytes(c)
    case Mixed => if PutBytes(c) < 2 * KEY_BYTES then 2 * KEY_BYTES else PutBytes(c)
  }

  /** `ExperimentGeneratorConfig::validate`. */
  predicate ConfigIsValid(c: Config) {
    && c.operations > 0 && c.keySpace > 0 && c.valueBytes <= MAX_VALUE_BYTES && c.reopenEvery != Some(0)
    && (c.profile.SequentialWrite? ==> c.operations <= c.keySpace)
    && 0 < c.rangeLimit <= MAX_RANGE_LIMIT
    && (c.profile.RangeScans? || c.profile.Mixed? ==> c.rangeLimit <= c.keySpace)
    && SetupPuts(c) + c.operations + ReopenSteps(c, c.operations) <= MAX_EXPERIMENT_STEPS
    && SetupPuts(c) * PutBytes(c) + c.operations * BytesPerOperation(c) <= MAX_PAYLOAD_BYTES
  }

  // ---------- the validator ----------

  /** `validate_experiment_step`. */
  predicate StepIsValid(step: Step) {
    match step
    case Put(key, value) => |key| <= MAX_KEY_BYTES && |value| <= MAX_VALUE_BYTES
    case Get(key) => |key| <= MAX_KEY_BYTES
    case Delete(key) => |key| <= MAX_KEY_BYTES
    case RangeScan(start, end, limit) =>
      && 0 < limit <= MAX_RANGE_LIMIT && |start| <= MAX_KEY_BYTES
      && (end.Some? ==> |end.value| <= MAX_KEY_BYTES && !Less(end.value, start))
    case Reopen => true
  }

  function StepBytes(step: Step): nat {
    match step
    case Put(key, value) => |key| + |value|
    case Get(key) => |key|
    case Delete(key) => |key|
    case RangeScan(start, end, _) => |start| + if end.Some? then |end.value| else 0
    case Reopen => 0
  }

  function Payload(steps: seq<Step>): nat {
    if steps == [] then 0 else Payload(steps[..|steps| - 1]) + StepBytes(steps[|steps| - 1])
  }

  predicate AllValid(steps: seq<Step>) {
    forall i :: 0 <= i < |steps| ==> StepIsValid(steps[i])
  }

  /** `validate_structure`; payloads only add up, so checking the total checks every prefix. */
  predicate StructureIsValid(t: Trace) {
    && t.formatVersion == FORMAT_VERSION
    && |t.setup| + |t.measured| <= MAX_EXPERIMENT_STEPS && t.measured != []
    && (t.generator.Some? ==>
          ConfigIsValid(t.generator.value) && t.seed == Some(t.generator.value.seed)
          && t.profile == t.generator.value.profile)
    && AllValid(t.setup) && AllValid(t.measured)
    && Payload(t.setup) + Payload(t.measured) <= MAX_PAYLOAD_BYTES
  }

  // ---------- what the generator produces ----------

  datatype Made = Made(steps: seq<Step>, rng: Rng)

  function Then(made: Made, step: Step, rng: Rng): Made {
    Made(made.steps + [step], rng)
  }

  function PutStep(c: Config, id: nat, r: Rng): Step {
    Put(ExperimentKey(id), Filled(r, c.valueBytes))
  }

  /** The setup puts for the key ids below `n`. */
  function SetupUpTo(c: Config, n: nat, r: Rng): Made {
    if n == 0 || c.profile.SequentialWrite? || c.profile.RandomWrite? then Made([], r)
    else
      var made := SetupUpTo(c, n - 1, r);
      if c.profile.Mixed? && (n - 1) % 2 != 0 then made
      else Then(made, PutStep(c, n - 1, made.rng), AfterFill(made.rng, c.valueBytes))
  }

  function RangeStep(c: Config, r: Rng): Step
    requires c.keySpace > 0
  {
    var start := Bounded(r, c.keySpace);
    var end := if start + c.rangeLimit < c.keySpace then start + c.rangeLimit else c.keySpace;
    RangeScan(ExperimentKey(start), Some(ExperimentKey(end)), c.rangeLimit)
  }

  /** One measured operation and the random state after it. */
  function Operation(c: Config, index: nat, r: Rng): (Step, Rng)
    requires c.keySpace > 0
  {
    match c.profile
    case PointRead =>
      var id := Bounded(Advance(r), c.keySpace);
      (Get(ExperimentKey(if Bounded(r, 100) < 80 then id else c.keySpace + id)), Advance(Advance(r)))
    case RangeScans => (RangeStep(c, r), Advance(r))
    case SequentialWrite => (PutStep(c, index, r), AfterFill(r, c.valueBytes))
    case RandomWrite =>
      (PutStep(c, Bounded(r, c.keySpace), Advance(r)), AfterFill(Advance(r), c.valueBytes))
    case Mixed =>
      var choice, next := Bounded(r, 100), Advance(r);
      if choice < 40 then (PutStep(c, Bounded(next, c.keySpace), Advance(next)), AfterFill(Advance(next), c.valueBytes))
      else if choice < 70 then (Get(ExperimentKey(Bounded(next, c.keySpace))), Advance(next))
      else if choice < 85 then (RangeStep(c, next), Advance(next))
      else (Delete(ExperimentKey(Bounded(next, c.keySpace))), Advance(next))
  }

  predicate ReopensAfter(c: Config, done: nat)
    requires c.reopenEvery != Some(0)
  {
    c.reopenEvery.Some? && done % c.reopenEvery.value == 0
  }

  /** The measured steps of the first `n` operations. */
  function MeasuredUpTo(c: Config, n: nat, r: Rng): Made
    requires c.keySpace > 0 && c.reopenEvery != Some(0)
  {
    if n == 0 then Made([], r)
    else
      var made := MeasuredUpTo(c, n - 1, r);
      var (step, rng) := Operation(c, n - 1, made.rng);
      if ReopensAfter(c, n) then Then(Then(made, step, rng), Reopen, rng) else Then(made, step, rng)
  }

  function Generated(c: Config): Trace
    requires c.keySpace > 0 && c.reopenEvery != Some(0)
  {
    var setup := SetupUpTo(c, c.keySpace, Seeded(c.seed));
    Trace(FORMAT_VERSION, c.profile, Some(c.seed), Some(c), setup.steps,
          MeasuredUpTo(c, c.operations, setup.rng).steps)
  }

  // ---------- bounds ----------

  lemma AppendStep(steps: seq<Step>, step: Step)
    ensures Payload(steps + [step]) == Payload(steps) + StepBytes(step)
    ensures AllValid(steps + [step]) <==> AllValid(steps) && StepIsValid(step)
  {
    hide StepIsValid;
    assert (steps + [step])[..|steps|] == steps;
    if AllValid(steps + [step]) {
      assert StepIsValid((steps + [step])[|steps|]);
      forall i | 0 <= i < |steps| ensures StepIsValid(steps[i]) { assert (steps + [step])[i] == steps[i]; }
    }
  }

  lemma {:induction false} SetupBounds(c: Config, n: nat, r: Rng)
    requires c.valueBytes <= MAX_VALUE_BYTES
    ensures var made := SetupUpTo(c, n, r);
            && AllValid(made.steps)
            && |made.steps| == SetupCount(c.profile, n)
            && Payload(made.steps) == |made.steps| * PutBytes(c)
    decreases n
  {
    hide Draw, Advance, BigEndian, AllValid, Payload;
    NoSteps();
    if n > 0 && !c.profile.SequentialWrite? && !c.profile.RandomWrite? {
      SetupBounds(c, n - 1, r);
      var made := SetupUpTo(c, n - 1, r);
      var step := PutStep(c, n - 1, made.rng);
      AppendStep(made.steps, step);
      assert StepBytes(step) == PutBytes(c);
      assert (|made.steps| + 1) * PutBytes(c) == |made.steps| * PutBytes(c) + PutBytes(c);
    }
  }

  lemma NoSteps()
    ensures AllValid([]) && Payload([]) == 0
  {
  }

  /** Every generated operation validates, within the bytes budgeted for one operation. */
  lemma OperationBounds(c: Config, index: nat, r: Rng)
    requires ConfigIsValid(c)
    ensures var step := Operation(c, index, r).0; StepIsValid(step) && StepBytes(step) <= BytesPerOperation(c)
  {
    hide Draw, Advance, BigEndian, Less;
    RangeBounds(c, r);
    RangeBounds(c, Advance(r));
  }

  lemma RangeBounds(c: Config, r: Rng)
    requires c.keySpace > 0
    ensures var step := RangeStep(c, r);
            && step.limit == c.rangeLimit && |step.start| == KEY_BYTES
            && step.end.Some? && |step.end.value| == KEY_BYTES && !Less(step.end.value, step.start)
  {
    hide Draw, Advance, BigEndian;
    var start := Bounded(r, c.keySpace);
    var end := if start + c.rangeLimit < c.keySpace then start + c.rangeLimit else c.keySpace;
    KeysKeepOrder(start, end);
    if ExperimentKey(start) == ExperimentKey(end) {
      LessIrreflexive(ExperimentKey(start));
    } else {
      LessAsymmetric(ExperimentKey(start), ExperimentKey(end));
    }
  }

  lemma {:induction false} MeasuredBounds(c: Config, n: nat, r: Rng)
    requires ConfigIsValid(c)
    ensures var made := MeasuredUpTo(c, n, r);
            && AllValid(made.steps)
            && |made.steps| == n + ReopenSteps(c, n)
            && Payload(made.steps) <= n * BytesPerOperation(c)
    decreases n
  {
    hide Operation, StepIsValid, AllValid, Payload, BytesPerOperation, ConfigIsValid, StepBytes, ReopenSteps,
      ReopensAfter;
    NoSteps();
    ReopenIsValid();
    ReopenCount(c, n);
    if n > 0 {
      MeasuredBounds(c, n - 1, r);
      var made := MeasuredUpTo(c, n - 1, r);
      var (step, rng) := Operation(c, n - 1, made.rng);
      OperationBounds(c, n - 1, made.rng);
      AppendStep(made.steps, step);
      AppendStep(made.steps + [step], Reopen);
      assert n * BytesPerOperation(c) == (n - 1) * BytesPerOperation(c) + BytesPerOperation(c);
    }
  }

  lemma ReopenIsValid()
    ensures StepIsValid(Reopen) && StepBytes(Reopen) == 0
  {
  }

  /** Reopens are inserted exactly after every multiple. */
  lemma ReopenCount(c: Config, n: nat)
    requires ConfigIsValid(c)
    ensures c.keySpace > 0 && c.reopenEvery != Some(0)
    ensures n == 0 ==> ReopenSteps(c, n) == 0
    ensures n > 0 ==> ReopenSteps(c, n) == ReopenSteps(c, n - 1) + if ReopensAfter(c, n) then 1 else 0
  {
    if n > 0 && c.reopenEvery.Some? { QuotientSteps(n, c.reopenEvery.value); }
  }

  lemma QuotientSteps(n: nat, every: nat)
    requires n > 0 && every > 0
    ensures n / every == (n - 1) / every + if n % every == 0 then 1 else 0
  {
    var q, m := n / every, n % every;
    assert n == q * every + m;
    if m == 0 {
      assert n - 1 == (q - 1) * every + (every - 1);
      DivisionIs(n - 1, every, q - 1, every - 1);
    } else {
      DivisionIs(n - 1, every, q, m - 1);
    }
  }

  lemma DivisionIs(n: nat, every: nat, q: int, m: nat)
    requires every > 0 && m < every && n == q * every + m
    ensures n / every == q
  {
    var d := n / every - q;
    assert d * every == m - n % every;
    assert d >= 1 ==> d * every >= every;
    assert d <= -1 ==> d * every <= 0 - every;
  }

  /** The precomputed bounds of a valid configuration are enough: its trace passes every structural check. */
  lemma GeneratedIsValid(c: Config)
    requires ConfigIsValid(c)
    ensures StructureIsValid(Generated(c))
    ensures |Generated(c).setup| == SetupPuts(c)
    ensures |Generated(c).measured| == c.operations + ReopenSteps(c, c.operations)
  {
    hide Seeded, SetupUpTo, MeasuredUpTo, AllValid, Payload, BytesPerOperation, PutBytes, SetupCount, ReopenSteps,
      ReopensAfter;
    var r := Seeded(c.seed);
    SetupBounds(c, c.keySpace, r);
    MeasuredBounds(c, c.operations, SetupUpTo(c, c.keySpace, r).rng);
  }

  // ---------- the generator and validator as programs ----------

  method GeneratedPut(random: SplitMix64, c: Config, id: nat) returns (step: Step)
    modifies random
    ensures step == PutStep(c, id, old(random.rng)) && random.rng == AfterFill(old(random.rng), c.valueBytes)
  {
    hide Filled, AfterFill, BigEndian;
    var value := random.Fill(c.valueBytes);
    step := Put(ExperimentKey(id), value);
  }

  method GeneratedRange(random: SplitMix64, c: Config) returns (step: Step)
    requires c.keySpace > 0
    modifies random
    ensures step == RangeStep(c, old(random.rng)) && random.rng == Advance(old(random.rng))
  {
    hide BigEndian, Advance;
    var start := random.NextBounded(c.keySpace);
    var end := if start + c.rangeLimit < c.keySpace then start + c.rangeLimit else c.keySpace;
    step := RangeScan(ExperimentKey(start), Some(ExperimentKey(end)), c.rangeLimit);
  }

  method GeneratedOperation(random: SplitMix64, c: Config, index: nat) returns (step: Step)
    requires c.keySpace > 0
    modifies random
    ensures (step, random.rng) == Operation(c, index, old(random.rng))
  {
    hide BigEndian, Advance, Bounded, Filled, AfterFill, PutStep, RangeStep;
    match c.profile {
      case PointRead =>
        var roll := random.NextBounded(100);
        var id := random.NextBounded(c.keySpace);
        step := Get(ExperimentKey(if roll < 80 then id else c.keySpace + id));
      case RangeScans =>
        step := GeneratedRange(random, c);
      case SequentialWrite =>
        step := GeneratedPut(random, c, index);
      case RandomWrite =>
        var id := random.NextBounded(c.keySpace);
        step := GeneratedPut(random, c, id);
      case Mixed =>
        var choice := random.NextBounded(100);
        if choice < 40 {
          var id := random.NextBounded(c.keySpace);
          step := GeneratedPut(random, c, id);
        } else if choice < 70 {
          var id := random.NextBounded(c.keySpace);
          step := Get(ExperimentKey(id));
        } else if choice < 85 {
          step := GeneratedRange(random, c);
        } else {
          var id := random.NextBounded(c.keySpace);
          step := Delete(ExperimentKey(id));
        }
    }
  }

  method GeneratedSetup(random: SplitMix64, c: Config) returns (setup: seq<Step>)
    modifies random
    ensures Made(setup, random.rng) == SetupUpTo(c, c.keySpace, old(random.rng))
  {
    hide PutStep, AfterFill, Advance;
    setup := [];
    ghost var start := random.rng;
    if c.profile.SequentialWrite? || c.profile.RandomWrite? {
      return;
    }
    var id := 0;
    while id < c.keySpace
      invariant 0 <= id <= c.keySpace
      invariant Made(setup, random.rng) == SetupUpTo(c, id, start)
    {
      if !c.profile.Mixed? || id % 2 == 0 {
        var step := GeneratedPut(random, c, id);
        setup := setup + [step];
      }
      id := id + 1;
    }
  }

  method GeneratedMeasured(random: SplitMix64, c: Config) returns (measured: seq<Step>)
    requires c.keySpace > 0 && c.reopenEvery != Some(0)
    modifies random
    ensures Made(measured, random.rng) == MeasuredUpTo(c, c.operations, old(random.rng))
  {
    hide Operation, Advance;
    measured := [];
    ghost var start := random.rng;
    var index := 0;
    while index < c.operations
      invariant 0 <= index <= c.operations
      invariant Made(measured, random.rng) == MeasuredUpTo(c, index, start)
    {
      var step := GeneratedOperation(random, c, index);
      measured := measured + [step];
      if ReopensAfter(c, index + 1) {
        measured := measured + [Reopen];
      }
      index := index + 1;
    }
  }

  /** `build_generated_trace`: succeeds exactly on valid configurations; its own structural check never fails. */
  method BuildGeneratedTrace(c: Config) returns (r: Result<Trace>)
    ensures r.Ok? <==> ConfigIsValid(c)
    ensures r.Ok? ==> c.keySpace > 0 && c.reopenEvery != Some(0) && r.value == Generated(c) && StructureIsValid(r.value)
  {
    hide Seeded, ConfigIsValid, SetupUpTo, MeasuredUpTo, StructureIsValid;
    if !ConfigIsValid(c) {
      return Err;
    }
    ReopenCount(c, 0);
    var random := new SplitMix64(c.seed);
    var setup := GeneratedSetup(random, c);
    var measured := GeneratedMeasured(random, c);
    var trace := Trace(FORMAT_VERSION, c.profile, Some(c.seed), Some(c), setup, measured);
    GeneratedIsValid(c);
    if !StructureIsValid(trace) {
      assert false;
      return Err;
    }
    return Ok(trace);
  }

  /** `ExperimentTrace::validate`: exactly the traces their embedded configuration generates. */
  method ValidateTrace(t: Trace) returns (valid: bool)
    ensures valid <==>
              t.generator.Some? && ConfigIsValid(t.generator.value) && t == Generated(t.generator.value)
  {
    hide Seeded, SetupUpTo, MeasuredUpTo, ConfigIsValid, AllValid, Payload;
    if t.generator.Some? && ConfigIsValid(t.generator.value) { GeneratedIsValid(t.generator.value); }
    if !StructureIsValid(t) || t.generator.None? {
      return false;
    }
    var expected := BuildGeneratedTrace(t.generator.value);
    return expected.Ok? && t.setup == expected.value.setup && t.measured == expected.value.measured;
  }
}
