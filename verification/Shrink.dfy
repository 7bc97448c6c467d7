/** Delta debugging: a failing workload is reduced until no single step can be removed. */
module Shrink {
  import opened Options
  import opened Bytes

  const WORKLOAD_FORMAT_VERSION: nat := 1
  const MAX_WORKLOAD_STEPS: nat := 1_000_000
  const MAX_KEY_BYTES: nat := 4 * 1024
  const MAX_VALUE_BYTES: nat := 1024 * 1024

  datatype WorkloadStep = Put(key: seq<byte>, value: seq<byte>) | Get(key: seq<byte>) | Delete(key: seq<byte>) | Reopen

  datatype Workload = Workload(formatVersion: nat, seed: Option<nat>, steps: seq<WorkloadStep>)

  datatype Error = Invalid | Probe(code: nat)

  datatype Result<+T> = Ok(value: T) | Err(error: Error)

  predicate StepIsValid(step: WorkloadStep) {
    match step
    case Put(key, value) => |key| <= MAX_KEY_BYTES && |value| <= MAX_VALUE_BYTES
    case Get(key) => |key| <= MAX_KEY_BYTES
    case Delete(key) => |key| <= MAX_KEY_BYTES
    case Reopen => true
  }

  /** `Workload::validate`. */
  predicate IsValid(workload: Workload) {
    && workload.formatVersion == WORKLOAD_FORMAT_VERSION
    && |workload.steps| <= MAX_WORKLOAD_STEPS
    && forall i :: 0 <= i < |workload.steps| ==> StepIsValid(workload.steps[i])
  }

  /** The caller's deterministic failure predicate, which may itself fail. */
  type Predicate = Workload -> Result<bool>

  /** `without_range`: metadata kept, the steps of one range removed. */
  function WithoutRange(workload: Workload, start: nat, end: nat): (smaller: Workload)
    requires start <= end <= |workload.steps|
    ensures |smaller.steps| == |workload.steps| - (end - start)
  {
    workload.(steps := workload.steps[..start] + workload.steps[end..])
  }

  /** `part` keeps the order of `whole` and drops some of its elements. */
  predicate Subsequence(part: seq<WorkloadStep>, whole: seq<WorkloadStep>)
    decreases |whole|
  {
    if part == [] then true
    else if whole == [] then false
    else if part[0] == whole[0] && Subsequence(part[1..], whole[1..]) then true
    else Subsequence(part, whole[1..])
  }

  predicate ReducedFrom(smaller: Workload, workload: Workload) {
    && smaller.formatVersion == workload.formatVersion && smaller.seed == workload.seed
    && Subsequence(smaller.steps, workload.steps)
  }

  lemma {:induction false} SubsequenceSelf(steps: seq<WorkloadStep>)
    ensures Subsequence(steps, steps)
    decreases |steps|
  {
    if steps != [] { SubsequenceSelf(steps[1..]); }
  }

  lemma {:induction false} SubsequenceTransitive(a: seq<WorkloadStep>, b: seq<WorkloadStep>, c: seq<WorkloadStep>)
    requires Subsequence(a, b) && Subsequence(b, c)
    ensures Subsequence(a, c)
    decreases |b| + |c|
  {
    if a != [] {
      if b[0] == c[0] && Subsequence(b[1..], c[1..]) {
        if a[0] == b[0] && Subsequence(a[1..], b[1..]) {
          SubsequenceTransitive(a[1..], b[1..], c[1..]);
        } else {
          SubsequenceTransitive(a, b[1..], c[1..]);
        }
      } else {
        SubsequenceTransitive(a, b, c[1..]);
      }
    }
  }

  lemma {:induction false} DropPrefix(steps: seq<WorkloadStep>, drop: nat)
    requires drop <= |steps|
    ensures Subsequence(steps[drop..], steps)
    decreases drop
  {
    if drop == 0 {
      SubsequenceSelf(steps);
      assert steps[0..] == steps;
    } else {
      DropPrefix(steps[1..], drop - 1);
      assert steps[1..][drop - 1..] == steps[drop..];
    }
  }

  lemma {:induction false} RangeIsSubsequence(steps: seq<WorkloadStep>, start: nat, end: nat)
    requires start <= end <= |steps|
    ensures Subsequence(steps[..start] + steps[end..], steps)
    decreases start
  {
    if start == 0 {
      assert steps[..0] + steps[end..] == steps[end..];
      DropPrefix(steps, end);
    } else {
      RangeIsSubsequence(steps[1..], start - 1, end - 1);
      var part := steps[..start] + steps[end..];
      assert part[1..] == steps[1..][..start - 1] + steps[1..][end - 1..];
    }
  }

  lemma RemovalReduces(workload: Workload, current: Workload, start: nat, end: nat)
    requires ReducedFrom(current, workload) && start <= end <= |current.steps|
    ensures ReducedFrom(WithoutRange(current, start, end), workload)
  {
    RangeIsSubsequence(current.steps, start, end);
    SubsequenceTransitive(WithoutRange(current, start, end).steps, current.steps, workload.steps);
  }

  function WithoutStep(workload: Workload, i: nat): Workload
    requires i < |workload.steps|
  {
    WithoutRange(workload, i, i + 1)
  }

  /** No single remaining step can go. */
  predicate OneMinimal(workload: Workload, reproduces: Predicate) {
    forall i :: 0 <= i < |workload.steps| ==> reproduces(WithoutStep(workload, i)) == Ok(false)
  }

  /** The predicate failed with `error` on the workload itself or on one of its reductions. */
  ghost predicate ProbeFailed(workload: Workload, reproduces: Predicate, error: Error) {
    exists candidate :: ReducedFrom(candidate, workload) && reproduces(candidate) == Err(error)
  }

  lemma ProbeFails(workload: Workload, candidate: Workload, reproduces: Predicate)
    requires ReducedFrom(candidate, workload) && reproduces(candidate).Err?
    ensures ProbeFailed(workload, reproduces, reproduces(candidate).error)
  {
  }

  function DivCeil(a: nat, b: nat): (q: nat)
    requires b > 0
    ensures a > 0 ==> q > 0
  {
    (a + b - 1) / b
  }

  function Min(a: nat, b: nat): nat { if a < b then a else b }
  function Max(a: nat, b: nat): nat { if a < b then b else a }

  /** One sweep of chunk removals: the first chunk whose removal still fails, if any. */
  method FirstRemovableChunk(workload: Workload, current: Workload, chunkSize: nat, reproduces: Predicate)
      returns (r: Result<Option<Workload>>)
    requires ReducedFrom(current, workload) && |current.steps| >= 2 && chunkSize > 0
    ensures r.Ok? && r.value.Some? ==>
              && ReducedFrom(r.value.value, workload) && reproduces(r.value.value) == Ok(true)
              && |r.value.value.steps| < |current.steps|
    ensures r.Err? ==> ProbeFailed(workload, reproduces, r.error)
  {
    var length := |current.steps|;
    var start := 0;
    while start < length
      invariant 0 <= start <= length
    {
      var end := Min(start + chunkSize, length);
      if end - start == length {
        break;
      }
      var candidate := WithoutRange(current, start, end);
      RemovalReduces(workload, current, start, end);
      match reproduces(candidate) {
        case Err(error) =>
          ProbeFails(workload, candidate, reproduces);
          return Err(error);
        case Ok(fails) =>
          if fails {
            return Ok(Some(candidate));
          }
      }
      start := end;
    }
    return Ok(None);
  }

  /**
   * `minimize_failing_workload`: terminates for every predicate; the result still fails, keeps the order
   * and metadata of the original, and is 1-minimal.
   */
  method MinimizeFailingWorkload(workload: Workload, reproduces: Predicate) returns (r: Result<Workload>)
    ensures r.Ok? ==>
              && IsValid(workload) && reproduces(workload) == Ok(true)
              && reproduces(r.value) == Ok(true) && ReducedFrom(r.value, workload) && OneMinimal(r.value, reproduces)
    ensures r.Err? ==>
              !IsValid(workload) || reproduces(workload) == Ok(false) || ProbeFailed(workload, reproduces, r.error)
    ensures (&& IsValid(workload) && reproduces(workload) == Ok(true)
             && (forall candidate :: ReducedFrom(candidate, workload) ==> reproduces(candidate).Ok?))
            ==> r.Ok?
  {
    SubsequenceSelf(workload.steps);
    if !IsValid(workload) {
      return Err(Invalid);
    }
    match reproduces(workload) {
      case Err(error) =>
        ProbeFails(workload, workload, reproduces);
        return Err(error);
      case Ok(fails) =>
        if !fails {
          return Err(Invalid);
        }
    }
    var current := workload;
    var granularity := 2;
    while |current.steps| >= 2
      invariant granularity >= 2
      invariant ReducedFrom(current, workload) && reproduces(current) == Ok(true)
      decreases |current.steps|, if granularity >= |current.steps| then 0 else |current.steps| - granularity
    {
      var length := |current.steps|;
      var chunk := FirstRemovableChunk(workload, current, DivCeil(length, granularity), reproduces);
      if chunk.Err? {
        return Err(chunk.error);
      }
      if chunk.value.Some? {
        current := chunk.value.value;
        granularity := Max(granularity - 1, 2);
        continue;
      }
      if granularity >= length {
        break;
      }
      granularity := Min(granularity * 2, length);
    }
    r := DropSingleSteps(workload, current, reproduces);
  }

  /** The final pass, restarted from the front after every removal. */
  method DropSingleSteps(workload: Workload, start: Workload, reproduces: Predicate) returns (r: Result<Workload>)
    requires ReducedFrom(start, workload) && reproduces(start) == Ok(true)
    ensures r.Ok? ==>
              reproduces(r.value) == Ok(true) && ReducedFrom(r.value, workload) && OneMinimal(r.value, reproduces)
    ensures r.Err? ==> ProbeFailed(workload, reproduces, r.error)
  {
    var current := start;
    var index := 0;
    while index < |current.steps|
      invariant 0 <= index <= |current.steps|
      invariant ReducedFrom(current, workload) && reproduces(current) == Ok(true)
      invariant forall i :: 0 <= i < index ==> reproduces(WithoutStep(current, i)) == Ok(false)
      decreases |current.steps|, |current.steps| - index
    {
      var candidate := WithoutStep(current, index);
      RemovalReduces(workload, current, index, index + 1);
      match reproduces(candidate) {
        case Err(error) =>
          ProbeFails(workload, candidate, reproduces);
          return Err(error);
        case Ok(fails) =>
          if fails {
            current := candidate;
            index := 0;
          } else {
            index := index + 1;
          }
      }
    }
    return Ok(current);
  }
}
