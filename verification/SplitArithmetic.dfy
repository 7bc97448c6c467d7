/** Where an overfull page is divided, and when a division exists. */
module SplitArithmetic {
  import opened Options

  const PAGE_SIZE: nat := 4096
  const CHECKSUM_OFFSET: nat := PAGE_SIZE - 4
  const DATA_HEADER_LEN: nat := 40
  const SLOT_LEN: nat := 4
  const PAGE_BODY_CAPACITY: nat := CHECKSUM_OFFSET - DATA_HEADER_LEN

  function Sum(costs: seq<nat>): nat {
    if costs == [] then 0 else Sum(costs[..|costs| - 1]) + costs[|costs| - 1]
  }

  /** `cells_fit`: each cell costs its slot plus its bytes. */
  predicate Fit(costs: seq<nat>) {
    Sum(costs) <= PAGE_BODY_CAPACITY
  }

  /** Splitting before cell `at` gives two non-empty pages that both fit. */
  predicate Feasible(costs: seq<nat>, at: nat) {
    1 <= at < |costs| && Fit(costs[..at]) && Fit(costs[at..])
  }

  function AbsDiff(a: nat, b: nat): nat {
    if a < b then b - a else a - b
  }

  function Imbalance(costs: seq<nat>, at: nat): nat
    requires at <= |costs|
  {
    AbsDiff(Sum(costs[..at]), Sum(costs[at..]))
  }

  lemma {:induction false} SumConcat(a: seq<nat>, b: seq<nat>)
    ensures Sum(a + b) == Sum(a) + Sum(b)
    decreases |b|
  {
    if b == [] {
      assert a + b == a;
    } else {
      assert (a + b)[..|a + b| - 1] == a + b[..|b| - 1];
      SumConcat(a, b[..|b| - 1]);
    }
  }

  lemma SumSplit(costs: seq<nat>, at: nat)
    requires at <= |costs|
    ensures Sum(costs) == Sum(costs[..at]) + Sum(costs[at..])
  {
    assert costs == costs[..at] + costs[at..];
    SumConcat(costs[..at], costs[at..]);
  }

  lemma SumOfNone(costs: seq<nat>)
    ensures costs[..0] == [] && Sum([]) == 0
  {
  }

  lemma SumNext(costs: seq<nat>, at: nat)
    requires at < |costs|
    ensures Sum(costs[..at + 1]) == Sum(costs[..at]) + costs[at]
  {
    assert costs[..at + 1][..at] == costs[..at];
  }

  /** `choose_split`: the first least-imbalanced feasible split, exactly when one exists. */
  method ChooseSplit(costs: seq<nat>) returns (r: Option<nat>)
    ensures r.None? <==> forall at: nat :: !Feasible(costs, at)
    ensures r.Some? ==>
              && Feasible(costs, r.value)
              && (forall at: nat :: Feasible(costs, at) ==> Imbalance(costs, r.value) <= Imbalance(costs, at))
              && (forall at: nat :: Feasible(costs, at) && at < r.value ==>
                    Imbalance(costs, r.value) < Imbalance(costs, at))
  {
    hide Sum;
    if |costs| < 2 {
      return None;
    }
    SumOfNone(costs);
    var total := 0;
    var i := 0;
    while i < |costs|
      invariant 0 <= i <= |costs|
      invariant total == Sum(costs[..i])
    {
      SumNext(costs, i);
      total := total + costs[i];
      i := i + 1;
    }
    assert costs[..i] == costs;
    var left := 0;
    var best: Option<(nat, nat)> := None;
    var split := 1;
    assert costs[..0] == [];
    while split < |costs|
      invariant 1 <= split <= |costs|
      invariant left == Sum(costs[..split - 1])
      invariant best.None? ==> forall at: nat :: at < split ==> !Feasible(costs, at)
      invariant best.Some? ==>
                  && best.value.0 < split
                  && Feasible(costs, best.value.0)
                  && best.value.1 == Imbalance(costs, best.value.0)
                  && (forall at: nat :: at < split && Feasible(costs, at) ==> best.value.1 <= Imbalance(costs, at))
                  && (forall at: nat :: at < best.value.0 && Feasible(costs, at) ==>
                        best.value.1 < Imbalance(costs, at))
    {
      SumNext(costs, split - 1);
      left := left + costs[split - 1];
      SumSplit(costs, split);
      var right := total - left;
      if left <= PAGE_BODY_CAPACITY && right <= PAGE_BODY_CAPACITY {
        var imbalance := AbsDiff(left, right);
        if best.None? || imbalance < best.value.1 {
          best := Some((split, imbalance));
        }
      }
      split := split + 1;
    }
    return if best.None? then None else Some(best.value.0);
  }

  predicate Bounded(costs: seq<nat>, most: nat) {
    forall i :: 0 <= i < |costs| ==> costs[i] <= most
  }

  lemma SumOfShort(costs: seq<nat>, most: nat)
    requires |costs| <= 1 && Bounded(costs, most)
    ensures Sum(costs) <= most
  {
    if costs != [] { assert costs[..0] == []; }
  }

  /** The last prefix that still fits is followed by a cell that no longer does. */
  lemma LastFittingPrefix(costs: seq<nat>, limit: nat) returns (at: nat)
    requires Sum(costs) > limit
    ensures at < |costs| && Sum(costs[..at]) <= limit < Sum(costs[..at]) + costs[at]
  {
    at := 0;
    assert costs[..|costs|] == costs;
    while Sum(costs[..at + 1]) <= limit
      invariant at < |costs| && Sum(costs[..at]) <= limit
      decreases |costs| - at
    {
      at := at + 1;
    }
    SumNext(costs, at);
  }

  // ---------- when an overfull page divides ----------

  /** Cell `i` fits neither behind the cells before it nor in front of those after it. */
  predicate Straddles(costs: seq<nat>, i: nat) {
    && i < |costs|
    && Sum(costs[..i]) + costs[i] > PAGE_BODY_CAPACITY
    && Sum(costs[..i]) + PAGE_BODY_CAPACITY < Sum(costs)
  }

  /** The cells go on one page or on two. */
  ghost predicate Divisible(costs: seq<nat>) {
    Fit(costs) || forall i: nat :: !Straddles(costs, i)
  }

  lemma {:induction false} PrefixGrows(costs: seq<nat>, i: nat, j: nat)
    requires i <= j <= |costs|
    ensures Sum(costs[..i]) <= Sum(costs[..j]) <= Sum(costs)
    decreases j - i
  {
    SumSplit(costs, j);
    if i < j {
      PrefixGrows(costs, i, j - 1);
      SumNext(costs, j - 1);
    }
  }

  /** An overfull page has a two-page division exactly when no cell belongs on neither page. */
  lemma DividesExactly(costs: seq<nat>)
    requires !Fit(costs)
    ensures (exists at: nat :: Feasible(costs, at)) <==> Divisible(costs)
  {
    if at: nat :| Feasible(costs, at) {
      forall i: nat ensures !Straddles(costs, i) {
        if i < at {
          SumNext(costs, i);
          PrefixGrows(costs, i + 1, at);
        } else if i < |costs| {
          PrefixGrows(costs, at, i);
          SumSplit(costs, at);
        }
      }
    }
    if Divisible(costs) {
      var at := LastFittingPrefix(costs, PAGE_BODY_CAPACITY);
      SumSplit(costs, at);
      assert !Straddles(costs, at);
      assert costs[..0] == [];
      assert Feasible(costs, at);
    }
  }

  /**
   * Small cells always divide: none costs more than `most`, and the excess over the capacity leaves room for
   * one of them, `excess + most` within a page.
   */
  lemma SmallCellsDivide(costs: seq<nat>, most: nat, excess: nat)
    requires Bounded(costs, most)
    requires Sum(costs) <= PAGE_BODY_CAPACITY + excess && excess + most <= PAGE_BODY_CAPACITY + 1
    ensures Divisible(costs)
  {
    forall i: nat ensures !Straddles(costs, i) {
      if i < |costs| { assert costs[i] <= most; }
    }
  }

  // ---------- which division is chosen ----------

  /** What `choose_split` picks on an overfull page: the first of the least imbalanced divisions. */
  ghost predicate ChosenSplit(costs: seq<nat>, at: nat) {
    && !Fit(costs) && 1 <= at < |costs| && Feasible(costs, at)
    && (forall other: nat :: Feasible(costs, other) ==> Imbalance(costs, at) <= Imbalance(costs, other))
    && (forall other: nat :: Feasible(costs, other) && other < at ==> Imbalance(costs, at) < Imbalance(costs, other))
  }

  /** The best division before cell `end`. */
  function BestBelow(costs: seq<nat>, end: nat): (best: Option<nat>)
    requires end <= |costs|
    ensures best.None? ==> forall at: nat :: at < end ==> !Feasible(costs, at)
    ensures best.Some? ==>
              && best.value < end && Feasible(costs, best.value)
              && (forall at: nat :: at < end && Feasible(costs, at) ==>
                    Imbalance(costs, best.value) <= Imbalance(costs, at))
              && (forall at: nat :: at < best.value && Feasible(costs, at) ==>
                    Imbalance(costs, best.value) < Imbalance(costs, at))
  {
    if end == 0 then None
    else
      var best := BestBelow(costs, end - 1);
      if Feasible(costs, end - 1)
         && (best.None? || Imbalance(costs, end - 1) < Imbalance(costs, best.value))
      then Some(end - 1) else best
  }

  /** Where an overfull page divides, if it does. */
  function Division(costs: seq<nat>): (split: Option<nat>)
    ensures split.Some? ==> 1 <= split.value < |costs|
  {
    BestBelow(costs, |costs|)
  }

  lemma DivisionIsChosen(costs: seq<nat>)
    requires !Fit(costs)
    ensures Division(costs).Some? <==> Divisible(costs)
    ensures Division(costs).Some? ==> ChosenSplit(costs, Division(costs).value)
    ensures forall at: nat :: ChosenSplit(costs, at) ==> Division(costs) == Some(at)
  {
    hide Fit, Imbalance, Straddles;
    DividesExactly(costs);
    forall at: nat | ChosenSplit(costs, at) ensures Division(costs) == Some(at) {
      if Division(costs).Some? { ChosenSplitIsUnique(costs, at, Division(costs).value); }
    }
  }

  lemma ChosenSplitIsUnique(costs: seq<nat>, a: nat, b: nat)
    requires ChosenSplit(costs, a) && ChosenSplit(costs, b)
    ensures a == b
  {
    hide Feasible, Imbalance, Fit;
  }

  /** Every cell costs at least its slot. */
  predicate Positive(costs: seq<nat>) {
    forall i :: 0 <= i < |costs| ==> costs[i] > 0
  }

  /** Balance decides feasibility, so the least imbalanced feasible division is the least imbalanced of all. */
  lemma BalancedIsFeasible(costs: seq<nat>, at: nat)
    requires 1 <= at < |costs|
    ensures Imbalance(costs, at) == AbsDiff(2 * Sum(costs[..at]), Sum(costs))
    ensures Feasible(costs, at) <==> Imbalance(costs, at) + Sum(costs) <= 2 * PAGE_BODY_CAPACITY
  {
    SumSplit(costs, at);
  }

  lemma BetterIsFeasible(costs: seq<nat>, chosen: nat, at: nat)
    requires ChosenSplit(costs, chosen) && 1 <= at < |costs|
    ensures Imbalance(costs, chosen) <= Imbalance(costs, at)
    ensures at < chosen ==> Imbalance(costs, chosen) < Imbalance(costs, at)
  {
    hide Sum;
    BalancedIsFeasible(costs, chosen);
    BalancedIsFeasible(costs, at);
  }

  /** Both end pairs leave room for a second cell on their side. */
  predicate KeepsTwo(costs: seq<nat>) {
    && |costs| >= 2
    && 2 * costs[0] + costs[1] < Sum(costs)
    && 2 * costs[|costs| - 1] + costs[|costs| - 2] <= Sum(costs)
  }

  lemma FirstTwo(costs: seq<nat>)
    requires |costs| >= 2
    ensures Sum(costs[..1]) == costs[0] && Sum(costs[..2]) == costs[0] + costs[1]
  {
    SumOfNone(costs);
    SumNext(costs, 0);
    SumNext(costs, 1);
  }

  lemma TwoOnTheLeft(costs: seq<nat>, chosen: nat)
    requires Positive(costs) && ChosenSplit(costs, chosen)
    ensures chosen >= 2 <==> 2 * costs[0] + costs[1] < Sum(costs)
  {
    hide Sum, Fit, Imbalance;
    FirstTwo(costs);
    BalancedIsFeasible(costs, 1);
    BalancedIsFeasible(costs, chosen);
    BetterIsFeasible(costs, chosen, 1);
    if chosen >= 2 {
      PrefixGrows(costs, 2, chosen);
    } else {
      if |costs| == 2 {
        assert costs[..2] == costs;
      } else {
        BalancedIsFeasible(costs, 2);
        BetterIsFeasible(costs, chosen, 2);
      }
    }
  }

  lemma TwoOnTheRight(costs: seq<nat>, chosen: nat)
    requires Positive(costs) && ChosenSplit(costs, chosen)
    ensures chosen + 2 <= |costs| <==> 2 * costs[|costs| - 1] + costs[|costs| - 2] <= Sum(costs)
  {
    hide Sum, Fit, Imbalance;
    var n := |costs|;
    SumNext(costs, n - 1);
    SumNext(costs, n - 2);
    assert costs[..n] == costs;
    BalancedIsFeasible(costs, n - 1);
    BalancedIsFeasible(costs, chosen);
    BetterIsFeasible(costs, chosen, n - 1);
    if chosen + 2 <= n {
      PrefixGrows(costs, chosen, n - 2);
    } else {
      if n == 2 {
        SumOfNone(costs);
      } else {
        BalancedIsFeasible(costs, n - 2);
        BetterIsFeasible(costs, chosen, n - 2);
      }
    }
  }

  /** The chosen division leaves at least two cells on each side exactly when the two ends satisfy `KeepsTwo`. */
  lemma TwoOnEachSideExactly(costs: seq<nat>, chosen: nat)
    requires Positive(costs) && ChosenSplit(costs, chosen)
    ensures 2 <= chosen <= |costs| - 2 <==> KeepsTwo(costs)
  {
    TwoOnTheLeft(costs, chosen);
    TwoOnTheRight(costs, chosen);
  }

  /** Under the size premise for internal pages the ends never strand a child. */
  lemma SmallSeparatorsKeepTwo(costs: seq<nat>, most: nat)
    requires Bounded(costs, most) && 3 * most <= PAGE_BODY_CAPACITY && !Fit(costs)
    ensures KeepsTwo(costs)
  {
    if |costs| <= 1 {
      SumOfShort(costs, most);
      assert false;
    }
  }

  /** The rule can strand one child: three 1500-byte separators divide 1 | 2. */
  lemma LargeSeparatorsStrandAChild()
    ensures var costs := [1514, 1514, 1514]; ChosenSplit(costs, 1) && !KeepsTwo(costs)
  {
    var costs: seq<nat> := [1514, 1514, 1514];
    assert costs[..0] == [] && costs[3..] == [];
    SumNext(costs, 0);
    SumNext(costs, 1);
    SumNext(costs, 2);
    SumSplit(costs, 1);
    SumSplit(costs, 2);
    assert costs[..3] == costs;
    forall at: nat | Feasible(costs, at)
      ensures Imbalance(costs, 1) <= Imbalance(costs, at)
    {
      assert at == 1 || at == 2;
    }
  }

  /** A division need not exist: a full-page cell between two half-page ones, each of them a valid leaf cell. */
  lemma FullPageCellBlocksInsertion()
    ensures var costs := [2026, PAGE_BODY_CAPACITY, 2026];
            && Fit([costs[0], costs[2]]) && Fit([costs[1]])
            && !Divisible(costs) && forall at: nat :: !Feasible(costs, at)
  {
    var costs: seq<nat> := [2026, PAGE_BODY_CAPACITY, 2026];
    assert costs[..0] == [];
    SumNext(costs, 0);
    SumNext(costs, 1);
    SumNext(costs, 2);
    assert costs[..3] == costs;
    var pair: seq<nat> := [2026, 2026];
    assert pair[..1] == [2026] && [2026][..0] == [];
    assert Sum([2026]) == 2026;
    var one: seq<nat> := [PAGE_BODY_CAPACITY];
    assert one[..0] == [];
    assert Straddles(costs, 1);
    DividesExactly(costs);
  }
}
