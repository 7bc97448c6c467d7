/** What a mutation spends: pages of the reuse pool first, then new ones, with their durable writes and counters. */
module PageBudget {
  import opened Options
  import opened SplitArithmetic
  import opened Superblocks
  import opened PageStore
  import Bytes

  /** Everything that decides whether the next page can be written, and where it goes. */
  datatype Meter = Meter(pool: seq<nat>, pageCount: nat, generation: nat, events: nat, fault: Option<Fault>,
                         poisoned: bool)

  /** How many of the next `n` pages lie beyond the pool. */
  function Appended(m: Meter, n: nat): nat {
    if n <= |m.pool| then 0 else n - |m.pool|
  }

  /** After `n` pages: one durable write for a recycled page, and a superblock besides for an appended one. */
  function Spent(m: Meter, n: nat): Meter {
    m.(pool := m.pool[n - Appended(m, n)..], pageCount := m.pageCount + Appended(m, n),
       generation := m.generation + Appended(m, n), events := m.events + n + Appended(m, n))
  }

  /** No fault lies ahead, and the format's counters reach. */
  predicate Affords(m: Meter, n: nat) {
    && !m.poisoned && !Strikes(m.fault, m.events, Spent(m, n).events)
    && (Appended(m, n) > 0 ==>
          Spent(m, n).generation < Bytes.U64_LIMIT && Spent(m, n).pageCount * PAGE_SIZE < Bytes.U64_LIMIT)
  }

  /** A handle is poisoned only by a fault that struck one of the writes in between. */
  predicate Honest(before: Meter, after: Meter) {
    && after.fault == before.fault && before.events <= after.events
    && (after.poisoned ==> before.poisoned || Strikes(before.fault, before.events, after.events))
  }

  /**
   * What an operation that writes `n` pages, if it is possible at all, makes of the meter: it succeeds exactly when
   * it is possible and affordable, and then has spent exactly that.
   */
  predicate Outcome(before: Meter, after: Meter, n: nat, possible: bool, ok: bool) {
    && Honest(before, after)
    && (ok <==> possible && Affords(before, n))
    && (ok ==> after == Spent(before, n))
  }

  /** The root superblock that publishes a mutation. */
  function RootSpent(m: Meter): Meter {
    m.(generation := m.generation + 1, events := m.events + 1)
  }

  predicate AffordsRoot(m: Meter) {
    m.generation + 1 < Bytes.U64_LIMIT && !Strikes(m.fault, m.events, m.events + 1)
  }

  /** A put of `n` data pages goes through exactly when it is possible and affordable from where it starts. */
  predicate PutOutcome(before: Meter, after: Meter, n: nat, possible: bool, ok: bool) {
    && Honest(before, after)
    && (ok <==> possible && Affords(before, n) && AffordsRoot(Spent(before, n)))
    && (ok ==> after == RootSpent(Spent(before, n)))
  }

  lemma PutFails(before: Meter, after: Meter, n: nat, possible: bool)
    requires Outcome(before, after, n, possible, false)
    ensures PutOutcome(before, after, n, possible, false)
  {
  }

  lemma PutPublishes(before: Meter, built: Meter, after: Meter, n: nat, ok: bool)
    requires Outcome(before, built, n, true, true) && Honest(built, after)
    requires (ok <==> AffordsRoot(built)) && (ok ==> after == RootSpent(built))
    ensures PutOutcome(before, after, n, true, ok)
  {
    HonestTransitive(before, built, after);
  }

  /** The unreachable pages below `end`, ascending. */
  function Unreached(end: nat, reachable: set<nat>): seq<nat> {
    if end <= SUPERBLOCK_COUNT then []
    else Unreached(end - 1, reachable) + if end - 1 in reachable then [] else [end - 1]
  }

  /** The pool holds every committed page that is not reachable. */
  lemma {:induction false} UnreachedCount(end: nat, reachable: set<nat>)
    requires end >= SUPERBLOCK_COUNT && forall id :: id in reachable ==> SUPERBLOCK_COUNT <= id < end
    ensures |Unreached(end, reachable)| + |reachable| == end - SUPERBLOCK_COUNT
    decreases end
  {
    if end == SUPERBLOCK_COUNT {
      assert reachable == {};
    } else {
      var last := end - 1;
      UnreachedWithout(last, reachable, last);
      if last in reachable {
        UnreachedCount(last, reachable - {last});
      } else {
        UnreachedCount(last, reachable);
      }
    }
  }

  lemma {:induction false} UnreachedWithout(end: nat, reachable: set<nat>, id: nat)
    requires id >= end
    ensures Unreached(end, reachable - {id}) == Unreached(end, reachable)
    decreases end
  {
    if end > SUPERBLOCK_COUNT { UnreachedWithout(end - 1, reachable, id); }
  }

  function Larger(a: nat, b: nat): nat {
    if a < b then b else a
  }

  /** The file grows to the reachable pages plus those a put writes, if it is not as large already. */
  lemma HighWaterMark(m: Meter, reachable: set<nat>, n: nat)
    requires m.pageCount >= SUPERBLOCK_COUNT && forall id :: id in reachable ==> SUPERBLOCK_COUNT <= id < m.pageCount
    requires m.pool == Unreached(m.pageCount, reachable)
    ensures var pages, needed := m.pageCount - SUPERBLOCK_COUNT, |reachable| + n;
            Spent(m, n).pageCount - SUPERBLOCK_COUNT == Larger(pages, needed)
  {
    UnreachedCount(m.pageCount, reachable);
  }

  lemma SpentAdds(m: Meter, a: nat, b: nat)
    ensures Spent(Spent(m, a), b) == Spent(m, a + b)
    ensures Affords(m, a + b) <==> Affords(m, a) && Affords(Spent(m, a), b)
  {
    var first := Spent(m, a);
    assert Appended(m, a) + Appended(first, b) == Appended(m, a + b);
    assert first.pool[b - Appended(first, b)..] == m.pool[a + b - Appended(m, a + b)..];
    assert Spent(m, a).pageCount * PAGE_SIZE <= Spent(m, a + b).pageCount * PAGE_SIZE;
  }

  /** One page out of the pool: one durable write. */
  lemma RecycledSpends(m: Meter, after: Meter, ok: bool)
    requires m.pool != [] && !m.poisoned && Honest(m, after)
    requires ok <==> !Strikes(m.fault, m.events, m.events + 1)
    requires ok ==> after == m.(pool := m.pool[1..], events := m.events + 1)
    ensures Outcome(m, after, 1, true, ok)
  {
  }

  /** One page at the end: two durable writes, and one step of both counters. */
  lemma AppendedSpends(m: Meter, after: Meter, ok: bool)
    requires m.pool == [] && !m.poisoned && Honest(m, after)
    requires ok <==>
               && m.generation + 1 < Bytes.U64_LIMIT && (m.pageCount + 1) * PAGE_SIZE < Bytes.U64_LIMIT
               && !Strikes(m.fault, m.events, m.events + 2)
    requires ok ==>
               after == m.(pageCount := m.pageCount + 1, generation := m.generation + 1, events := m.events + 2)
    ensures Outcome(m, after, 1, true, ok)
  {
  }

  lemma NothingSpent(m: Meter, possible: bool)
    requires !m.poisoned
    ensures Outcome(m, m, 0, possible, possible)
  {
    assert m.pool[0..] == m.pool;
  }

  /** An impossible operation fails, whatever it has spent. */
  lemma Impossible(before: Meter, after: Meter, n: nat)
    requires Honest(before, after)
    ensures Outcome(before, after, n, false, false)
  {
  }

  lemma HonestTransitive(a: Meter, b: Meter, c: Meter)
    requires Honest(a, b) && Honest(b, c)
    ensures Honest(a, c)
  {
  }

  /** What follows a success adds up. */
  lemma OutcomeThen(a: Meter, b: Meter, c: Meter, n: nat, k: nat, possible: bool, ok: bool)
    requires Outcome(a, b, n, true, true) && Outcome(b, c, k, possible, ok)
    ensures Outcome(a, c, n + k, possible, ok)
  {
    SpentAdds(a, n, k);
  }

  /** What cannot afford its beginning cannot afford the whole. */
  lemma OutcomeFails(a: Meter, b: Meter, n: nat, total: nat, possible: bool)
    requires Outcome(a, b, n, true, false) && n <= total
    ensures Outcome(a, b, total, possible, false)
  {
    SpentAdds(a, n, total - n);
  }

  lemma OutcomeIsHonest(a: Meter, b: Meter, n: nat, possible: bool, ok: bool)
    requires Outcome(a, b, n, possible, ok)
    ensures Honest(a, b)
  {
  }
}
