/** The pager's bounded cache: a map of page images and a recency queue. */
module PageCache {
  import opened Options

  function Without(order: seq<nat>, id: nat): (rest: seq<nat>)
    ensures id !in rest
    ensures forall other :: other in rest <==> other in order && other != id
  {
    if order == [] then []
    else if order[0] == id then Without(order[1..], id)
    else [order[0]] + Without(order[1..], id)
  }

  /** Distinct ids of an access history, least recently used first. */
  function Recency(history: seq<nat>): (order: seq<nat>)
    ensures forall id :: id in order <==> id in history
  {
    if history == [] then []
    else
      var last := history[|history| - 1];
      Without(Recency(history[..|history| - 1]), last) + [last]
  }

  /** The `capacity` most recently used ids of a history. */
  function Resident(history: seq<nat>, capacity: nat): seq<nat> {
    var order := Recency(history);
    if |order| <= capacity then order else order[|order| - capacity..]
  }

  predicate Distinct(order: seq<nat>) {
    forall i, j :: 0 <= i < j < |order| ==> order[i] != order[j]
  }

  lemma {:induction false} WithoutKeepsDistinct(order: seq<nat>, id: nat)
    requires Distinct(order)
    ensures Distinct(Without(order, id))
    ensures |Without(order, id)| == if id in order then |order| - 1 else |order|
    decreases |order|
  {
    if order != [] {
      WithoutKeepsDistinct(order[1..], id);
      assert order[0] !in order[1..];
      assert id in order <==> id == order[0] || id in order[1..];
    }
  }

  lemma {:induction false} WithoutAbsent(order: seq<nat>, id: nat)
    requires id !in order
    ensures Without(order, id) == order
    decreases |order|
  {
    if order != [] {
      assert order == [order[0]] + order[1..];
      WithoutAbsent(order[1..], id);
    }
  }

  lemma {:induction false} WithoutAt(order: seq<nat>, at: nat)
    requires Distinct(order) && at < |order|
    ensures Without(order, order[at]) == order[..at] + order[at + 1..]
    decreases |order|
  {
    if at == 0 {
      WithoutAbsent(order[1..], order[0]);
    } else {
      WithoutAt(order[1..], at - 1);
      assert order[1..][..at - 1] == order[1..at];
      assert order[..at] == [order[0]] + order[1..at];
      assert order[1..][at..] == order[at + 1..];
    }
  }

  lemma {:induction false} RecencyIsDistinct(history: seq<nat>)
    ensures Distinct(Recency(history))
    decreases |history|
  {
    if history != [] {
      RecencyIsDistinct(history[..|history| - 1]);
      WithoutKeepsDistinct(Recency(history[..|history| - 1]), history[|history| - 1]);
    }
  }

  lemma RecencyStep(history: seq<nat>, id: nat)
    ensures Recency(history + [id]) == Without(Recency(history), id) + [id]
  {
    assert (history + [id])[..|history|] == history;
  }

  /** Using a resident id moves it to the back. */
  lemma HitMovesToBack(history: seq<nat>, capacity: nat, at: nat)
    requires at < |Resident(history, capacity)|
    ensures var order := Resident(history, capacity);
            Resident(history + [order[at]], capacity) == order[..at] + order[at + 1..] + [order[at]]
  {
    hide Recency, Without;
    var all, order := Recency(history), Resident(history, capacity);
    var skip := |all| - |order|;
    RecencyIsDistinct(history);
    RecencyStep(history, order[at]);
    WithoutAt(all, skip + at);
    assert all[skip + at] == order[at];
    assert all[..skip + at] + all[skip + at + 1..] == all[..skip] + (order[..at] + order[at + 1..]);
  }

  /** Using an absent id appends it and, at capacity, drops exactly the front. */
  lemma MissAppendsAndEvicts(history: seq<nat>, capacity: nat, id: nat)
    requires capacity > 0 && id !in Resident(history, capacity)
    ensures var order := Resident(history, capacity);
            Resident(history + [id], capacity)
            == (if |order| < capacity then order else order[1..]) + [id]
  {
    hide Recency, Without;
    var all, order := Recency(history), Resident(history, capacity);
    var skip := |all| - |order|;
    RecencyIsDistinct(history);
    RecencyStep(history, id);
    if id in all {
      var at :| 0 <= at < |all| && all[at] == id;
      assert forall k :: skip <= k < |all| ==> all[k] == order[k - skip];
      WithoutAt(all, at);
      assert skip > 0 && |order| == capacity;
      assert (all[..at] + all[at + 1..])[skip - 1..] == all[skip..];
    } else {
      WithoutAbsent(all, id);
    }
    var used := Without(all, id) + [id];
    assert Recency(history + [id]) == used;
    if |order| < capacity {
      assert skip == 0 && used == order + [id];
    } else {
      assert used[|used| - capacity..] == order[1..] + [id];
    }
  }

  class PageCache<V> {
    const capacity: nat
    var pages: map<nat, V>
    var order: seq<nat>
    /** Every id used so far: successful lookups and insertions. */
    ghost var history: seq<nat>

    /** The queue lists exactly the cached ids, once each, least recently used first. */
    ghost predicate Valid()
      reads this
    {
      && capacity > 0
      && order == Resident(history, capacity)
      && (forall id :: id in pages <==> id in order)
    }

    lemma QueueFacts()
      requires Valid()
      ensures Distinct(order) && |pages| == |order| <= capacity
    {
      ResidentFacts(history, capacity);
      DistinctSize(order, pages.Keys);
    }

    constructor (capacity: nat)
      requires capacity > 0
      ensures Valid() && pages == map[] && history == []
      ensures this.capacity == capacity
    {
      this.capacity := capacity;
      pages := map[];
      order := [];
      history := [];
    }

    method Touch(id: nat)
      requires Valid() && id in pages
      modifies this`order, this`history
      ensures Valid()
      ensures history == old(history) + [id]
    {
      hide Recency, Without, Resident;
      QueueFacts();
      var position := 0;
      while order[position] != id
        invariant 0 <= position < |order|
        invariant id in order[position..]
        decreases |order| - position
      {
        assert order[position..] == [order[position]] + order[position + 1..];
        position := position + 1;
      }
      HitMovesToBack(history, capacity, position);
      MovedMembers(order, position);
      order := order[..position] + order[position + 1..];
      order := order + [id];
      history := history + [id];
    }

    method Get(id: nat) returns (r: Option<V>)
      requires Valid()
      modifies this`order, this`history
      ensures Valid()
      ensures r == if id in pages then Some(pages[id]) else None
      ensures history == if id in pages then old(history) + [id] else old(history)
    {
      if id !in pages {
        return None;
      }
      Touch(id);
      return Some(pages[id]);
    }

    /** Inserts or replaces; a full cache gives up exactly its least recently used page. */
    method Insert(id: nat, page: V)
      requires Valid()
      modifies this
      ensures Valid()
      ensures history == old(history) + [id]
      ensures id in pages && pages[id] == page
      ensures forall other :: other in pages && other != id ==>
                other in old(pages) && pages[other] == old(pages)[other]
      ensures id in old(pages) ==> pages == old(pages)[id := page]
      ensures id !in old(pages) && |old(pages)| < capacity ==> pages == old(pages)[id := page]
      ensures id !in old(pages) && |old(pages)| == capacity ==>
                old(order) != [] && pages == old(pages)[id := page] - {old(order)[0]}
    {
      hide Recency, Without, Resident;
      QueueFacts();
      var replaced := id in pages;
      pages := pages[id := page];
      if replaced {
        Touch(id);
        return;
      }
      MissAppendsAndEvicts(history, capacity, id);
      GrownByOne(old(pages), id, page);
      if |pages| > capacity {
        if order != [] {
          FrontLeaves(order);
          pages := pages - {order[0]};
          order := order[1..];
        }
      }
      assert forall other :: other in pages <==> other == id || other in order;
      order := order + [id];
      history := history + [id];
    }
  }

  lemma {:induction false} DistinctSize(order: seq<nat>, ids: set<nat>)
    requires Distinct(order) && forall id :: id in ids <==> id in order
    ensures |ids| == |order|
    decreases |order|
  {
    if order != [] {
      var front, last := order[..|order| - 1], order[|order| - 1];
      assert order == front + [last];
      DistinctSize(front, ids - {last});
    }
  }

  lemma ResidentFacts(history: seq<nat>, capacity: nat)
    ensures Distinct(Resident(history, capacity)) && |Resident(history, capacity)| <= capacity
  {
    RecencyIsDistinct(history);
  }

  lemma GrownByOne<V>(pages: map<nat, V>, id: nat, page: V)
    requires id !in pages
    ensures |pages[id := page]| == |pages| + 1
  {
    assert pages[id := page].Keys == pages.Keys + {id};
  }

  lemma FrontLeaves(order: seq<nat>)
    requires Distinct(order) && order != []
    ensures forall id :: id in order[1..] <==> id in order && id != order[0]
  {
    assert order == [order[0]] + order[1..];
  }

  lemma MovedMembers(order: seq<nat>, at: nat)
    requires at < |order|
    ensures var moved := order[..at] + order[at + 1..] + [order[at]];
            forall id :: id in moved <==> id in order
  {
    assert order == order[..at] + [order[at]] + order[at + 1..];
  }
}
