/** Copy-on-write bookkeeping: which pages a mutation may write, and what it must leave alone. */
module Allocation {
  import opened SplitArithmetic
  import opened BtreePages
  import opened Superblocks
  import opened PageStore
  import opened TreeModel

  // ---------- allocation and what every write leaves alone ----------

  /** Where the next pages come from: recycled orphans first, then the end of the file. */
  datatype Alloc = Alloc(reusable: seq<nat>, pageCount: nat)

  predicate IsFree(a: Alloc, id: nat) {
    id in a.reusable || id >= a.pageCount
  }

  predicate WellFormed(a: Alloc) {
    && (forall i :: 0 <= i < |a.reusable| ==> SUPERBLOCK_COUNT <= a.reusable[i] < a.pageCount)
    && (forall i, j :: 0 <= i < j < |a.reusable| ==> a.reusable[i] != a.reusable[j])
  }

  ghost predicate Shrinks(before: Alloc, after: Alloc) {
    forall id: nat :: IsFree(after, id) ==> IsFree(before, id)
  }

  predicate Taken(before: Alloc, after: Alloc, id: nat) {
    IsFree(before, id) && !IsFree(after, id)
  }

  /** Recovery still shows the same root, and every page that was not free. */
  ghost predicate Intact(before: View, alloc: Alloc, after: View) {
    && after.block.root == before.block.root
    && forall id: nat :: Committed(before.pages, id) && !IsFree(alloc, id) ==>
         Committed(after.pages, id) && after.pages[id - 2] == before.pages[id - 2]
  }

  /** `foot` uses pages of `retained`, plus each newly taken page at most once. */
  ghost predicate Within(foot: multiset<nat>, retained: multiset<nat>, before: Alloc, after: Alloc) {
    forall id: nat :: foot[id] <= retained[id] + (if Taken(before, after, id) then 1 else 0)
  }

  ghost predicate Avoids(ids: multiset<nat>, alloc: Alloc) {
    forall id: nat :: id in ids ==> !IsFree(alloc, id)
  }

  lemma ShrinksTransitive(a: Alloc, b: Alloc, c: Alloc)
    requires Shrinks(a, b) && Shrinks(b, c)
    ensures Shrinks(a, c)
  {
  }

  lemma IntactTransitive(v0: View, a0: Alloc, v1: View, a1: Alloc, v2: View)
    requires Intact(v0, a0, v1) && Shrinks(a0, a1) && Intact(v1, a1, v2)
    ensures Intact(v0, a0, v2)
  {
  }

  lemma WithinCompose(f1: multiset<nat>, r1: multiset<nat>, f2: multiset<nat>, r2: multiset<nat>,
                      a: Alloc, b: Alloc, c: Alloc)
    requires Within(f1, r1, a, b) && Within(f2, r2, b, c)
    requires Shrinks(a, b) && Shrinks(b, c)
    ensures Within(f1 + f2, r1 + r2, a, c)
  {
  }

  lemma WithinAvoids(foot: multiset<nat>, retained: multiset<nat>, a: Alloc, b: Alloc)
    requires Within(foot, retained, a, b) && Avoids(retained, a) && Shrinks(a, b)
    ensures Avoids(foot, b)
  {
  }

  lemma IntactKeeps(v0: View, alloc: Alloc, v1: View, ids: multiset<nat>)
    requires Intact(v0, alloc, v1) && Avoids(ids, alloc)
    ensures Keeps(v0.pages, v1.pages, ids)
  {
  }

  lemma WithinHasNoDuplicates(foot: multiset<nat>, retained: multiset<nat>, a: Alloc, b: Alloc)
    requires Within(foot, retained, a, b) && Avoids(retained, a) && NoDuplicates(retained)
    ensures NoDuplicates(foot)
  {
  }

  /** From one state to a later one of the same mutation. */
  ghost predicate Progressed(v0: View, a0: Alloc, v1: View, a1: Alloc) {
    Intact(v0, a0, v1) && Shrinks(a0, a1)
  }

  lemma ProgressedTransitive(v0: View, a0: Alloc, v1: View, a1: Alloc, v2: View, a2: Alloc)
    requires Progressed(v0, a0, v1, a1) && Progressed(v1, a1, v2, a2)
    ensures Progressed(v0, a0, v2, a2)
  {
    IntactTransitive(v0, a0, v1, a1, v2);
  }

  lemma ProgressedSelf(v: View, a: Alloc)
    ensures Progressed(v, a, v, a)
  {
  }

  /** Pages a later write of the same mutation cannot touch. */
  lemma ProgressedKeeps(v0: View, a0: Alloc, v1: View, a1: Alloc, ids: multiset<nat>)
    requires Progressed(v0, a0, v1, a1) && Avoids(ids, a0)
    ensures Keeps(v0.pages, v1.pages, ids) && Avoids(ids, a1)
  {
  }

  /** These trees are on committed pages that no later write of the mutation reuses. */
  ghost predicate Stored(v: View, a: Alloc, trees: seq<Tree>) {
    (forall i :: 0 <= i < |trees| ==> Holds(v.pages, trees[i])) && Avoids(FootAll(trees), a)
  }

  lemma StoredSurvives(v0: View, a0: Alloc, v1: View, a1: Alloc, trees: seq<Tree>)
    requires Stored(v0, a0, trees) && Progressed(v0, a0, v1, a1)
    ensures Stored(v1, a1, trees)
  {
    hide Holds, Progressed, Avoids, Keeps, FootAll;
    ProgressedKeeps(v0, a0, v1, a1, FootAll(trees));
    forall i | 0 <= i < |trees|
      ensures Holds(v1.pages, trees[i])
    {
      KidFootPart(trees, i);
      KeepsPart(v0.pages, v1.pages, Foot(trees[i]), FootAll(trees));
      Frame(v0.pages, v1.pages, trees[i]);
    }
  }

  lemma StoredConcat(v: View, a: Alloc, left: seq<Tree>, right: seq<Tree>)
    ensures Stored(v, a, left + right) <==> Stored(v, a, left) && Stored(v, a, right)
  {
    hide Holds, FootAll;
    FootConcat(left, right);
    if Stored(v, a, left + right) {
      forall i | 0 <= i < |left| ensures Holds(v.pages, left[i]) { assert (left + right)[i] == left[i]; }
      forall i | 0 <= i < |right| ensures Holds(v.pages, right[i]) { assert (left + right)[|left| + i] == right[i]; }
      forall id: nat ensures id in FootAll(left) || id in FootAll(right) ==> !IsFree(a, id) {
        assert (FootAll(left) + FootAll(right))[id] == FootAll(left)[id] + FootAll(right)[id];
      }
    }
  }

  lemma AvoidsPart(part: multiset<nat>, ids: multiset<nat>, a: Alloc)
    requires Avoids(ids, a) && part <= ids
    ensures Avoids(part, a)
  {
    assert forall id: nat :: id in part ==> id in ids;
  }

  lemma AvoidsSum(x: multiset<nat>, y: multiset<nat>, a: Alloc)
    ensures Avoids(x + y, a) <==> Avoids(x, a) && Avoids(y, a)
  {
    if Avoids(x + y, a) {
      forall id: nat ensures id in x || id in y ==> !IsFree(a, id) {
        assert (x + y)[id] == x[id] + y[id];
      }
    }
  }

  lemma WithinMore(foot: multiset<nat>, retained: multiset<nat>, more: multiset<nat>, a: Alloc, b: Alloc)
    requires Within(foot, retained, a, b) && retained <= more
    ensures Within(foot, more, a, b)
  {
    forall id: nat ensures foot[id] <= more[id] + (if Taken(a, b, id) then 1 else 0) {
      assert retained[id] <= more[id];
    }
  }

  lemma WithinRetained(foot: multiset<nat>, a: Alloc, b: Alloc)
    ensures Within(foot, foot, a, b)
  {
  }

  /** A page is taken once: earlier and later allocations of one mutation never overlap. */
  lemma WithinChain(first: multiset<nat>, kept: multiset<nat>, foot: multiset<nat>, a: Alloc, b: Alloc, c: Alloc)
    requires Within(first, multiset{}, a, b) && Within(foot, kept + first, b, c)
    requires Shrinks(a, b) && Shrinks(b, c)
    ensures Within(foot, kept, a, c)
  {
    forall id: nat ensures foot[id] <= kept[id] + (if Taken(a, c, id) then 1 else 0) {
      assert (kept + first)[id] == kept[id] + first[id];
    }
  }

  lemma WithinSum(f1: multiset<nat>, r1: multiset<nat>, f2: multiset<nat>, a: Alloc, b: Alloc, c: Alloc)
    requires Within(f1, r1, a, b) && Within(f2, multiset{}, b, c)
    requires Shrinks(a, b) && Shrinks(b, c)
    ensures Within(f1 + f2, r1, a, c)
  {
    WithinCompose(f1, r1, f2, multiset{}, a, b, c);
    assert r1 + multiset{} == r1;
  }

  lemma WithinTransitive(f: multiset<nat>, g: multiset<nat>, r: multiset<nat>, a: Alloc, b: Alloc, c: Alloc)
    requires Within(g, r, a, b) && Within(f, g, b, c) && Shrinks(a, b) && Shrinks(b, c)
    ensures Within(f, r, a, c)
  {
  }

  lemma OneTaken(before: Alloc, after: Alloc, id: nat)
    requires Taken(before, after, id)
    ensures Within(multiset{id}, multiset{}, before, after)
  {
  }

  lemma WithinNone(a: Alloc, b: Alloc)
    ensures Within(multiset{}, multiset{}, a, b) && Avoids(multiset{}, b)
  {
  }
}
