/** Merging the results of perception steps. */
module StepMerge {
  import opened Ordering

  /** References, statements and cost names are of any type with equality. */
  datatype StepResult<T> = StepResult(
    candidates: seq<T>, propositions: seq<T>, handles: seq<T>, unresolved: seq<T>, cost: map<T, T>)

  function Empty<T(==)>(): StepResult<T> { StepResult([], [], [], [], map[]) }

  /** `_merge_step_results`. Handles are sorted by `less`, which for Python is the order on strings. */
  function Merge<T(==, !new)>(less: (T, T) -> bool, left: StepResult<T>, right: StepResult<T>): StepResult<T>
    requires StrictTotal(less)
  {
    StepResult(
      left.candidates + right.candidates,
      left.propositions + right.propositions,
      SortedSet(less, left.handles + right.handles),
      Unique(left.unresolved + right.unresolved),
      left.cost + right.cost)
  }

  /** Steps can be merged in any grouping. */
  lemma MergeAssociative<T(!new)>(less: (T, T) -> bool, a: StepResult<T>, b: StepResult<T>, c: StepResult<T>)
    requires StrictTotal(less)
    ensures Merge(less, Merge(less, a, b), c) == Merge(less, a, Merge(less, b, c))
  {
    var l, r := Merge(less, Merge(less, a, b), c), Merge(less, a, Merge(less, b, c));
    assert l.candidates == r.candidates && l.propositions == r.propositions && l.cost == r.cost;
    assert l.handles == r.handles by { SortedSetAssociates(less, a.handles, b.handles, c.handles); }
    assert l.unresolved == r.unresolved by { UniqueAssociates(a.unresolved, b.unresolved, c.unresolved); }
  }

  ghost predicate Canonical<T(!new)>(less: (T, T) -> bool, r: StepResult<T>) {
    Increasing(less, r.handles) && Distinct(r.unresolved)
  }

  lemma SortingFixes<T(!new)>(less: (T, T) -> bool, s: seq<T>)
    requires StrictTotal(less)
    ensures SortedSet(less, s) == s <==> Increasing(less, s)
  {
    if Increasing(less, s) { IncreasingUnique(less, SortedSet(less, s), s); }
  }

  lemma UniqueFixes<T(!new)>(s: seq<T>)
    ensures Unique(s) == s <==> Distinct(s)
  {
    if Distinct(s) { UniqueFixesDistinct(s); }
  }

  /** Merging makes the canonical form. */
  lemma MergeIsCanonical<T(!new)>(less: (T, T) -> bool, a: StepResult<T>, b: StepResult<T>)
    requires StrictTotal(less)
    ensures Canonical(less, Merge(less, a, b))
  {
  }

  /** So merging with the empty result changes no merged result. */
  lemma MergedIsFixed<T(!new)>(less: (T, T) -> bool, a: StepResult<T>, b: StepResult<T>)
    requires StrictTotal(less)
    ensures Merge(less, Merge(less, a, b), Empty()) == Merge(less, a, b) == Merge(less, Empty(), Merge(less, a, b))
  {
    MergeIsCanonical(less, a, b);
    EmptyIsIdentity(less, Merge(less, a, b));
  }

  function Normal<T(==, !new)>(less: (T, T) -> bool, r: StepResult<T>): StepResult<T>
    requires StrictTotal(less)
  {
    StepResult(r.candidates, r.propositions, SortedSet(less, r.handles), Unique(r.unresolved), r.cost)
  }

  /** Merging with nothing only brings a result into canonical form. */
  lemma MergeEmpty<T(!new)>(less: (T, T) -> bool, r: StepResult<T>)
    requires StrictTotal(less)
    ensures Merge(less, Empty(), r) == Normal(less, r) == Merge(less, r, Empty())
  {
    ConcatEmpty(r.handles);
    ConcatEmpty(r.unresolved);
    ConcatEmpty(r.candidates);
    ConcatEmpty(r.propositions);
    assert map[] + r.cost == r.cost && r.cost + map[] == r.cost;
  }

  lemma ConcatEmpty<T>(s: seq<T>)
    ensures [] + s == s && s + [] == s
  {
  }

  /** The empty result is an identity for exactly the results in canonical form. */
  lemma EmptyIsIdentity<T(!new)>(less: (T, T) -> bool, r: StepResult<T>)
    requires StrictTotal(less)
    ensures Merge(less, Empty(), r) == r <==> Canonical(less, r)
    ensures Merge(less, r, Empty()) == r <==> Canonical(less, r)
  {
    MergeEmpty(less, r);
    SortingFixes(less, r.handles);
    UniqueFixes(r.unresolved);
  }

  /** A cost reported by the later step wins; nothing else is lost or invented. */
  lemma MergeKeepsEverything<T(!new)>(less: (T, T) -> bool, a: StepResult<T>, b: StepResult<T>)
    requires StrictTotal(less)
    ensures forall h :: h in Merge(less, a, b).handles <==> h in a.handles || h in b.handles
    ensures forall u :: u in Merge(less, a, b).unresolved <==> u in a.unresolved || u in b.unresolved
    ensures Merge(less, a, b).cost.Keys == a.cost.Keys + b.cost.Keys
    ensures forall k :: k in Merge(less, a, b).cost ==>
      Merge(less, a, b).cost[k] == if k in b.cost then b.cost[k] else a.cost[k]
    ensures |Merge(less, a, b).candidates| == |a.candidates| + |b.candidates|
    ensures Merge(less, a, b).candidates[..|a.candidates|] == a.candidates
    ensures Merge(less, a, b).candidates[|a.candidates|..] == b.candidates
    ensures |Merge(less, a, b).propositions| == |a.propositions| + |b.propositions|
    ensures Merge(less, a, b).propositions[..|a.propositions|] == a.propositions
    ensures Merge(less, a, b).propositions[|a.propositions|..] == b.propositions
    ensures Increasing(less, Merge(less, a, b).handles)
    ensures exists at: seq<int> :: Picks(a.unresolved + b.unresolved, at, Merge(less, a, b).unresolved)
  {
    var at := UniqueFirsts(a.unresolved + b.unresolved);
    forall h ensures h in Merge(less, a, b).handles <==> h in a.handles || h in b.handles {
      assert h in SortedSet(less, a.handles + b.handles) <==> h in a.handles + b.handles;
    }
    forall u ensures u in Merge(less, a, b).unresolved <==> u in a.unresolved || u in b.unresolved {
      assert u in Unique(a.unresolved + b.unresolved) <==> u in a.unresolved + b.unresolved;
    }
  }
}
