/** The three-list result of merging a source collection into a target one
    (MergeResult.cs) and its list-wise operators (MergeResultExtensions.cs). */
module Merging {
  /** `MergeResult(AddingItems, CombineItems, RemovingItems)`; the enumerable
      constructor buffers each list, so it is this same value. */
  datatype MergeResult<S, T> = MergeResult(addingItems: seq<T>, combineItems: seq<(S, T)>, removingItems: seq<S>) {
    /** `IsEmpty`: nothing to add and nothing to remove. */
    predicate IsEmpty() {
      |removingItems| == 0 && |addingItems| == 0
    }
  }

  /** `MergeResult.Empty`. */
  function Empty<S, T>(): (r: MergeResult<S, T>)
    ensures r.addingItems == [] && r.combineItems == [] && r.removingItems == []
    ensures r.IsEmpty()
  {
    MergeResult([], [], [])
  }

  /** Combine pairs do not affect `IsEmpty`. */
  lemma CombineItemsIgnoredByIsEmpty<S, T>(combine: seq<(S, T)>)
    ensures MergeResult([], combine, []).IsEmpty()
  {
  }

  function Map<A, B>(xs: seq<A>, f: A -> B): (r: seq<B>)
    ensures |r| == |xs|
    ensures forall i :: 0 <= i < |xs| ==> r[i] == f(xs[i])
  {
    seq(|xs|, i requires 0 <= i < |xs| => f(xs[i]))
  }

  function Filter<A>(xs: seq<A>, p: A -> bool): (r: seq<A>)
    ensures |r| <= |xs|
    ensures forall x :: x in r ==> x in xs && p(x)
    ensures forall i :: 0 <= i < |xs| && p(xs[i]) ==> xs[i] in r
    ensures forall x :: x in xs ==> multiset(r)[x] == if p(x) then multiset(xs)[x] else 0
  {
    if |xs| == 0 then []
    else
      assert xs == [xs[0]] + xs[1..];
      (if p(xs[0]) then [xs[0]] else []) + Filter(xs[1..], p)
  }

  /** Filtering keeps the relative order: it distributes over concatenation. */
  lemma {:induction false} FilterAppend<A>(xs: seq<A>, ys: seq<A>, p: A -> bool)
    ensures Filter(xs + ys, p) == Filter(xs, p) + Filter(ys, p)
    decreases |xs|
  {
    if |xs| == 0 {
      assert xs + ys == ys;
    } else {
      assert (xs + ys)[0] == xs[0];
      assert (xs + ys)[1..] == xs[1..] + ys;
      FilterAppend(xs[1..], ys, p);
    }
  }

  /** `Select(selector)`: maps every item and both sides of every pair. */
  function Select<S, R>(m: MergeResult<S, S>, selector: S -> R): (r: MergeResult<R, R>)
    ensures |r.addingItems| == |m.addingItems| && |r.combineItems| == |m.combineItems| && |r.removingItems| == |m.removingItems|
    ensures forall i :: 0 <= i < |m.addingItems| ==> r.addingItems[i] == selector(m.addingItems[i])
    ensures forall i :: 0 <= i < |m.removingItems| ==> r.removingItems[i] == selector(m.removingItems[i])
    ensures forall i :: 0 <= i < |m.combineItems| ==>
      r.combineItems[i] == (selector(m.combineItems[i].0), selector(m.combineItems[i].1))
  {
    MergeResult(
      Map(m.addingItems, selector),
      Map(m.combineItems, (t: (S, S)) => (selector(t.0), selector(t.1))),
      Map(m.removingItems, selector))
  }

  /** `Where(filter)`: a pair survives only when both components pass. */
  function Where<S>(m: MergeResult<S, S>, filter: S -> bool): (r: MergeResult<S, S>)
    ensures forall x :: x in r.addingItems ==> x in m.addingItems && filter(x)
    ensures forall i :: 0 <= i < |m.addingItems| && filter(m.addingItems[i]) ==> m.addingItems[i] in r.addingItems
    ensures forall x :: x in r.removingItems ==> x in m.removingItems && filter(x)
    ensures forall i :: 0 <= i < |m.removingItems| && filter(m.removingItems[i]) ==> m.removingItems[i] in r.removingItems
    ensures forall t :: t in r.combineItems ==> t in m.combineItems && filter(t.0) && filter(t.1)
    ensures forall i :: 0 <= i < |m.combineItems| && filter(m.combineItems[i].0) && filter(m.combineItems[i].1) ==>
      m.combineItems[i] in r.combineItems
    ensures forall x :: x in m.addingItems ==> multiset(r.addingItems)[x] == if filter(x) then multiset(m.addingItems)[x] else 0
    ensures forall x :: x in m.removingItems ==> multiset(r.removingItems)[x] == if filter(x) then multiset(m.removingItems)[x] else 0
    ensures forall t :: t in m.combineItems ==> multiset(r.combineItems)[t] == if filter(t.0) && filter(t.1) then multiset(m.combineItems)[t] else 0
  {
    MergeResult(
      Filter(m.addingItems, filter),
      Filter(m.combineItems, (t: (S, S)) => filter(t.0) && filter(t.1)),
      Filter(m.removingItems, filter))
  }

  /** `Concat(m2)`: each list of `m1` followed by the same list of `m2`. */
  function Concat<S, T>(m1: MergeResult<S, T>, m2: MergeResult<S, T>): (r: MergeResult<S, T>)
    ensures r.IsEmpty() <==> m1.IsEmpty() && m2.IsEmpty()
    ensures |r.addingItems| == |m1.addingItems| + |m2.addingItems| && r.addingItems[..|m1.addingItems|] == m1.addingItems && r.addingItems[|m1.addingItems|..] == m2.addingItems
    ensures |r.combineItems| == |m1.combineItems| + |m2.combineItems| && r.combineItems[..|m1.combineItems|] == m1.combineItems && r.combineItems[|m1.combineItems|..] == m2.combineItems
    ensures |r.removingItems| == |m1.removingItems| + |m2.removingItems| && r.removingItems[..|m1.removingItems|] == m1.removingItems && r.removingItems[|m1.removingItems|..] == m2.removingItems
  {
    MergeResult(m1.addingItems + m2.addingItems, m1.combineItems + m2.combineItems, m1.removingItems + m2.removingItems)
  }

  lemma ConcatAssociative<S, T>(a: MergeResult<S, T>, b: MergeResult<S, T>, c: MergeResult<S, T>)
    ensures Concat(Concat(a, b), c) == Concat(a, Concat(b, c))
  {
  }

  lemma ConcatEmptyIdentity<S, T>(m: MergeResult<S, T>)
    ensures Concat(Empty(), m) == m
    ensures Concat(m, Empty()) == m
  {
  }

  /** `ChangeSource(selector)`: the source side is mapped, the adding items
      are kept as they are. */
  function ChangeSource<S, T, N>(m: MergeResult<S, T>, selector: S -> N): (r: MergeResult<N, T>)
    ensures r.addingItems == m.addingItems
    ensures |r.removingItems| == |m.removingItems| && |r.combineItems| == |m.combineItems|
    ensures forall i :: 0 <= i < |m.removingItems| ==> r.removingItems[i] == selector(m.removingItems[i])
    ensures forall i :: 0 <= i < |m.combineItems| ==> r.combineItems[i] == (selector(m.combineItems[i].0), m.combineItems[i].1)
  {
    MergeResult(
      m.addingItems,
      Map(m.combineItems, (t: (S, T)) => (selector(t.0), t.1)),
      Map(m.removingItems, selector))
  }

  /** `ChangeTarget(selector)`: the target side is mapped, the removing
      items are kept as they are. */
  function ChangeTarget<S, T, N>(m: MergeResult<S, T>, selector: T -> N): (r: MergeResult<S, N>)
    ensures r.removingItems == m.removingItems
    ensures |r.addingItems| == |m.addingItems| && |r.combineItems| == |m.combineItems|
    ensures forall i :: 0 <= i < |m.addingItems| ==> r.addingItems[i] == selector(m.addingItems[i])
    ensures forall i :: 0 <= i < |m.combineItems| ==> r.combineItems[i] == (m.combineItems[i].0, selector(m.combineItems[i].1))
  {
    MergeResult(
      Map(m.addingItems, selector),
      Map(m.combineItems, (t: (S, T)) => (t.0, selector(t.1))),
      m.removingItems)
  }

  /** With one mapping on both sides, changing the source and then the
      target is `Select`. */
  lemma ChangeBothIsSelect<S, R>(m: MergeResult<S, S>, selector: S -> R)
    ensures ChangeTarget(ChangeSource(m, selector), selector) == Select(m, selector)
  {
  }

  /** Filtering a concatenation is concatenating the filtered parts. */
  lemma WhereDistributesOverConcat<S>(m1: MergeResult<S, S>, m2: MergeResult<S, S>, filter: S -> bool)
    ensures Where(Concat(m1, m2), filter) == Concat(Where(m1, filter), Where(m2, filter))
  {
    FilterAppend(m1.addingItems, m2.addingItems, filter);
    FilterAppend(m1.combineItems, m2.combineItems, (t: (S, S)) => filter(t.0) && filter(t.1));
    FilterAppend(m1.removingItems, m2.removingItems, filter);
  }

  /** Filtering preserves emptiness. */
  lemma WhereKeepsEmpty<S>(m: MergeResult<S, S>, filter: S -> bool)
    requires m.IsEmpty()
    ensures Where(m, filter).IsEmpty()
  {
  }
}
