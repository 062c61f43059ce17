/** The sequence helpers of EnumerableExtensions.cs. An `IEnumerable<T>` is a
    finite `seq<T>`, except for the chain traversal, whose result may be
    infinite and is modelled by the prefix a consumer reads. */
module Sequences {
  import opened Base
  import opened Maybes

  /** `Match(emptyFunc, singleFunc, manyFunc)`: the source is buffered once
      and exactly one delegate is called, chosen by the element count. */
  function Match<S, R>(source: seq<S>, emptyFunc: Result<R>, singleFunc: S -> Result<R>, manyFunc: seq<S> -> Result<R>): (r: Result<R>)
    ensures |source| == 0 ==> r == emptyFunc
    ensures |source| == 1 ==> r == singleFunc(source[0])
    ensures |source| >= 2 ==> r == manyFunc(source)
  {
    var cache := source;
    if |cache| == 0 then emptyFunc
    else if |cache| == 1 then singleFunc(cache[0])
    else manyFunc(cache)
  }

  /** The message of the exception `ZipStrong` raises. */
  const DifferentLengths: string := "The sequences had different lengths"

  /** `ZipStrong(other, resultSelector)`, fully enumerated: the pairs of the
      common prefix are yielded, and then the enumeration either ends (equal
      lengths) or throws at the first position where exactly one input has
      ended. */
  function ZipStrong<S, O, R>(source: seq<S>, other: seq<O>, resultSelector: (S, O) -> R): (r: Partial<R>)
    ensures |r.items| == if |source| <= |other| then |source| else |other|
    ensures forall i :: 0 <= i < |r.items| ==> r.items[i] == resultSelector(source[i], other[i])
    ensures r.failure.None? <==> |source| == |other|
    ensures r.failure.Some? ==> r.failure.value == InvalidOperation(DifferentLengths)
  {
    if |source| == 0 && |other| == 0 then Partial([], None)
    else if |source| == 0 || |other| == 0 then Partial([], Some(InvalidOperation(DifferentLengths)))
    else
      var rest := ZipStrong(source[1..], other[1..], resultSelector);
      Partial([resultSelector(source[0], other[0])] + rest.items, rest.failure)
  }

  /** Reference definition of `GetDuplicates`: walking left to right, an
      element is yielded when it equals an element before it. */
  function Duplicates<T(==)>(xs: seq<T>): seq<T> {
    if |xs| == 0 then []
    else
      var init := xs[..|xs| - 1];
      Duplicates(init) + (if xs[|xs| - 1] in init then [xs[|xs| - 1]] else [])
  }

  /** One enumeration of the lazy `source.Where(item => !hashSet.Add(item))`,
      starting from the hash set as it stands: an element is yielded when
      it is already in `seen` or equals an element before it. */
  function DuplicatesFrom<T(==)>(seen: set<T>, xs: seq<T>): seq<T> {
    if |xs| == 0 then []
    else
      var init := xs[..|xs| - 1];
      DuplicatesFrom(seen, init) + (if xs[|xs| - 1] in seen || xs[|xs| - 1] in init then [xs[|xs| - 1]] else [])
  }

  /** Enumerating once with a fresh hash set reports the duplicates. */
  lemma {:induction false} FreshEnumerationIsDuplicates<T>(xs: seq<T>)
    ensures DuplicatesFrom({}, xs) == Duplicates(xs)
  {
    if |xs| > 0 {
      FreshEnumerationIsDuplicates(xs[..|xs| - 1]);
    }
  }

  /** Enumerating with a hash set that already holds every element yields
      every element. */
  lemma {:induction false} FullSetYieldsAll<T>(seen: set<T>, xs: seq<T>)
    requires forall i :: 0 <= i < |xs| ==> xs[i] in seen
    ensures DuplicatesFrom(seen, xs) == xs
  {
    if |xs| > 0 {
      FullSetYieldsAll(seen, xs[..|xs| - 1]);
      assert xs == xs[..|xs| - 1] + [xs[|xs| - 1]];
    }
  }

  /** The enumerator of the result: walks the source, adding each item to
      the hash set and yielding it when it was there already. Returns what
      it yields and the hash set afterwards. */
  method EnumerateDuplicates<T(==)>(source: seq<T>, hashSet: set<T>) returns (r: seq<T>, after: set<T>)
    ensures after == hashSet + set j | 0 <= j < |source| :: source[j]
    ensures r == DuplicatesFrom(hashSet, source)
  {
    after := hashSet;
    r := [];
    var i := 0;
    while i < |source|
      invariant 0 <= i <= |source|
      invariant after == hashSet + set j | 0 <= j < i :: source[j]
      invariant r == DuplicatesFrom(hashSet, source[..i])
    {
      var item := source[i];
      var added := item !in after;
      after := after + {item};
      assert source[..i + 1][..i] == source[..i];
      assert item in hashSet || item in source[..i] <==> !added;
      if !added {
        r := r + [item];
      }
      i := i + 1;
    }
    assert source[..|source|] == source;
  }

  /** `GetDuplicates()`: the hash set is created when it is called, and the
      first enumeration of the result yields the duplicates in order. */
  method GetDuplicates<T(==)>(source: seq<T>) returns (r: seq<T>)
    ensures r == Duplicates(source)
  {
    var hashSet;
    r, hashSet := EnumerateDuplicates(source, {});
    FreshEnumerationIsDuplicates(source);
  }

  /** Enumerating the same result twice: the hash set is shared, so the
      second enumeration finds every item already added and yields the
      whole source. */
  method GetDuplicatesEnumeratedTwice<T(==)>(source: seq<T>) returns (first: seq<T>, second: seq<T>)
    ensures first == Duplicates(source)
    ensures second == source
  {
    var hashSet: set<T> := {};
    first, hashSet := EnumerateDuplicates(source, hashSet);
    FreshEnumerationIsDuplicates(source);
    FullSetYieldsAll(hashSet, source);
    second, hashSet := EnumerateDuplicates(source, hashSet);
  }

  /** An element is reported as a duplicate exactly when it occurs at least
      twice in the source. */
  lemma {:induction false} DuplicatesAreRepeated<T>(xs: seq<T>, x: T)
    ensures x in Duplicates(xs) <==> multiset(xs)[x] >= 2
  {
    if |xs| > 0 {
      var init := xs[..|xs| - 1];
      var last := xs[|xs| - 1];
      DuplicatesAreRepeated(init, x);
      assert xs == init + [last];
      assert multiset(xs) == multiset(init) + multiset{last};
      assert last in init <==> multiset(init)[last] > 0;
    }
  }

  /** Each extra occurrence is reported: `[a, a, a]` gives `[a, a]`. */
  lemma TripleGivesTwoDuplicates<T>(a: T)
    ensures Duplicates([a, a, a]) == [a, a]
  {
    assert [a][..0] == [];
    assert Duplicates([a]) == [];
    assert [a, a][..1] == [a];
    assert Duplicates([a, a]) == [a];
    assert [a, a, a][..2] == [a, a];
  }

  /** `SingleMaybe()`: `Just(x)` for exactly `[x]`, `Nothing` otherwise. */
  function SingleMaybe<T>(source: seq<T>): (r: Maybe<T>)
    ensures r.HasValue() <==> |source| == 1
    ensures r.HasValue() ==> r.value == source[0]
  {
    if |source| == 0 then NothingValue()
    else
      var value := source[0];
      OfCondition(!(|source| > 1), Ok(value)).value
  }

  /** `Single(emptyExceptionHandler, manyExceptionHandler)`: the only element,
      or the empty handler's exception, or the many handler's exception built
      from all the items. */
  function Single<T>(source: seq<T>, emptyExceptionHandler: Exception, manyExceptionHandler: seq<T> -> Exception): (r: Result<T>)
    ensures r.Ok? <==> |source| == 1
    ensures r.Ok? ==> r.value == source[0]
    ensures |source| == 0 ==> r == Throw(emptyExceptionHandler)
    ensures |source| >= 2 ==> r == Throw(manyExceptionHandler(source))
  {
    Match(source, Throw(emptyExceptionHandler), (v: T) => Ok(v), (items: seq<T>) => Throw(manyExceptionHandler(items)))
  }

  /** `SingleOrDefault(manyExceptionHandler)`; `defaultValue` is `default(T)`. */
  function SingleOrDefault<T>(source: seq<T>, defaultValue: T, manyExceptionHandler: Exception): (r: Result<T>)
    ensures |source| == 0 ==> r == Ok(defaultValue)
    ensures |source| == 1 ==> r == Ok(source[0])
    ensures |source| >= 2 ==> r == Throw(manyExceptionHandler)
  {
    if |source| == 0 then Ok(defaultValue)
    else
      var current := source[0];
      if |source| > 1 then Throw(manyExceptionHandler) else Ok(current)
  }

  /** The i-th element of the chain `source, next(source), ...`, absent once
      a null has been reached. */
  function ChainAt<T>(source: Option<T>, getNextFunc: T -> Option<T>, i: nat): Option<T>
    decreases i
  {
    if i == 0 then source
    else match source
      case None => None
      case Some(state) => ChainAt(getNextFunc(state), getNextFunc, i - 1)
  }

  /** Chain `GetAllElements(getNextFunc)` as read by a consumer that takes at
      most `limit` elements: the chain may be infinite, so the model gives the
      prefix that is actually enumerated. */
  function ChainElements<T>(source: Option<T>, getNextFunc: T -> Option<T>, limit: nat): (r: seq<T>)
    ensures |r| <= limit
    ensures forall i :: 0 <= i < |r| ==> ChainAt(source, getNextFunc, i) == Some(r[i])
    ensures |r| < limit ==> ChainAt(source, getNextFunc, |r|).None?
    decreases limit
  {
    if limit == 0 then []
    else match source
      case None => []
      case Some(state) => [state] + ChainElements(getNextFunc(state), getNextFunc, limit - 1)
  }

  /** Chain `GetAllElements(getNextFunc, skipFirstElement)`, read up to
      `limit` elements. */
  function ChainElementsSkip<T>(source: Option<T>, getNextFunc: T -> Option<T>, skipFirstElement: bool, limit: nat): (r: seq<T>)
    ensures !skipFirstElement ==> r == ChainElements(source, getNextFunc, limit)
    ensures |r| <= limit
  {
    var baseElements := ChainElements(source, getNextFunc, if skipFirstElement then limit + 1 else limit);
    if skipFirstElement && |baseElements| > 0 then baseElements[1..] else baseElements
  }

  /** A null source yields nothing. */
  lemma ChainOfNullIsEmpty<T>(getNextFunc: T -> Option<T>, limit: nat)
    ensures ChainElements(None, getNextFunc, limit) == []
  {
  }

  /** Skipping drops exactly the first element: what is left is the chain
      that starts at the second element. */
  lemma {:induction false} ChainSkipDropsFirst<T>(x: T, getNextFunc: T -> Option<T>, limit: nat)
    ensures ChainElementsSkip(Some(x), getNextFunc, true, limit) == ChainElements(getNextFunc(x), getNextFunc, limit)
    ensures ChainElements(Some(x), getNextFunc, limit + 1) == [x] + ChainElementsSkip(Some(x), getNextFunc, true, limit)
  {
  }

  /** `GetByFirst(getMethod)`: the head and the array of the remaining
      elements, or "Empty source" for an empty input. */
  function GetByFirst<T, R>(source: seq<T>, getMethod: (T, seq<T>) -> Result<R>): (r: Result<R>)
    ensures |source| == 0 ==> r == Throw(GeneralError("Empty source"))
    ensures |source| > 0 ==> r == getMethod(source[0], source[1..])
  {
    if |source| > 0 then getMethod(source[0], source[1..]) else Throw(GeneralError("Empty source"))
  }
}
