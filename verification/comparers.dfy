/** Sequence-based equality comparers: ArrayComparer.cs, EqualityComparerImpl.cs
    and DeepEqualsCollection.cs. A null reference is `None`; reference
    equality is value equality of the modelled objects, whose `id` tells
    separately created objects apart. */
module Comparers {
  import opened Base

  /** An `IEqualityComparer<T>`: its `Equals` and its `GetHashCode`. */
  datatype ItemComparer<!T> = ItemComparer(equals: (T, T) -> bool, hash: T -> int)

  /** `EqualityComparer<T>.Default`, given the type's own hash. */
  function DefaultComparer<T(==, !new)>(hash: T -> int): (r: ItemComparer<T>)
    ensures forall x, y :: r.equals(x, y) <==> x == y
  {
    ItemComparer((x: T, y: T) => x == y, hash)
  }

  // ---------------------------------------------------------------------------
  // ArrayComparer<T>

  /** A `T[]` object. */
  datatype Array<T> = Array(id: Id, items: seq<T>)

  /** `ArrayComparer.Equals`. */
  function ArrayEquals<T(==)>(itemComparer: ItemComparer<T>, x: Option<Array<T>>, y: Option<Array<T>>): (r: bool)
    ensures x == y ==> r
    ensures x.None? != y.None? ==> !r
    ensures x.Some? && y.Some? && x != y ==>
      (r <==> (|x.value.items| == |y.value.items| &&
        forall i :: 0 <= i < |x.value.items| ==> itemComparer.equals(x.value.items[i], y.value.items[i])))
  {
    if x == y then true
    else if x.None? || y.None? then false
    else
      SequenceEqualSpec(x.value.items, y.value.items, itemComparer.equals);
      SequenceEqual(x.value.items, y.value.items, itemComparer.equals)
  }

  /** `ArrayComparer.GetHashCode`: the length. */
  function ArrayHash<T>(arr: Array<T>): int {
    |arr.items|
  }

  /** Arrays the comparer calls equal have equal hashes, whatever the item
      comparer. */
  lemma ArrayHashConsistent<T>(itemComparer: ItemComparer<T>, x: Array<T>, y: Array<T>)
    requires ArrayEquals(itemComparer, Some(x), Some(y))
    ensures ArrayHash(x) == ArrayHash(y)
  {
  }

  /** `ArrayComparer<T>.Default` relates arrays with the same contents, even
      when they are different objects. */
  lemma DefaultArrayComparerIsContentEquality<T(!new)>(hash: T -> int, x: Array<T>, y: Array<T>)
    ensures ArrayEquals(DefaultComparer(hash), Some(x), Some(y)) <==> x.items == y.items
  {
    if ArrayEquals(DefaultComparer(hash), Some(x), Some(y)) && x != y {
      assert forall i :: 0 <= i < |x.items| ==> x.items[i] == y.items[i];
    }
  }

  // ---------------------------------------------------------------------------
  // EqualityComparerImpl<T>

  /** An `EqualityComparerImpl<T>(equalsFunc, getHashFunc)`, and whether `T`
      is a value type: `ReferenceEquals` boxes value-type operands, so it
      holds only between two nulls of a nullable value type. */
  datatype ComparerImpl<!T> = ComparerImpl(equalsFunc: (T, T) -> bool, getHashFunc: Option<T -> int>, valueType: bool)

  /** `EqualityComparerImpl.Equals`. */
  function ImplEquals<T(==)>(c: ComparerImpl<T>, x: Option<T>, y: Option<T>): (r: bool)
    ensures x.None? && y.None? ==> r
    ensures !c.valueType && x == y ==> r
    ensures x.None? != y.None? ==> !r
    ensures x.Some? && y.Some? && (c.valueType || x != y) ==> r == c.equalsFunc(x.value, y.value)
  {
    if (x.None? || !c.valueType) && x == y then true
    else if x.None? || y.None? then false
    else c.equalsFunc(x.value, y.value)
  }

  /** For a value type the reference check never succeeds on values: even a
      value compared with itself goes to `equalsFunc`, so an irreflexive
      `equalsFunc` makes a value unequal to itself, where a reference type
      would short-cut to true. */
  lemma ValueTypeSkipsReferenceCheck<T>(equalsFunc: (T, T) -> bool, x: T)
    requires !equalsFunc(x, x)
    ensures !ImplEquals(ComparerImpl(equalsFunc, None, true), Some(x), Some(x))
    ensures ImplEquals(ComparerImpl(equalsFunc, None, false), Some(x), Some(x))
  {
  }

  /** `EqualityComparerImpl.GetHashCode`: 0 without a hash function. */
  function ImplHash<T>(c: ComparerImpl<T>, obj: T): (r: int)
    ensures c.getHashFunc.None? ==> r == 0
    ensures c.getHashFunc.Some? ==> r == c.getHashFunc.value(obj)
  {
    match c.getHashFunc
    case None => 0
    case Some(f) => f(obj)
  }

  /** Without a hash function every object hashes to 0, which agrees with
      any equality. */
  lemma ImplHashWithoutFunctionConsistent<T>(equalsFunc: (T, T) -> bool, valueType: bool, x: T, y: T)
    ensures ImplHash(ComparerImpl(equalsFunc, None, valueType), x) == ImplHash(ComparerImpl(equalsFunc, None, valueType), y)
  {
  }

  /** `EqualityComparerImpl.Create(keySelector)`: equality of selected keys. */
  function CreateByKey<T(!new), K(==)>(keySelector: T -> K, valueType: bool): (r: ComparerImpl<T>)
    ensures r.getHashFunc.None? && r.valueType == valueType
    ensures forall x, y :: r.equalsFunc(x, y) <==> keySelector(x) == keySelector(y)
  {
    ComparerImpl((v1: T, v2: T) => keySelector(v1) == keySelector(v2), None, valueType)
  }

  /** Two non-null values are equal under `Create(keySelector)` exactly when
      their keys are, for value and reference types alike. */
  lemma CreateByKeyEquals<T(!new), K>(keySelector: T -> K, valueType: bool, x: T, y: T)
    ensures ImplEquals(CreateByKey(keySelector, valueType), Some(x), Some(y)) <==> keySelector(x) == keySelector(y)
  {
  }

  // ---------------------------------------------------------------------------
  // DeepEqualsCollection<T>

  /** A `DeepEqualsCollection<T>`: an immutable snapshot of its source. Its
      comparer is passed to the operations that use it; its cached hash is
      the separate state `HashCache`. */
  datatype DeepEqualsCollection<T> = DeepEqualsCollection(id: Id, baseSource: seq<T>)

  /** `new DeepEqualsCollection(source, comparer)`: a null comparer stands for
      the default one. */
  function CreateCollection<T(==, !new)>(id: Id, source: seq<T>, comparer: Option<ItemComparer<T>>, hash: T -> int): (r: (DeepEqualsCollection<T>, ItemComparer<T>))
    ensures r.0.baseSource == source && r.0.id == id
    ensures comparer.Some? ==> r.1 == comparer.value
    ensures comparer.None? ==> forall x, y :: r.1.equals(x, y) <==> x == y
  {
    (DeepEqualsCollection(id, source), if comparer.Some? then comparer.value else DefaultComparer(hash))
  }

  /** `Count`. */
  function Count<T>(c: DeepEqualsCollection<T>): nat {
    |c.baseSource|
  }

  /** The indexer. */
  function At<T>(c: DeepEqualsCollection<T>, index: int): (r: Result<T>)
    ensures 0 <= index < Count(c) <==> r.Ok?
    ensures r.Ok? ==> r.value == c.baseSource[index]
    ensures r.Throw? ==> r.error == IndexOutOfRange
  {
    if 0 <= index < |c.baseSource| then Ok(c.baseSource[index]) else Throw(IndexOutOfRange)
  }

  /** `Equals(DeepEqualsCollection<T>? other)`, with this collection's
      comparer. */
  function CollectionEquals<T(==)>(comparer: ItemComparer<T>, c: DeepEqualsCollection<T>, other: Option<DeepEqualsCollection<T>>): (r: bool)
    ensures Some(c) == other ==> r
    ensures other.None? ==> !r
    ensures other.Some? ==> (r <==> (c == other.value || (|c.baseSource| == |other.value.baseSource| &&
      forall i :: 0 <= i < |c.baseSource| ==> comparer.equals(c.baseSource[i], other.value.baseSource[i]))))
  {
    SequenceEqualSpec(c.baseSource, if other.Some? then other.value.baseSource else [], comparer.equals);
    Some(c) == other || (other.Some? && SequenceEqual(c.baseSource, other.value.baseSource, comparer.equals))
  }

  /** `object.Equals(col1, col2)`: the static helper `==` delegates to. It
      dispatches to the overridden `Equals` of `col1`, with `col1`'s comparer. */
  function ObjectEquals<T(==)>(comparer: ItemComparer<T>, col1: Option<DeepEqualsCollection<T>>, col2: Option<DeepEqualsCollection<T>>): (r: bool)
    ensures col1 == col2 ==> r
    ensures col1.None? != col2.None? ==> !r
    ensures col1.Some? ==> r == CollectionEquals(comparer, col1.value, col2)
  {
    if col1 == col2 then true
    else if col1.None? || col2.None? then false
    else CollectionEquals(comparer, col1.value, col2)
  }

  /** `operator ==`. */
  function OpEquals<T(==)>(comparer: ItemComparer<T>, col1: Option<DeepEqualsCollection<T>>, col2: Option<DeepEqualsCollection<T>>): (r: bool)
    ensures col1.None? && col2.None? ==> r
    ensures col1.None? != col2.None? ==> !r
    ensures col1.Some? ==> r == CollectionEquals(comparer, col1.value, col2)
  {
    ObjectEquals(comparer, col1, col2)
  }

  /** `operator !=`: the negation of `==`. */
  function OpNotEquals<T(==)>(comparer: ItemComparer<T>, col1: Option<DeepEqualsCollection<T>>, col2: Option<DeepEqualsCollection<T>>): (r: bool)
    ensures r <==> !OpEquals(comparer, col1, col2)
  {
    !OpEquals(comparer, col1, col2)
  }

  /** `ComputeHashCode`: the length and each element's comparer hash, fed in
      order to `HashCode`, whose mixing `mix` is left uninterpreted. */
  function ComputeHash<T>(comparer: ItemComparer<T>, c: DeepEqualsCollection<T>, mix: seq<int> -> int): int {
    mix([|c.baseSource|] + seq(|c.baseSource|, i requires 0 <= i < |c.baseSource| => comparer.hash(c.baseSource[i])))
  }

  /** The cached hash: absent until `GetHashCode` is first called. */
  type HashCache = Option<int>

  /** `GetHashCode()`: computes the hash once and then answers from the cache. */
  function GetHashCode<T>(comparer: ItemComparer<T>, c: DeepEqualsCollection<T>, mix: seq<int> -> int, cache: HashCache): (r: (int, HashCache))
    ensures cache.Some? ==> r == (cache.value, cache)
    ensures cache.None? ==> r.0 == ComputeHash(comparer, c, mix)
    ensures r.1 == Some(r.0)
  {
    match cache
    case Some(h) => (h, cache)
    case None =>
      var h := ComputeHash(comparer, c, mix);
      (h, Some(h))
  }

  /** Repeated calls return the value of the first. */
  lemma HashIsStable<T>(comparer: ItemComparer<T>, c: DeepEqualsCollection<T>, mix: seq<int> -> int, cache: HashCache)
    ensures var (h, cache1) := GetHashCode(comparer, c, mix, cache);
      GetHashCode(comparer, c, mix, cache1) == (h, cache1)
  {
  }

  /** Collections equal under a hash-consistent comparer have equal hashes,
      whether or not they are the same object. */
  lemma CollectionHashConsistent<T>(comparer: ItemComparer<T>, c1: DeepEqualsCollection<T>, c2: DeepEqualsCollection<T>, mix: seq<int> -> int)
    requires forall x, y :: comparer.equals(x, y) ==> comparer.hash(x) == comparer.hash(y)
    requires CollectionEquals(comparer, c1, Some(c2))
    ensures ComputeHash(comparer, c1, mix) == ComputeHash(comparer, c2, mix)
  {
    var s1 := seq(|c1.baseSource|, i requires 0 <= i < |c1.baseSource| => comparer.hash(c1.baseSource[i]));
    var s2 := seq(|c2.baseSource|, i requires 0 <= i < |c2.baseSource| => comparer.hash(c2.baseSource[i]));
    assert s1 == s2;
  }

  /** Two collections created separately from equal sources (as in the
      string-array case) are equal, both ways round, but are not the same
      object. */
  lemma SeparateCollectionsWithSameElementsAreEqual<T(!new)>(hash: T -> int, source: seq<T>, id1: Id, id2: Id)
    requires id1 != id2
    ensures var (c1, cmp1) := CreateCollection(id1, source, None, hash);
      var (c2, cmp2) := CreateCollection(id2, source, None, hash);
      c1 != c2 && OpEquals(cmp1, Some(c1), Some(c2)) && OpEquals(cmp2, Some(c2), Some(c1))
  {
  }
}
