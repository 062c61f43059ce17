/** Values compared through the structural expression comparer:
    `LambdaExpressionPath` (a list of lambdas, equal position by position)
    and `ReadonlyPropertyAccessors` (a path lambda and its getter, equal by
    the path alone). A null reference is `None`; reference equality is
    value equality of the modelled objects. */
module ExpressionPaths {
  import opened Base
  import opened Types
  import opened Expressions
  import opened ExpressionComparers
  import opened ComparerLaws
  import opened ComparerKinds
  import Comparers
  import opened ComparerExamples

  // ---------------------------------------------------------------------------
  // LambdaExpressionPath

  /** A `LambdaExpressionPath` record: its identity and its lambdas. */
  datatype LambdaExpressionPath = LambdaExpressionPath(id: Id, properties: seq<LambdaExpression>)

  /** `Equals(LambdaExpressionPath? other)`: the same object, or a non-null
      path whose lambdas `SequenceEqual` this one's under
      `ExpressionComparer.Default`. An exception of the comparer surfaces. */
  function PathEquals(path: LambdaExpressionPath, other: Option<LambdaExpressionPath>): (r: Result<bool>)
    ensures Some(path) == other ==> r == Ok(true)
    ensures other.None? ==> r == Ok(false)
    ensures other.Some? && |path.properties| != |other.value.properties| ==> r == Ok(path == other.value)
  {
    if Some(path) == other then Ok(true)
    else if other.None? then Ok(false)
    else SeqEquals(Default, path.properties, other.value.properties)
  }

  /** Two paths are equal exactly when they are the same object or have the
      same number of lambdas, each equal to the one at the same position. */
  lemma PathEqualsSpec(path: LambdaExpressionPath, other: LambdaExpressionPath)
    ensures PathEquals(path, Some(other)) == Ok(true) <==>
      path == other ||
      (|path.properties| == |other.properties| &&
       forall i :: 0 <= i < |path.properties| ==> Equals(Default, path.properties[i], other.properties[i]) == Ok(true))
  {
    SeqEqualsTrue(Default, path.properties, other.properties);
  }

  /** Path equality does not depend on which side is asked. */
  lemma PathEqualsSymmetric(p1: LambdaExpressionPath, p2: LambdaExpressionPath)
    ensures PathEquals(p1, Some(p2)) == PathEquals(p2, Some(p1))
  {
    SeqSymmetric(Default, p1.properties, p2.properties);
  }

  /** `ComputeHashCode`: the number of lambdas, then each lambda's
      `ExpressionComparer.Default` hash, fed in order to `HashCode`, whose
      mixing `mix` is left uninterpreted. */
  function ComputePathHash(h: Hashers, mix: seq<int> -> int, path: LambdaExpressionPath): int {
    var ps := path.properties;
    mix([|ps|] + seq(|ps|, i requires 0 <= i < |ps| => GetHashCode(h, ps[i]) as int))
  }

  /** `GetHashCode()`: `hashCode ??= ComputeHashCode()`. */
  function PathHash(h: Hashers, mix: seq<int> -> int, path: LambdaExpressionPath, cache: Comparers.HashCache): (r: (int, Comparers.HashCache))
    ensures cache.Some? ==> r == (cache.value, cache)
    ensures cache.None? ==> r.0 == ComputePathHash(h, mix, path)
    ensures r.1 == Some(r.0)
  {
    match cache
    case Some(hash) => (hash, cache)
    case None =>
      var hash := ComputePathHash(h, mix, path);
      (hash, Some(hash))
  }

  /** Once computed, the hash is answered from the cache: a second call
      returns the first call's value. */
  lemma PathHashIsStable(h: Hashers, mix: seq<int> -> int, path: LambdaExpressionPath, cache: Comparers.HashCache)
    ensures var (hash, cache1) := PathHash(h, mix, path, cache);
      PathHash(h, mix, path, cache1) == (hash, cache1)
  {
  }

  /** Equal paths have equal hashes. */
  lemma PathHashConsistent(h: Hashers, mix: seq<int> -> int, p1: LambdaExpressionPath, p2: LambdaExpressionPath)
    requires PathEquals(p1, Some(p2)) == Ok(true)
    ensures ComputePathHash(h, mix, p1) == ComputePathHash(h, mix, p2)
  {
    PathEqualsSpec(p1, p2);
    var xs, ys := p1.properties, p2.properties;
    forall i | 0 <= i < |xs|
      ensures GetHashCode(h, xs[i]) == GetHashCode(h, ys[i])
    {
      HashConsistent(Default, h, xs[i], ys[i]);
    }
    var s1 := seq(|xs|, i requires 0 <= i < |xs| => GetHashCode(h, xs[i]) as int);
    var s2 := seq(|ys|, i requires 0 <= i < |ys| => GetHashCode(h, ys[i]) as int);
    assert s1 == s2;
  }

  /** The order of the lambdas matters: two lambdas that compare unequal,
      listed in the other order, make an unequal path. */
  lemma PathOrderMatters(id1: Id, id2: Id, a: LambdaExpression, b: LambdaExpression)
    requires id1 != id2
    requires Equals(Default, a, b) == Ok(false)
    ensures PathEquals(LambdaExpressionPath(id1, [a, b]), Some(LambdaExpressionPath(id2, [b, a]))) == Ok(false)
  {
    assert SeqEquals(Default, [a, b], [b, a]) == And(Equals(Default, a, b), PairwiseEquals(Default, [b], [a]));
  }

  // ---------------------------------------------------------------------------
  // ReadonlyPropertyAccessors

  /** A `ReadonlyPropertyAccessors` record: its identity, its path lambda and
      its getter delegate, an opaque value. */
  datatype PropertyAccessors<G> = PropertyAccessors(id: Id, path: LambdaExpression, getter: G)

  /** `Equals(ReadonlyPropertyAccessors? other)`: the same object, or a
      non-null accessor whose path is equal under `ExpressionComparer.Default`. */
  function AccessorsEquals<G(==)>(x: PropertyAccessors<G>, other: Option<PropertyAccessors<G>>): (r: Result<bool>)
    ensures Some(x) == other ==> r == Ok(true)
    ensures other.None? ==> r == Ok(false)
    ensures other.Some? && x != other.value ==> r == Equals(Default, x.path, other.value.path)
  {
    if Some(x) == other then Ok(true)
    else if other.None? then Ok(false)
    else Equals(Default, x.path, other.value.path)
  }

  /** `GetHashCode()`: the comparer's hash of the path. */
  function AccessorsHash<G>(h: Hashers, x: PropertyAccessors<G>): int {
    GetHashCode(h, x.path) as int
  }

  /** The getter plays no part: two distinct accessors compare as their
      paths do, whatever their getters. */
  lemma GetterIgnored<G>(x: PropertyAccessors<G>, y: PropertyAccessors<G>, g1: G, g2: G)
    requires x.id != y.id
    ensures AccessorsEquals(x, Some(y)) == AccessorsEquals(x.(getter := g1), Some(y.(getter := g2)))
  {
  }

  /** Equal accessors have equal hashes. */
  lemma AccessorsHashConsistent<G>(h: Hashers, x: PropertyAccessors<G>, y: PropertyAccessors<G>)
    requires AccessorsEquals(x, Some(y)) == Ok(true)
    ensures AccessorsHash(h, x) == AccessorsHash(h, y)
  {
    HashConsistent(Default, h, x.path, y.path);
  }

  // ---------------------------------------------------------------------------
  // Worked example

  /** Paths built from separately constructed `x => x + 1` lambdas are
      equal, with equal hashes, though they are different objects. */
  lemma SeparatelyBuiltPathsAreEqual(h: Hashers, mix: seq<int> -> int)
    ensures var p1 := LambdaExpressionPath(1, [IncrementLambda((2, 3, 4, 5), "x")]);
      var p2 := LambdaExpressionPath(6, [IncrementLambda((7, 8, 9, 10), "x")]);
      p1 != p2 && PathEquals(p1, Some(p2)) == Ok(true) && ComputePathHash(h, mix, p1) == ComputePathHash(h, mix, p2)
  {
    IncrementPathsAreEqual(h, mix, 1, (2, 3, 4, 5), 6, (7, 8, 9, 10));
  }

  /** The same, for any identities the two paths and their lambdas get. */
  lemma IncrementPathsAreEqual(h: Hashers, mix: seq<int> -> int, id1: Id, ids1: (Id, Id, Id, Id), id2: Id, ids2: (Id, Id, Id, Id))
    requires id1 != id2
    ensures var p1 := LambdaExpressionPath(id1, [IncrementLambda(ids1, "x")]);
      var p2 := LambdaExpressionPath(id2, [IncrementLambda(ids2, "x")]);
      p1 != p2 && PathEquals(p1, Some(p2)) == Ok(true) && ComputePathHash(h, mix, p1) == ComputePathHash(h, mix, p2)
  {
    var p1 := LambdaExpressionPath(id1, [IncrementLambda(ids1, "x")]);
    var p2 := LambdaExpressionPath(id2, [IncrementLambda(ids2, "x")]);
    IncrementErased(ids1, "x");
    IncrementErased(ids2, "x");
    EqualsErased(p1.properties[0], p2.properties[0]);
    PathEqualsSpec(p1, p2);
    PathHashConsistent(h, mix, p1, p2);
  }
}
