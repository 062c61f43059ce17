/** The optional-value type `Maybe<T>` (Maybe.cs, Just.cs, Nothing.cs), its
    combinators (MaybeExtensions.cs) and its query operators
    (LinqMaybeExtensions.cs). */
module Maybes {
  import opened Base

  /** `Just<T>(Value)` or `Nothing<T>`; `HasValue` tells them apart. */
  datatype Maybe<T> = Nothing | Just(value: T) {
    predicate HasValue() {
      Just?
    }
  }

  /** `Maybe.Return(v)`: a value that is present. */
  function Return<T>(v: T): (r: Maybe<T>)
    ensures r.HasValue() && r.value == v
  {
    Just(v)
  }

  /** `Maybe<T>.Nothing`: the shared absent value. */
  function NothingValue<T>(): (r: Maybe<T>)
    ensures !r.HasValue()
  {
    Nothing
  }

  /** Three-argument `Maybe.OfCondition`: calls the delegate the condition
      selects and returns what it returns (or throws). */
  function OfConditionBranches<T>(condition: bool, getTrueValue: Result<Maybe<T>>, getFalseValue: Result<Maybe<T>>): Result<Maybe<T>> {
    if condition then getTrueValue else getFalseValue
  }

  /** Only the selected delegate matters: the other one may do anything,
      including throw, without changing the outcome. */
  lemma OfConditionBranchesSelectsOne<T>(condition: bool, t1: Result<Maybe<T>>, t2: Result<Maybe<T>>, f1: Result<Maybe<T>>, f2: Result<Maybe<T>>)
    ensures condition ==> OfConditionBranches(condition, t1, f1) == t1 == OfConditionBranches(condition, t1, f2)
    ensures !condition ==> OfConditionBranches(condition, t1, f1) == f1 == OfConditionBranches(condition, t2, f1)
  {
  }

  /** The outcome of the delegate `() => Return(getJustValue())`. */
  function ReturnOf<T>(getJustValue: Result<T>): Result<Maybe<T>> {
    match getJustValue
    case Ok(v) => Ok(Return(v))
    case Throw(e) => Throw(e)
  }

  /** Two-argument `Maybe.OfCondition`: `Just(getJustValue())` when the
      condition holds, `Nothing` otherwise, and then the delegate is not
      called (its exception cannot surface). */
  function OfCondition<T>(condition: bool, getJustValue: Result<T>): (r: Result<Maybe<T>>)
    ensures !condition ==> r == Ok(Nothing)
    ensures condition && getJustValue.Ok? ==> r == Ok(Just(getJustValue.value))
    ensures condition && getJustValue.Throw? ==> r == Throw(getJustValue.error)
  {
    OfConditionBranches(condition, ReturnOf(getJustValue), Ok(NothingValue()))
  }

  /** Both `ToMaybe` overloads (nullable value and nullable reference): they
      never throw; null becomes `Nothing` and a value `v` becomes `Just(v)`.
      The delegate `() => value!.Value` would throw on null, but is only
      called when the value is present. */
  function ToMaybe<T>(value: Option<T>): (r: Result<Maybe<T>>)
    ensures r.Ok?
    ensures value.None? <==> !r.value.HasValue()
    ensures value.Some? ==> r.value == Just(value.value)
  {
    var getValue := if value.Some? then Ok(value.value) else Throw(InvalidOperation("Nullable object must have a value."));
    OfCondition(value.Some?, getValue)
  }

  /** `Maybe.OfTryMethod(tryAction)`: the try-pattern method `bool Try(arg,
      out result)` is represented by a function returning the pair (its
      return value, its out value). */
  function OfTryMethod<A(!new), T>(tryAction: A -> (bool, T)): (r: A -> Maybe<T>)
    ensures forall a :: r(a).HasValue() <==> tryAction(a).0
    ensures forall a :: r(a).HasValue() ==> r(a).value == tryAction(a).1
  {
    a => OfCondition(tryAction(a).0, Ok(tryAction(a).1)).value
  }

  /** The two-argument overload of `Maybe.OfTryMethod`. */
  function OfTryMethod2<A1(!new), A2(!new), T>(tryAction: (A1, A2) -> (bool, T)): (r: (A1, A2) -> Maybe<T>)
    ensures forall a1, a2 :: r(a1, a2).HasValue() <==> tryAction(a1, a2).0
    ensures forall a1, a2 :: r(a1, a2).HasValue() ==> r(a1, a2).value == tryAction(a1, a2).1
  {
    (a1, a2) => OfCondition(tryAction(a1, a2).0, Ok(tryAction(a1, a2).1)).value
  }

  // ---------------------------------------------------------------------------
  // MaybeExtensions.cs

  /** `Match(fromJustResult, fromNothingResult)`: exactly one of the two
      delegates is called. */
  function Match<T, R>(m: Maybe<T>, fromJustResult: T -> Result<R>, fromNothingResult: Result<R>): (r: Result<R>)
    ensures m.Just? ==> r == fromJustResult(m.value)
    ensures m.Nothing? ==> r == fromNothingResult
  {
    match m
    case Just(v) => fromJustResult(v)
    case Nothing => fromNothingResult
  }

  /** The delegate that is not selected never influences the outcome. */
  lemma MatchCallsOneDelegate<T, R>(m: Maybe<T>, j1: T -> Result<R>, j2: T -> Result<R>, n1: Result<R>, n2: Result<R>)
    ensures m.Just? ==> Match(m, j1, n1) == Match(m, j1, n2)
    ensures m.Nothing? ==> Match(m, j1, n1) == Match(m, j2, n1)
  {
  }

  /** `Or(getV2)`: `v1` itself when it has a value (then `getV2` is not
      called), otherwise whatever `getV2` returns or throws. */
  function Or<T>(v1: Maybe<T>, getV2: Result<Maybe<T>>): (r: Result<Maybe<T>>)
    ensures v1.HasValue() ==> r == Ok(v1)
    ensures !v1.HasValue() ==> r == getV2
  {
    if v1.HasValue() then Ok(Select(v1, (v: T) => v)) else getV2
  }

  /** `GetValue(nothingException)`: the held value, or the supplied exception. */
  function GetValue<T>(m: Maybe<T>, nothingException: Exception): (r: Result<T>)
    ensures m.HasValue() <==> r.Ok?
    ensures m.HasValue() ==> r.value == m.value
    ensures !m.HasValue() ==> r.error == nothingException
  {
    Match(m, (v: T) => Ok(v), Throw(nothingException))
  }

  /** `GetValue()` without an exception factory throws "Nothing Value". */
  function GetValueOrThrow<T>(m: Maybe<T>): (r: Result<T>)
    ensures m.HasValue() ==> r == Ok(m.value)
    ensures !m.HasValue() ==> r == Throw(GeneralError("Nothing Value"))
  {
    GetValue(m, GeneralError("Nothing Value"))
  }

  /** `GetValueOrDefault(getDefaultValue)`: the held value, or what the
      default delegate returns (it is called only for `Nothing`). */
  function GetValueOrDefaultLazy<T>(m: Maybe<T>, getDefaultValue: Result<T>): (r: Result<T>)
    ensures m.HasValue() ==> r == Ok(m.value)
    ensures !m.HasValue() ==> r == getDefaultValue
  {
    Match(m, (v: T) => Ok(v), getDefaultValue)
  }

  /** `GetValueOrDefault(defaultValue)`, and `GetValueOrDefault()` with
      `defaultValue` being `default(T)`. */
  function GetValueOrDefault<T>(m: Maybe<T>, defaultValue: T): (r: T)
    ensures m.HasValue() ==> r == m.value
    ensures !m.HasValue() ==> r == defaultValue
  {
    GetValueOrDefaultLazy(Select(m, (v: T) => v), Ok(defaultValue)).value
  }

  // ---------------------------------------------------------------------------
  // LinqMaybeExtensions.cs

  /** `Select(selector)`: maps the held value; presence is preserved. */
  function Select<T, U>(m: Maybe<T>, selector: T -> U): (r: Maybe<U>)
    ensures r.HasValue() == m.HasValue()
    ensures m.HasValue() ==> r.value == selector(m.value)
  {
    Match(m, (v: T) => Ok(Return(selector(v))), Ok(NothingValue())).value
  }

  /** `SelectMany(nextSelector, resultSelector)`: present only when the
      source and the next selector's result are both present. */
  function SelectMany<T, U, V>(m: Maybe<T>, nextSelector: T -> Maybe<U>, resultSelector: (T, U) -> V): (r: Maybe<V>)
    ensures r.HasValue() <==> m.HasValue() && nextSelector(m.value).HasValue()
    ensures r.HasValue() ==> r.value == resultSelector(m.value, nextSelector(m.value).value)
  {
    Match(m, (v1: T) => Ok(SelectManyNext(v1, nextSelector(v1), resultSelector)), Ok(NothingValue())).value
  }

  /** The inner step of `SelectMany`: combines the source value with the next
      selector's result, when that is present. */
  function SelectManyNext<T, U, V>(v1: T, next: Maybe<U>, resultSelector: (T, U) -> V): (r: Maybe<V>)
    ensures r.HasValue() == next.HasValue()
    ensures r.HasValue() ==> r.value == resultSelector(v1, next.value)
  {
    Select(next, (v2: U) => resultSelector(v1, v2))
  }

  /** Single-selector `SelectMany` (monadic bind). */
  function Bind<T, U>(m: Maybe<T>, nextSelector: T -> Maybe<U>): (r: Maybe<U>)
    ensures !m.HasValue() ==> r == Nothing
    ensures m.HasValue() ==> r == nextSelector(m.value)
  {
    SelectMany(m, nextSelector, (_: T, res: U) => res)
  }

  /** `Where(filter)`: keeps a held value exactly when it passes the filter. */
  function Where<T>(m: Maybe<T>, filter: T -> bool): (r: Maybe<T>)
    ensures r.HasValue() <==> m.HasValue() && filter(m.value)
    ensures r.HasValue() ==> r == m
  {
    Match(m, (v: T) => OfCondition(filter(v), Ok(v)), Ok(NothingValue())).value
  }

  lemma SelectIdentity<T>(m: Maybe<T>)
    ensures Select(m, (v: T) => v) == m
  {
  }

  lemma BindLeftIdentity<T, U>(a: T, f: T -> Maybe<U>)
    ensures Bind(Return(a), f) == f(a)
  {
  }

  lemma BindNothing<T, U>(f: T -> Maybe<U>)
    ensures Bind(Nothing, f) == Nothing
  {
  }

  lemma BindRightIdentity<T>(m: Maybe<T>)
    ensures Bind(m, (v: T) => Return(v)) == m
  {
  }

  lemma BindAssociative<T, U, V>(m: Maybe<T>, f: T -> Maybe<U>, g: U -> Maybe<V>)
    ensures Bind(Bind(m, f), g) == Bind(m, (x: T) => Bind(f(x), g))
  {
  }

  lemma WhereIdempotent<T>(m: Maybe<T>, filter: T -> bool)
    ensures Where(Where(m, filter), filter) == Where(m, filter)
  {
  }

  // ---------------------------------------------------------------------------
  // Three-valued logic over Maybe<bool> (MaybeExtensions.cs)

  /** `LogicOrDict`: the rows for `Just(true)` are absent (commented out in
      the source), because that case never reaches the table. */
  const LogicOrTable: map<Maybe<bool>, map<Maybe<bool>, Maybe<bool>>> :=
    map[
      Just(false) := map[Just(true) := Just(true), Just(false) := Just(false), Nothing := Nothing],
      Nothing := map[Just(true) := Just(true), Just(false) := Nothing, Nothing := Nothing]
    ]

  /** `LogicAndDict`: the rows for `Just(false)` are absent. */
  const LogicAndTable: map<Maybe<bool>, map<Maybe<bool>, Maybe<bool>>> :=
    map[
      Just(true) := map[Just(true) := Just(true), Just(false) := Just(false), Nothing := Nothing],
      Nothing := map[Just(true) := Nothing, Just(false) := Just(false), Nothing := Nothing]
    ]

  /** The outcome of the delegate `() => table[v1][getV2()]`: the row lookup
      happens first, then `getV2` is called, then the column lookup. */
  function TableLookup(table: map<Maybe<bool>, map<Maybe<bool>, Maybe<bool>>>, v1: Maybe<bool>, getV2: Result<Maybe<bool>>): Result<Maybe<bool>> {
    if v1 !in table then Throw(KeyNotFound)
    else match getV2
      case Throw(e) => Throw(e)
      case Ok(v2) => if v2 in table[v1] then Ok(table[v1][v2]) else Throw(KeyNotFound)
  }

  /** `LogicOr(getV2)`. */
  function LogicOr(v1: Maybe<bool>, getV2: Result<Maybe<bool>>): (r: Result<Maybe<bool>>)
    ensures v1 == Just(true) ==> r == Ok(Just(true))
    ensures v1 != Just(true) && getV2.Throw? ==> r == getV2
  {
    Or(Where(v1, (p: bool) => p), TableLookup(LogicOrTable, v1, getV2))
  }

  /** `LogicOr(v2)`: the eager overload. */
  function LogicOrValue(v1: Maybe<bool>, v2: Maybe<bool>): Result<Maybe<bool>> {
    LogicOr(v1, Ok(v2))
  }

  /** `LogicAnd(getV2)`. */
  function LogicAnd(v1: Maybe<bool>, getV2: Result<Maybe<bool>>): (r: Result<Maybe<bool>>)
    ensures v1 == Just(false) ==> r == Ok(Just(false))
    ensures v1 != Just(false) && getV2.Throw? ==> r == getV2
  {
    Or(Where(v1, (p: bool) => !p), TableLookup(LogicAndTable, v1, getV2))
  }

  /** Strong-Kleene disjunction, `Nothing` standing for "unknown". */
  function KleeneOr(a: Maybe<bool>, b: Maybe<bool>): Maybe<bool> {
    if a == Just(true) || b == Just(true) then Just(true)
    else if a == Just(false) && b == Just(false) then Just(false)
    else Nothing
  }

  /** Strong-Kleene conjunction. */
  function KleeneAnd(a: Maybe<bool>, b: Maybe<bool>): Maybe<bool> {
    if a == Just(false) || b == Just(false) then Just(false)
    else if a == Just(true) && b == Just(true) then Just(true)
    else Nothing
  }

  /** Every Maybe<bool> is one of the three truth values. */
  lemma ThreeValues(a: Maybe<bool>)
    ensures a == Just(true) || a == Just(false) || a == Nothing
  {
    match a
    case Nothing =>
    case Just(b) => assert b || !b;
  }

  /** With a second operand that does not throw, `LogicOr` is strong-Kleene
      disjunction on all nine input pairs. */
  lemma LogicOrIsKleene(a: Maybe<bool>, b: Maybe<bool>)
    ensures LogicOrValue(a, b) == Ok(KleeneOr(a, b))
  {
    ThreeValues(a);
    ThreeValues(b);
  }

  lemma LogicOrCommutative(a: Maybe<bool>, b: Maybe<bool>)
    ensures LogicOrValue(a, b) == LogicOrValue(b, a)
  {
    LogicOrIsKleene(a, b);
    LogicOrIsKleene(b, a);
  }

  /** `LogicAnd` is strong-Kleene conjunction. */
  lemma LogicAndIsKleene(a: Maybe<bool>, b: Maybe<bool>)
    ensures LogicAnd(a, Ok(b)) == Ok(KleeneAnd(a, b))
  {
    ThreeValues(a);
    ThreeValues(b);
  }

  lemma LogicAndCommutative(a: Maybe<bool>, b: Maybe<bool>)
    ensures LogicAnd(a, Ok(b)) == LogicAnd(b, Ok(a))
  {
    LogicAndIsKleene(a, b);
    LogicAndIsKleene(b, a);
  }
}
