# CommonFramework core, modelled in Dafny

This project models the pure-data core of the CommonFramework toolbox and
the DI validators built on top of it. Each component is a Dafny module of
immutable datatypes and pure functions:

- **Maybe** (`Maybes`): `Just | Nothing`, together with `Match`, `Or`, `GetValue*`, the LINQ operators
  `Select`/`SelectMany`/`Where`, and the three-valued `LogicOr`/`LogicAnd`
  tables. Those tables are proved to be strong-Kleene logic, and the monad
  laws are proved too. A lazy delegate is modelled by its outcome, which is a
  value or an exception (`Base.Result`). "The delegate is not called" then
  becomes "its exception cannot surface".
- **Sequence, enumerator, string and tree helpers**: `Sequences`,
  `Enumerators`, `Strings`, `Trees`.
- **Caches** (`Dictionaries`): `GetValueOrCreate`, whose factory may
  change the dictionary while it runs, and `DictionaryCache`
  as a state of stored values plus the set of keys being computed. The
  factory is a recipe that may ask for other keys. Re-entering a key in
  progress throws.
- **`MergeResult`** (`Merging`) and its extension operators.
- **Sequence-based comparers** (`Comparers`, `ExpressionPaths`):
  `ArrayComparer`, `EqualityComparerImpl`, `DeepEqualsCollection`,
  `LambdaExpressionPath` and `ReadonlyPropertyAccessors`. Each is "the same
  object, or equal pointwise", and equal values get equal hashes.
- **Expression trees** (`Expressions`): one inductive `Expr` with the kinds
  the comparers know, plus `Other`. Every node carries an identity, so
  `ReferenceEquals` is value equality on the model. A node's class
  (`GetType()`) follows its kind. Constants have two classes, as
  `Expression.Constant` builds a `TypedConstantExpression` when the value's
  runtime type is not the static type.
- **Structural expression equality** (`ExpressionComparers`,
  `ComparerKinds`, `ComparerLaws`): one root comparer with a mode, `Default`
  or `WithoutConst`. Every sub-comparer recurses through it.
- **Rewrites**:
  - `ExpressionVisitors`: `OptimizeBooleanLogicVisitor` and
    `OverrideExpressionVisitor`.
  - `ExpressionBuilders`: the builders of `ExpressionExtensions`.
  - `OptimizerLaws`, `BuilderLaws`: their meaning on a boolean evaluator.
- **`LambdaCompileCache`** (`LambdaCompileCaches`, `CacheLaws`,
  `LiftingLaws`): constants are lifted to parameters, and compiled
  delegates are cached by delegate type and structural equality. The
  compiled delegate is an opaque value.
- **DI validation**:
  - `ValidationResults`: `ValidationResult` as a monoid.
  - `ServiceCollections`: `AddValidator`, `GetValidators` and `Validate`.
  - `DuplicateServiceUsage`: the duplicate-usage validator.
  - `ServiceProxyRedirects`: the proxy type redirector.
  - Runtime types (`Types`): simple types, generic definitions and
    constructed generic types.

The source's expression comparers construct sub-comparers with the parent
comparer. Some of those sub-comparers, though, recurse through the static
`ExpressionComparer.Value` (for example
`src/CommonFramework/ExpressionComparers/BinaryComparer.cs:14`). The model
follows the design, not the static reference: every recursive comparison
goes through the root comparer that was asked. For `Default` the two
readings agree, and `ComparerLaws.WithoutConstAgrees` relates the modes.

Parameters of the model stand for what the code takes from outside:
- reflection (constructors of a type, their marking attribute, `Type.ToString`);
- `Environment.NewLine`;
- what each registered validator reports;
- the compiler (`Compile`/`DynamicInvoke`);
- `System.HashCode` mixing;
- user-defined operator methods.

## Model

| member | source | states |
|---|---|---|
| Base.SequenceEqualSpec | src/CommonFramework/ArrayComparer.cs:10 | `SequenceEqual` holds exactly when both have the same length and each pair at the same position is equal under the element comparer |
| Maybes.Return | src/CommonFramework/Maybe/Maybe.cs:23-26 | the result has a value, and that value is the argument |
| Maybes.NothingValue | src/CommonFramework/Maybe/Maybe.cs:7 | the shared `Nothing` has no value |
| Maybes.OfCondition | src/CommonFramework/Maybe/Maybe.cs:34-37 | a false condition gives `Nothing`, and the delegate's exception cannot surface; a true one gives `Just` of the delegate's value, or its exception |
| Maybes.OfConditionBranchesSelectsOne | src/CommonFramework/Maybe/Maybe.cs:39-43 | the delegate the condition does not select never changes the outcome |
| Maybes.ToMaybe | src/CommonFramework/Maybe/Maybe.cs:17-32 | never throws; the result is `Nothing` exactly for null, and `Just(v)` for a value `v` |
| Maybes.OfTryMethod | src/CommonFramework/Maybe/Maybe.cs:45-51 | the produced function has a value exactly when the try method returns true, and that value is its out result |
| Maybes.OfTryMethod2 | src/CommonFramework/Maybe/Maybe.cs:53-59 | the same for the two-argument try method |
| Maybes.Match | src/CommonFramework/Maybe/MaybeExtensions.cs:5-12 | a `Just` gives the just-delegate applied to its value, `Nothing` gives the nothing-delegate's outcome |
| Maybes.MatchCallsOneDelegate | src/CommonFramework/Maybe/MaybeExtensions.cs:5-12 | replacing the delegate that is not selected leaves the outcome unchanged |
| Maybes.Or | src/CommonFramework/Maybe/MaybeExtensions.cs:14-18 | a present `v1` is returned and `getV2`'s exception cannot surface; otherwise the outcome is `getV2`'s |
| Maybes.GetValue | src/CommonFramework/Maybe/MaybeExtensions.cs:25-28 | succeeds exactly when a value is present, returning it; otherwise throws the supplied exception |
| Maybes.GetValueOrThrow | src/CommonFramework/Maybe/MaybeExtensions.cs:20-23 | the held value, or an exception with message "Nothing Value" |
| Maybes.GetValueOrDefaultLazy | src/CommonFramework/Maybe/MaybeExtensions.cs:41-45 | the held value; for `Nothing`, the default delegate's outcome |
| Maybes.GetValueOrDefault | src/CommonFramework/Maybe/MaybeExtensions.cs:30-39 | the held value, or the given default (`default(T)` in the parameterless overload) |
| Maybes.LogicOr | src/CommonFramework/Maybe/MaybeExtensions.cs:47-51 | `Just(true)` on the left gives `Just(true)` and the right delegate's exception cannot surface; otherwise that exception surfaces |
| Maybes.LogicOrIsKleene | src/CommonFramework/Maybe/MaybeExtensions.cs:63-85 | on all nine pairs the table is strong-Kleene disjunction |
| Maybes.LogicOrCommutative | src/CommonFramework/Maybe/MaybeExtensions.cs:63-85 | `LogicOr` gives the same result with the operands swapped |
| Maybes.LogicAnd | src/CommonFramework/Maybe/MaybeExtensions.cs:58-61 | `Just(false)` on the left gives `Just(false)` and the right delegate's exception cannot surface; otherwise that exception surfaces |
| Maybes.LogicAndIsKleene | src/CommonFramework/Maybe/MaybeExtensions.cs:88-110 | on all nine pairs the table is strong-Kleene conjunction |
| Maybes.LogicAndCommutative | src/CommonFramework/Maybe/MaybeExtensions.cs:88-110 | `LogicAnd` gives the same result with the operands swapped |
| Maybes.Select | src/CommonFramework/Maybe/LinqMaybeExtensions.cs:5-8 | keeps presence, and a present value is mapped by the selector |
| Maybes.SelectIdentity | src/CommonFramework/Maybe/LinqMaybeExtensions.cs:5-8 | selecting with the identity gives an equal `Maybe` |
| Maybes.SelectMany | src/CommonFramework/Maybe/LinqMaybeExtensions.cs:10-16 | present exactly when the source and the next selector's result are both present, holding the result selector applied to both values |
| Maybes.Bind | src/CommonFramework/Maybe/LinqMaybeExtensions.cs:18-21 | `Nothing` stays `Nothing`; a present value is passed to the selector |
| Maybes.BindLeftIdentity | src/CommonFramework/Maybe/LinqMaybeExtensions.cs:18-21 | binding `Return(a)` to `f` gives `f(a)` |
| Maybes.BindNothing | src/CommonFramework/Maybe/LinqMaybeExtensions.cs:18-21 | binding `Nothing` gives `Nothing` |
| Maybes.BindRightIdentity | src/CommonFramework/Maybe/LinqMaybeExtensions.cs:18-21 | binding to `Return` gives back the same `Maybe` |
| Maybes.BindAssociative | src/CommonFramework/Maybe/LinqMaybeExtensions.cs:18-21 | binding is associative, as the monad laws require |
| Maybes.Where | src/CommonFramework/Maybe/LinqMaybeExtensions.cs:23-26 | present exactly when the source is present and its value passes the filter; it is then the source |
| Maybes.WhereIdempotent | src/CommonFramework/Maybe/LinqMaybeExtensions.cs:23-26 | filtering twice with the same filter is filtering once |
| Sequences.Match | src/CommonFramework/EnumerableExtensions.cs:12-22 | exactly one delegate decides the result: the empty one for no element, the single one with the element for one, the many one with all elements in order for two or more |
| Sequences.ZipStrong | src/CommonFramework/EnumerableExtensions.cs:103-126 | the common prefix is yielded pairwise through the selector; the enumeration ends cleanly exactly when the lengths agree, and otherwise throws `InvalidOperationException` |
| Sequences.GetDuplicates | src/CommonFramework/EnumerableExtensions.cs:128-133 | with the hash set created by the call, the first enumeration yields the elements equal to an earlier one, in order |
| Sequences.EnumerateDuplicates | src/CommonFramework/EnumerableExtensions.cs:130-132 | one enumeration of the lazy filter: it yields each item already in the hash set or equal to an earlier item, and leaves every item in the hash set |
| Sequences.GetDuplicatesEnumeratedTwice | src/CommonFramework/EnumerableExtensions.cs:128-133 | enumerating the same result twice: the first pass yields the duplicates, the second, over the shared hash set, yields every element |
| Sequences.FreshEnumerationIsDuplicates | src/CommonFramework/EnumerableExtensions.cs:130-132 | an enumeration from an empty hash set yields exactly the duplicates |
| Sequences.FullSetYieldsAll | src/CommonFramework/EnumerableExtensions.cs:130-132 | an enumeration from a hash set already holding every item yields the whole source |
| Sequences.DuplicatesAreRepeated | src/CommonFramework/EnumerableExtensions.cs:128-133 | a value is reported exactly when it occurs at least twice |
| Sequences.TripleGivesTwoDuplicates | src/CommonFramework/EnumerableExtensions.cs:128-133 | `[a, a, a]` reports `[a, a]` |
| Sequences.SingleMaybe | src/CommonFramework/EnumerableExtensions.cs:76-88 | present exactly for a one-element source, holding that element |
| Sequences.Single | src/CommonFramework/EnumerableExtensions.cs:135-141 | succeeds exactly for one element; the empty handler's exception for none; the many handler's exception, built from all items, for two or more |
| Sequences.SingleOrDefault | src/CommonFramework/EnumerableExtensions.cs:143-160 | the default for none, the element for one, the many handler's exception for two or more |
| Sequences.ChainElements | src/CommonFramework/EnumerableExtensions.cs:44-59 | each element read is the next link of the chain, and reading stops early only at the first null |
| Sequences.ChainElementsSkip | src/CommonFramework/EnumerableExtensions.cs:44-50 | without skipping this is the plain chain; never more than the consumer reads |
| Sequences.ChainOfNullIsEmpty | src/CommonFramework/EnumerableExtensions.cs:44-59 | a null source yields nothing |
| Sequences.ChainSkipDropsFirst | src/CommonFramework/EnumerableExtensions.cs:44-50 | skipping drops exactly the first element: the rest is the chain from the second element |
| Sequences.GetByFirst | src/CommonFramework/EnumerableExtensions.cs:61-73 | "Empty source" for an empty input; otherwise the method gets the head and the remaining elements |
| Enumerators.ReadSingle | src/CommonFramework/EnumeratorExtensions.cs:18-28 | the next element, advancing by exactly one; at the end, "enumerator finished" with the enumerator unchanged |
| Enumerators.ReadToEnd | src/CommonFramework/EnumeratorExtensions.cs:5-11 | every remaining element in order, leaving the enumerator exhausted |
| Enumerators.ReadSingles | src/CommonFramework/EnumeratorExtensions.cs:13-16 | reading n singles yields the next n elements in order when that many remain, and otherwise throws "enumerator finished" after the remainder |
| Enumerators.ReadMany | src/CommonFramework/EnumeratorExtensions.cs:13-16 | a negative count is rejected before anything is read; otherwise the next `count` elements, or a failure when fewer remain |
| Enumerators.ReadSingleAfterReadToEndThrows | src/CommonFramework/EnumeratorExtensions.cs:5-28 | after `ReadToEnd`, `ReadSingle` throws |
| Enumerators.ReadManyThenReadToEnd | src/CommonFramework/EnumeratorExtensions.cs:5-16 | reading n elements and then the rest gives back exactly what remained |
| Trees.PreOrder | src/CommonFramework/ObjectExtensions.cs:5-13 | the traversal is never empty and starts with the root |
| Trees.LeafYieldsItself | src/CommonFramework/ObjectExtensions.cs:5-13 | a node with no children yields exactly itself |
| Trees.PreOrderLength | src/CommonFramework/ObjectExtensions.cs:9-12 | every node is visited once: the length is the number of nodes |
| Trees.ForestPreOrderLength | src/CommonFramework/ObjectExtensions.cs:9-12 | the traversal of the children visits each of their nodes once |
| Trees.ForestPreOrderAppend | src/CommonFramework/ObjectExtensions.cs:9-12 | traversing a list of children distributes over concatenation |
| Strings.Skip | src/CommonFramework/StringExtensions.cs:5-24 | a matching prefix is removed, and the prefix plus the result is the input; otherwise the input is returned or `ArgumentException` is thrown, as asked |
| Strings.SkipLast | src/CommonFramework/StringExtensions.cs:26-45 | a matching suffix is removed, and the result plus the suffix is the input; otherwise the input is returned or `ArgumentException` is thrown, as asked |
| Strings.EmptyPatternChangesNothing | src/CommonFramework/StringExtensions.cs:5-45 | the empty pattern always matches and leaves the input as it is |
| Strings.SkipUndoesConcat | src/CommonFramework/StringExtensions.cs:5-45 | `Skip` undoes prefixing and `SkipLast` undoes suffixing |
| Strings.Join | src/CommonFramework/StringExtensions.cs:51-54 | no values give the empty string, and one value gives itself |
| Strings.JoinCons | src/CommonFramework/StringExtensions.cs:51-54 | the separator stands between the first value and the join of the rest |
| Strings.JoinHasPart | src/CommonFramework/StringExtensions.cs:51-54 | every value occurs in the join |
| Strings.JoinLength | src/CommonFramework/StringExtensions.cs:51-54 | the length is the sum of the values' lengths plus one separator per gap |
| Dictionaries.GetValueOrCreate | src/CommonFramework/DictionaryExtensions.cs:5-17 | with a factory that leaves the dictionary alone: a present key returns its value with the dictionary unchanged; an absent key gets the factory's value, which is added; a throwing factory adds nothing; no other key changes |
| Dictionaries.GetValueOrCreateWith | src/CommonFramework/DictionaryExtensions.cs:5-17 | with a factory that may change the dictionary while it runs: a present key returns its value and the factory does not run; otherwise the call succeeds exactly when the factory returns and did not add the key itself, then returns the factory's value stored under the key; a factory that added the key makes `Add` throw `ArgumentException`; the factory's own writes stay in every case |
| Dictionaries.PureFactoryAgrees | src/CommonFramework/DictionaryExtensions.cs:5-17 | for a factory that leaves the dictionary alone, the general form is `GetValueOrCreate` of the factory's outcome |
| Dictionaries.FactoryAddingKeyThrows | src/CommonFramework/DictionaryExtensions.cs:12-14 | a factory that stores the key and returns makes the call throw the duplicate-key `ArgumentException`, keeping the factory's entry |
| Dictionaries.GetValueOrCreateIgnoresFactoryOnHit | src/CommonFramework/DictionaryExtensions.cs:7-10 | for a present key the factory does not matter |
| Dictionaries.GetValueOrCreateIdempotent | src/CommonFramework/DictionaryExtensions.cs:5-17 | a second call with the same key returns the first call's value and changes nothing |
| Dictionaries.NewCache | src/CommonFramework/DictionaryCache/DictionaryCache.cs:18-25 | a new cache stores nothing and computes nothing |
| Dictionaries.Get | src/CommonFramework/DictionaryCache/DictionaryCache.cs:30-53 | a stored key is answered from the store; a key already being computed throws "duplicate calc key: " followed by the key; a computed value is stored under its key, and (for a recipe, which does not catch a nested lookup's exception) together with every key it asked for; stored values never change; the in-progress set is restored; a failed computation stores nothing for the key |
| Dictionaries.DuplicateCalcKey | src/CommonFramework/DictionaryCache/DictionaryCache.cs:47-50 | an `InvalidOperationException` whose message is "duplicate calc key: " followed by the key's text |
| Dictionaries.GetAll | src/CommonFramework/DictionaryCache/DictionaryCache.cs:30-53 | the keys a computation asks for are looked up in order, each answer being the stored value |
| Dictionaries.Values | src/CommonFramework/DictionaryCache/DictionaryCache.cs:55 | the stored values, one per stored key: as many values as keys, and a value occurs exactly when some key holds it |
| Dictionaries.ValuesOf | src/CommonFramework/DictionaryCache/DictionaryCache.cs:55 | each value occurs as often as there are keys that map to it |
| Dictionaries.SelfDependencyThrows | src/CommonFramework/DictionaryCache/DictionaryCache.cs:36-50 | a computation that asks for its own key throws "duplicate calc key: " with that key, and leaves the cache as it was |
| Dictionaries.SecondLookupHitsCache | src/CommonFramework/DictionaryCache/DictionaryCache.cs:34 | a key once computed is answered from the store, whatever the factory would now do |
| Dictionaries.MissComputesFactory | src/CommonFramework/DictionaryCache/DictionaryCache.cs:34-41 | a successful miss returns the factory's result computed from the values the cache now stores under the keys it asked for |
| Dictionaries.IndependentFactory | src/CommonFramework/DictionaryCache/DictionaryCache.cs:13-16 | with the one-argument constructor a miss computes the factory's value for the key |
| Merging.Empty | src/CommonFramework/MergeResult.cs:16-18 | `Empty` holds no items and is empty |
| Merging.CombineItemsIgnoredByIsEmpty | src/CommonFramework/MergeResult.cs:16 | combine pairs do not make a result non-empty |
| Merging.FilterAppend | src/CommonFramework/MergeResultExtensions.cs:17-19 | filtering keeps relative order: it distributes over concatenation |
| Merging.Select | src/CommonFramework/MergeResultExtensions.cs:5-11 | each list keeps its length, with every item and both sides of every pair mapped in place |
| Merging.Where | src/CommonFramework/MergeResultExtensions.cs:13-19 | an item survives exactly when it passes, as many times as it occurs; a pair exactly when both sides pass; with `Merging.FilterAppend`, the order is kept |
| Merging.Concat | src/CommonFramework/MergeResultExtensions.cs:21-27 | each list is `m1`'s followed by `m2`'s, and the result is empty exactly when both are |
| Merging.ConcatAssociative | src/CommonFramework/MergeResultExtensions.cs:21-27 | concatenation is associative |
| Merging.ConcatEmptyIdentity | src/CommonFramework/MergeResultExtensions.cs:21-27 | `Empty` is the identity of concatenation on both sides |
| Merging.ChangeSource | src/CommonFramework/MergeResultExtensions.cs:29-35 | the adding items are kept; removing items and the source side of pairs are mapped in place |
| Merging.ChangeTarget | src/CommonFramework/MergeResultExtensions.cs:37-43 | the removing items are kept; adding items and the target side of pairs are mapped in place |
| Merging.ChangeBothIsSelect | src/CommonFramework/MergeResultExtensions.cs:5-43 | changing the source and then the target with one mapping is `Select` with it |
| Merging.WhereDistributesOverConcat | src/CommonFramework/MergeResultExtensions.cs:13-27 | filtering a concatenation concatenates the filtered parts |
| Merging.WhereKeepsEmpty | src/CommonFramework/MergeResultExtensions.cs:13-19 | filtering an empty result leaves it empty |
| Comparers.DefaultComparer | src/CommonFramework/ArrayComparer.cs:19 | the default element comparer relates exactly equal values |
| Comparers.ArrayEquals | src/CommonFramework/ArrayComparer.cs:5-11 | the same reference is equal; exactly one null is unequal; otherwise the arrays are equal exactly when the lengths agree and the items are pairwise equal |
| Comparers.ArrayHashConsistent | src/CommonFramework/ArrayComparer.cs:13-16 | arrays the comparer calls equal have equal hashes, whatever the item comparer |
| Comparers.DefaultArrayComparerIsContentEquality | src/CommonFramework/ArrayComparer.cs:19 | the default array comparer relates two non-null arrays exactly when their contents agree |
| Comparers.ImplEquals | src/CommonFramework/EqualityComparerImpl.cs:5-11 | two nulls are equal, and for a reference type so is the same reference; exactly one null is unequal; otherwise (always, for two non-null values of a value type, whose boxes are never the same reference) the equality function decides |
| Comparers.ValueTypeSkipsReferenceCheck | src/CommonFramework/EqualityComparerImpl.cs:7-10 | with an irreflexive equality function, a value-type value is unequal to itself, where a reference-type value short-cuts to equal |
| Comparers.ImplHash | src/CommonFramework/EqualityComparerImpl.cs:13-16 | 0 without a hash function, otherwise that function's hash |
| Comparers.ImplHashWithoutFunctionConsistent | src/CommonFramework/EqualityComparerImpl.cs:13-16 | without a hash function all values hash alike, so the hash agrees with any equality |
| Comparers.CreateByKey | src/CommonFramework/EqualityComparerImpl.cs:18-23 | no hash function, and two values are related exactly when their keys are equal |
| Comparers.CreateByKeyEquals | src/CommonFramework/EqualityComparerImpl.cs:18-23 | two non-null values are equal exactly when their selected keys are, for value and reference types alike |
| Comparers.CreateCollection | src/CommonFramework/DeepEqualsCollection.cs:5-13 | the collection holds the source; a null comparer stands for the default comparer |
| Comparers.At | src/CommonFramework/DeepEqualsCollection.cs:17 | succeeds exactly for an index below `Count`, returning the item there; otherwise throws `IndexOutOfRangeException` |
| Comparers.CollectionEquals | src/CommonFramework/DeepEqualsCollection.cs:23-27 | the same reference is equal; null is unequal; otherwise equal exactly when the lengths agree and the items are pairwise equal under this collection's comparer |
| Comparers.ObjectEquals | src/CommonFramework/DeepEqualsCollection.cs:48-51 | two nulls or the same reference are equal; exactly one null is unequal; otherwise the left collection's `Equals` decides |
| Comparers.OpEquals | src/CommonFramework/DeepEqualsCollection.cs:48-51 | two nulls are equal, exactly one null is unequal, and a non-null left side decides with its own comparer |
| Comparers.OpNotEquals | src/CommonFramework/DeepEqualsCollection.cs:53-56 | `!=` is the negation of `==` |
| Comparers.GetHashCode | src/CommonFramework/DeepEqualsCollection.cs:31-34 | a cached hash is returned as is; otherwise the hash is computed and cached |
| Comparers.HashIsStable | src/CommonFramework/DeepEqualsCollection.cs:31-34 | later calls return the first call's hash |
| Comparers.CollectionHashConsistent | src/CommonFramework/DeepEqualsCollection.cs:36-46 | collections that are equal under a hash-consistent comparer have equal hashes |
| Comparers.SeparateCollectionsWithSameElementsAreEqual | src/CommonFramework/DeepEqualsCollection.cs:64-66 | two collections created separately from the same items are equal both ways round, though they are different objects |
| Types.GetGenericTypeDefinition | src/CommonFramework.DependencyInjection/ServiceProxyTypeRedirector.cs:19 | defined exactly for generic types, always giving a generic definition; a constructed type gives its definition with its arity |
| Types.MakeGenericType | src/CommonFramework.DependencyInjection/ServiceProxyTypeRedirector.cs:23 | succeeds exactly on a generic definition given as many arguments as its arity, building that constructed type |
| Types.ConstructedRoundTrip | src/CommonFramework.DependencyInjection/ServiceProxyTypeRedirector.cs:19-23 | splitting a constructed type into definition and arguments and rebuilding it gives the same type |
| ExpressionComparers.EqualsErased | src/CommonFramework/ExpressionComparers/ExpressionComparer.cs:8-86 | on a tree of the kinds the dispatch knows, `Default` never throws and answers true exactly when the two trees are equal once object identities are forgotten |
| ExpressionComparers.PureEqualsErased | src/CommonFramework/ExpressionComparers/ExpressionComparer.cs:67-86 | the kind dispatch decides equality up to object identity for two nodes of the same shape |
| ExpressionComparers.ParamsEqualErased | src/CommonFramework/ExpressionComparers/LambdaComparer.cs:9 | two parameter lists compare equal exactly when they agree pairwise in type and name |
| ExpressionComparers.InitErased | src/CommonFramework/ExpressionComparers/ElementInitComparer.cs:13-20 | element initializers compare equal exactly when they agree up to object identity |
| ExpressionComparers.BindingErased | src/CommonFramework/ExpressionComparers/MemberBindingComparer.cs:11-39 | member bindings compare equal exactly when they agree up to object identity |
| ComparerKinds.LambdaComparerSpec | src/CommonFramework/ExpressionComparers/LambdaComparer.cs:7-10 | lambdas: the parameter lists first, the bodies only when the parameters agree |
| ComparerKinds.ParameterComparerSpec | src/CommonFramework/ExpressionComparers/ParameterComparer.cs:7-10 | parameters are equal exactly when type and name agree, whatever object they are |
| ComparerKinds.MethodCallComparerSpec | src/CommonFramework/ExpressionComparers/MethodCallComparer.cs:7-12 | calls: the identical method, then the targets, then the arguments pairwise |
| ComparerKinds.MemberComparerSpec | src/CommonFramework/ExpressionComparers/MemberComparer.cs:7-10 | member accesses: the identical member, then the targets |
| ComparerKinds.BinaryComparerSpec | src/CommonFramework/ExpressionComparers/BinaryComparer.cs:11-16 | binary nodes: the operator method, then left with left, then right with right |
| ComparerKinds.ConstantComparerSpec | src/CommonFramework/ExpressionComparers/ConstantComparer.cs:7-10 | `Default` compares the constants' static types and values; a plain `ConstantExpression` and a `TypedConstantExpression` are unequal under every comparer, because their classes differ; `WithoutConst` throws for two distinct constants of one type and one class |
| ComparerKinds.UnaryComparerSpec | src/CommonFramework/ExpressionComparers/UnaryComparer.cs:7-11 | unary nodes: the operator method, then the operands |
| ComparerKinds.NewArrayComparerSpec | src/CommonFramework/ExpressionComparers/NewArrayComparer.cs:7-10 | array creation: the element expressions pairwise |
| ComparerKinds.NewComparerSpec | src/CommonFramework/ExpressionComparers/NewComparer.cs:7-14 | object creation: arguments pairwise, then member lists both absent or both present and equal |
| ComparerKinds.MemberInitComparerSpec | src/CommonFramework/ExpressionComparers/MemberInitComparer.cs:7-10 | member initialisation: the `new` parts, then the bindings pairwise |
| ComparerKinds.ConditionalComparerSpec | src/CommonFramework/ExpressionComparers/ConditionalComparer.cs:7-12 | conditionals: tests, true branches and false branches, stopping at the first difference |
| ComparerKinds.ListInitComparerSpec | src/CommonFramework/ExpressionComparers/ListInitComparer.cs:8-17 | list initialisation: the `new` parts, then the same initializer list or pairwise equal initializers |
| ComparerKinds.ElementInitComparerSpec | src/CommonFramework/ExpressionComparers/ElementInitComparer.cs:13-20 | element initializers: the identical add method, then the arguments |
| ComparerKinds.MemberBindingComparerSpec | src/CommonFramework/ExpressionComparers/MemberBindingComparer.cs:11-39 | bindings of different binding types are unequal; same-type bindings compare their expressions, initializer lists or nested bindings |
| ComparerKinds.HashConsistent | src/CommonFramework/ExpressionComparers/ExpressionComparer.cs:18-21 | the base hash (type xor node type) agrees on every pair the comparer calls equal |
| ComparerKinds.LambdaHashConsistent | src/CommonFramework/ExpressionComparers/LambdaComparer.cs:12-15 | lambdas the comparer calls equal have equal hashes |
| ComparerKinds.CallHashConsistent | src/CommonFramework/ExpressionComparers/MethodCallComparer.cs:14-17 | calls the comparer calls equal have equal hashes |
| ComparerKinds.MemberHashConsistent | src/CommonFramework/ExpressionComparers/MemberComparer.cs:12-15 | member accesses the comparer calls equal have equal hashes |
| ComparerKinds.ElementInitHashConsistent | src/CommonFramework/ExpressionComparers/ElementInitComparer.cs:22-25 | element initializers the comparer calls equal have equal hashes |
| ComparerKinds.BindingHashConsistent | src/CommonFramework/ExpressionComparers/MemberBindingComparer.cs:41-44 | bindings the comparer calls equal have equal hashes |
| ComparerLaws.SeqEqualsTrue | src/CommonFramework/ExpressionComparers/NewArrayComparer.cs:9 | a list comparison answers true exactly when the counts agree and each pair at the same position compares true |
| ComparerLaws.InitsEqualTrue | src/CommonFramework/ExpressionComparers/ListInitComparer.cs:14-17 | an initializer list comparison answers true exactly when it is the same list, or the counts agree and each pair compares true |
| ComparerLaws.BindingsEqualTrue | src/CommonFramework/ExpressionComparers/MemberInitComparer.cs:9 | a binding list comparison answers true exactly when the counts agree and each pair compares true |
| ComparerLaws.ListsReflexive | src/CommonFramework/ExpressionComparers/ExpressionComparer.cs:10 | every list of sub-expressions, initializers or bindings compares equal to itself |
| ComparerLaws.BaseChecks | src/CommonFramework/ExpressionComparers/ExpressionComparer.cs:8-14 | the same reference is equal; a difference in node type, static type or node class makes nodes unequal |
| ComparerLaws.UnknownKindThrows | src/CommonFramework/ExpressionComparers/ExpressionComparer.cs:83-84 | two distinct nodes of an unknown kind that pass the base check raise `NotImplementedException` whose message names both node classes |
| ExpressionComparers.NotImplementedComparison | src/CommonFramework/ExpressionComparers/ExpressionComparer.cs:83-84 | the message quotes the class name of the first node and then of the second, between the fixed words |
| ComparerLaws.EqualsSymmetric | src/CommonFramework/ExpressionComparers/ExpressionComparer.cs:8-86 | swapping the operands never changes the outcome, exceptions included |
| ComparerLaws.WithoutConstAgrees | src/CommonFramework/ExpressionComparers/ExpressionComparer.cs:91-97 | whenever `WithoutConst` gives a verdict, `Default` gives the same one; on a left operand without constants they behave identically |
| ComparerExamples.SeparatelyBuiltLambdasAreEqual | src/CommonFramework/ExpressionComparers/ExpressionComparer.cs:8-14 | two separately built `x => x + 1` lambdas are different objects and compare equal |
| ComparerExamples.AlphaRenamedLambdasDiffer | src/CommonFramework/ExpressionComparers/ParameterComparer.cs:7-10 | `x => x + 1` and `y => y + 1` compare unequal, because parameters compare by name |
| ComparerExamples.OperandOrderMatters | src/CommonFramework/ExpressionComparers/BinaryComparer.cs:11-16 | `a + b` and `b + a` compare unequal: operands are compared by position |
| ComparerExamples.UnnamedParametersAreNotTracked | src/CommonFramework/ExpressionComparers/ParameterComparer.cs:7-10 | with unnamed parameters, `p1 == p2` and `p2 == p1` compare equal: which parameter a use refers to is not tracked |
| ComparerExamples.DifferentOperatorsDiffer | src/CommonFramework/ExpressionComparers/ExpressionComparer.cs:13 | `a + b` and `a - b` differ by node type alone |
| ComparerExamples.SwappedBranchesDiffer | src/CommonFramework/ExpressionComparers/ConditionalComparer.cs:7-12 | swapping a conditional's branches makes it unequal |
| ComparerExamples.ConditionalShortCircuits | src/CommonFramework/ExpressionComparers/ConditionalComparer.cs:9-11 | once the tests differ, branches of a kind the dispatch does not know raise nothing |
| ComparerExamples.ReorderedBindingsDiffer | src/CommonFramework/ExpressionComparers/MemberInitComparer.cs:9 | reordering a member initialisation's bindings makes it unequal |
| ComparerExamples.MemberListPresenceMatters | src/CommonFramework/ExpressionComparers/NewComparer.cs:11-13 | `new P()` with a member list differs from one without |
| ComparerExamples.ConstantsCompareValueAndType | src/CommonFramework/ExpressionComparers/ConstantComparer.cs:7-10 | two null constants of one type are equal, and the same value under two static types is not; `WithoutConst` throws on two `null` strings, but answers false for a `null` string against `"a"`, since the first is a `TypedConstantExpression` and the second a plain `ConstantExpression` |
| ExpressionVisitors.OverrideReference | src/CommonFramework/Visitor/OverrideExpressionVisitor.cs:7-10 | the reference form replaces exactly the given object, by the given expression |
| ExpressionVisitors.BinaryMethod | src/CommonFramework/ExpressionExtensions.cs:289-309 | `==` and `!=` compare the operand values; `&&` and `\|\|` apply to booleans; any other operator has no built-in method |
| ExpressionVisitors.LeftShortCut | src/CommonFramework/Visitor/OptimizeBooleanLogicVisitor.cs:46-55 | a short cut is taken only for a boolean constant left operand that decides the operator: `false &&` or `true \|\|` |
| ExpressionVisitors.Fold | src/CommonFramework/Visitor/OptimizeBooleanLogicVisitor.cs:60-69 | a node is folded only when both operands are constants, and never to null |
| ExpressionVisitors.Simplify | src/CommonFramework/Visitor/OptimizeBooleanLogicVisitor.cs:71-94 | nothing is simplified when the node has a user-defined operator or is not `&&` or `\|\|` |
| VisitorLaws.VisitIdentity | src/CommonFramework/Visitor/OptimizeBooleanLogicVisitor.cs:96-99 | a visit that acts on no node of the tree returns the tree itself, the same object, and allocates nothing |
| VisitorLaws.OverrideLeavesNone | src/CommonFramework/Visitor/OverrideExpressionVisitor.cs:12-15 | after a reference override no replaced object is left in the result, and the replacement is not visited again |
| VisitorExamples.ReplacementIsNotRevisited | src/CommonFramework/Visitor/OverrideExpressionVisitor.cs:12-15 | replacing `x` by `!x` in `x && x'` replaces only the object `x`, not its structurally equal copy, and does not revisit the replacement |
| VisitorExamples.ParameterReplacedEverywhere | src/CommonFramework/Visitor/OverrideExpressionVisitor.cs:12-15 | renaming a lambda's parameter object replaces it in the parameter list and in the body |
| VisitorExamples.ParameterMustStayParameter | src/CommonFramework/Visitor/OverrideExpressionVisitor.cs:12-15 | replacing a lambda's parameter by a non-parameter fails |
| ExpressionBuilders.GetChildren | src/CommonFramework/ExpressionExtensions.cs:16-29 | a null call throws `ArgumentNullException`; otherwise the target, when there is one, and every argument |
| ExpressionBuilders.GetMember | src/CommonFramework/ExpressionExtensions.cs:51-59 | a null expression names no member |
| ExpressionBuilders.ConstantLambda | src/CommonFramework/ExpressionExtensions.cs:71 | `_ => value` is a one-parameter boolean lambda whose body is the constant, built from three new objects |
| ExpressionBuilders.Combine | src/CommonFramework/ExpressionExtensions.cs:61-67 | a one-parameter lambda over `expr1`'s parameter whose body applies the operator to `expr1`'s body |
| ExpressionBuilders.CombineAll | src/CommonFramework/ExpressionExtensions.cs:69-74 | folding keeps the first predicate's parameter |
| ExpressionBuilders.OverrideEach | src/CommonFramework/ExpressionExtensions.cs:157-162 | when the parameter and expression counts differ the result is an exception |
| ExpressionBuilders.GetBodyWithOverrideParameters | src/CommonFramework/ExpressionExtensions.cs:157-162 | a count mismatch between parameters and new expressions throws |
| ExpressionBuilders.CombineBinary | src/CommonFramework/ExpressionExtensions.cs:76-83 | a lambda over `expr1`'s parameters whose body applies the operator to `expr1`'s body; a parameter count mismatch throws |
| ExpressionBuilders.Select | src/CommonFramework/LinqExpressionExtensions.cs:8-11 | a one-parameter lambda over the source's parameter, typed `Func<TSourceArg, TSelectorResult>` from the selector's declared result type |
| ExpressionBuilders.Not | src/CommonFramework/ExpressionExtensions.cs:119-124 | a one-parameter lambda over the same parameter |
| ExpressionBuilders.UpdateBody | src/CommonFramework/ExpressionExtensions.cs:147-150 | a lambda with the same parameters and delegate type |
| ExpressionBuilders.Optimize | src/CommonFramework/ExpressionExtensions.cs:137-140 | a lambda with the same parameters and delegate type |
| BuilderLaws.SubstitutePreservesValue | src/CommonFramework/ExpressionExtensions.cs:164-167 | overriding a parameter by an expression and then evaluating equals evaluating with the parameter bound to that expression's value |
| BuilderLaws.SubstituteKeepsConsistent | src/CommonFramework/ExpressionExtensions.cs:164-167 | the override succeeds, and identities keep naming objects |
| BuilderLaws.CombineValue | src/CommonFramework/ExpressionExtensions.cs:61-67 | `BuildAnd` and `BuildOr` of two predicates evaluate, for any argument, to their `&&` and `\|\|` |
| BuilderLaws.CombineHolds | src/CommonFramework/ExpressionExtensions.cs:97-103 | the combined predicate holds exactly when both (for `BuildAnd`) or either (for `BuildOr`) hold |
| BuilderLaws.CombineAllValue | src/CommonFramework/ExpressionExtensions.cs:69-95 | the fold holds exactly when the first predicate and all (or any of) the rest hold |
| BuilderLaws.BuildAndAllValue | src/CommonFramework/ExpressionExtensions.cs:69-74 | the sequence `BuildAnd` holds exactly when every predicate holds; no predicates always hold |
| BuilderLaws.BuildOrAllValue | src/CommonFramework/ExpressionExtensions.cs:90-95 | the sequence `BuildOr` holds exactly when some predicate holds; no predicates never hold |
| BuilderLaws.OverrideEachValue | src/CommonFramework/ExpressionExtensions.cs:157-162 | overriding each parameter by an expression of the same value keeps the body's value and type |
| BuilderLaws.CombineBinaryValue | src/CommonFramework/ExpressionExtensions.cs:76-112 | the two-parameter `BuildAnd` and `BuildOr` evaluate to the `&&` and `\|\|` of the two bodies on the same arguments |
| BuilderLaws.NotNegates | src/CommonFramework/ExpressionExtensions.cs:119-124 | `Not()` holds exactly when the predicate does not |
| BuilderLaws.OptimizeKeepsMeaning | src/CommonFramework/ExpressionExtensions.cs:137-140 | `Optimize()` keeps the parameters, and the body keeps its value, on the fragment whose `==` and `!=` compare operands of one value type |
| BuilderLaws.GetMemberStripsConversions | src/CommonFramework/ExpressionExtensions.cs:51-59 | the member is the one named by the node under all its conversions |
| BuilderLaws.ChildrenAreOperands | src/CommonFramework/ExpressionExtensions.cs:16-29 | the children are exactly the operands a property of every node of the call must also hold at |
| BuilderExamples.NotKeepsParameterAndBody | src/CommonFramework/ExpressionExtensions.cs:119-124 | `(v => v == 123).Not()` is a new lambda over the same parameter object, with a new negation of the original body object |
| BuilderExamples.NotMatchesWrittenNegation | src/CommonFramework/ExpressionExtensions.cs:119-124 | that lambda compares equal to a separately written `v => !(v == 123)` |
| OptimizerLaws.TypedEvaluates | src/CommonFramework/Visitor/OptimizeBooleanLogicVisitor.cs:40-108 | a well-typed expression has a value, boolean when its static type is `bool` |
| OptimizerLaws.OptimizePreservesValue | src/CommonFramework/Visitor/OptimizeBooleanLogicVisitor.cs:13-108 | the optimiser never throws on a well-typed expression, keeps it well-typed with the same static type, and keeps its value; well-typed `==` and `!=` compare operands of one value type, where the compiled node and the fold's `object.Equals` agree |
| OptimizerLaws.OptimizeBinaryPreserves | src/CommonFramework/Visitor/OptimizeBooleanLogicVisitor.cs:40-108 | the binary step preserves the value, given that the operands are optimised soundly |
| OptimizerLaws.ShortCutSound | src/CommonFramework/Visitor/OptimizeBooleanLogicVisitor.cs:46-55 | a constant left operand that decides `&&` or `\|\|` is the value of the whole node |
| OptimizerLaws.FoldSound | src/CommonFramework/Visitor/OptimizeBooleanLogicVisitor.cs:60-69 | a folded value is the operator's value on the two constants, with `==` and `!=` comparing values as `object.Equals` does; two constants are always folded for the four logical operators |
| OptimizerLaws.ReferenceFoldAgrees | src/CommonFramework/ExpressionExtensions.cs:289-297 | on reference-typed operands holding `null` or objects with the reference `Equals`, the fold's `object.Equals` gives the compiled node's reference comparison |
| OptimizerLaws.BoxedEqualityIsFolded | src/CommonFramework/Visitor/OptimizeBooleanLogicVisitor.cs:60-69 | `Equal(Constant(1, object), Constant(1, object))` lies outside the fragment, since its compiled value is a comparison of two boxes by reference, yet the optimiser folds it to `true` |
| OptimizerLaws.SimplifySound | src/CommonFramework/Visitor/OptimizeBooleanLogicVisitor.cs:71-94 | one constant operand of `&&` or `\|\|` reduces the node to the other operand or to a constant of the same value |
| OptimizerLaws.LeftOperandDecides | src/CommonFramework/Visitor/OptimizeBooleanLogicVisitor.cs:46-55 | `false && r` and `true \|\| r` become the constant without visiting `r`, even when visiting `r` would throw |
| OptimizerLaws.NeutralLeftOperandDropped | src/CommonFramework/Visitor/OptimizeBooleanLogicVisitor.cs:77-80 | `true && r` and `false \|\| r` become the optimised `r` |
| OptimizerLaws.RightOperandRules | src/CommonFramework/Visitor/OptimizeBooleanLogicVisitor.cs:84-93 | `l && true` and `l \|\| false` become `l`; `l && false` becomes false and `l \|\| true` becomes true |
| OptimizerLaws.OnlyLogicalOperatorsFold | src/CommonFramework/ExpressionExtensions.cs:289-309 | two constants are folded only for `==`, `!=`, `&&` and `\|\|`; `1 + 2` is left as it is |
| OptimizerLaws.ConstantTestSelectsBranch | src/CommonFramework/Visitor/OptimizeBooleanLogicVisitor.cs:13-24 | a conditional with a constant test becomes its optimised chosen branch; the other branch is not visited |
| LambdaCompileCaches.ConstantToParameters | src/CommonFramework/ExpressionEvaluate/LambdaCompileCache.cs:39-48 | the lifting starts from an empty argument list and never reuses an identity |
| LambdaCompileCaches.ArgParams | src/CommonFramework/ExpressionEvaluate/LambdaCompileCache.cs:21 | the new parameters of the lifted pairs, one per pair, in order |
| LambdaCompileCaches.ArgValues | src/CommonFramework/ExpressionEvaluate/LambdaCompileCache.cs:23 | the values of the lifted constants, one per pair, in order |
| LambdaCompileCaches.Lookup | src/CommonFramework/ExpressionEvaluate/LambdaCompileCache.cs:29-31 | a found delegate is the delegate of one of the partition's entries |
| LambdaCompileCaches.GetGetDelegate | src/CommonFramework/ExpressionEvaluate/LambdaCompileCache.cs:26-37 | on success the delegate type has a partition, and no entry of it is lost |
| LambdaCompileCaches.GetFunc | src/CommonFramework/ExpressionEvaluate/LambdaCompileCache.cs:12-24 | on success the lambda's delegate type has a partition, and no entry of it is lost |
| CacheLaws.LookupSpec | src/CommonFramework/ExpressionEvaluate/LambdaCompileCache.cs:29-31 | a hit returns the delegate of an entry whose key compares equal; a miss happens exactly when no key does, so the hash filter never hides an equal key |
| CacheLaws.GetGetDelegateSpec | src/CommonFramework/ExpressionEvaluate/LambdaCompileCache.cs:26-37 | a hit returns the stored delegate with the cache unchanged; a miss compiles the lambda over the given parameters and appends it; only the delegate type's partition is touched |
| CacheLaws.CompiledOnce | src/CommonFramework/ExpressionEvaluate/LambdaCompileCache.cs:31-36 | after a miss stores a key, a key the comparer calls equal gets the same delegate without compiling, and the cache does not change |
| CacheLaws.LiftedKey | src/CommonFramework/ExpressionEvaluate/LambdaCompileCache.cs:50-59 | the lifted lambda holds no constant, and one pair is recorded per constant of the input, in visit order, each a new parameter of the constant's type |
| CacheLaws.LiftedKeysEqual | src/CommonFramework/ExpressionEvaluate/LambdaCompileCache.cs:39-59 | lambdas of one shape that differ only in constant values lift to keys the lambda comparer calls equal |
| CacheLaws.LiftedKeyKeepsMeaning | src/CommonFramework/ExpressionEvaluate/LambdaCompileCache.cs:21-23 | with each new parameter bound to its constant's value, the lifted body has the original body's value |
| CacheLaws.ConstantValues | src/CommonFramework/ExpressionEvaluate/LambdaCompileCache.cs:23 | the values of constant nodes, one per node, in order |
| CacheLaws.GetFuncReturns | src/CommonFramework/ExpressionEvaluate/LambdaCompileCache.cs:12-24 | without boolean optimisation `GetFunc` returns, keeps every stored key comparable, and invokes the delegate with the lambda's constant values in visit order |
| CacheLaws.LookupNeverThrows | src/CommonFramework/ExpressionEvaluate/LambdaCompileCache.cs:29-31 | a lookup whose comparisons all return does not throw |
| CacheLaws.SameShapeSharesDelegate | src/CommonFramework/ExpressionEvaluate/LambdaCompileCache.cs:12-37 | once one lambda is compiled for a delegate type, a lambda of the same type and shape that differs only in constant values gets the same delegate, without compiling again and with the cache unchanged; only the arguments differ |
| CacheLaws.FirstCallCompiles | src/CommonFramework/ExpressionEvaluate/LambdaCompileCache.cs:26-37 | the first call for a delegate type compiles the lifted lambda and stores it as the only entry of the type's partition |
| CacheLaws.SameShapeHits | src/CommonFramework/ExpressionEvaluate/LambdaCompileCache.cs:12-24 | a lambda of the stored key's shape is invoked through the stored delegate with its own constant values, leaving the cache unchanged |
| LiftingLaws.RecordsCompose | src/CommonFramework/ExpressionEvaluate/LambdaCompileCache.cs:54-56 | two lifting visits in a row record the constants of both, in order |
| LiftingLaws.RecordsNothing | src/CommonFramework/ExpressionEvaluate/LambdaCompileCache.cs:52-59 | a visit that meets no constant records nothing |
| LiftingLaws.LiftIgnoresValues | src/CommonFramework/ExpressionEvaluate/LambdaCompileCache.cs:52-59 | two trees of one shape lift to trees that are equal up to identities |
| LiftingLaws.LiftKeepsValue | src/CommonFramework/ExpressionEvaluate/LambdaCompileCache.cs:52-59 | on the boolean fragment, the lifted expression keeps the original's static type and, with the new parameters bound to their constants' values, its value |
| LiftingLaws.LiftKeepsMeaning | src/CommonFramework/ExpressionEvaluate/LambdaCompileCache.cs:52-59 | lifting keeps the meaning: in the environment binding each new parameter to its constant's value, the lifted expression evaluates as the original did |
| ExpressionPaths.PathEquals | src/CommonFramework/LambdaExpressionPath.cs:19-23 | the same path is equal; null is unequal; paths of different lengths are equal only when they are the same object |
| ExpressionPaths.PathEqualsSpec | src/CommonFramework/LambdaExpressionPath.cs:19-23 | two paths are equal exactly when they are the same object, or their lambdas agree in number and pairwise under `ExpressionComparer.Default` |
| ExpressionPaths.PathEqualsSymmetric | src/CommonFramework/LambdaExpressionPath.cs:19-23 | path equality does not depend on which side is asked |
| ExpressionPaths.PathHash | src/CommonFramework/LambdaExpressionPath.cs:25-28 | a cached hash is returned as is; otherwise the hash is computed and cached |
| ExpressionPaths.PathHashIsStable | src/CommonFramework/LambdaExpressionPath.cs:25-28 | a second call returns the first call's hash |
| ExpressionPaths.PathHashConsistent | src/CommonFramework/LambdaExpressionPath.cs:30-40 | equal paths have equal hashes |
| ExpressionPaths.PathOrderMatters | src/CommonFramework/LambdaExpressionPath.cs:23 | two unequal lambdas listed in the other order make an unequal path |
| ExpressionPaths.AccessorsEquals | src/CommonFramework/ReadonlyPropertyAccessors.cs:14-16 | the same object is equal; null is unequal; otherwise the paths decide under `ExpressionComparer.Default` |
| ExpressionPaths.GetterIgnored | src/CommonFramework/ReadonlyPropertyAccessors.cs:14-16 | the getter plays no part in equality |
| ExpressionPaths.AccessorsHashConsistent | src/CommonFramework/ReadonlyPropertyAccessors.cs:18-21 | equal accessors have equal hashes |
| ExpressionPaths.SeparatelyBuiltPathsAreEqual | src/CommonFramework/LambdaExpressionPath.cs:19-40 | paths of separately built `x => x + 1` lambdas are different objects, equal, with equal hashes |
| ValidationResults.Plus | src/CommonFramework.DependencyInjection/ValidationResult.cs:37-40 | the left errors, then the right ones, in order |
| ValidationResults.SuccessSucceeds | src/CommonFramework.DependencyInjection/ValidationResult.cs:24-29 | `Success` has no error and is a success |
| ValidationResults.PlusMonoid | src/CommonFramework.DependencyInjection/ValidationResult.cs:37-40 | `+` is associative with `Success` as identity on both sides, as error sequences |
| ValidationResults.PlusSucceeds | src/CommonFramework.DependencyInjection/ValidationResult.cs:24-40 | a combination succeeds exactly when both parts do |
| ValidationResults.AggregateErrors | src/CommonFramework.DependencyInjection/ServiceCollectionValidationExtensions.cs:51-54 | the aggregate holds the accumulated errors followed by each result's errors in order, and succeeds exactly when every part does |
| ServiceCollections.AddValidator | src/CommonFramework.DependencyInjection/ServiceCollectionValidationExtensions.cs:30-33 | one non-keyed singleton validator registration carrying the instance is appended; the earlier registrations are kept |
| ServiceCollections.GetValidatorsAppend | src/CommonFramework.DependencyInjection/ServiceCollectionValidationExtensions.cs:66-79 | the validators of two collections in a row are those of the first, then those of the second |
| ServiceCollections.GetValidatorsFinds | src/CommonFramework.DependencyInjection/ServiceCollectionValidationExtensions.cs:66-79 | a validator is found exactly when some non-keyed singleton registration of the validator interface carries it |
| ServiceCollections.AddedValidatorRunsLast | src/CommonFramework.DependencyInjection/ServiceCollectionValidationExtensions.cs:30-33 | an added validator runs after the ones already registered |
| ServiceCollections.RunAll | src/CommonFramework.DependencyInjection/ServiceCollectionValidationExtensions.cs:53 | one result per validator, each that validator's verdict on the collection |
| ServiceCollections.Validate | src/CommonFramework.DependencyInjection/ServiceCollectionValidationExtensions.cs:49-64 | a success returns the same collection; a failure is `InvalidOperationException` |
| ServiceCollections.ValidateSpec | src/CommonFramework.DependencyInjection/ServiceCollectionValidationExtensions.cs:49-64 | returns exactly when every registered validator succeeds; otherwise the message is every error, in order, joined by the newline |
| ServiceCollections.NoValidatorsSucceed | src/CommonFramework.DependencyInjection/ServiceCollectionValidationExtensions.cs:49-64 | a collection with no validator registered always validates |
| DuplicateServiceUsage.ActualImplementationType | src/CommonFramework.DependencyInjection/DuplicateServiceUsageValidator.cs:42 | the getter matching the registration's keyedness, which always yields the descriptor's implementation type, while the other getter is null |
| DuplicateServiceUsage.FirstMarked | src/CommonFramework.DependencyInjection/DuplicateServiceUsageValidator.cs:54 | none exactly when no constructor is marked; otherwise the first marked one |
| DuplicateServiceUsage.ChooseCtor | src/CommonFramework.DependencyInjection/DuplicateServiceUsageValidator.cs:50-55 | none without a constructor, the only one when there is one, otherwise the first marked one |
| DuplicateServiceUsage.ConsumerCtor | src/CommonFramework.DependencyInjection/DuplicateServiceUsageValidator.cs:42-57 | only registrations with an implementation type and no factory consume their constructor's parameters |
| DuplicateServiceUsage.CountUses | src/CommonFramework.DependencyInjection/DuplicateServiceUsageValidator.cs:59-67 | positive exactly when some parameter is that usage, and never more than the parameter count |
| DuplicateServiceUsage.UsedFor | src/CommonFramework.DependencyInjection/DuplicateServiceUsageValidator.cs:67-69 | each member of a usage's group is a registration whose constructor takes that usage |
| DuplicateServiceUsage.UsedForNonEmpty | src/CommonFramework.DependencyInjection/DuplicateServiceUsageValidator.cs:67-69 | a usage's group is non-empty exactly when some registration's constructor takes it |
| DuplicateServiceUsage.Groups | src/CommonFramework.DependencyInjection/DuplicateServiceUsageValidator.cs:75-79 | every (service type, key) pair registered, each once |
| DuplicateServiceUsage.Report | src/CommonFramework.DependencyInjection/DuplicateServiceUsageValidator.cs:79-87 | only groups with more than one registration and some single-instance use are reported, each with its users |
| DuplicateServiceUsage.ReportCovers | src/CommonFramework.DependencyInjection/DuplicateServiceUsageValidator.cs:79-87 | every group with more than one registration and some single-instance use is reported |
| DuplicateServiceUsage.Filter | src/CommonFramework.DependencyInjection/DuplicateServiceUsageValidator.cs:23 | exactly the pairs whose service type is not excepted |
| DuplicateServiceUsage.ErrorMessage | src/CommonFramework.DependencyInjection/DuplicateServiceUsageValidator.cs:25-31 | every error names the service type, says it has been registered many times, and names the implementation type of every non-keyed consumer |
| DuplicateServiceUsage.Validate | src/CommonFramework.DependencyInjection/DuplicateServiceUsageValidator.cs:19-34 | one error per reported pair that is not excepted, in order |
| DuplicateServiceUsage.ReportedIff | src/CommonFramework.DependencyInjection/DuplicateServiceUsageValidator.cs:19-90 | a pair is reported exactly when it is registered more than once, some constructor takes it as a single instance, and its service type is not excepted |
| DuplicateServiceUsage.CountedIsRegistered | src/CommonFramework.DependencyInjection/DuplicateServiceUsageValidator.cs:79-81 | a pair counted at least once is some registration's pair |
| DuplicateServiceUsage.SucceedsIffNothingReported | src/CommonFramework.DependencyInjection/DuplicateServiceUsageValidator.cs:19-34 | the validator succeeds exactly when no pair is reportable |
| ServiceExamples.PairReported | src/CommonFramework.DependencyInjection/DuplicateServiceUsageValidator.cs:73-87 | two registrations of a pair plus a consumer of it fail validation unless the service type is excepted |
| ServiceExamples.NothingReported | src/CommonFramework.DependencyInjection/DuplicateServiceUsageValidator.cs:73-87 | when the consumer's only usage is registered at most once, or is excepted, validation succeeds |
| ServiceExamples.SingleInstanceUseIsReported | src/CommonFramework.DependencyInjection/DuplicateServiceUsageValidator.cs:11-34 | a consumer of a twice-registered interface is reported, and excepting the interface silences it |
| ServiceExamples.CollectionUseIsNotReported | src/CommonFramework.DependencyInjection/DuplicateServiceUsageValidator.cs:59-67 | taking the interface as a collection is not a single-instance use |
| ServiceExamples.ConsumersListedByImplementationType | src/CommonFramework.DependencyInjection/DuplicateServiceUsageValidator.cs:30 | a plain consumer is listed by its implementation's name, a keyed one by the empty text of its null `ImplementationType` |
| ServiceExamples.KeyedUseIsReported | src/CommonFramework.DependencyInjection/DuplicateServiceUsageValidator.cs:63-67 | a keyed use under the registered key is reported; a keyed collection use is not |
| ServiceExamples.ValidateThrowsOnDuplicateUsage | src/CommonFramework.DependencyInjection/ServiceCollectionValidationExtensions.cs:49-64 | registered as a validator, the duplicate-usage validator makes `Validate` throw on such a collection |
| ServiceProxyRedirects.BaseCache | src/CommonFramework.DependencyInjection/ServiceProxyTypeRedirector.cs:7 | succeeds exactly when no two redirects share a `From`, mapping each `From` to its `To`; otherwise `ArgumentException` |
| ServiceProxyRedirects.Create | src/CommonFramework.DependencyInjection/ServiceProxyTypeRedirector.cs:5-9 | construction succeeds exactly for distinct `From` types, with an empty memo |
| ServiceProxyRedirects.Compute | src/CommonFramework.DependencyInjection/ServiceProxyTypeRedirector.cs:15-27 | a direct redirect is the answer; a plain type without one gets null |
| ServiceProxyRedirects.TryRedirect | src/CommonFramework.DependencyInjection/ServiceProxyTypeRedirector.cs:11-29 | a memoised answer is returned as is; a computed one is memoised; a throwing computation memoises nothing |
| ServiceProxyRedirects.CreateCoherent | src/CommonFramework.DependencyInjection/ServiceProxyTypeRedirector.cs:5-9 | a new redirector's memo agrees with its table |
| ServiceProxyRedirects.TryRedirectAnswersFromTable | src/CommonFramework.DependencyInjection/ServiceProxyTypeRedirector.cs:11-29 | on a redirector whose memo agrees with its table every answer is the table's, and the memo keeps agreeing |
| ServiceProxyRedirects.TryRedirectIsStable | src/CommonFramework.DependencyInjection/ServiceProxyTypeRedirector.cs:13 | asking twice gives the same answer, and the second call changes nothing |
| ServiceProxyRedirects.DirectWins | src/CommonFramework.DependencyInjection/ServiceProxyTypeRedirector.cs:15-17 | a direct redirect wins over one for the generic definition |
| ServiceProxyRedirects.GenericFallback | src/CommonFramework.DependencyInjection/ServiceProxyTypeRedirector.cs:17-24 | a constructed type without a direct redirect, whose definition is redirected to a definition of its arity, maps to that definition over the same arguments |
| ServiceProxyRedirects.NullIff | src/CommonFramework.DependencyInjection/ServiceProxyTypeRedirector.cs:15-27 | the answer is null exactly when neither the type nor, for a constructed type, its definition is redirected |
| ServiceProxyRedirects.ThrowsIff | src/CommonFramework.DependencyInjection/ServiceProxyTypeRedirector.cs:17-24 | the computation throws exactly when the fallback is taken and its target is not a generic definition of the type's arity |
| ServiceProxyRedirects.OpenGenericRedirect | src/CommonFramework.DependencyInjection/ServiceProxyTypeRedirector.cs:7-24 | redirecting `OriginalService<>` to `Service<>` answers `Service<int>` for `OriginalService<int>`, and a second redirect for the same definition is rejected |

## Left out

- `Compile` and `DynamicInvoke` (LambdaCompileCache, `PropertyAccessors`, the path-only `ReadonlyPropertyAccessors` constructor, the evaluators) are opaque: a compiled delegate is a value, and invoking it is recorded, not executed.
- `System.HashCode` mixing is an uninterpreted function. Only "equal inputs give equal hashes" is proved, not the hash values.
- `OptimizerLaws`, `BuilderLaws` and `LiftingLaws.LiftKeepsValue` state meaning through an evaluator of the boolean fragment only (constants, parameters, `&&`, `||`, `==`, `!=`, `!`, conditionals). Other node kinds have no value in the model.
- Only literal `Constant` nodes count as constants for the optimiser and for lifting. Member chains over closure objects need reflection.
- A user-defined operator method (`node.Method?.Invoke` in `OptimizeBooleanLogicVisitor`) is a parameter, `invoke`.
- Node-factory type checks of the runtime (`Expression.MakeBinary` and friends), `BinaryExpression.Conversion` and `IsLiftedToNull` are not modelled. Rebuilt nodes keep the types they are given.
- `ConcurrentDictionary`: the caches are plain maps, and concurrency and locking (`WithLock`, `Lazy<T>`) are not modelled. Within one delegate type's partition, the cache looks entries up newest first. The real bucket order is unspecified.
- CacheLaws.GetFuncReturns and CacheLaws.SameShapeSharesDelegate are stated with boolean optimisation switched off. With it on, the key is built from the optimised lambda, and no statement is made about that path.
- OptimizerLaws.OptimizePreservesValue: value preservation is proved only where `==` and `!=` compare operands of one value type (`bool`, `int`). On operands of a reference type the compiled node compares references while the fold calls `object.Equals`. The two agree on `null` and on objects with the reference `Equals` (`OptimizerLaws.ReferenceFoldAgrees`). They part on boxed values and on types that override `Equals` but not `==`: there the optimiser changes the value (`OptimizerLaws.BoxedEqualityIsFolded`). The model does not know which box a boxed value is in, so such trees have no value in it.
- Expressions.Value: constant values are `null`, `bool`, `int`, `string` and objects whose `Equals` is reference equality. Values that `object.Equals` compares by content are not modelled: records, anonymous types and boxed structs such as `DateTime`, `long` or `Guid`. So two separately built `DateTime` constants, which `ExpressionComparer.Default` calls equal, cannot be written.
- Dictionaries.Get: the factory `getNewValue(key, cache)` is modelled as a `Recipe`. A recipe is a fixed list of keys, looked up in order, whose first exception ends the computation, followed by a combining function. A factory that catches a nested lookup's exception and still returns, or that chooses later lookups from earlier answers, is not modelled. "Stored together with every key it asked for" holds for recipes only.
- ExpressionComparers.NotImplementedComparison: class names are the names of the public node classes for the kinds the model distinguishes, and a carried name for the rest. Constants are the exception: `ConstantExpression` and `TypedConstantExpression` are told apart, as `Expression.Constant` chooses between them. Other runtime subclasses are not told apart: `MethodCallExpression2`, named or tail-call lambdas (`Expression1`), `ByRefParameterExpression`, and the like. This coarsens the message's class names and also the base check's `GetType()` comparison (`Expressions.ClassOf`). So two nodes that the runtime finds unequal because their concrete subclasses differ are compared further in the model. Two classes are the same when their names are. The message's `"null"` case cannot arise, because null operands are decided before the dispatch.
- DuplicateServiceUsage.ErrorMessage: a keyed consumer's `ImplementationType` is read as null, as the getter returns in the runtime versions after .NET 8. In .NET 8 that getter throws `InvalidOperationException` for a keyed descriptor, so `Validate` would throw instead of reporting; that runtime version is not modelled.
- Dictionaries.GetValueOrCreate: the factory's outcome is a value, so this form stands for a factory that does not touch the dictionary. A factory that does is `Dictionaries.GetValueOrCreateWith`. The duplicate-key message of `Dictionary.Add` ends with the key's text in the runtime; the model's message stops before it.
- Dictionaries.Values: the values form a multiset, one per stored key; the enumeration order of `dict.Values` is not modelled.
- Sequences.GetDuplicates: the lazy result is modelled by its enumerations (`Sequences.EnumerateDuplicates`). Enumerating it while the source changes, or from several threads, is not modelled.
- Comparers.ComputeHash: element types carry no null in the model. `HashCode.Add(value, comparer)` adds 0 for a null element without calling the comparer, and that case is not represented.
- Comparers.ImplEquals: `None` of a value type stands for a null `Nullable<T>`. The box of such a null is null, so two of them are the same reference.
- Trees.PreOrder: only finite trees are modelled (an inductive datatype). A `getChildFunc` that leads back to an earlier node makes the source's enumeration infinite; that case is outside the model.
- `Sequences.ChainElements` models the possibly infinite lazy chain of `GetAllElements` as the prefix a consumer reads.
- `DictionaryCache`: the runtime stack limit is a fuel bound, and exhausting it is a stack overflow. A custom key comparer is not modelled (Dafny equality is used), and neither is a custom `IEqualityComparer` for `GetDuplicates`.
- Reflection: `GetConstructors`, the constructor-marking attribute, `FromKeyedServices` and `Type.ToString` are parameters or fields of the descriptor record. Service keys are strings.
- `Environment.NewLine` is a parameter of `ServiceCollections.Validate`.
- Culture-sensitive string comparison is modelled as ordinal equality.
- Not part of this model:
  - reflection-backed helpers: `TypeExtensions`, `MethodInfoExtensions`, `PropertyInfoExtensions`, `DelegateExtensions`, `GetProperty`, `GetMemberConstExpression`, `GetDeepMember*`, `ToCollectionFilter`, `ToEnumerableAny`, `ExpandConstVisitor`, `LinqExpressionExtensions.SelectMany` (it reads a lambda out of a closure field by reflection; `Select` is modelled as `ExpressionBuilders.Select`), and the identity property extractors;
  - DI registration plumbing: `ServiceCollectionExtensions`, `ServiceProxyFactory`, `ServiceProxyBuilder`, `IdentitySourceSettings`;
  - other types: `Period` (dates), `IInitializer` (tasks), the pipe combinators, `CollectionExtensions` and `ExpressionHelper`.
