/** What `LambdaCompileCache` promises: a lookup finds exactly the entries
    whose key the lambda comparer calls equal; a key is compiled once and
    its delegate reused; partitions of other delegate types are untouched;
    and, without boolean optimisation, lambdas that differ only in their
    constants' values share one compiled delegate and are invoked with
    their own constants. */
module CacheLaws {
  import opened Base
  import opened Types
  import opened Expressions
  import opened ExpressionComparers
  import opened ComparerKinds
  import opened ExpressionVisitors
  import opened ExpressionBuilders
  import opened OptimizerLaws
  import opened LiftingLaws
  import opened LambdaCompileCaches

  // ---------------------------------------------------------------------------
  // Lookup

  /** No stored key compares equal to `key`. */
  predicate NoEqualKey<D>(entries: seq<Entry<D>>, key: LambdaExpression) {
    forall i :: 0 <= i < |entries| ==> Equals(Default, entries[i].key, key) != Ok(true)
  }

  /** Some stored key compares equal to `key` and holds `d`. */
  ghost predicate EqualKeyHolds<D>(entries: seq<Entry<D>>, key: LambdaExpression, d: D) {
    exists i :: 0 <= i < |entries| && Equals(Default, entries[i].key, key) == Ok(true) && entries[i].compiled == d
  }

  /** A lookup that returns found the delegate of an entry whose key
      compares equal to the looked-up one, and misses exactly when no entry
      does: the hash filter never hides an equal key. */
  lemma {:induction false} LookupSpec<D>(h: Hashers, entries: seq<Entry<D>>, key: LambdaExpression)
    ensures var r := Lookup(h, entries, key);
      r.Ok? ==> (r == Ok(None) <==> forall i :: 0 <= i < |entries| ==> Equals(Default, entries[i].key, key) != Ok(true))
    ensures var r := Lookup(h, entries, key);
      r.Ok? && r.value.Some? ==>
        exists i :: 0 <= i < |entries| && Equals(Default, entries[i].key, key) == Ok(true) && entries[i].compiled == r.value.value
  {
    LookupFinds(h, entries, key);
    var r := Lookup(h, entries, key);
    if r.Ok? && r.value.Some? {
      assert EqualKeyHolds(entries, key, r.value.value);
    }
  }

  /** What a returning lookup tells: none exactly when no stored key is
      equal, and a found delegate belongs to an equal key. */
  ghost predicate Finds<D>(entries: seq<Entry<D>>, key: LambdaExpression, r: Result<Option<D>>) {
    r.Ok? ==> (r == Ok(None) <==> NoEqualKey(entries, key)) && (r.value.Some? ==> EqualKeyHolds(entries, key, r.value.value))
  }

  /** `LookupSpec` over the two predicates, by induction on the entries. */
  lemma {:induction false} LookupFinds<D>(h: Hashers, entries: seq<Entry<D>>, key: LambdaExpression)
    ensures Finds(entries, key, Lookup(h, entries, key))
    decreases |entries|
  {
    if |entries| > 0 {
      var n := |entries| - 1;
      LookupFinds(h, entries[..n], key);
      LookupStepFinds(h, entries, key);
    }
  }

  /** The inductive step: from the older entries to all of them. */
  lemma LookupStepFinds<D>(h: Hashers, entries: seq<Entry<D>>, key: LambdaExpression)
    requires |entries| > 0
    requires Finds(entries[..|entries| - 1], key, Lookup(h, entries[..|entries| - 1], key))
    ensures Finds(entries, key, Lookup(h, entries, key))
  {
    var last := entries[|entries| - 1];
    if LambdaHash(h, last.key) != LambdaHash(h, key) {
      LambdaHashConsistent(Default, h, last.key, key);
      LookupSkipsLast(h, entries, key);
    } else {
      match Equals(Default, last.key, key)
      case Ok(equal) =>
        if equal {
          LookupHitsLast(h, entries, key);
        } else {
          LookupSkipsLast(h, entries, key);
        }
      case Throw(_) => LookupThrowsAtLast(h, entries, key);
    }
  }

  /** The newest entry is passed over: its hash differs, or its key is not
      equal. */
  lemma LookupSkipsLast<D>(h: Hashers, entries: seq<Entry<D>>, key: LambdaExpression)
    requires |entries| > 0
    requires var last := entries[|entries| - 1];
      Equals(Default, last.key, key) != Ok(true) &&
      (LambdaHash(h, last.key) != LambdaHash(h, key) || Equals(Default, last.key, key) == Ok(false))
    requires Finds(entries[..|entries| - 1], key, Lookup(h, entries[..|entries| - 1], key))
    ensures Finds(entries, key, Lookup(h, entries, key))
  {
    var n := |entries| - 1;
    assert Lookup(h, entries, key) == Lookup(h, entries[..n], key);
    SnocKeys(entries[..n], entries[n], key);
    assert entries == entries[..n] + [entries[n]];
  }

  /** The newest entry has the key's hash and an equal key: it is found. */
  lemma LookupHitsLast<D>(h: Hashers, entries: seq<Entry<D>>, key: LambdaExpression)
    requires |entries| > 0
    requires var last := entries[|entries| - 1];
      LambdaHash(h, last.key) == LambdaHash(h, key) && Equals(Default, last.key, key) == Ok(true)
    ensures Finds(entries, key, Lookup(h, entries, key))
  {
    var n := |entries| - 1;
    assert Lookup(h, entries, key) == Ok(Some(entries[n].compiled));
    assert Equals(Default, entries[n].key, key) == Ok(true);
  }

  /** The comparer throws on the newest entry: so does the lookup. */
  lemma LookupThrowsAtLast<D>(h: Hashers, entries: seq<Entry<D>>, key: LambdaExpression)
    requires |entries| > 0
    requires var last := entries[|entries| - 1];
      LambdaHash(h, last.key) == LambdaHash(h, key) && Equals(Default, last.key, key).Throw?
    ensures Finds(entries, key, Lookup(h, entries, key))
  {
    assert Lookup(h, entries, key).Throw?;
  }

  /** How the two predicates extend by one entry at the end. */
  lemma SnocKeys<D>(init: seq<Entry<D>>, last: Entry<D>, key: LambdaExpression)
    ensures NoEqualKey(init + [last], key) <==> NoEqualKey(init, key) && Equals(Default, last.key, key) != Ok(true)
    ensures Equals(Default, last.key, key) == Ok(true) ==> EqualKeyHolds(init + [last], key, last.compiled)
    ensures forall d :: EqualKeyHolds(init, key, d) ==> EqualKeyHolds(init + [last], key, d)
  {
    var e := init + [last];
    assert e[|init|] == last;
    forall d | EqualKeyHolds(init, key, d)
      ensures EqualKeyHolds(e, key, d)
    {
      var i :| 0 <= i < |init| && Equals(Default, init[i].key, key) == Ok(true) && init[i].compiled == d;
      assert e[i] == init[i];
    }
    if NoEqualKey(init, key) && Equals(Default, last.key, key) != Ok(true) {
      forall i | 0 <= i < |e|
        ensures Equals(Default, e[i].key, key) != Ok(true)
      {
        if i < |init| {
          assert e[i] == init[i];
        }
      }
    }
    if NoEqualKey(e, key) {
      forall i | 0 <= i < |init|
        ensures Equals(Default, init[i].key, key) != Ok(true)
      {
        assert e[i] == init[i];
      }
    }
  }

  // ---------------------------------------------------------------------------
  // GetGetDelegate

  /** On a hit the stored delegate is returned and the cache keeps its
      contents; on a miss (no stored key compares equal) the compiled
      delegate is returned and appended under the key. Only the delegate
      type's partition is ever touched. */
  lemma GetGetDelegateSpec<D>(mode: CompileMode, compile: Compiler<D>, h: Hashers, cache: Cache<D>,
                              t: Ty, expr: LambdaExpression, parameters: seq<Param>)
    ensures var r := GetGetDelegate(mode, compile, h, cache, t, expr, parameters);
      var entries := Partition(cache, t);
      r.Ok? ==>
        ((exists i :: 0 <= i < |entries| && Equals(Default, entries[i].key, expr) == Ok(true) && entries[i].compiled == r.value.0) &&
         r.value.1 == cache[t := entries])
        ||
        ((forall i :: 0 <= i < |entries| ==> Equals(Default, entries[i].key, expr) != Ok(true)) &&
         r.value.0 == compile(mode, expr, parameters) && r.value.1 == cache[t := entries + [Entry(expr, r.value.0)]])
    ensures var r := GetGetDelegate(mode, compile, h, cache, t, expr, parameters);
      r.Ok? ==> forall u :: u != t ==> (u in r.value.1 <==> u in cache) && (u in cache ==> r.value.1[u] == cache[u])
  {
    LookupSpec(h, Partition(cache, t), expr);
  }

  /** A key is compiled once: after a miss has stored it, looking up a key
      the comparer calls equal returns the same delegate and changes
      nothing. */
  lemma CompiledOnce<D>(mode: CompileMode, compile: Compiler<D>, h: Hashers, cache: Cache<D>,
                        t: Ty, k1: LambdaExpression, p1: seq<Param>, k2: LambdaExpression, p2: seq<Param>)
    requires Lookup(h, Partition(cache, t), k1) == Ok(None)
    requires Equals(Default, k1, k2) == Ok(true)
    ensures var r1 := GetGetDelegate(mode, compile, h, cache, t, k1, p1);
      r1.Ok? && r1.value.0 == compile(mode, k1, p1) &&
      GetGetDelegate(mode, compile, h, r1.value.1, t, k2, p2) == Ok(r1.value)
  {
    var r1 := GetGetDelegate(mode, compile, h, cache, t, k1, p1).value;
    var entries := Partition(r1.1, t);
    assert entries == Partition(cache, t) + [Entry(k1, compile(mode, k1, p1))];
    LambdaHashConsistent(Default, h, k1, k2);
    assert r1.1[t := entries] == r1.1;
  }

  // ---------------------------------------------------------------------------
  // Lifted keys

  /** The lambda's lifting: it returns a lambda with no constant and, when
      the input had none, no unsupported node, recording one pair per
      constant of the input, in order. */
  lemma LiftedKey(lambda: Expr, st: VisitState)
    requires lambda.LambdaExpr? && Every(lambda, InitShaped)
    ensures var r := ConstantToParameters(lambda, st);
      r.Ok? && r.value.0.lambda.LambdaExpr? && Every(r.value.0.lambda, LiftedNode) &&
      (Every(lambda, IsNotOther) ==> Every(r.value.0.lambda, IsNotOther)) &&
      |r.value.0.args| == |Constants(lambda)| &&
      forall i :: 0 <= i < |r.value.0.args| ==> r.value.0.args[i].1 == Constants(lambda)[i]
  {
    var st0 := VisitState(st.nextId, []);
    LiftFacts(lambda, st0);
    var v := Visit(ConstantToParameter, lambda, st0).value;
    assert v.1.lifted[|st0.lifted|..] == v.1.lifted;
  }

  /** Lambdas of one shape, differing at most in their constants' values,
      lift to keys the lambda comparer calls equal. */
  lemma LiftedKeysEqual(e1: Expr, e2: Expr, st1: VisitState, st2: VisitState)
    requires e1.LambdaExpr? && e2.LambdaExpr? && Shape(e1) == Shape(e2)
    requires Every(e1, InitShaped) && Every(e2, InitShaped) && Every(e1, IsNotOther)
    ensures var r1, r2 := ConstantToParameters(e1, st1), ConstantToParameters(e2, st2);
      r1.Ok? && r2.Ok? && Equals(Default, r1.value.0.lambda, r2.value.0.lambda) == Ok(true)
  {
    LiftedKey(e1, st1);
    LiftedKey(e2, st2);
    LiftIgnoresValues(e1, e2, VisitState(st1.nextId, []), VisitState(st2.nextId, []));
    var k1 := ConstantToParameters(e1, st1).value.0.lambda;
    var k2 := ConstantToParameters(e2, st2).value.0.lambda;
    EqualsErased(k1, k2);
  }

  /** The lifted lambda keeps the meaning of the original: with the
      original's parameters bound as in `env` and each new parameter bound
      to its constant's value (the invocation's arguments), the body has
      the value the original body has. */
  lemma LiftedKeyKeepsMeaning(env: Env, lambda: Expr, st: VisitState)
    requires lambda.LambdaExpr? && Typed(env, lambda.body) && forall id :: id in env ==> id < st.nextId
    ensures var r := ConstantToParameters(lambda, st);
      r.Ok? && r.value.0.lambda.LambdaExpr? &&
      Eval(LiftedEnv(env, r.value.0.args), r.value.0.lambda.body) == Eval(env, lambda.body)
  {
    var st0 := VisitState(st.nextId, []);
    TypedIsInitShaped(env, lambda.body);
    LiftKeepsMeaning(env, lambda.body, st0);
    var b := Visit(ConstantToParameter, lambda.body, st0).value;
    VisitorLawsParams(lambda.params);
    var res := Rebuild(b.0 == lambda.body && lambda.params == lambda.params, lambda, b.1,
      (id: Id) => LambdaExpr(id, lambda.ty, lambda.params, b.0));
    assert Visit(ConstantToParameter, lambda, st0) == Ok(res);
    assert res.0.body == b.0 && res.1.lifted == b.1.lifted;
    assert b.1.lifted[|st0.lifted|..] == b.1.lifted;
  }

  lemma VisitorLawsParams(ps: seq<Param>)
    ensures VisitParams(ConstantToParameter, ps) == Ok(ps)
  {
    VisitorLaws.ParamsIdentity(ConstantToParameter, ps);
  }

  // ---------------------------------------------------------------------------
  // GetFunc

  /** The values of constant nodes, in order. */
  function ConstantValues(cs: seq<Expr>): (r: seq<Value>)
    requires forall i :: 0 <= i < |cs| ==> cs[i].ConstantExpr?
    ensures |r| == |cs| && forall i :: 0 <= i < |cs| ==> r[i] == cs[i].value
  {
    if |cs| == 0 then [] else [cs[0].value] + ConstantValues(cs[1..])
  }

  /** Every stored key can be compared without an exception. */
  predicate Comparable<D>(cache: Cache<D>) {
    forall t :: t in cache ==> forall i :: 0 <= i < |cache[t]| ==> Every(cache[t][i].key, IsNotOther)
  }

  /** Without boolean optimisation, `GetFunc` on a lambda of supported
      nodes returns, keeps every stored key comparable, and invokes the
      delegate with the values of the lambda's constants in visit order. */
  lemma GetFuncReturns<D>(mode: CompileMode, invoke: (MethodId, Value, Value) -> Result<Value>, compile: Compiler<D>,
                          h: Hashers, cache: Cache<D>, lambda: LambdaExpression, st: VisitState)
    requires !mode.optimizeBooleanLogic && Comparable(cache)
    requires Every(lambda, InitShaped) && Every(lambda, IsNotOther)
    ensures var r := GetFunc(mode, invoke, compile, h, cache, lambda, st);
      r.Ok? && Comparable(r.value.1) && r.value.0.arguments == ConstantValues(Constants(lambda))
  {
    LiftedKey(lambda, st);
    var lifted := ConstantToParameters(lambda, st).value;
    var key := lifted.0.lambda;
    GetGetDelegateComparable(mode, compile, h, cache, lambda.ty, key, ArgParams(lifted.0.args));
    GetFuncUnfold(mode, invoke, compile, h, cache, lambda, st);
    assert ArgValues(lifted.0.args) == ConstantValues(Constants(lambda));
  }

  /** With every stored key and the looked-up key free of unsupported
      nodes, the lookup cannot throw and the cache stays comparable. */
  lemma GetGetDelegateComparable<D>(mode: CompileMode, compile: Compiler<D>, h: Hashers, cache: Cache<D>,
                                    t: Ty, key: LambdaExpression, parameters: seq<Param>)
    requires Comparable(cache) && Every(key, IsNotOther)
    ensures var r := GetGetDelegate(mode, compile, h, cache, t, key, parameters);
      r.Ok? && Comparable(r.value.1)
  {
    var entries := Partition(cache, t);
    forall i | 0 <= i < |entries|
      ensures Equals(Default, entries[i].key, key).Ok?
    {
      EqualsErased(entries[i].key, key);
    }
    LookupNeverThrows(h, entries, key);
    GetGetDelegateSpec(mode, compile, h, cache, t, key, parameters);
    var got := GetGetDelegate(mode, compile, h, cache, t, key, parameters).value;
    forall u | u in got.1
      ensures forall i :: 0 <= i < |got.1[u]| ==> Every(got.1[u][i].key, IsNotOther)
    {
      if u != t {
      }
    }
  }

  /** A lookup whose comparisons all return does not throw. */
  lemma {:induction false} LookupNeverThrows<D>(h: Hashers, entries: seq<Entry<D>>, key: LambdaExpression)
    requires forall i :: 0 <= i < |entries| ==> Equals(Default, entries[i].key, key).Ok?
    ensures Lookup(h, entries, key).Ok?
    decreases |entries|
  {
    if |entries| > 0 {
      var n := |entries| - 1;
      var init := entries[..n];
      assert Equals(Default, entries[n].key, key).Ok?;
      forall i | 0 <= i < n
        ensures Equals(Default, init[i].key, key).Ok?
      {
        assert init[i] == entries[i];
      }
      LookupNeverThrows(h, init, key);
    }
  }

  /** The point of the cache: without boolean optimisation, once one lambda
      has been compiled for its delegate type, a lambda of the same type and
      shape that differs only in its constants' values gets the same
      compiled delegate, without compiling again and without changing the
      cache; only the arguments it is invoked with differ. */
  lemma SameShapeSharesDelegate<D>(mode: CompileMode, invoke: (MethodId, Value, Value) -> Result<Value>, compile: Compiler<D>,
                                   h: Hashers, cache: Cache<D>, e1: LambdaExpression, e2: LambdaExpression, st1: VisitState, st2: VisitState)
    requires !mode.optimizeBooleanLogic && e1.ty !in cache
    requires e1.ty == e2.ty && Shape(e1) == Shape(e2)
    requires Every(e1, InitShaped) && Every(e2, InitShaped) && Every(e1, IsNotOther)
    ensures var r1 := GetFunc(mode, invoke, compile, h, cache, e1, st1);
      r1.Ok? &&
      var r2 := GetFunc(mode, invoke, compile, h, r1.value.1, e2, st2);
      r2.Ok? && r2.value.0.compiled == r1.value.0.compiled && r2.value.1 == r1.value.1 &&
      r2.value.0.arguments == ConstantValues(Constants(e2))
  {
    FirstCallCompiles(mode, invoke, compile, h, cache, e1, st1);
    var r1 := GetFunc(mode, invoke, compile, h, cache, e1, st1).value;
    SameShapeHits(mode, invoke, compile, h, r1.1, e1, e2, st1, st2, r1.0.compiled);
  }

  /** The first `GetFunc` for a delegate type compiles the lifted lambda and
      stores it as the only entry of the type's partition. */
  lemma FirstCallCompiles<D>(mode: CompileMode, invoke: (MethodId, Value, Value) -> Result<Value>, compile: Compiler<D>,
                             h: Hashers, cache: Cache<D>, e: LambdaExpression, st: VisitState)
    requires !mode.optimizeBooleanLogic && e.ty !in cache && Every(e, InitShaped)
    ensures var l := ConstantToParameters(e, st);
      var r := GetFunc(mode, invoke, compile, h, cache, e, st);
      l.Ok? && l.value.0.lambda.LambdaExpr? && r.Ok? &&
      r.value.0.compiled == compile(mode, l.value.0.lambda, ArgParams(l.value.0.args)) &&
      r.value.1 == cache[e.ty := [Entry(l.value.0.lambda, r.value.0.compiled)]]
  {
    LiftedKey(e, st);
    GetFuncUnfold(mode, invoke, compile, h, cache, e, st);
    var l := ConstantToParameters(e, st).value.0;
    assert Partition(cache, e.ty) == [];
    assert Lookup<D>(h, [], l.lambda) == Ok(None);
    var d := compile(mode, l.lambda, ArgParams(l.args));
    assert Partition(cache, e.ty) + [Entry(l.lambda, d)] == [Entry(l.lambda, d)];
    assert GetGetDelegate(mode, compile, h, cache, e.ty, l.lambda, ArgParams(l.args)) == Ok((d, cache[e.ty := [Entry(l.lambda, d)]]));
  }

  /** Once the partition of the delegate type holds the lifted key of one
      lambda, a lambda of the same shape finds that entry: it is invoked
      through the stored delegate with its own constants' values, and the
      cache does not change. */
  lemma SameShapeHits<D>(mode: CompileMode, invoke: (MethodId, Value, Value) -> Result<Value>, compile: Compiler<D>,
                         h: Hashers, cache: Cache<D>, e1: LambdaExpression, e2: LambdaExpression, st1: VisitState, st2: VisitState, d: D)
    requires !mode.optimizeBooleanLogic && e1.ty == e2.ty && Shape(e1) == Shape(e2)
    requires Every(e1, InitShaped) && Every(e2, InitShaped) && Every(e1, IsNotOther)
    requires var l := ConstantToParameters(e1, st1);
      l.Ok? && l.value.0.lambda.LambdaExpr? && e1.ty in cache && cache[e1.ty] == [Entry(l.value.0.lambda, d)]
    ensures var r := GetFunc(mode, invoke, compile, h, cache, e2, st2);
      r.Ok? && r.value.0 == Invocation(d, ConstantValues(Constants(e2))) && r.value.1 == cache
  {
    LiftedKey(e1, st1);
    LiftedKey(e2, st2);
    LiftedKeysEqual(e1, e2, st1, st2);
    var k1 := ConstantToParameters(e1, st1).value.0.lambda;
    var l2 := ConstantToParameters(e2, st2).value.0;
    SingleEntryHit(mode, compile, h, cache, e1.ty, k1, l2.lambda, ArgParams(l2.args), d);
    GetFuncUnfold(mode, invoke, compile, h, cache, e2, st2);
    assert ArgValues(l2.args) == ConstantValues(Constants(e2));
  }

  /** A partition holding one entry whose key equals the looked-up key
      returns that entry's delegate and leaves the cache as it was. */
  lemma SingleEntryHit<D>(mode: CompileMode, compile: Compiler<D>, h: Hashers, cache: Cache<D>,
                          t: Ty, stored: LambdaExpression, key: LambdaExpression, parameters: seq<Param>, d: D)
    requires stored.LambdaExpr? && key.LambdaExpr? && Equals(Default, stored, key) == Ok(true)
    requires t in cache && cache[t] == [Entry(stored, d)]
    ensures GetGetDelegate(mode, compile, h, cache, t, key, parameters) == Ok((d, cache))
  {
    LambdaHashConsistent(Default, h, stored, key);
    assert Lookup(h, [Entry(stored, d)], key) == Ok(Some(d));
    assert cache[t := cache[t]] == cache;
  }

  /** `GetFunc` without optimisation, once the lifting is known to return
      a lambda and constants: the lookup of the lifted key, invoked with the
      constants' values. */
  lemma GetFuncUnfold<D>(mode: CompileMode, invoke: (MethodId, Value, Value) -> Result<Value>, compile: Compiler<D>,
                         h: Hashers, cache: Cache<D>, lambda: LambdaExpression, st: VisitState)
    requires !mode.optimizeBooleanLogic
    requires var r := ConstantToParameters(lambda, st);
      r.Ok? && r.value.0.lambda.LambdaExpr? && forall i :: 0 <= i < |r.value.0.args| ==> r.value.0.args[i].1.ConstantExpr?
    ensures var l := ConstantToParameters(lambda, st).value;
      var g := GetGetDelegate(mode, compile, h, cache, lambda.ty, l.0.lambda, ArgParams(l.0.args));
      GetFunc(mode, invoke, compile, h, cache, lambda, st) ==
        if g.Ok? then Ok((Invocation(g.value.0, ArgValues(l.0.args)), g.value.1, l.1)) else Throw(g.error)
  {
  }
}
