/** `LambdaCompileCache`: a lambda is compiled once per shape. Its constants
    are lifted into parameters of an outer lambda, so that lambdas differing
    only in constant values rewrite to structurally equal keys; the compiled
    outer lambda is cached per delegate type under `LambdaComparer`, and
    each call invokes it with the values of its own constants. */
module LambdaCompileCaches {
  import opened Base
  import opened Types
  import opened Expressions
  import opened ExpressionComparers
  import opened ExpressionVisitors
  import opened ExpressionBuilders

  /** The flags of `LambdaCompileMode`. */
  datatype CompileMode = CompileMode(optimizeBooleanLogic: bool, ignoreStringCase: bool, injectMaybe: bool)

  /** The outcome of `ConstantToParameters`: the rewritten lambda and the
      `(parameter, constant)` pairs, in the order the constants were met. */
  datatype Lifted = Lifted(lambda: Expr, args: seq<(Param, Expr)>)

  /** `ConstantToParameters`: one visit of the whole lambda with a fresh,
      empty argument list. */
  function ConstantToParameters(lambda: Expr, st: VisitState): (r: Result<(Lifted, VisitState)>)
    requires lambda.LambdaExpr?
    ensures r.Ok? ==> r.value.1.lifted == [] && r.value.1.nextId >= st.nextId
  {
    var v :- Visit(ConstantToParameter, lambda, VisitState(st.nextId, []));
    Ok((Lifted(v.0, v.1.lifted), VisitState(NextIdAfter(v.1.nextId, st.nextId), [])))
  }

  /** The identity counter never goes back. */
  function NextIdAfter(k: nat, start: nat): (r: nat)
    ensures r >= k && r >= start
  {
    if k >= start then k else start
  }

  /** The parameters of the lifted pairs, in order. */
  function ArgParams(args: seq<(Param, Expr)>): (r: seq<Param>)
    ensures |r| == |args| && forall i :: 0 <= i < |args| ==> r[i] == args[i].0
  {
    if |args| == 0 then [] else [args[0].0] + ArgParams(args[1..])
  }

  /** The values of the lifted constants, in order: the arguments of the
      dynamic invocation. */
  function ArgValues(args: seq<(Param, Expr)>): (r: seq<Value>)
    requires forall i :: 0 <= i < |args| ==> args[i].1.ConstantExpr?
    ensures |r| == |args| && forall i :: 0 <= i < |args| ==> r[i] == args[i].1.value
  {
    if |args| == 0 then [] else [args[0].1.value] + ArgValues(args[1..])
  }

  // ---------------------------------------------------------------------------
  // The cache

  /** One entry of an inner dictionary: the key lambda and the compiled
      outer delegate. */
  datatype Entry<D> = Entry(key: LambdaExpression, compiled: D)

  /** `rootCache`: an inner dictionary per delegate type, with its entries
      in insertion order. */
  type Cache<D> = map<Ty, seq<Entry<D>>>

  /** `ConcurrentDictionary.TryGetValue` under `LambdaComparer.Value`: only
      entries whose key has the hash of the looked-up key are compared,
      the most recently added first, each by `Equals(storedKey, key)`; the
      first equal one is found, and an exception of the comparer surfaces. */
  function Lookup<D>(h: Hashers, entries: seq<Entry<D>>, key: LambdaExpression): (r: Result<Option<D>>)
    ensures r.Ok? && r.value.Some? ==> exists i :: 0 <= i < |entries| && entries[i].compiled == r.value.value
    decreases |entries|
  {
    if |entries| == 0 then Ok(None)
    else
      var last := entries[|entries| - 1];
      if LambdaHash(h, last.key) != LambdaHash(h, key) then Lookup(h, entries[..|entries| - 1], key)
      else
        var equal :- Equals(Default, last.key, key);
        if equal then Ok(Some(last.compiled)) else Lookup(h, entries[..|entries| - 1], key)
  }

  /** The inner dictionary of a delegate type, empty before its first use. */
  function Partition<D>(cache: Cache<D>, delegateType: Ty): seq<Entry<D>> {
    if delegateType in cache then cache[delegateType] else []
  }

  /** The compiler, left open: from the mode, the body (the lifted lambda)
      and the parameters of the outer lambda, the compiled delegate. */
  type Compiler<D> = (CompileMode, Expr, seq<Param>) -> D

  /** `GetGetDelegate<TDelegate>`: the inner dictionary of the delegate type
      (created empty on first use), then the delegate stored under a
      structurally equal key, or on a miss the newly compiled outer lambda,
      which is added. */
  function GetGetDelegate<D>(mode: CompileMode, compile: Compiler<D>, h: Hashers, cache: Cache<D>,
                             delegateType: Ty, expr: LambdaExpression, parameters: seq<Param>): (r: Result<(D, Cache<D>)>)
    ensures r.Ok? ==> delegateType in r.value.1 && |r.value.1[delegateType]| >= |Partition(cache, delegateType)|
  {
    var entries := Partition(cache, delegateType);
    var found :- Lookup(h, entries, expr);
    match found
    case Some(d) => Ok((d, cache[delegateType := entries]))
    case None =>
      var d := compile(mode, expr, parameters);
      Ok((d, cache[delegateType := entries + [Entry(expr, d)]]))
  }

  /** The delegate `GetFunc` returns: the cached outer delegate, invoked with
      the values of the lifted constants. */
  datatype Invocation<D> = Invocation(compiled: D, arguments: seq<Value>)

  /** `GetFunc<TDelegate>`: optimise when the mode says so, lift the
      constants, look the shape up (compiling on a miss), and invoke the
      outer delegate with the constants' values. The delegate type is the
      lambda's own type. */
  function GetFunc<D>(mode: CompileMode, invoke: (MethodId, Value, Value) -> Result<Value>, compile: Compiler<D>,
                      h: Hashers, cache: Cache<D>, lambda: LambdaExpression, st: VisitState): (r: Result<(Invocation<D>, Cache<D>, VisitState)>)
    ensures r.Ok? ==> lambda.ty in r.value.1 && |r.value.1[lambda.ty]| >= |Partition(cache, lambda.ty)|
  {
    var optimized :- if mode.optimizeBooleanLogic then Optimize(invoke, lambda, st) else Ok((lambda, st));
    var lifted :- ConstantToParameters(optimized.0, optimized.1);
    if !lifted.0.lambda.LambdaExpr? || exists i :: 0 <= i < |lifted.0.args| && !lifted.0.args[i].1.ConstantExpr? then
      Throw(InvalidCast)
    else
      var got :- GetGetDelegate(mode, compile, h, cache, lambda.ty, lifted.0.lambda, ArgParams(lifted.0.args));
      Ok((Invocation(got.0, ArgValues(lifted.0.args)), got.1, lifted.1))
  }
}
