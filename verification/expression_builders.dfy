/** The lambda builders and small queries of ExpressionExtensions.cs:
    conjunction and disjunction of predicates, negation, parameter
    substitution, `Optimize`, and the children and member of a node. Every
    builder threads the visit state, since the nodes it creates are new
    objects. */
module ExpressionBuilders {
  import opened Base
  import opened Types
  import opened Expressions
  import opened ExpressionVisitors
  import opened Maybes
  import Sequences

  /** `Func<arg, result>`. */
  function FuncType(arg: Ty, result: Ty): Ty {
    Constructed("System.Func`2", [arg, result])
  }

  /** A `Func<arg, result>` type. */
  predicate IsFuncType(t: Ty) {
    t.Constructed? && t.definition == "System.Func`2" && |t.args| == 2
  }

  /** A lambda of one parameter. */
  predicate IsUnary(e: Expr) {
    e.LambdaExpr? && |e.params| == 1
  }

  // ---------------------------------------------------------------------------
  // Queries

  /** `GetChildren` of a method call, fully enumerated: the object the
      method is called on, if any, then the arguments in order. */
  function GetChildren(call: Option<Expr>): (r: Result<seq<Expr>>)
    requires call.Some? ==> call.value.CallExpr?
    ensures call.None? <==> r == Throw(ArgumentNull("expression"))
    ensures r.Ok? ==> |r.value| == |call.value.args| + (if call.value.target.Some? then 1 else 0)
  {
    match call
    case None => Throw(ArgumentNull("expression"))
    case Some(c) => Ok((if c.target.Some? then [c.target.value] else []) + c.args)
  }

  /** `MemberInfo`: a method, or a field or property. */
  datatype MemberInfo = MethodInfo(callee: MethodId) | FieldOrProperty(member: MemberId)

  /** `GetMember`: through a conversion, the member of its operand if it
      has one; otherwise the method of a call, or the member of a member
      access; otherwise none. A null expression has none. */
  function GetMember(e: Option<Expr>): (r: Maybe<MemberInfo>)
    ensures e.None? ==> r.Nothing?
  {
    match e
    case None => Nothing
    case Some(x) => GetNodeMember(x)
  }

  function GetNodeMember(x: Expr): Maybe<MemberInfo> {
    var throughConvert :=
      if x.UnaryExpr? && x.op == Convert then GetNodeMember(x.operand) else Nothing;
    if throughConvert.Just? then throughConvert
    else if x.CallExpr? then Just(MethodInfo(x.callee))
    else if x.MemberExpr? then Just(FieldOrProperty(x.member))
    else Nothing
  }

  // ---------------------------------------------------------------------------
  // Conjunction and disjunction

  /** `_ => value`, as the compiler builds it: the parameter `_`, the
      constant, then the lambda, each a new object. */
  function ConstantLambda(paramTy: Ty, value: bool, st: VisitState): (r: (Expr, VisitState))
    ensures IsUnary(r.0) && r.0.params[0].ty == paramTy && r.0.ty == FuncType(paramTy, BoolType)
    ensures r.0.body == ConstantExpr(st.nextId + 1, BoolType, BoolValue(value))
    ensures r.1 == st.(nextId := st.nextId + 3)
  {
    var p := Param(st.nextId, paramTy, Some("_"));
    var c := ConstantExpr(st.nextId + 1, BoolType, BoolValue(value));
    (LambdaExpr(st.nextId + 2, FuncType(paramTy, BoolType), [p], c), st.(nextId := st.nextId + 3))
  }

  /** `from v1 in expr1 from v2 in expr2 select v1 op v2`: the body of
      `expr2` with its parameter replaced by the parameter of `expr1`,
      combined with the body of `expr1` under `op`, over the parameter of
      `expr1`. */
  function Combine(op: NodeType, expr1: Expr, expr2: Expr, st: VisitState): (r: Result<(Expr, VisitState)>)
    requires IsUnary(expr1) && IsUnary(expr2)
    ensures r.Ok? ==> IsUnary(r.value.0) && r.value.0.params == expr1.params && r.value.0.ty == expr1.ty
    ensures r.Ok? ==> r.value.0.body.BinaryExpr? && r.value.0.body.op == op && r.value.0.body.left == expr1.body
  {
    var right :- Visit(OverrideReference(ParamExpr(expr2.params[0]), ParamExpr(expr1.params[0])), expr2.body, st);
    var body := Allocate(right.1, (id: Id) => BinaryExpr(id, BoolType, op, None, expr1.body, right.0));
    Ok(Allocate(body.1, (id: Id) => LambdaExpr(id, expr1.ty, expr1.params, body.0)))
  }

  /** `expr1.BuildAnd(expr2)` on one-parameter predicates. */
  function BuildAnd(expr1: Expr, expr2: Expr, st: VisitState): Result<(Expr, VisitState)>
    requires IsUnary(expr1) && IsUnary(expr2)
  {
    Combine(AndAlso, expr1, expr2, st)
  }

  /** `expr1.BuildOr(expr2)` on one-parameter predicates. */
  function BuildOr(expr1: Expr, expr2: Expr, st: VisitState): Result<(Expr, VisitState)>
    requires IsUnary(expr1) && IsUnary(expr2)
  {
    Combine(OrElse, expr1, expr2, st)
  }

  /** `Aggregate(op)` over the rest of the sequence, from the first
      predicate: each step combines the accumulated predicate with the
      next one. */
  function CombineAll(op: NodeType, acc: Expr, rest: seq<Expr>, st: VisitState): (r: Result<(Expr, VisitState)>)
    requires IsUnary(acc) && forall i :: 0 <= i < |rest| ==> IsUnary(rest[i])
    ensures r.Ok? ==> IsUnary(r.value.0) && r.value.0.params == acc.params
    decreases |rest|
  {
    if |rest| == 0 then Ok((acc, st))
    else
      var next :- Combine(op, acc, rest[0], st);
      CombineAll(op, next.0, rest[1..], next.1)
  }

  /** `source.BuildAnd()`: `_ => true` for no predicates, the predicate
      itself for one, their left-to-right conjunction otherwise. */
  function BuildAndAll(source: seq<Expr>, paramTy: Ty, st: VisitState): (r: Result<(Expr, VisitState)>)
    requires forall i :: 0 <= i < |source| ==> IsUnary(source[i])
  {
    if |source| == 0 then Ok(ConstantLambda(paramTy, true, st))
    else if |source| == 1 then Ok((source[0], st))
    else CombineAll(AndAlso, source[0], source[1..], st)
  }

  /** `source.BuildOr()`: `_ => false` for no predicates, the predicate
      itself for one, their left-to-right disjunction otherwise. */
  function BuildOrAll(source: seq<Expr>, paramTy: Ty, st: VisitState): (r: Result<(Expr, VisitState)>)
    requires forall i :: 0 <= i < |source| ==> IsUnary(source[i])
  {
    if |source| == 0 then Ok(ConstantLambda(paramTy, false, st))
    else if |source| == 1 then Ok((source[0], st))
    else CombineAll(OrElse, source[0], source[1..], st)
  }

  // ---------------------------------------------------------------------------
  // Parameter substitution

  /** The parameters as expression nodes. */
  function ParamExprs(ps: seq<Param>): (r: seq<Expr>)
    ensures |r| == |ps| && forall i :: 0 <= i < |ps| ==> r[i] == ParamExpr(ps[i])
  {
    if |ps| == 0 then [] else [ParamExpr(ps[0])] + ParamExprs(ps[1..])
  }

  /** The fold of `GetBodyWithOverrideParameters`: the pairs of
      `ZipStrong(parameters, newExpressions)` are produced one at a time,
      and each overrides its parameter in the body built so far; when one
      list ends before the other, `ZipStrong` throws. */
  function OverrideEach(body: Expr, ps: seq<Param>, news: seq<Expr>, st: VisitState): (r: Result<(Expr, VisitState)>)
    ensures |ps| != |news| ==> r.Throw?
    decreases |ps|
  {
    if |ps| == 0 || |news| == 0 then
      if |ps| == |news| then Ok((body, st)) else Throw(InvalidOperation(Sequences.DifferentLengths))
    else
      var next :- Visit(OverrideReference(ParamExpr(ps[0]), news[0]), body, st);
      OverrideEach(next.0, ps[1..], news[1..], next.1)
  }

  /** `lambda.GetBodyWithOverrideParameters(newExpressions)`. */
  function GetBodyWithOverrideParameters(lambda: Expr, news: seq<Expr>, st: VisitState): (r: Result<(Expr, VisitState)>)
    requires lambda.LambdaExpr?
    ensures |lambda.params| != |news| ==> r.Throw?
  {
    OverrideEach(lambda.body, lambda.params, news, st)
  }

  /** The two-parameter `BuildAnd` (`AndAlso`) and `BuildOr` (`OrElse`):
      the body of `expr2` over the parameters of `expr1`, combined with the
      body of `expr1`, over the parameters of `expr1`. */
  function CombineBinary(op: NodeType, expr1: Expr, expr2: Expr, st: VisitState): (r: Result<(Expr, VisitState)>)
    requires expr1.LambdaExpr? && expr2.LambdaExpr?
    ensures r.Ok? ==> r.value.0.LambdaExpr? && r.value.0.params == expr1.params && r.value.0.ty == expr1.ty
    ensures r.Ok? ==> r.value.0.body.BinaryExpr? && r.value.0.body.op == op && r.value.0.body.left == expr1.body
    ensures |expr1.params| != |expr2.params| ==> r.Throw?
  {
    var right :- GetBodyWithOverrideParameters(expr2, ParamExprs(expr1.params), st);
    var body := Allocate(right.1, (id: Id) => BinaryExpr(id, BoolType, op, None, expr1.body, right.0));
    Ok(Allocate(body.1, (id: Id) => LambdaExpr(id, expr1.ty, expr1.params, body.0)))
  }

  // ---------------------------------------------------------------------------
  // Negation and optimisation

  /** `sourceExpr.Select(selector)`: the body of the selector with its
      parameter replaced by the body of the source, over the source's
      parameter. The selector is an `Expression<Func<TSourceResult,
      TSelectorResult>>`, and the result is typed by its `TSelectorResult`,
      whatever the static type of its body. */
  function Select(source: Expr, selector: Expr, st: VisitState): (r: Result<(Expr, VisitState)>)
    requires IsUnary(source) && IsUnary(selector) && IsFuncType(selector.ty)
    ensures r.Ok? ==> IsUnary(r.value.0) && r.value.0.params == source.params
    ensures r.Ok? ==> r.value.0.ty == FuncType(source.params[0].ty, selector.ty.args[1])
  {
    var body :- Visit(OverrideReference(ParamExpr(selector.params[0]), source.body), selector.body, st);
    Ok(Allocate(body.1, (id: Id) => LambdaExpr(id, FuncType(source.params[0].ty, selector.ty.args[1]), source.params, body.0)))
  }

  /** `expr.Not()`, written `from v in expr select !v`: the compiler builds
      the selector `v => !v` (the parameter, the negation, the lambda), and
      `Select` substitutes the body of `expr` for `v`. */
  function Not(expr: Expr, st: VisitState): (r: Result<(Expr, VisitState)>)
    requires IsUnary(expr)
    ensures r.Ok? ==> IsUnary(r.value.0) && r.value.0.params == expr.params
  {
    var v := Param(st.nextId, BoolType, Some("v"));
    var negation := UnaryExpr(st.nextId + 1, BoolType, NodeType.Not, None, ParamExpr(v));
    var selector := LambdaExpr(st.nextId + 2, FuncType(BoolType, BoolType), [v], negation);
    Select(expr, selector, st.(nextId := st.nextId + 3))
  }

  /** `UpdateBody(bodyVisitor)`: the body visited, under the same
      parameters; the lambda itself when the body did not change. */
  function UpdateBody(v: Visitor, lambda: Expr, st: VisitState): (r: Result<(Expr, VisitState)>)
    requires lambda.LambdaExpr?
    ensures r.Ok? ==> r.value.0.LambdaExpr? && r.value.0.params == lambda.params && r.value.0.ty == lambda.ty
  {
    var body :- Visit(v, lambda.body, st);
    Ok(Rebuild(body.0 == lambda.body, lambda, body.1, (id: Id) => LambdaExpr(id, lambda.ty, lambda.params, body.0)))
  }

  /** `expression.Optimize()`: `UpdateBody` with the boolean-logic
      optimiser; `invoke` runs user-defined operator methods. */
  function Optimize(invoke: (MethodId, Value, Value) -> Result<Value>, lambda: Expr, st: VisitState): (r: Result<(Expr, VisitState)>)
    requires lambda.LambdaExpr?
    ensures r.Ok? ==> r.value.0.LambdaExpr? && r.value.0.params == lambda.params && r.value.0.ty == lambda.ty
  {
    UpdateBody(OptimizeBooleanLogic(invoke), lambda, st)
  }
}
