/** The expression rewrites built on the runtime's `ExpressionVisitor`:
    `OverrideExpressionVisitor` (substitution), the constant-lifting visitor
    of `LambdaCompileCache`, and `OptimizeBooleanLogicVisitor` (short-circuit
    constant folding). One traversal carries the three: each visitor only
    changes how some node kinds are visited, and every other node is visited
    as the base class does it, children first and left to right, rebuilt as a
    new object only when a child changed. */
module ExpressionVisitors {
  import opened Base
  import opened Types
  import opened Expressions

  datatype Visitor =
      /** Replace every node `isReplace` accepts by `newExpr`, without
          visiting the replaced subtree or the replacement. */
    | Override(isReplace: Expr -> bool, newExpr: Expr)
      /** Replace every constant by a fresh parameter and record the pair. */
    | ConstantToParameter
      /** Fold boolean logic over constants; `invoke` runs a user-defined
          operator method. */
    | OptimizeBooleanLogic(invoke: (MethodId, Value, Value) -> Result<Value>)

  /** `new OverrideExpressionVisitor(oldExpression, newExpression)`: replace
      the given object, by reference. */
  function OverrideReference(oldExpr: Expr, newExpr: Expr): (v: Visitor)
    ensures v.Override? && v.newExpr == newExpr
    ensures forall n :: v.isReplace(n) <==> n == oldExpr
  {
    Override(n => n == oldExpr, newExpr)
  }

  /** What a traversal threads along: the next object identity to hand out,
      and the `(parameter, constant)` pairs lifted so far. */
  datatype VisitState = VisitState(nextId: nat, lifted: seq<(Param, Expr)>)

  /** A new object built with the next identity. */
  function Allocate(st: VisitState, build: Id -> Expr): (r: (Expr, VisitState))
    ensures r.1 == st.(nextId := st.nextId + 1)
    ensures r.0 == build(st.nextId)
  {
    (build(st.nextId), st.(nextId := st.nextId + 1))
  }

  /** The node itself when nothing changed, a new object otherwise. */
  function Rebuild(same: bool, node: Expr, st: VisitState, build: Id -> Expr): (r: (Expr, VisitState))
    ensures same ==> r == (node, st)
    ensures !same ==> r == Allocate(st, build)
  {
    if same then (node, st) else Allocate(st, build)
  }

  /** `VisitAndConvert` refusing a rewrite that changes the node class. */
  function MustKeepNodeType(caller: string): Exception {
    InvalidOperation("When called from '" + caller + "', rewriting a node must return a non-null value of the same type.")
  }

  /** The decimal digits of `n`, as `int.ToString()` writes them. */
  function DecimalString(n: nat): (s: string)
    ensures |s| > 0
  {
    if n < 10 then ["0123456789"[n]] else DecimalString(n / 10) + ["0123456789"[n % 10]]
  }

  /** The name `ConstantToParameterExpressionVisitor` gives its k-th parameter. */
  function LiftedName(k: nat): string {
    "OverrideConst_" + DecimalString(k)
  }

  /** `(bool)value`: unboxing a boolean. */
  function CastBool(v: Value): (r: Result<bool>)
    ensures r.Ok? <==> v.BoolValue?
    ensures r.Ok? ==> r.value == v.b
  {
    match v
    case BoolValue(b) => Ok(b)
    case NullValue => Throw(NullReference)
    case _ => Throw(InvalidCast)
  }

  /** `Expression.Constant(b)`. */
  function BoolConstant(st: VisitState, b: bool): (r: (Expr, VisitState))
    ensures r.0 == ConstantExpr(st.nextId, BoolType, BoolValue(b))
    ensures r.1 == st.(nextId := st.nextId + 1)
  {
    Allocate(st, (id: Id) => ConstantExpr(id, BoolType, BoolValue(b)))
  }

  /** The value of a literal constant node (a `null` reference for any
      other node). */
  function ConstantValue(e: Expr): Option<Value> {
    if e.ConstantExpr? then Some(e.value) else None
  }

  /** `ExpressionType.GetBinaryMethod()` applied to two operand values: the
      operator's result, `null` (None) for an operator it does not define, or
      the exception a failing unboxing throws. */
  function BinaryMethod(op: NodeType, v1: Value, v2: Value): (r: Result<Option<Value>>)
    ensures op !in {Equal, NotEqual, OrElse, AndAlso} ==> r == Ok(None)
    ensures op == Equal ==> r == Ok(Some(BoolValue(v1 == v2)))
    ensures op == NotEqual ==> r == Ok(Some(BoolValue(v1 != v2)))
    ensures op in {OrElse, AndAlso} && v1.BoolValue? && v2.BoolValue? ==>
      r == Ok(Some(BoolValue(if op == OrElse then v1.b || v2.b else v1.b && v2.b)))
  {
    match op
    case Equal => Ok(Some(BoolValue(v1 == v2)))
    case NotEqual => Ok(Some(BoolValue(v1 != v2)))
    case OrElse =>
      var b1 :- CastBool(v1);
      if b1 then Ok(Some(BoolValue(true)))
      else var b2 :- CastBool(v2); Ok(Some(BoolValue(b2)))
    case AndAlso =>
      var b1 :- CastBool(v1);
      if !b1 then Ok(Some(BoolValue(false)))
      else var b2 :- CastBool(v2); Ok(Some(BoolValue(b2)))
    case _ => Ok(None)
  }

  // ---------------------------------------------------------------------------
  // The traversal

  /** `visitor.Visit(e)`. */
  function Visit(v: Visitor, e: Expr, st: VisitState): Result<(Expr, VisitState)>
    decreases e, 3
  {
    if v.Override? && v.isReplace(e) then Ok((v.newExpr, st))
    else if v.ConstantToParameter? && e.ConstantExpr? then Ok(LiftConstant(e, st))
    else if v.OptimizeBooleanLogic? && e.BinaryExpr? then OptimizeBinary(v, e, st)
    else if v.OptimizeBooleanLogic? && e.ConditionalExpr? then OptimizeConditional(v, e, st)
    else VisitChildren(v, e, st)
  }

  /** `ConstantToParameterExpressionVisitor.VisitConstant`. */
  function LiftConstant(e: Expr, st: VisitState): (r: (Expr, VisitState))
    requires e.ConstantExpr?
  {
    var p := Param(st.nextId, e.ty, Some(LiftedName(|st.lifted|)));
    (ParamExpr(p), VisitState(st.nextId + 1, st.lifted + [(p, e)]))
  }

  /** The base `ExpressionVisitor` behaviour for each node kind. */
  function VisitChildren(v: Visitor, e: Expr, st: VisitState): Result<(Expr, VisitState)>
    decreases e, 2
  {
    match e
    case LambdaExpr(_, ty, ps, body) =>
      var b :- Visit(v, body, st);
      var q :- VisitParams(v, ps);
      Ok(Rebuild(b.0 == body && q == ps, e, b.1, (id: Id) => LambdaExpr(id, ty, q, b.0)))
    case ParameterExpr(_, _, _) => Ok((e, st))
    case CallExpr(_, ty, callee, target, args) =>
      var t :- VisitOpt(v, target, st);
      var a :- VisitSeq(v, args, t.1);
      Ok(Rebuild(t.0 == target && a.0 == args, e, a.1, (id: Id) => CallExpr(id, ty, callee, t.0, a.0)))
    case MemberExpr(_, ty, member, target) =>
      var t :- VisitOpt(v, target, st);
      Ok(Rebuild(t.0 == target, e, t.1, (id: Id) => MemberExpr(id, ty, member, t.0)))
    case BinaryExpr(_, ty, op, fn, left, right) =>
      var l :- Visit(v, left, st);
      var r :- Visit(v, right, l.1);
      Ok(Rebuild(l.0 == left && r.0 == right, e, r.1, (id: Id) => BinaryExpr(id, ty, op, fn, l.0, r.0)))
    case ConstantExpr(_, _, _) => Ok((e, st))
    case UnaryExpr(_, ty, op, fn, operand) =>
      var o :- Visit(v, operand, st);
      Ok(Rebuild(o.0 == operand, e, o.1, (id: Id) => UnaryExpr(id, ty, op, fn, o.0)))
    case NewArrayExpr(_, ty, op, elems) =>
      var a :- VisitSeq(v, elems, st);
      Ok(Rebuild(a.0 == elems, e, a.1, (id: Id) => NewArrayExpr(id, ty, op, a.0)))
    case NewExpr(_, ty, ctor, args, members) =>
      var a :- VisitSeq(v, args, st);
      Ok(Rebuild(a.0 == args, e, a.1, (id: Id) => NewExpr(id, ty, ctor, a.0, members)))
    case MemberInitExpr(_, ty, newExpr, bindings) =>
      var n :- Visit(v, newExpr, st);
      if !n.0.NewExpr? then Throw(MustKeepNodeType("VisitMemberInit"))
      else
        var b :- VisitBindings(v, bindings, n.1);
        Ok(Rebuild(n.0 == newExpr && b.0 == bindings, e, b.1, (id: Id) => MemberInitExpr(id, ty, n.0, b.0)))
    case ConditionalExpr(_, ty, test, ifTrue, ifFalse) =>
      var c :- Visit(v, test, st);
      var t :- Visit(v, ifTrue, c.1);
      var f :- Visit(v, ifFalse, t.1);
      Ok(Rebuild(c.0 == test && t.0 == ifTrue && f.0 == ifFalse, e, f.1, (id: Id) => ConditionalExpr(id, ty, c.0, t.0, f.0)))
    case ListInitExpr(_, ty, newExpr, inits) =>
      var n :- Visit(v, newExpr, st);
      if !n.0.NewExpr? then Throw(MustKeepNodeType("VisitListInit"))
      else
        var i :- VisitInits(v, inits.items, n.1);
        var list := if i.0 == inits.items then (inits, i.1) else (InitList(i.1.nextId, i.0), i.1.(nextId := i.1.nextId + 1));
        Ok(Rebuild(n.0 == newExpr && list.0 == inits, e, list.1, (id: Id) => ListInitExpr(id, ty, n.0, list.0)))
    case OtherExpr(_, ty, op, children, className) =>
      var c :- VisitSeq(v, children, st);
      Ok(Rebuild(c.0 == children, e, c.1, (id: Id) => OtherExpr(id, ty, op, c.0, className)))
  }

  /** `Visit` on a nullable operand: `null` stays `null`. */
  function VisitOpt(v: Visitor, e: Option<Expr>, st: VisitState): Result<(Option<Expr>, VisitState)>
    decreases e, 0
  {
    match e
    case None => Ok((None, st))
    case Some(x) =>
      var r :- Visit(v, x, st);
      Ok((Some(r.0), r.1))
  }

  /** `Visit` on a list of operands, left to right. */
  function VisitSeq(v: Visitor, es: seq<Expr>, st: VisitState): Result<(seq<Expr>, VisitState)>
    decreases es, 1
  {
    if |es| == 0 then Ok(([], st))
    else
      var h :- Visit(v, es[0], st);
      var t :- VisitSeq(v, es[1..], h.1);
      Ok(([h.0] + t.0, t.1))
  }

  /** `VisitAndConvert` on a lambda's parameters: none of the three visitors
      rewrites a parameter node itself, so only a replacement can change one,
      and it must be a parameter again. */
  function VisitParams(v: Visitor, ps: seq<Param>): Result<seq<Param>>
  {
    if |ps| == 0 then Ok([])
    else
      var h :- VisitParam(v, ps[0]);
      var t :- VisitParams(v, ps[1..]);
      Ok([h] + t)
  }

  function VisitParam(v: Visitor, p: Param): Result<Param> {
    if v.Override? && v.isReplace(ParamExpr(p)) then
      if v.newExpr.ParameterExpr? then Ok(Param(v.newExpr.id, v.newExpr.ty, v.newExpr.name))
      else Throw(MustKeepNodeType("VisitLambda"))
    else Ok(p)
  }

  /** `VisitElementInit`: the arguments; a new initializer if any changed. */
  function VisitInit(v: Visitor, init: ElementInit, st: VisitState): Result<(ElementInit, VisitState)>
    decreases init, 0
  {
    var a :- VisitSeq(v, init.args, st);
    if a.0 == init.args then Ok((init, a.1))
    else Ok((ElementInit(a.1.nextId, init.addFn, a.0), a.1.(nextId := a.1.nextId + 1)))
  }

  function VisitInits(v: Visitor, inits: seq<ElementInit>, st: VisitState): Result<(seq<ElementInit>, VisitState)>
    decreases inits, 1
  {
    if |inits| == 0 then Ok(([], st))
    else
      var h :- VisitInit(v, inits[0], st);
      var t :- VisitInits(v, inits[1..], h.1);
      Ok(([h.0] + t.0, t.1))
  }

  /** `VisitMemberBinding`: the assigned expression, the initializers, or the
      nested bindings; a new binding if anything changed. */
  function VisitBinding(v: Visitor, b: Binding, st: VisitState): Result<(Binding, VisitState)>
    decreases b, 0
  {
    match b
    case Assignment(_, member, expr) =>
      var x :- Visit(v, expr, st);
      if x.0 == expr then Ok((b, x.1))
      else Ok((Assignment(x.1.nextId, member, x.0), x.1.(nextId := x.1.nextId + 1)))
    case ListBinding(_, member, inits) =>
      var i :- VisitInits(v, inits, st);
      if i.0 == inits then Ok((b, i.1))
      else Ok((ListBinding(i.1.nextId, member, i.0), i.1.(nextId := i.1.nextId + 1)))
    case MemberMemberBinding(_, member, bs) =>
      var n :- VisitBindings(v, bs, st);
      if n.0 == bs then Ok((b, n.1))
      else Ok((MemberMemberBinding(n.1.nextId, member, n.0), n.1.(nextId := n.1.nextId + 1)))
  }

  function VisitBindings(v: Visitor, bs: seq<Binding>, st: VisitState): Result<(seq<Binding>, VisitState)>
    decreases bs, 1
  {
    if |bs| == 0 then Ok(([], st))
    else
      var h :- VisitBinding(v, bs[0], st);
      var t :- VisitBindings(v, bs[1..], h.1);
      Ok(([h.0] + t.0, t.1))
  }

  // ---------------------------------------------------------------------------
  // OptimizeBooleanLogicVisitor

  /** `VisitConditional`: a test that optimises to a boolean constant selects
      the branch to optimise; otherwise both branches are optimised. */
  function OptimizeConditional(v: Visitor, e: Expr, st: VisitState): Result<(Expr, VisitState)>
    requires v.OptimizeBooleanLogic? && e.ConditionalExpr?
    decreases e, 2
  {
    var c :- Visit(v, e.test, st);
    if c.0.ConstantExpr? && c.0.value.BoolValue? then
      Visit(v, if c.0.value.b then e.ifTrue else e.ifFalse, c.1)
    else
      var t :- Visit(v, e.ifTrue, c.1);
      var f :- Visit(v, e.ifFalse, t.1);
      Ok(Rebuild(c.0 == e.test && t.0 == e.ifTrue && f.0 == e.ifFalse, e, f.1,
        (id: Id) => ConditionalExpr(id, e.ty, c.0, t.0, f.0)))
  }

  /** `VisitBinary`: short-circuit on a constant left operand, fold two
      constant operands, simplify `&&` and `||` with one constant operand. */
  function OptimizeBinary(v: Visitor, e: Expr, st: VisitState): Result<(Expr, VisitState)>
    requires v.OptimizeBooleanLogic? && e.BinaryExpr?
    decreases e, 2
  {
    var l :- Visit(v, e.left, st);
    var leftValue := ConstantValue(l.0);
    var shortCut :- LeftShortCut(e.op, leftValue);
    if shortCut.Some? then Ok(BoolConstant(l.1, shortCut.value))
    else
      var r :- Visit(v, e.right, l.1);
      var rightValue := ConstantValue(r.0);
      var folded :- Fold(v, e, leftValue, rightValue);
      if folded.Some? then
        Ok(Allocate(r.1, (id: Id) => ConstantExpr(id, RuntimeType(folded.value), folded.value)))
      else
        var simplified :- Simplify(e, l.0, r.0, leftValue, rightValue, r.1);
        if simplified.Some? then Ok(simplified.value)
        else Ok(Rebuild(l.0 == e.left && r.0 == e.right, e, r.1,
          (id: Id) => BinaryExpr(id, e.ty, e.op, e.fn, l.0, r.0)))
  }

  /** The left short cut of `VisitBinary`: `false && _` is false and `true || _` is true. */
  function LeftShortCut(op: NodeType, leftValue: Option<Value>): (r: Result<Option<bool>>)
    ensures r.Ok? && r.value.Some? ==>
      (leftValue == Some(BoolValue(r.value.value)) && op == (if r.value.value then OrElse else AndAlso))
    ensures leftValue.None? || op !in {AndAlso, OrElse} ==> r == Ok(None)
  {
    if leftValue.None? then Ok(None)
    else if op == AndAlso then
      var b :- CastBool(leftValue.value);
      if !b then Ok(Some(false)) else Ok(None)
    else if op == OrElse then
      var b :- CastBool(leftValue.value);
      if b then Ok(Some(true)) else Ok(None)
    else Ok(None)
  }

  /** The constant folding of `VisitBinary`: the user-defined operator's result, or failing that the
      built-in one, as the value of the folded node; None when there is
      nothing to fold. */
  function Fold(v: Visitor, e: Expr, leftValue: Option<Value>, rightValue: Option<Value>): (r: Result<Option<Value>>)
    requires v.OptimizeBooleanLogic? && e.BinaryExpr?
    ensures r.Ok? && r.value.Some? ==> leftValue.Some? && rightValue.Some? && !r.value.value.NullValue?
    ensures leftValue.None? || rightValue.None? ==> r == Ok(None)
  {
    if leftValue.None? || rightValue.None? then Ok(None)
    else
      var userResult :- if e.fn.Some? then v.invoke(e.fn.value, leftValue.value, rightValue.value) else Ok(NullValue);
      if !userResult.NullValue? then Ok(Some(userResult))
      else
        var builtIn :- BinaryMethod(e.op, leftValue.value, rightValue.value);
        if builtIn.Some? && !builtIn.value.NullValue? then Ok(builtIn) else Ok(None)
  }

  /** The simplification of `VisitBinary`: with no user-defined operator, `true && r` and
      `false || r` become r, `l && true` and `l || false` become l,
      `l && false` becomes false and `l || true` becomes true. */
  function Simplify(e: Expr, left: Expr, right: Expr, leftValue: Option<Value>, rightValue: Option<Value>, st: VisitState)
    : (r: Result<Option<(Expr, VisitState)>>)
    requires e.BinaryExpr?
    ensures e.fn.Some? || e.op !in {AndAlso, OrElse} ==> r == Ok(None)
  {
    if e.fn.Some? then Ok(None)
    else if leftValue.Some? && e.op == AndAlso && leftValue.value == BoolValue(true) then Ok(Some((right, st)))
    else if leftValue.Some? && e.op == OrElse && leftValue.value == BoolValue(false) then Ok(Some((right, st)))
    else if rightValue.Some? && e.op == AndAlso then
      var b :- CastBool(rightValue.value);
      Ok(Some(if b then (left, st) else BoolConstant(st, false)))
    else if rightValue.Some? && e.op == OrElse then
      var b :- CastBool(rightValue.value);
      Ok(Some(if b then BoolConstant(st, true) else (left, st)))
    else Ok(None)
  }
}
