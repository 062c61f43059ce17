/** What the builders mean, against the reference evaluator of the boolean
    fragment: a conjunction of predicates holds exactly when every predicate
    holds, a disjunction when one does, a negation when the predicate does
    not, and substituting a parameter is evaluating under that binding. */
module BuilderLaws {
  import opened Base
  import opened Types
  import opened Expressions
  import opened ExpressionVisitors
  import opened ExpressionBuilders
  import opened OptimizerLaws
  import opened Maybes

  /** A parameter node with the identity of `p` is `p` itself: identities
      name objects. */
  function SameIdSameParam(p: Param): Expr -> bool {
    (n: Expr) => (n.ParameterExpr? && n.id == p.id) ==> n == ParamExpr(p)
  }

  predicate Consistent(e: Expr, p: Param) {
    Every(e, SameIdSameParam(p))
  }

  /** The result of substituting `s` for `p` in `b`: it exists, is well-typed
      with the type of `b`, and its value is the value of `b` with `p` bound
      to the value of `s`. */
  predicate Substituted(env: Env, p: Param, s: Expr, b: Expr, r: Result<(Expr, VisitState)>)
    requires Eval(env, s).Some?
  {
    r.Ok? && Typed(env, r.value.0) && r.value.0.ty == b.ty &&
    Eval(env, r.value.0) == Eval(env[p.id := Eval(env, s).value], b)
  }

  /** The substitution lemma: replacing the parameter object `p` by `s`
      throughout `b` and then evaluating is evaluating `b` with `p` bound to
      the value of `s`. */
  lemma {:induction false} SubstitutePreservesValue(p: Param, s: Expr, env: Env, b: Expr, st: VisitState)
    requires Typed(env, s) && s.ty == p.ty && Eval(env, s).Some?
    requires Typed(env[p.id := Eval(env, s).value], b) && Consistent(b, p)
    ensures Substituted(env, p, s, b, Visit(OverrideReference(ParamExpr(p), s), b, st))
    decreases b, 1
  {
    var v := OverrideReference(ParamExpr(p), s);
    match b
    case ConstantExpr(_, _, _) =>
    case ParameterExpr(id, _, _) =>
      if b != ParamExpr(p) {
        assert id != p.id;
        assert Visit(v, b, st) == Ok((b, st));
      }
    case BinaryExpr(_, _, _, _, _, _) => SubstituteBinary(p, s, env, b, st);
    case UnaryExpr(_, _, _, _, _) => SubstituteUnary(p, s, env, b, st);
    case ConditionalExpr(_, _, _, _, _) => SubstituteConditional(p, s, env, b, st);
  }

  lemma {:induction false} SubstituteBinary(p: Param, s: Expr, env: Env, b: Expr, st: VisitState)
    requires b.BinaryExpr?
    requires Typed(env, s) && s.ty == p.ty && Eval(env, s).Some?
    requires Typed(env[p.id := Eval(env, s).value], b) && Consistent(b, p)
    ensures Substituted(env, p, s, b, Visit(OverrideReference(ParamExpr(p), s), b, st))
    decreases b, 0
  {
    var v := OverrideReference(ParamExpr(p), s);
    SubstitutePreservesValue(p, s, env, b.left, st);
    var l := Visit(v, b.left, st).value;
    SubstitutePreservesValue(p, s, env, b.right, l.1);
    var r := Visit(v, b.right, l.1).value;
    assert Visit(v, b, st) == Ok(Rebuild(l.0 == b.left && r.0 == b.right, b, r.1,
      (id: Id) => BinaryExpr(id, b.ty, b.op, b.fn, l.0, r.0)));
  }

  lemma {:induction false} SubstituteUnary(p: Param, s: Expr, env: Env, b: Expr, st: VisitState)
    requires b.UnaryExpr?
    requires Typed(env, s) && s.ty == p.ty && Eval(env, s).Some?
    requires Typed(env[p.id := Eval(env, s).value], b) && Consistent(b, p)
    ensures Substituted(env, p, s, b, Visit(OverrideReference(ParamExpr(p), s), b, st))
    decreases b, 0
  {
    var v := OverrideReference(ParamExpr(p), s);
    SubstitutePreservesValue(p, s, env, b.operand, st);
    var o := Visit(v, b.operand, st).value;
    assert Visit(v, b, st) == Ok(Rebuild(o.0 == b.operand, b, o.1,
      (id: Id) => UnaryExpr(id, b.ty, b.op, b.fn, o.0)));
  }

  lemma {:induction false} SubstituteConditional(p: Param, s: Expr, env: Env, b: Expr, st: VisitState)
    requires b.ConditionalExpr?
    requires Typed(env, s) && s.ty == p.ty && Eval(env, s).Some?
    requires Typed(env[p.id := Eval(env, s).value], b) && Consistent(b, p)
    ensures Substituted(env, p, s, b, Visit(OverrideReference(ParamExpr(p), s), b, st))
    decreases b, 0
  {
    var v := OverrideReference(ParamExpr(p), s);
    SubstitutePreservesValue(p, s, env, b.test, st);
    var c := Visit(v, b.test, st).value;
    SubstitutePreservesValue(p, s, env, b.ifTrue, c.1);
    var t := Visit(v, b.ifTrue, c.1).value;
    SubstitutePreservesValue(p, s, env, b.ifFalse, t.1);
    var f := Visit(v, b.ifFalse, t.1).value;
    OverrideConditional(v, b, st);
    var res := Rebuild(c.0 == b.test && t.0 == b.ifTrue && f.0 == b.ifFalse, b, f.1,
      (id: Id) => ConditionalExpr(id, b.ty, c.0, t.0, f.0));
    assert Visit(v, b, st) == Ok(res);
  }

  /** An override visitor that does not replace a conditional visits its
      three parts in turn and rebuilds it over them. */
  lemma OverrideConditional(v: Visitor, b: Expr, st: VisitState)
    requires v.Override? && !v.isReplace(b) && b.ConditionalExpr?
    requires Visit(v, b.test, st).Ok?
    requires Visit(v, b.ifTrue, Visit(v, b.test, st).value.1).Ok?
    requires Visit(v, b.ifFalse, Visit(v, b.ifTrue, Visit(v, b.test, st).value.1).value.1).Ok?
    ensures var c := Visit(v, b.test, st).value;
      var t := Visit(v, b.ifTrue, c.1).value;
      var f := Visit(v, b.ifFalse, t.1).value;
      Visit(v, b, st) == Ok(Rebuild(c.0 == b.test && t.0 == b.ifTrue && f.0 == b.ifFalse, b, f.1,
        (id: Id) => ConditionalExpr(id, b.ty, c.0, t.0, f.0)))
  {
  }

  /** Substitution keeps identities naming objects, when neither the tree
      nor the inserted expression breaks that. */
  lemma {:induction false} SubstituteKeepsConsistent(p: Param, s: Expr, env: Env, b: Expr, st: VisitState, q: Param)
    requires Typed(env, s) && s.ty == p.ty && Eval(env, s).Some?
    requires Typed(env[p.id := Eval(env, s).value], b) && Consistent(b, p)
    requires Consistent(b, q) && Consistent(s, q)
    ensures Visit(OverrideReference(ParamExpr(p), s), b, st).Ok?
    ensures Consistent(Visit(OverrideReference(ParamExpr(p), s), b, st).value.0, q)
    decreases b, 1
  {
    SubstitutePreservesValue(p, s, env, b, st);
    match b
    case ConstantExpr(_, _, _) =>
    case ParameterExpr(id, _, _) =>
    case BinaryExpr(_, _, _, _, _, _) => BinaryKeepsConsistent(p, s, env, b, st, q);
    case UnaryExpr(_, _, _, _, _) => UnaryKeepsConsistent(p, s, env, b, st, q);
    case ConditionalExpr(_, _, _, _, _) => ConditionalKeepsConsistent(p, s, env, b, st, q);
  }

  lemma {:induction false} BinaryKeepsConsistent(p: Param, s: Expr, env: Env, b: Expr, st: VisitState, q: Param)
    requires b.BinaryExpr?
    requires Typed(env, s) && s.ty == p.ty && Eval(env, s).Some?
    requires Typed(env[p.id := Eval(env, s).value], b) && Consistent(b, p)
    requires Consistent(b, q) && Consistent(s, q)
    ensures Visit(OverrideReference(ParamExpr(p), s), b, st).Ok?
    ensures Consistent(Visit(OverrideReference(ParamExpr(p), s), b, st).value.0, q)
    decreases b, 0
  {
    var v := OverrideReference(ParamExpr(p), s);
    SubstituteKeepsConsistent(p, s, env, b.left, st, q);
    var l := Visit(v, b.left, st).value;
    SubstituteKeepsConsistent(p, s, env, b.right, l.1, q);
    var r := Visit(v, b.right, l.1).value;
    assert Visit(v, b, st) == Ok(Rebuild(l.0 == b.left && r.0 == b.right, b, r.1,
      (id: Id) => BinaryExpr(id, b.ty, b.op, b.fn, l.0, r.0)));
  }

  lemma {:induction false} UnaryKeepsConsistent(p: Param, s: Expr, env: Env, b: Expr, st: VisitState, q: Param)
    requires b.UnaryExpr?
    requires Typed(env, s) && s.ty == p.ty && Eval(env, s).Some?
    requires Typed(env[p.id := Eval(env, s).value], b) && Consistent(b, p)
    requires Consistent(b, q) && Consistent(s, q)
    ensures Visit(OverrideReference(ParamExpr(p), s), b, st).Ok?
    ensures Consistent(Visit(OverrideReference(ParamExpr(p), s), b, st).value.0, q)
    decreases b, 0
  {
    var v := OverrideReference(ParamExpr(p), s);
    SubstituteKeepsConsistent(p, s, env, b.operand, st, q);
    var o := Visit(v, b.operand, st).value;
    assert Visit(v, b, st) == Ok(Rebuild(o.0 == b.operand, b, o.1,
      (id: Id) => UnaryExpr(id, b.ty, b.op, b.fn, o.0)));
  }

  lemma {:induction false} ConditionalKeepsConsistent(p: Param, s: Expr, env: Env, b: Expr, st: VisitState, q: Param)
    requires b.ConditionalExpr?
    requires Typed(env, s) && s.ty == p.ty && Eval(env, s).Some?
    requires Typed(env[p.id := Eval(env, s).value], b) && Consistent(b, p)
    requires Consistent(b, q) && Consistent(s, q)
    ensures Visit(OverrideReference(ParamExpr(p), s), b, st).Ok?
    ensures Consistent(Visit(OverrideReference(ParamExpr(p), s), b, st).value.0, q)
    decreases b, 0
  {
    var v := OverrideReference(ParamExpr(p), s);
    SubstituteKeepsConsistent(p, s, env, b.test, st, q);
    var c := Visit(v, b.test, st).value;
    SubstituteKeepsConsistent(p, s, env, b.ifTrue, c.1, q);
    var t := Visit(v, b.ifTrue, c.1).value;
    SubstituteKeepsConsistent(p, s, env, b.ifFalse, t.1, q);
    var f := Visit(v, b.ifFalse, t.1).value;
    assert Visit(v, b, st) == Ok(Rebuild(c.0 == b.test && t.0 == b.ifTrue && f.0 == b.ifFalse, b, f.1,
      (id: Id) => ConditionalExpr(id, b.ty, c.0, t.0, f.0)));
  }

  // ---------------------------------------------------------------------------
  // Predicates of one parameter

  /** A one-parameter predicate whose body lies in the fragment. */
  predicate IsPredicate(env: Env, e: Expr) {
    IsUnary(e) && e.body.ty == BoolType && Typed(env, e.body) && Consistent(e.body, e.params[0])
  }

  /** `e` takes its argument of the type of `p`, and the environment binds
      the two parameters to the same argument. */
  predicate SameArgument(env: Env, e: Expr, p: Param)
    requires IsUnary(e)
  {
    e.params[0].ty == p.ty && e.params[0].id in env && p.id in env && env[e.params[0].id] == env[p.id] &&
    Typed(env, ParamExpr(p)) && Consistent(e.body, p)
  }

  /** The predicate holds for the bound argument. */
  predicate Holds(env: Env, e: Expr)
    requires e.LambdaExpr?
  {
    Eval(env, e.body) == Some(BoolValue(true))
  }

  /** `expr1.BuildAnd(expr2)` (`AndAlso`) and `expr1.BuildOr(expr2)`
      (`OrElse`) evaluate, for any argument, to `expr1 && expr2` and
      `expr1 || expr2` on that argument. */
  lemma CombineValue(op: NodeType, e1: Expr, e2: Expr, env: Env, st: VisitState)
    requires op == AndAlso || op == OrElse
    requires IsPredicate(env, e1) && IsPredicate(env, e2) && SameArgument(env, e2, e1.params[0])
    ensures Combine(op, e1, e2, st).Ok?
    ensures IsPredicate(env, Combine(op, e1, e2, st).value.0)
    ensures Eval(env, Combine(op, e1, e2, st).value.0.body) == EvalBinary(op, Eval(env, e1.body), Eval(env, e2.body))
  {
    var p1 := e1.params[0];
    var p2 := e2.params[0];
    var s := ParamExpr(p1);
    assert Eval(env, s) == Some(env[p1.id]);
    assert env[p2.id := Eval(env, s).value] == env;
    SubstitutePreservesValue(p2, s, env, e2.body, st);
    SubstituteKeepsConsistent(p2, s, env, e2.body, st, p1);
  }

  /** The same, in terms of whether the predicates hold. */
  lemma CombineHolds(op: NodeType, e1: Expr, e2: Expr, env: Env, st: VisitState)
    requires op == AndAlso || op == OrElse
    requires IsPredicate(env, e1) && IsPredicate(env, e2) && SameArgument(env, e2, e1.params[0])
    ensures Combine(op, e1, e2, st).Ok? && IsPredicate(env, Combine(op, e1, e2, st).value.0)
    ensures Combine(op, e1, e2, st).value.0.params == e1.params
    ensures Holds(env, Combine(op, e1, e2, st).value.0) <==>
              if op == AndAlso then Holds(env, e1) && Holds(env, e2) else Holds(env, e1) || Holds(env, e2)
  {
    CombineValue(op, e1, e2, env, st);
    TypedEvaluates(env, e1.body);
    TypedEvaluates(env, e2.body);
  }

  /** Every predicate of the sequence is a fragment predicate over the
      argument of `p`. */
  predicate AllPredicates(env: Env, es: seq<Expr>, p: Param) {
    forall i :: 0 <= i < |es| ==> IsPredicate(env, es[i]) && SameArgument(env, es[i], p)
  }

  predicate AllHold(env: Env, es: seq<Expr>)
    requires forall i :: 0 <= i < |es| ==> es[i].LambdaExpr?
  {
    forall i :: 0 <= i < |es| ==> Holds(env, es[i])
  }

  predicate SomeHolds(env: Env, es: seq<Expr>)
    requires forall i :: 0 <= i < |es| ==> es[i].LambdaExpr?
  {
    exists i :: 0 <= i < |es| && Holds(env, es[i])
  }

  lemma HoldsCons(env: Env, es: seq<Expr>)
    requires |es| > 0 && forall i :: 0 <= i < |es| ==> es[i].LambdaExpr?
    ensures AllHold(env, es) <==> Holds(env, es[0]) && AllHold(env, es[1..])
    ensures SomeHolds(env, es) <==> Holds(env, es[0]) || SomeHolds(env, es[1..])
  {
    assert forall i :: 0 <= i < |es| - 1 ==> es[1..][i] == es[i + 1];
    if SomeHolds(env, es) && !Holds(env, es[0]) {
      var i :| 0 <= i < |es| && Holds(env, es[i]);
      assert Holds(env, es[1..][i - 1]);
    }
  }

  /** The conjunction (disjunction) fold holds exactly when the accumulated
      predicate and every (some) later predicate hold. */
  lemma {:induction false} CombineAllValue(op: NodeType, acc: Expr, rest: seq<Expr>, env: Env, st: VisitState)
    requires op == AndAlso || op == OrElse
    requires IsPredicate(env, acc) && AllPredicates(env, rest, acc.params[0])
    ensures CombineAll(op, acc, rest, st).Ok?
    ensures IsPredicate(env, CombineAll(op, acc, rest, st).value.0)
    ensures op == AndAlso ==> (Holds(env, CombineAll(op, acc, rest, st).value.0) <==> Holds(env, acc) && AllHold(env, rest))
    ensures op == OrElse ==> (Holds(env, CombineAll(op, acc, rest, st).value.0) <==> Holds(env, acc) || SomeHolds(env, rest))
    decreases |rest|
  {
    if |rest| > 0 {
      CombineHolds(op, acc, rest[0], env, st);
      var next := Combine(op, acc, rest[0], st).value;
      assert AllPredicates(env, rest[1..], next.0.params[0]) by {
        assert forall i :: 0 <= i < |rest| - 1 ==> rest[1..][i] == rest[i + 1];
      }
      CombineAllValue(op, next.0, rest[1..], env, next.1);
      HoldsCons(env, rest);
    }
  }

  /** `source.BuildAnd()` holds exactly when every predicate holds; with no
      predicates, `_ => true` always holds. */
  lemma BuildAndAllValue(source: seq<Expr>, paramTy: Ty, env: Env, st: VisitState)
    requires forall i :: 0 <= i < |source| ==> IsUnary(source[i])
    requires |source| > 0 ==> IsUnary(source[0]) && AllPredicates(env, source, source[0].params[0])
    ensures BuildAndAll(source, paramTy, st).Ok?
    ensures Holds(env, BuildAndAll(source, paramTy, st).value.0) <==> AllHold(env, source)
  {
    if |source| >= 2 {
      assert AllPredicates(env, source[1..], source[0].params[0]) by {
        assert forall i :: 0 <= i < |source| - 1 ==> source[1..][i] == source[i + 1];
      }
      CombineAllValue(AndAlso, source[0], source[1..], env, st);
      HoldsCons(env, source);
    }
  }

  /** `source.BuildOr()` holds exactly when some predicate holds; with no
      predicates, `_ => false` never holds. */
  lemma BuildOrAllValue(source: seq<Expr>, paramTy: Ty, env: Env, st: VisitState)
    requires forall i :: 0 <= i < |source| ==> IsUnary(source[i])
    requires |source| > 0 ==> IsUnary(source[0]) && AllPredicates(env, source, source[0].params[0])
    ensures BuildOrAll(source, paramTy, st).Ok?
    ensures Holds(env, BuildOrAll(source, paramTy, st).value.0) <==> SomeHolds(env, source)
  {
    if |source| >= 2 {
      assert AllPredicates(env, source[1..], source[0].params[0]) by {
        assert forall i :: 0 <= i < |source| - 1 ==> source[1..][i] == source[i + 1];
      }
      CombineAllValue(OrElse, source[0], source[1..], env, st);
      HoldsCons(env, source);
    } else if |source| == 1 {
      assert Holds(env, source[0]) ==> SomeHolds(env, source);
    }
  }

  // ---------------------------------------------------------------------------
  // Predicates of several parameters

  /** Substituting the new expressions for the parameters one at a time
      keeps the value of the body, in an environment where each parameter
      already has the value of its replacement and identities name
      objects. */
  lemma {:induction false} OverrideEachValue(body: Expr, ps: seq<Param>, news: seq<Expr>, env: Env, st: VisitState)
    requires |ps| == |news| && Typed(env, body)
    requires forall j :: 0 <= j < |ps| ==> Consistent(body, ps[j])
    requires forall i :: 0 <= i < |ps| ==>
      Typed(env, news[i]) && news[i].ty == ps[i].ty && ps[i].id in env && Eval(env, news[i]) == Some(env[ps[i].id])
    requires forall i, j :: 0 <= i < |news| && 0 <= j < |ps| ==> Consistent(news[i], ps[j])
    ensures OverrideEach(body, ps, news, st).Ok?
    ensures Typed(env, OverrideEach(body, ps, news, st).value.0)
    ensures OverrideEach(body, ps, news, st).value.0.ty == body.ty
    ensures Eval(env, OverrideEach(body, ps, news, st).value.0) == Eval(env, body)
    decreases |ps|
  {
    if |ps| > 0 {
      assert env[ps[0].id := Eval(env, news[0]).value] == env;
      SubstitutePreservesValue(ps[0], news[0], env, body, st);
      var next := Visit(OverrideReference(ParamExpr(ps[0]), news[0]), body, st).value;
      forall j | 0 <= j < |ps[1..]|
        ensures Consistent(next.0, ps[1..][j])
      {
        SubstituteKeepsConsistent(ps[0], news[0], env, body, st, ps[j + 1]);
      }
      OverrideEachValue(next.0, ps[1..], news[1..], env, next.1);
    }
  }

  /** The two-parameter `BuildAnd` (`AndAlso`) and `BuildOr` (`OrElse`)
      evaluate to `expr1 && expr2` and `expr1 || expr2` on the same
      arguments. */
  lemma CombineBinaryValue(op: NodeType, e1: Expr, e2: Expr, env: Env, st: VisitState)
    requires op == AndAlso || op == OrElse
    requires e1.LambdaExpr? && e2.LambdaExpr? && |e1.params| == |e2.params|
    requires e1.body.ty == BoolType && e2.body.ty == BoolType && Typed(env, e1.body) && Typed(env, e2.body)
    requires forall i :: 0 <= i < |e1.params| ==>
      Typed(env, ParamExpr(e1.params[i])) && e2.params[i].ty == e1.params[i].ty &&
      e2.params[i].id in env && env[e2.params[i].id] == env[e1.params[i].id]
    requires forall j :: 0 <= j < |e2.params| ==> Consistent(e2.body, e2.params[j])
    requires forall i, j :: 0 <= i < |e1.params| && 0 <= j < |e2.params| ==> Consistent(ParamExpr(e1.params[i]), e2.params[j])
    ensures CombineBinary(op, e1, e2, st).Ok?
    ensures Eval(env, CombineBinary(op, e1, e2, st).value.0.body) == EvalBinary(op, Eval(env, e1.body), Eval(env, e2.body))
  {
    var news := ParamExprs(e1.params);
    OverrideEachValue(e2.body, e2.params, news, env, st);
  }

  // ---------------------------------------------------------------------------
  // Negation and optimisation

  /** `expr.Not()` holds exactly when `expr` does not. */
  lemma NotNegates(e: Expr, env: Env, st: VisitState)
    requires IsUnary(e) && e.body.ty == BoolType && Typed(env, e.body)
    ensures ExpressionBuilders.Not(e, st).Ok? && Typed(env, ExpressionBuilders.Not(e, st).value.0.body)
    ensures Holds(env, ExpressionBuilders.Not(e, st).value.0) <==> !Holds(env, e)
  {
    TypedEvaluates(env, e.body);
    var v := Param(st.nextId, BoolType, Some("v"));
    var negation := UnaryExpr(st.nextId + 1, BoolType, NodeType.Not, None, ParamExpr(v));
    var st3 := st.(nextId := st.nextId + 3);
    SubstitutePreservesValue(v, e.body, env, negation, st3);
    var val := Eval(env, e.body).value;
    assert Eval(env[v.id := val], negation) == Some(BoolValue(!val.b));
    var body := Visit(OverrideReference(ParamExpr(v), e.body), negation, st3).value.0;
    assert ExpressionBuilders.Not(e, st).value.0.body == body;
  }

  /** `Optimize()` keeps the parameters, and the body keeps its value. */
  lemma OptimizeKeepsMeaning(invoke: (MethodId, Value, Value) -> Result<Value>, e: Expr, env: Env, st: VisitState)
    requires e.LambdaExpr? && Typed(env, e.body)
    ensures Optimize(invoke, e, st).Ok?
    ensures Optimize(invoke, e, st).value.0.params == e.params
    ensures Eval(env, Optimize(invoke, e, st).value.0.body) == Eval(env, e.body)
  {
    OptimizePreservesValue(OptimizeBooleanLogic(invoke), env, e.body, st);
  }

  // ---------------------------------------------------------------------------
  // Queries

  /** The node under all its conversions. */
  function StripConversions(e: Expr): (r: Expr)
    ensures !(r.UnaryExpr? && r.op == Convert)
  {
    if e.UnaryExpr? && e.op == Convert then StripConversions(e.operand) else e
  }

  /** The member a node names by itself. */
  function NamedMember(e: Expr): Maybe<MemberInfo> {
    if e.CallExpr? then Just(MethodInfo(e.callee))
    else if e.MemberExpr? then Just(FieldOrProperty(e.member))
    else Nothing
  }

  /** `GetMember` is the member named by the node under its conversions. */
  lemma {:induction false} GetMemberStripsConversions(e: Expr)
    ensures GetNodeMember(e) == NamedMember(StripConversions(e))
  {
    if e.UnaryExpr? && e.op == Convert {
      GetMemberStripsConversions(e.operand);
    }
  }

  lemma {:induction false} EverySeqAll(es: seq<Expr>, p: Expr -> bool)
    ensures EverySeq(es, p) <==> forall i :: 0 <= i < |es| ==> Every(es[i], p)
  {
    if |es| > 0 {
      EverySeqAll(es[1..], p);
      assert forall i :: 0 <= i < |es| - 1 ==> es[1..][i] == es[i + 1];
    }
  }

  /** The children `GetChildren` yields are exactly the operands a property
      of every node of the call must also hold at. */
  lemma ChildrenAreOperands(call: Expr, p: Expr -> bool)
    requires call.CallExpr?
    ensures GetChildren(Some(call)).Ok?
    ensures Every(call, p) <==> p(call) && forall i :: 0 <= i < |GetChildren(Some(call)).value| ==> Every(GetChildren(Some(call)).value[i], p)
  {
    var children := GetChildren(Some(call)).value;
    EverySeqAll(call.args, p);
    if call.target.Some? {
      assert children == [call.target.value] + call.args;
      assert children[0] == call.target.value;
      assert forall i :: 1 <= i < |children| ==> children[i] == call.args[i - 1];
      assert (forall i :: 0 <= i < |children| ==> Every(children[i], p)) <==>
             Every(call.target.value, p) && forall i :: 0 <= i < |call.args| ==> Every(call.args[i], p) by {
        if forall i :: 0 <= i < |call.args| ==> Every(call.args[i], p) {
          forall i | 1 <= i < |children| ensures Every(children[i], p) {
            assert children[i] == call.args[i - 1];
          }
        }
        if forall i :: 0 <= i < |children| ==> Every(children[i], p) {
          forall i | 0 <= i < |call.args| ensures Every(call.args[i], p) {
            assert children[i + 1] == call.args[i];
          }
        }
      }
    } else {
      assert children == call.args;
    }
  }
}
