/** Worked examples of `OverrideExpressionVisitor` on small concrete trees. */
module VisitorExamples {
  import opened Base
  import opened Types
  import opened Expressions
  import opened ExpressionVisitors

  /** The parameter `x`, and a second parameter object also named `x`. */
  const X: Expr := ParameterExpr(1, BoolType, Some("x"))
  const XCopy: Expr := ParameterExpr(2, BoolType, Some("x"))
  /** `!x`. */
  const NotX: Expr := UnaryExpr(3, BoolType, Not, None, X)
  /** `x && x'` over the two parameter objects. */
  const Both: Expr := BinaryExpr(4, BoolType, AndAlso, None, X, XCopy)

  /** Replacing `x` by `!x` in `x && x'`: only the object `x` is replaced,
      not its structurally equal copy, and the replacement, which holds `x`
      again, is not visited a second time. The changed node is rebuilt with
      the next identity. */
  lemma ReplacementIsNotRevisited()
    ensures Visit(OverrideReference(X, NotX), Both, VisitState(10, []))
         == Ok((BinaryExpr(10, BoolType, AndAlso, None, NotX, XCopy), VisitState(11, [])))
  {
  }

  /** Renaming a lambda's parameter object replaces it both in the parameter
      list and in the body. */
  lemma ParameterReplacedEverywhere()
    ensures Visit(OverrideReference(X, XCopy), LambdaExpr(5, BoolType, [Param(1, BoolType, Some("x"))], NotX), VisitState(10, []))
         == Ok((LambdaExpr(11, BoolType, [Param(2, BoolType, Some("x"))], UnaryExpr(10, BoolType, Not, None, XCopy)), VisitState(12, [])))
  {
    var v := OverrideReference(X, XCopy);
    assert Visit(v, X, VisitState(10, [])) == Ok((XCopy, VisitState(10, [])));
    assert Visit(v, NotX, VisitState(10, [])) == Ok((UnaryExpr(10, BoolType, Not, None, XCopy), VisitState(11, [])));
    assert VisitParam(v, Param(1, BoolType, Some("x"))) == Ok(Param(2, BoolType, Some("x")));
    assert [Param(1, BoolType, Some("x"))][1..] == [];
    assert VisitParams(v, []) == Ok([]);
    assert [Param(2, BoolType, Some("x"))] + [] == [Param(2, BoolType, Some("x"))];
    assert VisitParams(v, [Param(1, BoolType, Some("x"))]) == Ok([Param(2, BoolType, Some("x"))]);
  }

  /** Replacing a lambda's parameter by something that is not a parameter
      fails: the parameter list only holds parameters. */
  lemma ParameterMustStayParameter()
    ensures Visit(OverrideReference(X, NotX), LambdaExpr(5, BoolType, [Param(1, BoolType, Some("x"))], XCopy), VisitState(10, []))
         == Throw(MustKeepNodeType("VisitLambda"))
  {
    CopyIsKept();
    ParameterListRejects();
    assert !OverrideReference(X, NotX).isReplace(LambdaExpr(5, BoolType, [Param(1, BoolType, Some("x"))], XCopy));
  }

  /** The copy of `x` is not the object being replaced. */
  lemma CopyIsKept()
    ensures Visit(OverrideReference(X, NotX), XCopy, VisitState(10, [])) == Ok((XCopy, VisitState(10, [])))
  {
  }

  /** The parameter list refuses `!x` in place of `x`. */
  lemma ParameterListRejects()
    ensures VisitParams(OverrideReference(X, NotX), [Param(1, BoolType, Some("x"))]) == Throw(MustKeepNodeType("VisitLambda"))
  {
    assert VisitParam(OverrideReference(X, NotX), Param(1, BoolType, Some("x"))) == Throw(MustKeepNodeType("VisitLambda"));
  }
}
