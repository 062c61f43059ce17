/** A worked example of `Not` on a small concrete predicate. */
module BuilderExamples {
  import opened Base
  import opened Types
  import opened Expressions
  import opened ExpressionComparers
  import opened ExpressionVisitors
  import opened ExpressionBuilders

  /** `v => v == 123` over the parameter object `v`, built with the given
      identities. */
  function IsOneTwoThree(ids: (Id, Id, Id, Id)): Expr {
    var v := Param(ids.0, IntType, Some("v"));
    LambdaExpr(ids.1, FuncType(IntType, BoolType), [v],
      BinaryExpr(ids.2, BoolType, Equal, None, ParamExpr(v), ConstantExpr(ids.3, IntType, IntValue(123))))
  }

  /** `v => !(v == 123)`, written out. */
  function IsNotOneTwoThree(ids: (Id, Id, Id, Id, Id)): Expr {
    var v := Param(ids.0, IntType, Some("v"));
    LambdaExpr(ids.1, FuncType(IntType, BoolType), [v],
      UnaryExpr(ids.2, BoolType, NodeType.Not, None,
        BinaryExpr(ids.3, BoolType, Equal, None, ParamExpr(v), ConstantExpr(ids.4, IntType, IntValue(123)))))
  }

  /** The lambda `Not` builds from `v => v == 123`. */
  function NegatedResult(): Expr {
    LambdaExpr(24, FuncType(IntType, BoolType), IsOneTwoThree((1, 2, 3, 4)).params,
      UnaryExpr(23, BoolType, NodeType.Not, None, IsOneTwoThree((1, 2, 3, 4)).body))
  }

  /** `(v => v == 123).Not()` is a new lambda over the same parameter object,
      whose body is a new negation of the original body object. */
  lemma NotKeepsParameterAndBody()
    ensures ExpressionBuilders.Not(IsOneTwoThree((1, 2, 3, 4)), VisitState(20, [])) == Ok((NegatedResult(), VisitState(25, [])))
  {
    var e := IsOneTwoThree((1, 2, 3, 4));
    var v := Param(20, BoolType, Some("v"));
    var negation := UnaryExpr(21, BoolType, NodeType.Not, None, ParamExpr(v));
    var o := OverrideReference(ParamExpr(v), e.body);
    assert Visit(o, ParamExpr(v), VisitState(23, [])) == Ok((e.body, VisitState(23, [])));
    assert Visit(o, negation, VisitState(23, [])) == Ok((UnaryExpr(23, BoolType, NodeType.Not, None, e.body), VisitState(24, [])));
  }

  /** ... and it compares equal to the separately written
      `v => !(v == 123)`. */
  lemma NotMatchesWrittenNegation()
    ensures Equals(Default, NegatedResult(), IsNotOneTwoThree((11, 12, 13, 14, 15))) == Ok(true)
  {
    assert NegatedResult() == IsNotOneTwoThree((1, 24, 23, 3, 4));
    WrittenNegationErased((1, 24, 23, 3, 4));
    WrittenNegationErased((11, 12, 13, 14, 15));
    EqualsErased(NegatedResult(), IsNotOneTwoThree((11, 12, 13, 14, 15)));
  }

  /** The written negation, with any identities, erases to itself with
      identities zero. */
  lemma WrittenNegationErased(ids: (Id, Id, Id, Id, Id))
    ensures Every(IsNotOneTwoThree(ids), IsNotOther)
    ensures Erase(IsNotOneTwoThree(ids)) == IsNotOneTwoThree((0, 0, 0, 0, 0))
  {
    var v := Param(ids.0, IntType, Some("v"));
    assert EraseParams([v]) == [Param(0, IntType, Some("v"))];
    assert Erase(IsNotOneTwoThree(ids).body.operand) == IsNotOneTwoThree((0, 0, 0, 0, 0)).body.operand;
    var eq := IsNotOneTwoThree(ids).body.operand;
    assert Every(eq.left, IsNotOther) && Every(eq.right, IsNotOther);
    assert Every(eq, IsNotOther);
  }
}
