/** Worked examples of the structural comparison on small concrete trees. */
module ComparerExamples {
  import opened Base
  import opened Types
  import opened Expressions
  import opened ExpressionComparers
  import ComparerKinds
  import ComparerLaws

  /** `Func<int, int>`. */
  const FuncIntInt: Ty := Constructed("System.Func`2", [IntType, IntType])

  /** `Func<int, int, bool>`. */
  const FuncIntIntBool: Ty := Constructed("System.Func`3", [IntType, IntType, BoolType])

  /** `name => name + 1` built from the object identities given. */
  function IncrementLambda(ids: (Id, Id, Id, Id), name: string): LambdaExpression {
    var p := Param(ids.0, IntType, Some(name));
    LambdaExpr(ids.1, FuncIntInt, [p],
      BinaryExpr(ids.2, IntType, Add, None, ParamExpr(p), ConstantExpr(ids.3, IntType, IntValue(1))))
  }

  /** Two separately built `x => x + 1` lambdas are different objects that
      compare equal. */
  lemma SeparatelyBuiltLambdasAreEqual()
    ensures IncrementLambda((1, 2, 3, 4), "x") != IncrementLambda((11, 12, 13, 14), "x")
    ensures Equals(Default, IncrementLambda((1, 2, 3, 4), "x"), IncrementLambda((11, 12, 13, 14), "x")) == Ok(true)
  {
    IncrementErased((1, 2, 3, 4), "x");
    IncrementErased((11, 12, 13, 14), "x");
    EqualsErased(IncrementLambda((1, 2, 3, 4), "x"), IncrementLambda((11, 12, 13, 14), "x"));
  }

  /** Erasing identities leaves the same tree whatever identities were
      given. */
  lemma IncrementErased(ids: (Id, Id, Id, Id), name: string)
    ensures Every(IncrementLambda(ids, name), IsNotOther)
    ensures Erase(IncrementLambda(ids, name)) == IncrementLambda((0, 0, 0, 0), name)
  {
    var p := Param(ids.0, IntType, Some(name));
    assert EraseParams([p]) == [Param(0, IntType, Some(name))];
    var body := BinaryExpr(ids.2, IntType, Add, None, ParamExpr(p), ConstantExpr(ids.3, IntType, IntValue(1)));
    assert Erase(body) == IncrementLambda((0, 0, 0, 0), name).body;
  }

  /** `x => x + 1` and `y => y + 1` are unequal: parameters compare by name. */
  lemma AlphaRenamedLambdasDiffer()
    ensures Equals(Default, IncrementLambda((1, 2, 3, 4), "x"), IncrementLambda((11, 12, 13, 14), "y")) == Ok(false)
  {
  }

  /** `(a, b) => op(first, second)` over two `int` parameters. */
  function BinaryLambda(op: NodeType, resultTy: Ty, a: Param, b: Param, first: Param, second: Param, ids: (Id, Id)): Expr {
    LambdaExpr(ids.0, Constructed("System.Func`3", [IntType, IntType, resultTy]), [a, b],
      BinaryExpr(ids.1, resultTy, op, None, ParamExpr(first), ParamExpr(second)))
  }

  const PA: Param := Param(1, IntType, Some("a"))
  const PB: Param := Param(2, IntType, Some("b"))
  const P1: Param := Param(1, IntType, None)
  const P2: Param := Param(2, IntType, None)

  /** `(a, b) => a + b` and `(a, b) => b + a` are unequal: operands are
      compared position by position. */
  lemma OperandOrderMatters()
    ensures Equals(Default, BinaryLambda(Add, IntType, PA, PB, PA, PB, (3, 4)), BinaryLambda(Add, IntType, PA, PB, PB, PA, (5, 6))) == Ok(false)
  {
    var x := BinaryLambda(Add, IntType, PA, PB, PA, PB, (3, 4));
    var y := BinaryLambda(Add, IntType, PA, PB, PB, PA, (5, 6));
    ComparerKinds.ParameterComparerSpec(Default, ParamExpr(PA), ParamExpr(PB));
    ComparerKinds.BinaryComparerSpec(Default, x.body, y.body);
    ComparerKinds.LambdaComparerSpec(Default, x, y);
  }

  /** With unnamed parameters, `(p1, p2) => p1 == p2` equals
      `(p1, p2) => p2 == p1`: which parameter a use refers to is not tracked. */
  lemma UnnamedParametersAreNotTracked()
    ensures Equals(Default, BinaryLambda(Equal, BoolType, P1, P2, P1, P2, (3, 4)), BinaryLambda(Equal, BoolType, P1, P2, P2, P1, (5, 6))) == Ok(true)
  {
    var x := BinaryLambda(Equal, BoolType, P1, P2, P1, P2, (3, 4));
    var y := BinaryLambda(Equal, BoolType, P1, P2, P2, P1, (5, 6));
    ComparerKinds.ParameterComparerSpec(Default, ParamExpr(P1), ParamExpr(P2));
    ComparerKinds.ParameterComparerSpec(Default, ParamExpr(P2), ParamExpr(P1));
    ComparerKinds.BinaryComparerSpec(Default, x.body, y.body);
    ComparerKinds.LambdaComparerSpec(Default, x, y);
  }

  /** `(a, b) => a + b` and `(a, b) => a - b` differ by node type alone. */
  lemma DifferentOperatorsDiffer()
    ensures Equals(Default, BinaryLambda(Add, IntType, PA, PB, PA, PB, (3, 4)), BinaryLambda(Subtract, IntType, PA, PB, PA, PB, (3, 4))) == Ok(false)
  {
    var x := BinaryLambda(Add, IntType, PA, PB, PA, PB, (3, 4));
    var y := BinaryLambda(Subtract, IntType, PA, PB, PA, PB, (3, 4));
    assert Equals(Default, x.body, y.body) == Ok(false);
  }

  /** `c ? t : f` with the branches given. */
  function Choice(id: Id, test: Expr, ifTrue: Expr, ifFalse: Expr): Expr {
    ConditionalExpr(id, ifTrue.ty, test, ifTrue, ifFalse)
  }

  const C: Expr := ParameterExpr(1, BoolType, Some("c"))
  const T: Expr := ParameterExpr(2, IntType, Some("t"))
  const F: Expr := ParameterExpr(3, IntType, Some("f"))

  /** Swapping the branches of a conditional gives an unequal conditional. */
  lemma SwappedBranchesDiffer()
    ensures Equals(Default, Choice(4, C, T, F), Choice(5, C, F, T)) == Ok(false)
  {
  }

  /** Once the tests differ the branches are not compared: branches the
      dispatch does not implement raise nothing. */
  lemma ConditionalShortCircuits()
    ensures
      var other := OtherExpr(6, IntType, OtherNodeType(99), [], "BlockExpression");
      var other2 := OtherExpr(7, IntType, OtherNodeType(99), [], "BlockExpression");
      Equals(Default, Choice(4, C, other, other), Choice(5, ParameterExpr(8, BoolType, Some("d")), other2, other2)) == Ok(false) &&
      Equals(Default, Choice(4, C, other, other), Choice(5, C, other2, other2)) == Throw(NotImplementedComparison(other, other2))
  {
    var other := OtherExpr(6, IntType, OtherNodeType(99), [], "BlockExpression");
    var other2 := OtherExpr(7, IntType, OtherNodeType(99), [], "BlockExpression");
    var d := ParameterExpr(8, BoolType, Some("d"));
    assert ClassOf(other) == ClassOf(other2) && ClassOf(C) == ClassOf(d) == KnownClass(1);
    ComparerKinds.ConditionalComparerSpec(Default, Choice(4, C, other, other), Choice(5, d, other2, other2));
    assert Equals(Default, C, d) == Ok(false);
    ComparerKinds.ConditionalComparerSpec(Default, Choice(4, C, other, other), Choice(5, C, other2, other2));
    ComparerLaws.BaseChecks(Default, C, C);
    ComparerLaws.UnknownKindThrows(Default, other, other2);
  }

  /** `new P { A = a, B = b }` with the bindings in the order given. */
  function Init(id: Id, first: Binding, second: Binding): Expr {
    MemberInitExpr(id, Simple("P"), NewExpr(id + 1, Simple("P"), 0, [], None), [first, second])
  }

  /** Reordering the bindings of a member initialisation makes it unequal. */
  lemma ReorderedBindingsDiffer()
    ensures
      var a := Assignment(1, 10, T);
      var b := Assignment(2, 20, F);
      Equals(Default, Init(3, a, b), Init(5, b, a)) == Ok(false)
  {
    SwappedBindingsDiffer(3, 5, Assignment(1, 10, T), Assignment(2, 20, F));
  }

  /** Any two bindings of different members, swapped, with any identities. */
  lemma SwappedBindingsDiffer(id1: Id, id2: Id, a: Binding, b: Binding)
    requires a.member != b.member
    ensures Equals(Default, Init(id1, a, b), Init(id2, b, a)) == Ok(false)
  {
    var x, y := Init(id1, a, b), Init(id2, b, a);
    ComparerKinds.MemberInitComparerSpec(Default, x, y);
    ComparerKinds.NewComparerSpec(Default, x.newExpr, y.newExpr);
    assert SeqEquals(Default, [], []) == Ok(true);
    assert BindingEquals(Default, a, b) == Ok(false);
    assert BindingsEqual(Default, [a, b], [b, a]) == Ok(false);
  }

  /** `new P()` with a member list differs from one without. */
  lemma MemberListPresenceMatters()
    ensures Equals(Default, NewExpr(1, Simple("P"), 0, [], None), NewExpr(2, Simple("P"), 0, [], Some([]))) == Ok(false)
  {
  }

  /** Two null constants of the same type are equal; the same value under
      two static types is not. */
  lemma ConstantsCompareValueAndType()
    ensures Equals(Default, ConstantExpr(1, StringType, NullValue), ConstantExpr(2, StringType, NullValue)) == Ok(true)
    ensures Equals(Default, ConstantExpr(1, ObjectType, NullValue), ConstantExpr(2, StringType, NullValue)) == Ok(false)
    ensures Equals(WithoutConst, ConstantExpr(1, StringType, NullValue), ConstantExpr(2, StringType, NullValue)) == Throw(ConstantNotAllowed)
    ensures Equals(WithoutConst, ConstantExpr(1, StringType, NullValue), ConstantExpr(2, StringType, StringValue("a"))) == Ok(false)
  {
  }
}
