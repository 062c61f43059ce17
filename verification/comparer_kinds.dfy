/** What each kind-specific comparer decides, stated for one pair of nodes
    of that kind; the consistency of every hash code with equality; and
    worked examples of the structural comparison. */
module ComparerKinds {
  import opened Base
  import opened Types
  import opened Expressions
  import opened ExpressionComparers
  import opened ComparerLaws

  // ---------------------------------------------------------------------------
  // One comparer per node kind

  /** Lambdas: same type, parameter lists of the same length whose parameters
      agree pairwise in type and name, then equal bodies; the bodies are not
      compared when the parameters already differ. */
  lemma LambdaComparerSpec(mode: Mode, x: Expr, y: Expr)
    requires x.LambdaExpr? && y.LambdaExpr?
    ensures Equals(mode, x, y) == And(
      Ok(x.ty == y.ty && |x.params| == |y.params| &&
         forall i :: 0 <= i < |x.params| ==> ParamEquals(x.params[i], y.params[i])),
      Equals(mode, x.body, y.body))
  {
    SequenceEqualSpec(x.params, y.params, ParamEquals);
  }

  /** Parameters: same type and same name; which lambda declared them, and
      whether they are the same object, plays no part. */
  lemma ParameterComparerSpec(mode: Mode, x: Expr, y: Expr)
    requires x.ParameterExpr? && y.ParameterExpr?
    ensures Equals(mode, x, y) == Ok(x.ty == y.ty && x.name == y.name)
  {
  }

  /** Method calls: same type and the identical method, then the targets
      (two static calls pass), then the arguments pairwise. */
  lemma MethodCallComparerSpec(mode: Mode, x: Expr, y: Expr)
    requires x.CallExpr? && y.CallExpr?
    ensures Equals(mode, x, y) == And(Ok(x.ty == y.ty && x.callee == y.callee),
      And(EqualsOpt(mode, x.target, y.target), SeqEquals(mode, x.args, y.args)))
  {
    ListsReflexive(mode, x.args, [], []);
  }

  /** Member accesses: same type and the identical member, then the targets
      (two static accesses pass). */
  lemma MemberComparerSpec(mode: Mode, x: Expr, y: Expr)
    requires x.MemberExpr? && y.MemberExpr?
    ensures Equals(mode, x, y) == And(Ok(x.ty == y.ty && x.member == y.member), EqualsOpt(mode, x.target, y.target))
  {
  }

  /** Binary nodes: same operator, type and operator method, then left with
      left and right with right. */
  lemma BinaryComparerSpec(mode: Mode, x: Expr, y: Expr)
    requires x.BinaryExpr? && y.BinaryExpr?
    ensures Equals(mode, x, y) == And(Ok(x.op == y.op && x.ty == y.ty && x.fn == y.fn),
      And(Equals(mode, x.left, y.left), Equals(mode, x.right, y.right)))
  {
  }

  /** Constants: `Default` compares type and value; `WithoutConst` throws
      for every pair of distinct constants of the same type and the same
      node class, and answers `false` when one is a plain
      `ConstantExpression` and the other a `TypedConstantExpression`. */
  lemma ConstantComparerSpec(mode: Mode, x: Expr, y: Expr)
    requires x.ConstantExpr? && y.ConstantExpr?
    ensures mode == Default ==> Equals(mode, x, y) == Ok(x.ty == y.ty && x.value == y.value)
    ensures mode == WithoutConst && x != y && x.ty == y.ty && ClassOf(x) == ClassOf(y) ==> Equals(mode, x, y) == Throw(ConstantNotAllowed)
    ensures ClassOf(x) != ClassOf(y) ==> Equals(mode, x, y) == Ok(false)
  {
  }

  /** Unary nodes: same operator, type and operator method, then operands. */
  lemma UnaryComparerSpec(mode: Mode, x: Expr, y: Expr)
    requires x.UnaryExpr? && y.UnaryExpr?
    ensures Equals(mode, x, y) == And(Ok(x.op == y.op && x.ty == y.ty && x.fn == y.fn), Equals(mode, x.operand, y.operand))
  {
  }

  /** Array creation: same node type and array type, then the element
      expressions pairwise. */
  lemma NewArrayComparerSpec(mode: Mode, x: Expr, y: Expr)
    requires x.NewArrayExpr? && y.NewArrayExpr?
    ensures Equals(mode, x, y) == And(Ok(x.op == y.op && x.ty == y.ty), SeqEquals(mode, x.elems, y.elems))
  {
    ListsReflexive(mode, x.elems, [], []);
  }

  /** Object creation: same type, arguments pairwise, and member lists both
      absent or both present and equal; the constructor is not compared. */
  lemma NewComparerSpec(mode: Mode, x: Expr, y: Expr)
    requires x.NewExpr? && y.NewExpr?
    ensures Equals(mode, x, y) == And(Ok(x.ty == y.ty), And(SeqEquals(mode, x.args, y.args),
      Ok((x.members.None? && y.members.None?) || (x.members.Some? && y.members.Some? && x.members.value == y.members.value))))
  {
    ListsReflexive(mode, x.args, [], []);
  }

  /** Member initialisation: same type, the `new` parts, then the bindings
      pairwise in order. */
  lemma MemberInitComparerSpec(mode: Mode, x: Expr, y: Expr)
    requires x.MemberInitExpr? && y.MemberInitExpr?
    ensures Equals(mode, x, y) == And(Ok(x.ty == y.ty),
      And(Equals(mode, x.newExpr, y.newExpr), BindingsEqual(mode, x.bindings, y.bindings)))
  {
    ListsReflexive(mode, [], [], x.bindings);
  }

  /** Conditionals: same type, then tests, true branches and false branches,
      left to right, stopping at the first difference. */
  lemma ConditionalComparerSpec(mode: Mode, x: Expr, y: Expr)
    requires x.ConditionalExpr? && y.ConditionalExpr?
    ensures Equals(mode, x, y) == And(Ok(x.ty == y.ty),
      And(Equals(mode, x.test, y.test), And(Equals(mode, x.ifTrue, y.ifTrue), Equals(mode, x.ifFalse, y.ifFalse))))
  {
  }

  /** List initialisation: same type, the `new` parts, then the initializers:
      the same collection object is equal outright, otherwise pairwise. */
  lemma ListInitComparerSpec(mode: Mode, x: Expr, y: Expr)
    requires x.ListInitExpr? && y.ListInitExpr?
    ensures Equals(mode, x, y) == And(Ok(x.ty == y.ty), And(Equals(mode, x.newExpr, y.newExpr),
      if x.inits == y.inits then Ok(true) else InitsEqual(mode, x.inits.items, y.inits.items)))
  {
  }

  /** Element initializers: the identical add method, then the arguments. */
  lemma ElementInitComparerSpec(mode: Mode, x: ElementInit, y: ElementInit)
    ensures ElementInitEquals(mode, x, y) == And(Ok(x.addFn == y.addFn), SeqEquals(mode, x.args, y.args))
  {
    ListsReflexive(mode, x.args, [], []);
  }

  /** Member bindings: the same binding type and member, then the assigned
      expressions, the initializer lists, or the nested bindings. */
  lemma MemberBindingComparerSpec(mode: Mode, x: Binding, y: Binding)
    ensures x.Assignment? && y.Assignment? ==>
      BindingEquals(mode, x, y) == And(Ok(x.member == y.member), Equals(mode, x.expr, y.expr))
    ensures x.ListBinding? && y.ListBinding? ==>
      BindingEquals(mode, x, y) == And(Ok(x.member == y.member), InitsEqual(mode, x.inits, y.inits))
    ensures x.MemberMemberBinding? && y.MemberMemberBinding? ==>
      BindingEquals(mode, x, y) == And(Ok(x.member == y.member), BindingsEqual(mode, x.bindings, y.bindings))
    ensures BindingTypeCode(x) != BindingTypeCode(y) ==> BindingEquals(mode, x, y) == Ok(false)
  {
    if x == y {
      match x
      case Assignment(_, _, _) =>
      case ListBinding(_, _, inits) => ListsReflexive(mode, [], inits, []);
      case MemberMemberBinding(_, _, bs) => ListsReflexive(mode, [], [], bs);
    }
  }

  // ---------------------------------------------------------------------------
  // Hash codes agree on equal operands

  /** The base hash (type xor node type) agrees on every pair the comparer
      finds equal. */
  lemma HashConsistent(mode: Mode, h: Hashers, x: Expr, y: Expr)
    ensures Equals(mode, x, y) == Ok(true) ==> GetHashCode(h, x) == GetHashCode(h, y)
  {
  }

  lemma LambdaHashConsistent(mode: Mode, h: Hashers, x: Expr, y: Expr)
    requires x.LambdaExpr? && y.LambdaExpr?
    ensures Equals(mode, x, y) == Ok(true) ==> LambdaHash(h, x) == LambdaHash(h, y)
  {
    if Equals(mode, x, y) == Ok(true) {
      LambdaComparerSpec(mode, x, y);
      assert x.ty == y.ty && |x.params| == |y.params|;
    }
  }

  lemma CallHashConsistent(mode: Mode, h: Hashers, x: Expr, y: Expr)
    requires x.CallExpr? && y.CallExpr?
    ensures Equals(mode, x, y) == Ok(true) ==> CallHash(h, x) == CallHash(h, y)
  {
    if Equals(mode, x, y) == Ok(true) {
      MethodCallComparerSpec(mode, x, y);
      assert x.ty == y.ty;
      var rest := And(EqualsOpt(mode, x.target, y.target), SeqEquals(mode, x.args, y.args));
      assert rest == Ok(true);
      assert SeqEquals(mode, x.args, y.args) == Ok(true);
      SeqEqualsTrue(mode, x.args, y.args);
    }
  }

  lemma MemberHashConsistent(mode: Mode, h: Hashers, x: Expr, y: Expr)
    requires x.MemberExpr? && y.MemberExpr?
    ensures Equals(mode, x, y) == Ok(true) ==> MemberHash(h, x) == MemberHash(h, y)
  {
    MemberComparerSpec(mode, x, y);
  }

  lemma ElementInitHashConsistent(mode: Mode, h: Hashers, x: ElementInit, y: ElementInit)
    ensures ElementInitEquals(mode, x, y) == Ok(true) ==> ElementInitHash(h, x) == ElementInitHash(h, y)
  {
  }

  lemma BindingHashConsistent(mode: Mode, h: Hashers, x: Binding, y: Binding)
    ensures BindingEquals(mode, x, y) == Ok(true) ==> BindingHash(h, x) == BindingHash(h, y)
  {
  }
}
