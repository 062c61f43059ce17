/** Laws of the structural expression comparer: symmetry, the relation
    between the `Default` and `WithoutConst` comparers, the behaviour of
    each kind-specific comparer, and consistency of the hash codes. */
module ComparerLaws {
  import opened Base
  import opened Types
  import opened Expressions
  import opened ExpressionComparers

  // ---------------------------------------------------------------------------
  // Sequences of sub-expressions

  /** A list comparison succeeds exactly when the counts agree and every pair
      at the same position compares equal. */
  lemma {:induction false} SeqEqualsTrue(mode: Mode, xs: seq<Expr>, ys: seq<Expr>)
    ensures SeqEquals(mode, xs, ys) == Ok(true) <==>
      |xs| == |ys| && forall i :: 0 <= i < |xs| ==> Equals(mode, xs[i], ys[i]) == Ok(true)
  {
    if |xs| == |ys| {
      PairwiseEqualsTrue(mode, xs, ys);
    }
  }

  lemma {:induction false} PairwiseEqualsTrue(mode: Mode, xs: seq<Expr>, ys: seq<Expr>)
    requires |xs| == |ys|
    ensures PairwiseEquals(mode, xs, ys) == Ok(true) <==> forall i :: 0 <= i < |xs| ==> Equals(mode, xs[i], ys[i]) == Ok(true)
    decreases |xs|
  {
    if |xs| > 0 {
      PairwiseEqualsTrue(mode, xs[1..], ys[1..]);
      assert forall i :: 1 <= i < |xs| ==> xs[i] == xs[1..][i - 1] && ys[i] == ys[1..][i - 1];
    }
  }

  lemma {:induction false} InitsEqualTrue(mode: Mode, xs: seq<ElementInit>, ys: seq<ElementInit>)
    ensures InitsEqual(mode, xs, ys) == Ok(true) <==>
      |xs| == |ys| && forall i :: 0 <= i < |xs| ==> ElementInitEquals(mode, xs[i], ys[i]) == Ok(true)
  {
    if |xs| == |ys| {
      PairwiseInitsEqualTrue(mode, xs, ys);
    }
  }

  lemma {:induction false} PairwiseInitsEqualTrue(mode: Mode, xs: seq<ElementInit>, ys: seq<ElementInit>)
    requires |xs| == |ys|
    ensures PairwiseInitsEqual(mode, xs, ys) == Ok(true) <==>
      forall i :: 0 <= i < |xs| ==> ElementInitEquals(mode, xs[i], ys[i]) == Ok(true)
    decreases |xs|
  {
    if |xs| > 0 {
      PairwiseInitsEqualTrue(mode, xs[1..], ys[1..]);
      assert forall i :: 1 <= i < |xs| ==> xs[i] == xs[1..][i - 1] && ys[i] == ys[1..][i - 1];
    }
  }

  lemma {:induction false} BindingsEqualTrue(mode: Mode, xs: seq<Binding>, ys: seq<Binding>)
    ensures BindingsEqual(mode, xs, ys) == Ok(true) <==>
      |xs| == |ys| && forall i :: 0 <= i < |xs| ==> BindingEquals(mode, xs[i], ys[i]) == Ok(true)
  {
    if |xs| == |ys| {
      PairwiseBindingsEqualTrue(mode, xs, ys);
    }
  }

  lemma {:induction false} PairwiseBindingsEqualTrue(mode: Mode, xs: seq<Binding>, ys: seq<Binding>)
    requires |xs| == |ys|
    ensures PairwiseBindingsEqual(mode, xs, ys) == Ok(true) <==>
      forall i :: 0 <= i < |xs| ==> BindingEquals(mode, xs[i], ys[i]) == Ok(true)
    decreases |xs|
  {
    if |xs| > 0 {
      PairwiseBindingsEqualTrue(mode, xs[1..], ys[1..]);
      assert forall i :: 1 <= i < |xs| ==> xs[i] == xs[1..][i - 1] && ys[i] == ys[1..][i - 1];
    }
  }

  /** Every list of sub-expressions, initializers or bindings compares equal
      to itself, because each element is the same reference as itself. */
  lemma ListsReflexive(mode: Mode, es: seq<Expr>, inits: seq<ElementInit>, bs: seq<Binding>)
    ensures SeqEquals(mode, es, es) == Ok(true)
    ensures InitsEqual(mode, inits, inits) == Ok(true)
    ensures BindingsEqual(mode, bs, bs) == Ok(true)
  {
    SeqEqualsTrue(mode, es, es);
    InitsEqualTrue(mode, inits, inits);
    BindingsEqualTrue(mode, bs, bs);
  }

  // ---------------------------------------------------------------------------
  // The base comparer

  /** The same reference compares equal; nodes that differ in node type,
      static type or node class never do. */
  lemma BaseChecks(mode: Mode, x: Expr, y: Expr)
    ensures Equals(mode, x, x) == Ok(true)
    ensures NodeTypeOf(x) != NodeTypeOf(y) || x.ty != y.ty || ClassOf(x) != ClassOf(y) ==> Equals(mode, x, y) == Ok(false)
  {
    SameReferenceEqual(mode, x);
    if !SameShape(x, y) {
      DifferentShapeUnequal(mode, x, y);
    }
  }

  lemma SameReferenceEqual(mode: Mode, x: Expr)
    ensures Equals(mode, x, x) == Ok(true)
  {
  }

  lemma DifferentShapeUnequal(mode: Mode, x: Expr, y: Expr)
    requires !SameShape(x, y)
    ensures Equals(mode, x, y) == Ok(false)
  {
  }

  /** Two distinct nodes of a kind the dispatch does not know raise
      `NotImplementedException` once they pass the base check. */
  lemma UnknownKindThrows(mode: Mode, x: Expr, y: Expr)
    requires x.OtherExpr? && y.OtherExpr? && x != y
    requires x.op == y.op && x.ty == y.ty && x.className == y.className
    ensures Equals(mode, x, y) == Throw(NotImplementedComparison(x, y))
  {
  }

  // ---------------------------------------------------------------------------
  // Symmetry

  lemma ParamsEqualSymmetric(ps: seq<Param>, qs: seq<Param>)
    ensures ParamsEqual(ps, qs) == ParamsEqual(qs, ps)
  {
    SequenceEqualSpec(ps, qs, ParamEquals);
    SequenceEqualSpec(qs, ps, ParamEquals);
  }

  /** Swapping the operands never changes the outcome, exceptions included:
      every check compares the two sides in the same way. */
  lemma {:induction false} EqualsSymmetric(mode: Mode, x: Expr, y: Expr)
    ensures Equals(mode, x, y) == Equals(mode, y, x)
    decreases x, 3
  {
    if x != y && SameShape(x, y) {
      PureEqualsSymmetric(mode, x, y);
    }
  }

  lemma {:induction false} PureEqualsSymmetric(mode: Mode, x: Expr, y: Expr)
    requires SameShape(x, y)
    ensures PureEquals(mode, x, y) == PureEquals(mode, y, x)
    decreases x, 2
  {
    if x.BinaryExpr? || x.MemberInitExpr? || x.ConditionalExpr? || x.ListInitExpr? {
      BranchingSymmetric(mode, x, y);
    } else {
      LeafwardSymmetric(mode, x, y);
    }
  }

  /** Symmetry for the kinds with at most one child or one list of them. */
  lemma {:induction false} LeafwardSymmetric(mode: Mode, x: Expr, y: Expr)
    requires SameShape(x, y)
    requires !(x.BinaryExpr? || x.MemberInitExpr? || x.ConditionalExpr? || x.ListInitExpr?)
    ensures PureEquals(mode, x, y) == PureEquals(mode, y, x)
    decreases x, 1
  {
    if x.LambdaExpr? || x.ParameterExpr? || x.CallExpr? || x.MemberExpr? {
      ReferringSymmetric(mode, x, y);
    } else if x.ConstantExpr? {
      ConstantSymmetric(mode, x, y);
    } else {
      OperandSymmetric(mode, x, y);
    }
  }

  /** Symmetry for lambdas, parameters, calls and member accesses. */
  lemma {:induction false} ReferringSymmetric(mode: Mode, x: Expr, y: Expr)
    requires SameShape(x, y)
    requires x.LambdaExpr? || x.ParameterExpr? || x.CallExpr? || x.MemberExpr?
    ensures PureEquals(mode, x, y) == PureEquals(mode, y, x)
    decreases x, 0
  {
    match x
    case LambdaExpr(_, _, ps, body) =>
      ParamsEqualSymmetric(ps, y.params);
      EqualsSymmetric(mode, body, y.body);
    case ParameterExpr(_, _, _) =>
    case CallExpr(_, _, _, target, args) =>
      OptSymmetric(mode, target, y.target);
      SeqSymmetric(mode, args, y.args);
    case MemberExpr(_, _, _, target) =>
      OptSymmetric(mode, target, y.target);
  }

  /** Symmetry for constants: both orders compare the same type and value,
      or both throw. */
  lemma ConstantSymmetric(mode: Mode, x: Expr, y: Expr)
    requires SameShape(x, y) && x.ConstantExpr?
    ensures PureEquals(mode, x, y) == PureEquals(mode, y, x)
  {
  }

  /** Symmetry for unary nodes, arrays, `new` and unknown kinds. */
  lemma {:induction false} OperandSymmetric(mode: Mode, x: Expr, y: Expr)
    requires SameShape(x, y)
    requires x.UnaryExpr? || x.NewArrayExpr? || x.NewExpr? || x.OtherExpr?
    ensures PureEquals(mode, x, y) == PureEquals(mode, y, x)
    decreases x, 0
  {
    match x
    case UnaryExpr(_, _, _, _, operand) =>
      EqualsSymmetric(mode, operand, y.operand);
    case NewArrayExpr(_, _, _, elems) =>
      SeqSymmetric(mode, elems, y.elems);
    case NewExpr(_, _, _, args, _) =>
      SeqSymmetric(mode, args, y.args);
    case OtherExpr(_, _, _, _, _) =>
      assert ClassName(x) == ClassName(y);
  }

  /** Symmetry for the kinds with two or three parts. */
  lemma {:induction false} BranchingSymmetric(mode: Mode, x: Expr, y: Expr)
    requires SameShape(x, y)
    requires x.BinaryExpr? || x.MemberInitExpr? || x.ConditionalExpr? || x.ListInitExpr?
    ensures PureEquals(mode, x, y) == PureEquals(mode, y, x)
    decreases x, 1
  {
    match x
    case BinaryExpr(_, _, _, _, left, right) =>
      EqualsSymmetric(mode, left, y.left);
      EqualsSymmetric(mode, right, y.right);
    case MemberInitExpr(_, _, newExpr, bindings) =>
      EqualsSymmetric(mode, newExpr, y.newExpr);
      BindingsSymmetric(mode, bindings, y.bindings);
    case ConditionalExpr(_, _, test, ifTrue, ifFalse) =>
      EqualsSymmetric(mode, test, y.test);
      EqualsSymmetric(mode, ifTrue, y.ifTrue);
      EqualsSymmetric(mode, ifFalse, y.ifFalse);
    case ListInitExpr(_, _, newExpr, inits) =>
      EqualsSymmetric(mode, newExpr, y.newExpr);
      InitsSymmetric(mode, inits.items, y.inits.items);
  }

  lemma {:induction false} OptSymmetric(mode: Mode, x: Option<Expr>, y: Option<Expr>)
    ensures EqualsOpt(mode, x, y) == EqualsOpt(mode, y, x)
    decreases x, 0
  {
    if x.Some? && y.Some? {
      EqualsSymmetric(mode, x.value, y.value);
    }
  }

  lemma {:induction false} SeqSymmetric(mode: Mode, xs: seq<Expr>, ys: seq<Expr>)
    ensures SeqEquals(mode, xs, ys) == SeqEquals(mode, ys, xs)
    decreases xs, 1
  {
    if |xs| == |ys| {
      PairwiseSymmetric(mode, xs, ys);
    }
  }

  lemma {:induction false} PairwiseSymmetric(mode: Mode, xs: seq<Expr>, ys: seq<Expr>)
    requires |xs| == |ys|
    ensures PairwiseEquals(mode, xs, ys) == PairwiseEquals(mode, ys, xs)
    decreases xs, 0
  {
    if |xs| > 0 {
      EqualsSymmetric(mode, xs[0], ys[0]);
      PairwiseSymmetric(mode, xs[1..], ys[1..]);
    }
  }

  lemma {:induction false} InitSymmetric(mode: Mode, x: ElementInit, y: ElementInit)
    ensures ElementInitEquals(mode, x, y) == ElementInitEquals(mode, y, x)
    decreases x, 0
  {
    SeqSymmetric(mode, x.args, y.args);
  }

  lemma {:induction false} InitsSymmetric(mode: Mode, xs: seq<ElementInit>, ys: seq<ElementInit>)
    ensures InitsEqual(mode, xs, ys) == InitsEqual(mode, ys, xs)
    decreases xs, 2
  {
    if |xs| == |ys| {
      PairwiseInitsSymmetric(mode, xs, ys);
    }
  }

  lemma {:induction false} PairwiseInitsSymmetric(mode: Mode, xs: seq<ElementInit>, ys: seq<ElementInit>)
    requires |xs| == |ys|
    ensures PairwiseInitsEqual(mode, xs, ys) == PairwiseInitsEqual(mode, ys, xs)
    decreases xs, 1
  {
    if |xs| > 0 {
      InitSymmetric(mode, xs[0], ys[0]);
      PairwiseInitsSymmetric(mode, xs[1..], ys[1..]);
    }
  }

  lemma {:induction false} BindingSymmetric(mode: Mode, x: Binding, y: Binding)
    ensures BindingEquals(mode, x, y) == BindingEquals(mode, y, x)
    decreases x, 0
  {
    if x != y && BindingTypeCode(x) == BindingTypeCode(y) && x.member == y.member {
      match x
      case Assignment(_, _, expr) => EqualsSymmetric(mode, expr, y.expr);
      case ListBinding(_, _, inits) => InitsSymmetric(mode, inits, y.inits);
      case MemberMemberBinding(_, _, bs) => BindingsSymmetric(mode, bs, y.bindings);
    }
  }

  lemma {:induction false} BindingsSymmetric(mode: Mode, xs: seq<Binding>, ys: seq<Binding>)
    ensures BindingsEqual(mode, xs, ys) == BindingsEqual(mode, ys, xs)
    decreases xs, 2
  {
    if |xs| == |ys| {
      PairwiseBindingsSymmetric(mode, xs, ys);
    }
  }

  lemma {:induction false} PairwiseBindingsSymmetric(mode: Mode, xs: seq<Binding>, ys: seq<Binding>)
    requires |xs| == |ys|
    ensures PairwiseBindingsEqual(mode, xs, ys) == PairwiseBindingsEqual(mode, ys, xs)
    decreases xs, 1
  {
    if |xs| > 0 {
      BindingSymmetric(mode, xs[0], ys[0]);
      PairwiseBindingsSymmetric(mode, xs[1..], ys[1..]);
    }
  }

  // ---------------------------------------------------------------------------
  // `WithoutConst` against `Default`

  /** `WithoutConst` differs from `Default` only by throwing where `Default`
      would compare two constants: whenever it returns a verdict, `Default`
      returns the same one, and on a left operand without constants the two
      comparers behave identically. */
  lemma {:induction false} WithoutConstAgrees(x: Expr, y: Expr)
    ensures Equals(WithoutConst, x, y).Ok? || Every(x, IsNotConstant) ==>
      Equals(WithoutConst, x, y) == Equals(Default, x, y)
    decreases x, 2
  {
    if x != y && SameShape(x, y) {
      PureWithoutConstAgrees(x, y);
    }
  }

  lemma {:induction false} PureWithoutConstAgrees(x: Expr, y: Expr)
    requires SameShape(x, y)
    ensures PureEquals(WithoutConst, x, y).Ok? || Every(x, IsNotConstant) ==>
      PureEquals(WithoutConst, x, y) == PureEquals(Default, x, y)
    decreases x, 1
  {
    if x.BinaryExpr? || x.MemberInitExpr? || x.ConditionalExpr? || x.ListInitExpr? {
      BranchingWithoutConstAgrees(x, y);
    } else {
      LeafwardWithoutConstAgrees(x, y);
    }
  }

  /** Agreement for the kinds with at most one child or one list of them. */
  lemma {:induction false} LeafwardWithoutConstAgrees(x: Expr, y: Expr)
    requires SameShape(x, y)
    requires !(x.BinaryExpr? || x.MemberInitExpr? || x.ConditionalExpr? || x.ListInitExpr?)
    ensures PureEquals(WithoutConst, x, y).Ok? || Every(x, IsNotConstant) ==>
      PureEquals(WithoutConst, x, y) == PureEquals(Default, x, y)
    decreases x, 0
  {
    match x
    case LambdaExpr(_, _, _, body) =>
      WithoutConstAgrees(body, y.body);
    case ParameterExpr(_, _, _) =>
    case CallExpr(_, _, _, target, args) =>
      OptWithoutConstAgrees(target, y.target);
      SeqWithoutConstAgrees(args, y.args);
    case MemberExpr(_, _, _, target) =>
      OptWithoutConstAgrees(target, y.target);
    case ConstantExpr(_, _, _) =>
    case UnaryExpr(_, _, _, _, operand) =>
      WithoutConstAgrees(operand, y.operand);
    case NewArrayExpr(_, _, _, elems) =>
      SeqWithoutConstAgrees(elems, y.elems);
    case NewExpr(_, _, _, args, _) =>
      SeqWithoutConstAgrees(args, y.args);
    case OtherExpr(_, _, _, _, _) =>
  }

  /** Agreement for the kinds with two or three parts. */
  lemma {:induction false} BranchingWithoutConstAgrees(x: Expr, y: Expr)
    requires SameShape(x, y)
    requires x.BinaryExpr? || x.MemberInitExpr? || x.ConditionalExpr? || x.ListInitExpr?
    ensures PureEquals(WithoutConst, x, y).Ok? || Every(x, IsNotConstant) ==>
      PureEquals(WithoutConst, x, y) == PureEquals(Default, x, y)
    decreases x, 0
  {
    match x
    case BinaryExpr(_, _, _, _, left, right) =>
      WithoutConstAgrees(left, y.left);
      WithoutConstAgrees(right, y.right);
    case MemberInitExpr(_, _, newExpr, bindings) =>
      WithoutConstAgrees(newExpr, y.newExpr);
      BindingsWithoutConstAgree(bindings, y.bindings);
    case ConditionalExpr(_, _, test, ifTrue, ifFalse) =>
      WithoutConstAgrees(test, y.test);
      WithoutConstAgrees(ifTrue, y.ifTrue);
      WithoutConstAgrees(ifFalse, y.ifFalse);
    case ListInitExpr(_, _, newExpr, inits) =>
      WithoutConstAgrees(newExpr, y.newExpr);
      InitsWithoutConstAgree(inits.items, y.inits.items);
  }

  lemma {:induction false} OptWithoutConstAgrees(x: Option<Expr>, y: Option<Expr>)
    ensures EqualsOpt(WithoutConst, x, y).Ok? || EveryOpt(x, IsNotConstant) ==>
      EqualsOpt(WithoutConst, x, y) == EqualsOpt(Default, x, y)
    decreases x, 0
  {
    if x.Some? && y.Some? {
      WithoutConstAgrees(x.value, y.value);
    }
  }

  lemma {:induction false} SeqWithoutConstAgrees(xs: seq<Expr>, ys: seq<Expr>)
    ensures SeqEquals(WithoutConst, xs, ys).Ok? || EverySeq(xs, IsNotConstant) ==>
      SeqEquals(WithoutConst, xs, ys) == SeqEquals(Default, xs, ys)
    decreases xs, 1
  {
    if |xs| == |ys| {
      PairwiseWithoutConstAgrees(xs, ys);
    }
  }

  lemma {:induction false} PairwiseWithoutConstAgrees(xs: seq<Expr>, ys: seq<Expr>)
    requires |xs| == |ys|
    ensures PairwiseEquals(WithoutConst, xs, ys).Ok? || EverySeq(xs, IsNotConstant) ==>
      PairwiseEquals(WithoutConst, xs, ys) == PairwiseEquals(Default, xs, ys)
    decreases xs, 0
  {
    if |xs| > 0 {
      WithoutConstAgrees(xs[0], ys[0]);
      PairwiseWithoutConstAgrees(xs[1..], ys[1..]);
    }
  }

  lemma {:induction false} InitWithoutConstAgrees(x: ElementInit, y: ElementInit)
    ensures ElementInitEquals(WithoutConst, x, y).Ok? || EverySeq(x.args, IsNotConstant) ==>
      ElementInitEquals(WithoutConst, x, y) == ElementInitEquals(Default, x, y)
    decreases x, 0
  {
    SeqWithoutConstAgrees(x.args, y.args);
  }

  lemma {:induction false} InitsWithoutConstAgree(xs: seq<ElementInit>, ys: seq<ElementInit>)
    ensures InitsEqual(WithoutConst, xs, ys).Ok? || EveryInits(xs, IsNotConstant) ==>
      InitsEqual(WithoutConst, xs, ys) == InitsEqual(Default, xs, ys)
    decreases xs, 2
  {
    if |xs| == |ys| {
      PairwiseInitsWithoutConstAgree(xs, ys);
    }
  }

  lemma {:induction false} PairwiseInitsWithoutConstAgree(xs: seq<ElementInit>, ys: seq<ElementInit>)
    requires |xs| == |ys|
    ensures PairwiseInitsEqual(WithoutConst, xs, ys).Ok? || EveryInits(xs, IsNotConstant) ==>
      PairwiseInitsEqual(WithoutConst, xs, ys) == PairwiseInitsEqual(Default, xs, ys)
    decreases xs, 1
  {
    if |xs| > 0 {
      InitWithoutConstAgrees(xs[0], ys[0]);
      PairwiseInitsWithoutConstAgree(xs[1..], ys[1..]);
    }
  }

  lemma {:induction false} BindingWithoutConstAgrees(x: Binding, y: Binding)
    ensures BindingEquals(WithoutConst, x, y).Ok? || EveryBinding(x, IsNotConstant) ==>
      BindingEquals(WithoutConst, x, y) == BindingEquals(Default, x, y)
    decreases x, 0
  {
    if x != y && BindingTypeCode(x) == BindingTypeCode(y) && x.member == y.member {
      match x
      case Assignment(_, _, expr) => WithoutConstAgrees(expr, y.expr);
      case ListBinding(_, _, inits) => InitsWithoutConstAgree(inits, y.inits);
      case MemberMemberBinding(_, _, bs) => BindingsWithoutConstAgree(bs, y.bindings);
    }
  }

  lemma {:induction false} BindingsWithoutConstAgree(xs: seq<Binding>, ys: seq<Binding>)
    ensures BindingsEqual(WithoutConst, xs, ys).Ok? || EveryBindings(xs, IsNotConstant) ==>
      BindingsEqual(WithoutConst, xs, ys) == BindingsEqual(Default, xs, ys)
    decreases xs, 2
  {
    if |xs| == |ys| {
      PairwiseBindingsWithoutConstAgree(xs, ys);
    }
  }

  lemma {:induction false} PairwiseBindingsWithoutConstAgree(xs: seq<Binding>, ys: seq<Binding>)
    requires |xs| == |ys|
    ensures PairwiseBindingsEqual(WithoutConst, xs, ys).Ok? || EveryBindings(xs, IsNotConstant) ==>
      PairwiseBindingsEqual(WithoutConst, xs, ys) == PairwiseBindingsEqual(Default, xs, ys)
    decreases xs, 1
  {
    if |xs| > 0 {
      BindingWithoutConstAgrees(xs[0], ys[0]);
      PairwiseBindingsWithoutConstAgree(xs[1..], ys[1..]);
    }
  }
}
