/** `OptimizeBooleanLogicVisitor` against a reference evaluator: on a
    well-typed boolean expression the optimiser never throws and never
    changes the value, and each of its rewrite rules does what it says. */
module OptimizerLaws {
  import opened Base
  import opened Types
  import opened Expressions
  import opened ExpressionVisitors

  /** Values of the parameters, by parameter object. */
  type Env = map<Id, Value>

  /** Pure evaluation of the boolean fragment the optimiser rewrites:
      constants, parameters, the built-in `&&`, `||`, `==`, `!=` and `!`,
      and conditionals. None where the fragment ends or a value is missing. */
  function Eval(env: Env, e: Expr): Option<Value> {
    match e
    case ConstantExpr(_, _, v) => Some(v)
    case ParameterExpr(id, _, _) => if id in env then Some(env[id]) else None
    case BinaryExpr(_, _, op, fn, left, right) =>
      if fn.Some? then None
      else if (op == Equal || op == NotEqual) && !ValueTypeOperands(left, right) then
        (match ReferenceEquals(Eval(env, left), Eval(env, right))
         case Some(same) => Some(BoolValue(same == (op == Equal)))
         case None => None)
      else EvalBinary(op, Eval(env, left), Eval(env, right))
    case UnaryExpr(_, _, op, fn, operand) =>
      if op != Not || fn.Some? then None
      else
        (match Eval(env, operand)
         case Some(BoolValue(b)) => Some(BoolValue(!b))
         case _ => None)
    case ConditionalExpr(_, _, test, ifTrue, ifFalse) =>
      (match Eval(env, test)
       case Some(BoolValue(b)) => if b then Eval(env, ifTrue) else Eval(env, ifFalse)
       case _ => None)
    case _ => None
  }

  /** Operands of `==` and `!=` of one value type (`bool` or `int`): the
      compiled node compares their values, as `object.Equals` does. */
  predicate ValueTypeOperands(left: Expr, right: Expr) {
    left.ty == right.ty && (left.ty == BoolType || left.ty == IntType)
  }

  /** The compiled `==` on operands of a reference type, which compares
      references: `null` equals only `null`, and two objects are equal when
      they are the same object. Which box holds a boxed `bool` or `int`, and
      which string object holds a string, is not part of the model (None). */
  function ReferenceEquals(a: Option<Value>, b: Option<Value>): (r: Option<bool>)
    ensures a == Some(NullValue) && b.Some? ==> r == Some(b.value.NullValue?)
    ensures a.Some? && b == Some(NullValue) ==> r == Some(a.value.NullValue?)
    ensures a.Some? && b.Some? && a.value.ObjectValue? && b.value.ObjectValue? ==> r == Some(a.value.ref == b.value.ref)
    ensures r.None? <==>
      (a.None? || b.None? || (!a.value.NullValue? && !b.value.NullValue? && !(a.value.ObjectValue? && b.value.ObjectValue?)))
  {
    match (a, b)
    case (Some(x), Some(y)) =>
      if x.NullValue? || y.NullValue? then Some(x.NullValue? && y.NullValue?)
      else if x.ObjectValue? && y.ObjectValue? then Some(x.ref == y.ref)
      else None
    case _ => None
  }

  /** The built-in binary operators on operand values, `==` and `!=`
      comparing values; the right operand of `&&` and `||` only matters when
      the left one does not decide. */
  function EvalBinary(op: NodeType, a: Option<Value>, b: Option<Value>): Option<Value> {
    if op == AndAlso || op == OrElse then
      match a
      case Some(BoolValue(x)) =>
        if x == (op == OrElse) then Some(BoolValue(x))
        else
          (match b
           case Some(BoolValue(y)) => Some(BoolValue(y))
           case _ => None)
      case _ => None
    else if op == Equal || op == NotEqual then
      match (a, b)
      case (Some(x), Some(y)) => Some(BoolValue((x == y) == (op == Equal)))
      case _ => None
    else None
  }

  /** The expression lies in the fragment, every parameter has a value, and
      everything of static type `bool` holds a boolean, as the runtime's
      node factories guarantee for real trees. The fragment's `==` and `!=`
      compare operands of one value type. */
  predicate Typed(env: Env, e: Expr) {
    match e
    case ConstantExpr(_, ty, v) => ty == BoolType ==> v.BoolValue?
    case ParameterExpr(id, ty, _) => id in env && (ty == BoolType ==> env[id].BoolValue?)
    case BinaryExpr(_, ty, op, fn, left, right) =>
      fn.None? && ty == BoolType && op in {AndAlso, OrElse, Equal, NotEqual} &&
      (op in {AndAlso, OrElse} ==> left.ty == BoolType && right.ty == BoolType) &&
      (op in {Equal, NotEqual} ==> ValueTypeOperands(left, right)) &&
      Typed(env, left) && Typed(env, right)
    case UnaryExpr(_, ty, op, fn, operand) =>
      op == Not && fn.None? && ty == BoolType && operand.ty == BoolType && Typed(env, operand)
    case ConditionalExpr(_, ty, test, ifTrue, ifFalse) =>
      test.ty == BoolType && ifTrue.ty == ty && ifFalse.ty == ty &&
      Typed(env, test) && Typed(env, ifTrue) && Typed(env, ifFalse)
    case _ => false
  }

  /** A well-typed expression has a value, and a boolean one when its static
      type is `bool`. */
  lemma {:induction false} TypedEvaluates(env: Env, e: Expr)
    requires Typed(env, e)
    ensures Eval(env, e).Some?
    ensures e.ty == BoolType ==> Eval(env, e).value.BoolValue?
  {
    match e
    case ConstantExpr(_, _, _) =>
    case ParameterExpr(_, _, _) =>
    case BinaryExpr(_, _, _, _, left, right) =>
      TypedEvaluates(env, left);
      TypedEvaluates(env, right);
      BinaryEvaluates(e.op, Eval(env, left), Eval(env, right));
    case UnaryExpr(_, _, _, _, operand) =>
      TypedEvaluates(env, operand);
    case ConditionalExpr(_, _, test, ifTrue, ifFalse) =>
      TypedEvaluates(env, test);
      TypedEvaluates(env, ifTrue);
      TypedEvaluates(env, ifFalse);
  }

  /** The built-in operators of the fragment give a boolean on operands of
      the right kind. */
  lemma BinaryEvaluates(op: NodeType, a: Option<Value>, b: Option<Value>)
    requires op in {AndAlso, OrElse, Equal, NotEqual} && a.Some? && b.Some?
    requires op in {AndAlso, OrElse} ==> a.value.BoolValue? && b.value.BoolValue?
    ensures EvalBinary(op, a, b).Some? && EvalBinary(op, a, b).value.BoolValue?
  {
  }

  /** What the optimiser promises for one expression: it returns, and the
      result is well-typed, of the same static type, with the same value. */
  predicate Preserved(env: Env, e: Expr, r: Result<(Expr, VisitState)>) {
    r.Ok? && Typed(env, r.value.0) && r.value.0.ty == e.ty && Eval(env, r.value.0) == Eval(env, e)
  }

  /** The optimiser is total on well-typed expressions, keeps them
      well-typed with the same static type, and preserves their value. */
  lemma {:induction false} OptimizePreservesValue(v: Visitor, env: Env, e: Expr, st: VisitState)
    requires v.OptimizeBooleanLogic? && Typed(env, e)
    ensures Preserved(env, e, Visit(v, e, st))
    decreases e, 1
  {
    match e
    case ConstantExpr(_, _, _) =>
    case ParameterExpr(_, _, _) =>
    case BinaryExpr(_, _, op, _, left, right) =>
      OptimizePreservesValue(v, env, left, st);
      var l := Visit(v, left, st).value;
      OptimizePreservesValue(v, env, right, l.1);
      OptimizeBinaryPreserves(v, env, e, st);
    case UnaryExpr(_, _, _, _, _) =>
      UnaryPreserves(v, env, e, st);
    case ConditionalExpr(_, _, _, _, _) =>
      ConditionalPreserves(v, env, e, st);
  }

  /** A negation is rebuilt over its optimised operand. */
  lemma {:induction false} UnaryPreserves(v: Visitor, env: Env, e: Expr, st: VisitState)
    requires v.OptimizeBooleanLogic? && e.UnaryExpr? && Typed(env, e)
    ensures Preserved(env, e, Visit(v, e, st))
    decreases e, 0
  {
    OptimizePreservesValue(v, env, e.operand, st);
    var o := Visit(v, e.operand, st).value;
    assert Visit(v, e, st) == Ok(Rebuild(o.0 == e.operand, e, o.1, (id: Id) => UnaryExpr(id, e.ty, e.op, e.fn, o.0)));
  }

  /** A conditional is reduced to a branch on a constant test, and rebuilt
      over its optimised parts otherwise. */
  lemma {:induction false} ConditionalPreserves(v: Visitor, env: Env, e: Expr, st: VisitState)
    requires v.OptimizeBooleanLogic? && e.ConditionalExpr? && Typed(env, e)
    ensures Preserved(env, e, Visit(v, e, st))
    decreases e, 0
  {
    OptimizePreservesValue(v, env, e.test, st);
    var c := Visit(v, e.test, st).value;
    TypedEvaluates(env, c.0);
    if c.0.ConstantExpr? && c.0.value.BoolValue? {
      OptimizePreservesValue(v, env, e.ifTrue, c.1);
      OptimizePreservesValue(v, env, e.ifFalse, c.1);
      ConditionalFoldPreserves(v, env, e, st, c);
    } else {
      OptimizePreservesValue(v, env, e.ifTrue, c.1);
      var t := Visit(v, e.ifTrue, c.1).value;
      OptimizePreservesValue(v, env, e.ifFalse, t.1);
      var f := Visit(v, e.ifFalse, t.1).value;
      ConditionalRebuildPreserves(v, env, e, st, c, t, f);
    }
  }

  /** A test that optimises to a constant selects its branch. */
  lemma ConditionalFoldPreserves(v: Visitor, env: Env, e: Expr, st: VisitState, c: (Expr, VisitState))
    requires v.OptimizeBooleanLogic? && e.ConditionalExpr? && Typed(env, e)
    requires Visit(v, e.test, st) == Ok(c) && Preserved(env, e.test, Ok(c))
    requires c.0.ConstantExpr? && c.0.value.BoolValue?
    requires Preserved(env, e.ifTrue, Visit(v, e.ifTrue, c.1)) && Preserved(env, e.ifFalse, Visit(v, e.ifFalse, c.1))
    ensures Preserved(env, e, Visit(v, e, st))
  {
    assert Visit(v, e, st) == Visit(v, if c.0.value.b then e.ifTrue else e.ifFalse, c.1);
  }

  /** Otherwise the conditional is rebuilt over its optimised parts. */
  lemma ConditionalRebuildPreserves(v: Visitor, env: Env, e: Expr, st: VisitState, c: (Expr, VisitState), t: (Expr, VisitState), f: (Expr, VisitState))
    requires v.OptimizeBooleanLogic? && e.ConditionalExpr? && Typed(env, e)
    requires Visit(v, e.test, st) == Ok(c) && Preserved(env, e.test, Ok(c))
    requires !(c.0.ConstantExpr? && c.0.value.BoolValue?)
    requires Visit(v, e.ifTrue, c.1) == Ok(t) && Preserved(env, e.ifTrue, Ok(t))
    requires Visit(v, e.ifFalse, t.1) == Ok(f) && Preserved(env, e.ifFalse, Ok(f))
    ensures Preserved(env, e, Visit(v, e, st))
  {
    if c.0 == e.test && t.0 == e.ifTrue && f.0 == e.ifFalse {
      assert Visit(v, e, st) == Ok((e, f.1));
    } else {
      var n := ConditionalExpr(f.1.nextId, e.ty, c.0, t.0, f.0);
      assert Visit(v, e, st) == Ok((n, f.1.(nextId := f.1.nextId + 1)));
      ConditionalNodePreserved(env, e, n);
    }
  }

  /** A conditional over parts of the same types and values as those of
      `e` is well-typed and has the value of `e`. */
  lemma ConditionalNodePreserved(env: Env, e: Expr, n: Expr)
    requires e.ConditionalExpr? && n.ConditionalExpr? && Typed(env, e) && n.ty == e.ty
    requires Typed(env, n.test) && n.test.ty == e.test.ty && Eval(env, n.test) == Eval(env, e.test)
    requires Typed(env, n.ifTrue) && n.ifTrue.ty == e.ifTrue.ty && Eval(env, n.ifTrue) == Eval(env, e.ifTrue)
    requires Typed(env, n.ifFalse) && n.ifFalse.ty == e.ifFalse.ty && Eval(env, n.ifFalse) == Eval(env, e.ifFalse)
    ensures Typed(env, n) && Eval(env, n) == Eval(env, e)
  {
  }

  /** The binary step, given that both operands are optimised soundly. */
  lemma OptimizeBinaryPreserves(v: Visitor, env: Env, e: Expr, st: VisitState)
    requires v.OptimizeBooleanLogic? && e.BinaryExpr? && Typed(env, e)
    requires Preserved(env, e.left, Visit(v, e.left, st))
    requires Preserved(env, e.right, Visit(v, e.right, Visit(v, e.left, st).value.1))
    ensures Preserved(env, e, Visit(v, e, st))
  {
    var l := Visit(v, e.left, st).value;
    var r := Visit(v, e.right, l.1).value;
    TypedEvaluates(env, l.0);
    TypedEvaluates(env, r.0);
    var leftValue := ConstantValue(l.0);
    var rightValue := ConstantValue(r.0);
    ShortCutSound(e.op, leftValue, Eval(env, r.0));
    if LeftShortCut(e.op, leftValue).value.Some? {
      ShortCutPreserves(v, env, e, st);
    } else {
      FoldSound(v, e, leftValue, rightValue);
      if Fold(v, e, leftValue, rightValue).value.Some? {
        FoldPreserves(v, env, e, st);
      } else {
        SimplifySound(env, e, l.0, r.0, r.1);
        if Simplify(e, l.0, r.0, leftValue, rightValue, r.1).value.Some? {
          SimplifyPreserves(v, env, e, st);
        } else {
          RebuildPreserves(v, env, e, st);
        }
      }
    }
  }

  /** Both operands of a binary node are optimised soundly. */
  predicate OperandsPreserved(v: Visitor, env: Env, e: Expr, st: VisitState) {
    v.OptimizeBooleanLogic? && e.BinaryExpr? && Typed(env, e) &&
    Preserved(env, e.left, Visit(v, e.left, st)) &&
    Preserved(env, e.right, Visit(v, e.right, Visit(v, e.left, st).value.1))
  }

  /** The left short cut is sound. */
  lemma ShortCutPreserves(v: Visitor, env: Env, e: Expr, st: VisitState)
    requires OperandsPreserved(v, env, e, st)
    requires var l := Visit(v, e.left, st).value;
      LeftShortCut(e.op, ConstantValue(l.0)).Ok? && LeftShortCut(e.op, ConstantValue(l.0)).value.Some? &&
      EvalBinary(e.op, ConstantValue(l.0), Eval(env, Visit(v, e.right, l.1).value.0)) ==
        Some(BoolValue(LeftShortCut(e.op, ConstantValue(l.0)).value.value))
    ensures Preserved(env, e, Visit(v, e, st))
  {
    var l := Visit(v, e.left, st).value;
    var shortCut := LeftShortCut(e.op, ConstantValue(l.0)).value;
    assert Visit(v, e, st) == Ok(BoolConstant(l.1, shortCut.value));
  }

  /** Folding two constants is sound. */
  lemma FoldPreserves(v: Visitor, env: Env, e: Expr, st: VisitState)
    requires OperandsPreserved(v, env, e, st)
    requires var l := Visit(v, e.left, st).value;
      var r := Visit(v, e.right, l.1).value;
      LeftShortCut(e.op, ConstantValue(l.0)) == Ok(None) &&
      Fold(v, e, ConstantValue(l.0), ConstantValue(r.0)).Ok? &&
      Fold(v, e, ConstantValue(l.0), ConstantValue(r.0)).value.Some? &&
      Fold(v, e, ConstantValue(l.0), ConstantValue(r.0)).value == EvalBinary(e.op, ConstantValue(l.0), ConstantValue(r.0)) &&
      RuntimeType(Fold(v, e, ConstantValue(l.0), ConstantValue(r.0)).value.value) == BoolType
    ensures Preserved(env, e, Visit(v, e, st))
  {
    var l := Visit(v, e.left, st).value;
    var r := Visit(v, e.right, l.1).value;
    var folded := Fold(v, e, ConstantValue(l.0), ConstantValue(r.0)).value;
    assert Visit(v, e, st) == Ok(Allocate(r.1, (id: Id) => ConstantExpr(id, RuntimeType(folded.value), folded.value)));
  }

  /** Simplifying with one constant operand is sound. */
  lemma SimplifyPreserves(v: Visitor, env: Env, e: Expr, st: VisitState)
    requires OperandsPreserved(v, env, e, st)
    requires var l := Visit(v, e.left, st).value;
      var r := Visit(v, e.right, l.1).value;
      LeftShortCut(e.op, ConstantValue(l.0)) == Ok(None) &&
      Fold(v, e, ConstantValue(l.0), ConstantValue(r.0)) == Ok(None) &&
      var s := Simplify(e, l.0, r.0, ConstantValue(l.0), ConstantValue(r.0), r.1);
      s.Ok? && s.value.Some? &&
      Typed(env, s.value.value.0) && s.value.value.0.ty == BoolType &&
      Eval(env, s.value.value.0) == EvalBinary(e.op, Eval(env, l.0), Eval(env, r.0))
    ensures Preserved(env, e, Visit(v, e, st))
  {
    var l := Visit(v, e.left, st).value;
    var r := Visit(v, e.right, l.1).value;
    var simplified := Simplify(e, l.0, r.0, ConstantValue(l.0), ConstantValue(r.0), r.1).value;
    assert Visit(v, e, st) == Ok(simplified.value);
  }

  /** Rebuilding over the optimised operands is sound. */
  lemma RebuildPreserves(v: Visitor, env: Env, e: Expr, st: VisitState)
    requires OperandsPreserved(v, env, e, st)
    requires var l := Visit(v, e.left, st).value;
      var r := Visit(v, e.right, l.1).value;
      LeftShortCut(e.op, ConstantValue(l.0)) == Ok(None) &&
      Fold(v, e, ConstantValue(l.0), ConstantValue(r.0)) == Ok(None) &&
      Simplify(e, l.0, r.0, ConstantValue(l.0), ConstantValue(r.0), r.1) == Ok(None)
    ensures Preserved(env, e, Visit(v, e, st))
  {
    var l := Visit(v, e.left, st).value;
    var r := Visit(v, e.right, l.1).value;
    var rebuilt := Rebuild(l.0 == e.left && r.0 == e.right, e, r.1,
      (id: Id) => BinaryExpr(id, e.ty, e.op, e.fn, l.0, r.0));
    assert Visit(v, e, st) == Ok(rebuilt);
  }

  /** A constant left operand that decides `&&` or `||` is the value of the
      whole node. */
  lemma ShortCutSound(op: NodeType, leftValue: Option<Value>, rightValue: Option<Value>)
    requires op in {AndAlso, OrElse} ==> leftValue.Some? ==> leftValue.value.BoolValue?
    ensures LeftShortCut(op, leftValue).Ok?
    ensures LeftShortCut(op, leftValue).value.Some? ==>
      EvalBinary(op, leftValue, rightValue) == Some(BoolValue(LeftShortCut(op, leftValue).value.value))
  {
  }

  /** A folded value is the operator's value on the two constants. */
  lemma FoldSound(v: Visitor, e: Expr, leftValue: Option<Value>, rightValue: Option<Value>)
    requires v.OptimizeBooleanLogic? && e.BinaryExpr? && e.fn.None?
    requires e.op in {AndAlso, OrElse} ==>
      (leftValue.Some? ==> leftValue.value.BoolValue?) && (rightValue.Some? ==> rightValue.value.BoolValue?)
    ensures Fold(v, e, leftValue, rightValue).Ok?
    ensures var f := Fold(v, e, leftValue, rightValue).value;
      f.Some? ==> f == EvalBinary(e.op, leftValue, rightValue) && RuntimeType(f.value) == BoolType
    ensures e.op in {AndAlso, OrElse, Equal, NotEqual} && leftValue.Some? && rightValue.Some? ==>
      Fold(v, e, leftValue, rightValue).value.Some?
  {
  }

  /** One constant operand of `&&` or `||` reduces the node to the other
      operand or to a constant of the same value. */
  lemma SimplifySound(env: Env, e: Expr, left: Expr, right: Expr, st: VisitState)
    requires e.BinaryExpr? && e.fn.None? && e.ty == BoolType
    requires Typed(env, left) && Typed(env, right)
    requires e.op in {AndAlso, OrElse} ==> left.ty == BoolType && right.ty == BoolType
    requires Eval(env, left).Some? && Eval(env, right).Some?
    requires e.op in {AndAlso, OrElse} ==> Eval(env, left).value.BoolValue? && Eval(env, right).value.BoolValue?
    ensures Simplify(e, left, right, ConstantValue(left), ConstantValue(right), st).Ok?
    ensures var s := Simplify(e, left, right, ConstantValue(left), ConstantValue(right), st).value;
      s.Some? ==>
        (Typed(env, s.value.0) && s.value.0.ty == BoolType &&
         Eval(env, s.value.0) == EvalBinary(e.op, Eval(env, left), Eval(env, right)))
  {
  }

  // ---------------------------------------------------------------------------
  // The rewrite rules one by one

  /** `false && r` becomes the constant false and `true || r` the constant
      true without r being visited: whatever r is, even a subtree whose
      visit would throw, the result depends on the left operand alone. */
  lemma LeftOperandDecides(v: Visitor, e: Expr, st: VisitState)
    requires v.OptimizeBooleanLogic? && e.BinaryExpr? && e.op in {AndAlso, OrElse}
    requires Visit(v, e.left, st).Ok?
    requires ConstantValue(Visit(v, e.left, st).value.0) == Some(BoolValue(e.op == OrElse))
    ensures Visit(v, e, st) == Ok(BoolConstant(Visit(v, e.left, st).value.1, e.op == OrElse))
  {
  }

  /** Without a user-defined operator, `true && r` and `false || r` become
      the optimised r. */
  lemma NeutralLeftOperandDropped(v: Visitor, e: Expr, st: VisitState)
    requires v.OptimizeBooleanLogic? && e.BinaryExpr? && e.op in {AndAlso, OrElse} && e.fn.None?
    requires Visit(v, e.left, st).Ok?
    requires ConstantValue(Visit(v, e.left, st).value.0) == Some(BoolValue(e.op == AndAlso))
    requires Visit(v, e.right, Visit(v, e.left, st).value.1).Ok?
    requires !Visit(v, e.right, Visit(v, e.left, st).value.1).value.0.ConstantExpr?
    ensures Visit(v, e, st) == Visit(v, e.right, Visit(v, e.left, st).value.1)
  {
  }

  /** Without a user-defined operator and with an optimised left operand l
      that is not constant: `l && true` and `l || false` become l,
      `l && false` becomes false and `l || true` becomes true. */
  lemma RightOperandRules(v: Visitor, e: Expr, st: VisitState, b: bool)
    requires v.OptimizeBooleanLogic? && e.BinaryExpr? && e.op in {AndAlso, OrElse} && e.fn.None?
    requires Visit(v, e.left, st).Ok? && !Visit(v, e.left, st).value.0.ConstantExpr?
    requires Visit(v, e.right, Visit(v, e.left, st).value.1).Ok?
    requires ConstantValue(Visit(v, e.right, Visit(v, e.left, st).value.1).value.0) == Some(BoolValue(b))
    ensures var l := Visit(v, e.left, st).value;
      var r := Visit(v, e.right, l.1).value;
      Visit(v, e, st) == Ok(if b == (e.op == AndAlso) then (l.0, r.1) else BoolConstant(r.1, b))
  {
  }

  /** Two constant operands are folded only for `==`, `!=`, `&&` and `||`;
      any other operator over constants, `1 + 2` say, is left as it is. */
  lemma OnlyLogicalOperatorsFold(v: Visitor, st: VisitState)
    requires v.OptimizeBooleanLogic?
    ensures var sum := BinaryExpr(1, IntType, Add, None, ConstantExpr(2, IntType, IntValue(1)), ConstantExpr(3, IntType, IntValue(2)));
      Visit(v, sum, st) == Ok((sum, st))
    ensures var eq := BinaryExpr(1, BoolType, Equal, None, ConstantExpr(2, IntType, IntValue(1)), ConstantExpr(3, IntType, IntValue(2)));
      Visit(v, eq, st) == Ok(BoolConstant(st, false))
  {
    OtherOperatorKept(v, BinaryExpr(1, IntType, Add, None, ConstantExpr(2, IntType, IntValue(1)), ConstantExpr(3, IntType, IntValue(2))), st);
    EqualityFolded(v, BinaryExpr(1, BoolType, Equal, None, ConstantExpr(2, IntType, IntValue(1)), ConstantExpr(3, IntType, IntValue(2))), st);
  }

  /** An operator other than `==`, `!=`, `&&` and `||` over two constants
      is kept as it is. */
  lemma OtherOperatorKept(v: Visitor, e: Expr, st: VisitState)
    requires v.OptimizeBooleanLogic? && e.BinaryExpr? && e.fn.None? && e.op !in {AndAlso, OrElse, Equal, NotEqual}
    requires e.left.ConstantExpr? && e.right.ConstantExpr?
    ensures Visit(v, e, st) == Ok((e, st))
  {
    assert Visit(v, e.left, st) == Ok((e.left, st));
    assert Visit(v, e.right, st) == Ok((e.right, st));
  }

  /** `==` over two constants is folded to whether their values are equal. */
  lemma EqualityFolded(v: Visitor, e: Expr, st: VisitState)
    requires v.OptimizeBooleanLogic? && e.BinaryExpr? && e.fn.None? && e.op == Equal
    requires e.left.ConstantExpr? && e.right.ConstantExpr?
    ensures Visit(v, e, st) == Ok(BoolConstant(st, e.left.value == e.right.value))
  {
    assert Visit(v, e.left, st) == Ok((e.left, st));
    assert Visit(v, e.right, st) == Ok((e.right, st));
  }

  /** On operands of a reference type that hold `null` or objects, the
      fold's `object.Equals` agrees with the compiled node's reference
      comparison (the objects modelled keep the reference `Equals` of
      `object`, and one reference has one runtime type). */
  lemma ReferenceFoldAgrees(x: Value, y: Value)
    requires x.NullValue? || x.ObjectValue?
    requires y.NullValue? || y.ObjectValue?
    requires x.ObjectValue? && y.ObjectValue? && x.ref == y.ref ==> x == y
    ensures ReferenceEquals(Some(x), Some(y)).Some?
    ensures BinaryMethod(Equal, x, y) == Ok(Some(BoolValue(ReferenceEquals(Some(x), Some(y)).value)))
    ensures BinaryMethod(NotEqual, x, y) == Ok(Some(BoolValue(!ReferenceEquals(Some(x), Some(y)).value)))
  {
  }

  /** Where the two part: `Equal(Constant(1, typeof(object)),
      Constant(1, typeof(object)))` compiles to a comparison of two boxes by
      reference, which the model leaves undecided, so the tree lies outside
      the fragment; the optimiser still folds it to `true`, because
      `object.Equals` compares the boxed values. */
  lemma BoxedEqualityIsFolded(v: Visitor, env: Env, st: VisitState, n: Id, a: Id, b: Id)
    requires v.OptimizeBooleanLogic?
    ensures var e := BinaryExpr(n, BoolType, Equal, None, ConstantExpr(a, ObjectType, IntValue(1)), ConstantExpr(b, ObjectType, IntValue(1)));
      !Typed(env, e) && Eval(env, e) == None && Visit(v, e, st) == Ok(BoolConstant(st, true))
  {
    var e := BinaryExpr(n, BoolType, Equal, None, ConstantExpr(a, ObjectType, IntValue(1)), ConstantExpr(b, ObjectType, IntValue(1)));
    EqualityFolded(v, e, st);
  }

  /** A conditional whose optimised test is a boolean constant becomes its
      optimised chosen branch; the other branch is not visited. */
  lemma ConstantTestSelectsBranch(v: Visitor, e: Expr, st: VisitState, b: bool)
    requires v.OptimizeBooleanLogic? && e.ConditionalExpr?
    requires Visit(v, e.test, st).Ok? && ConstantValue(Visit(v, e.test, st).value.0) == Some(BoolValue(b))
    ensures Visit(v, e, st) == Visit(v, if b then e.ifTrue else e.ifFalse, Visit(v, e.test, st).value.1)
  {
  }
}
