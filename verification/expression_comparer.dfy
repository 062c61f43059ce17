/** Structural equality of expression trees: the `ExpressionComparer` family
    (the files under ExpressionComparers). One root comparer with a mode carries every
    recursive comparison; the kind-specific comparers are its branches. */
module ExpressionComparers {
  import opened Base
  import opened Types
  import opened Expressions

  /** `ExpressionComparer.Default` or `ExpressionComparer.WithoutConst`. */
  datatype Mode = Default | WithoutConst

  /** What the `WithoutConst` comparer's `ConstantComparer` property throws. */
  const ConstantNotAllowed: Exception := InvalidOperation("ConstantExpression not allowed")

  /** What the kind dispatch throws for a kind it does not know: the message
      names the class of each node, quoted. */
  function NotImplementedComparison(x: Expr, y: Expr): (r: Exception)
    ensures r.NotImplemented?
    ensures var xn, yn := ClassName(x), ClassName(y);
      var i, j := |ComparisonPrefix| + |xn|, |ComparisonPrefix| + |xn| + |ComparisonInfix|;
      |r.message| == j + |yn| + |ComparisonSuffix| &&
      r.message[..|ComparisonPrefix|] == ComparisonPrefix &&
      r.message[|ComparisonPrefix|..i] == xn &&
      r.message[i..j] == ComparisonInfix &&
      r.message[j..j + |yn|] == yn &&
      r.message[j + |yn|..] == ComparisonSuffix
  {
    NotImplemented(ComparisonMessage(ClassName(x), ClassName(y)))
  }

  /** The message naming two classes, with its five parts in place. */
  function ComparisonMessage(xn: string, yn: string): (m: string)
    ensures var i, j := |ComparisonPrefix| + |xn|, |ComparisonPrefix| + |xn| + |ComparisonInfix|;
      |m| == j + |yn| + |ComparisonSuffix| &&
      m[..|ComparisonPrefix|] == ComparisonPrefix &&
      m[|ComparisonPrefix|..i] == xn &&
      m[i..j] == ComparisonInfix &&
      m[j..j + |yn|] == yn &&
      m[j + |yn|..] == ComparisonSuffix
  {
    ComparisonPrefix + xn + ComparisonInfix + yn + ComparisonSuffix
  }

  const ComparisonPrefix: string := "Comparison between expression types '"
  const ComparisonInfix: string := "' and '"
  const ComparisonSuffix: string := "' is not implemented."

  /** The short-circuiting `&&` of two comparisons that may throw: the second
      one only matters when the first returned true. */
  function And(first: Result<bool>, second: Result<bool>): (r: Result<bool>)
    ensures first == Ok(true) ==> r == second
    ensures first == Ok(false) ==> r == Ok(false)
    ensures first.Throw? ==> r == first
  {
    match first
    case Throw(e) => Throw(e)
    case Ok(b) => if b then second else Ok(false)
  }

  /** The generic base check: same `NodeType`, same `Type`, same node class. */
  predicate SameShape(x: Expr, y: Expr) {
    NodeTypeOf(x) == NodeTypeOf(y) && x.ty == y.ty && ClassOf(x) == ClassOf(y)
  }

  /** `ExpressionComparer<TExpression>.Equals`: reference equality, then the
      base check, then the kind dispatch. */
  function Equals(mode: Mode, x: Expr, y: Expr): Result<bool>
    decreases x, 2
  {
    if x == y then Ok(true)
    else if !SameShape(x, y) then Ok(false)
    else PureEquals(mode, x, y)
  }

  /** `Equals` on nullable operands: two nulls are equal, one null is not. */
  function EqualsOpt(mode: Mode, x: Option<Expr>, y: Option<Expr>): Result<bool>
    decreases x, 0
  {
    if x == y then Ok(true)
    else if x.None? || y.None? then Ok(false)
    else Equals(mode, x.value, y.value)
  }

  /** `ParameterComparer.Value.Equals` on two lambda parameters: the same
      object, or the same type and name. */
  predicate ParamEquals(p: Param, q: Param) {
    p == q || (p.ty == q.ty && p.name == q.name)
  }

  /** `Parameters.SequenceEqual(..., ParameterComparer.Value)`. */
  predicate ParamsEqual(ps: seq<Param>, qs: seq<Param>) {
    SequenceEqual(ps, qs, ParamEquals)
  }

  /** `ExpressionComparer.PureEquals`: dispatch on the pair of node kinds. */
  function PureEquals(mode: Mode, x: Expr, y: Expr): Result<bool>
    decreases x, 1
  {
    match (x, y)
    case (LambdaExpr(_, _, ps, body1), LambdaExpr(_, _, qs, body2)) =>
      And(Ok(ParamsEqual(ps, qs)), Equals(mode, body1, body2))
    case (ParameterExpr(_, _, name1), ParameterExpr(_, _, name2)) =>
      Ok(name1 == name2)
    case (CallExpr(_, _, m1, t1, args1), CallExpr(_, _, m2, t2, args2)) =>
      And(Ok(m1 == m2), And(EqualsOpt(mode, t1, t2), SeqEquals(mode, args1, args2)))
    case (MemberExpr(_, _, m1, t1), MemberExpr(_, _, m2, t2)) =>
      And(Ok(m1 == m2), EqualsOpt(mode, t1, t2))
    case (BinaryExpr(_, _, _, f1, l1, r1), BinaryExpr(_, _, _, f2, l2, r2)) =>
      And(Ok(f1 == f2), And(Equals(mode, l1, l2), Equals(mode, r1, r2)))
    case (ConstantExpr(_, _, v1), ConstantExpr(_, _, v2)) =>
      if mode == WithoutConst then Throw(ConstantNotAllowed) else Ok(v1 == v2)
    case (UnaryExpr(_, _, _, f1, o1), UnaryExpr(_, _, _, f2, o2)) =>
      And(Ok(f1 == f2), Equals(mode, o1, o2))
    case (NewArrayExpr(_, _, _, e1), NewArrayExpr(_, _, _, e2)) =>
      SeqEquals(mode, e1, e2)
    case (NewExpr(_, _, _, a1, m1), NewExpr(_, _, _, a2, m2)) =>
      And(SeqEquals(mode, a1, a2), Ok((m1.None? && m2.None?) || (m1.Some? && m2.Some? && m1.value == m2.value)))
    case (MemberInitExpr(_, _, n1, b1), MemberInitExpr(_, _, n2, b2)) =>
      And(Equals(mode, n1, n2), BindingsEqual(mode, b1, b2))
    case (ConditionalExpr(_, _, t1, i1, e1), ConditionalExpr(_, _, t2, i2, e2)) =>
      And(Equals(mode, t1, t2), And(Equals(mode, i1, i2), Equals(mode, e1, e2)))
    case (ListInitExpr(_, _, n1, l1), ListInitExpr(_, _, n2, l2)) =>
      And(Equals(mode, n1, n2), if l1 == l2 then Ok(true) else InitsEqual(mode, l1.items, l2.items))
    case _ => Throw(NotImplementedComparison(x, y))
  }

  /** `SequenceEqual(..., rootComparer)` on expression lists: counts first,
      then pairwise, stopping at the first pair that is unequal or throws. */
  function SeqEquals(mode: Mode, xs: seq<Expr>, ys: seq<Expr>): Result<bool>
    decreases xs, 1
  {
    if |xs| != |ys| then Ok(false) else PairwiseEquals(mode, xs, ys)
  }

  function PairwiseEquals(mode: Mode, xs: seq<Expr>, ys: seq<Expr>): Result<bool>
    requires |xs| == |ys|
    decreases xs, 0
  {
    if |xs| == 0 then Ok(true)
    else And(Equals(mode, xs[0], ys[0]), PairwiseEquals(mode, xs[1..], ys[1..]))
  }

  /** `ElementInitComparer.Equals`. */
  function ElementInitEquals(mode: Mode, x: ElementInit, y: ElementInit): Result<bool>
    decreases x, 0
  {
    if x == y then Ok(true)
    else And(Ok(x.addFn == y.addFn), SeqEquals(mode, x.args, y.args))
  }

  /** `SequenceEqual(..., ElementInitComparer)`. */
  function InitsEqual(mode: Mode, xs: seq<ElementInit>, ys: seq<ElementInit>): Result<bool>
    decreases xs, 2
  {
    if |xs| != |ys| then Ok(false) else PairwiseInitsEqual(mode, xs, ys)
  }

  function PairwiseInitsEqual(mode: Mode, xs: seq<ElementInit>, ys: seq<ElementInit>): Result<bool>
    requires |xs| == |ys|
    decreases xs, 1
  {
    if |xs| == 0 then Ok(true)
    else And(ElementInitEquals(mode, xs[0], ys[0]), PairwiseInitsEqual(mode, xs[1..], ys[1..]))
  }

  /** `MemberBindingComparer.Equals`: the same binding type and member, then
      the kind's contents; mismatched kinds fall through to false. */
  function BindingEquals(mode: Mode, x: Binding, y: Binding): Result<bool>
    decreases x, 0
  {
    if x == y then Ok(true)
    else if !(BindingTypeCode(x) == BindingTypeCode(y) && x.member == y.member) then Ok(false)
    else match (x, y)
      case (Assignment(_, _, e1), Assignment(_, _, e2)) => Equals(mode, e1, e2)
      case (ListBinding(_, _, i1), ListBinding(_, _, i2)) => InitsEqual(mode, i1, i2)
      case (MemberMemberBinding(_, _, b1), MemberMemberBinding(_, _, b2)) => BindingsEqual(mode, b1, b2)
      case _ => Ok(false)
  }

  /** `SequenceEqual(..., MemberBindingComparer)`. */
  function BindingsEqual(mode: Mode, xs: seq<Binding>, ys: seq<Binding>): Result<bool>
    decreases xs, 2
  {
    if |xs| != |ys| then Ok(false) else PairwiseBindingsEqual(mode, xs, ys)
  }

  function PairwiseBindingsEqual(mode: Mode, xs: seq<Binding>, ys: seq<Binding>): Result<bool>
    requires |xs| == |ys|
    decreases xs, 1
  {
    if |xs| == 0 then Ok(true)
    else And(BindingEquals(mode, xs[0], ys[0]), PairwiseBindingsEqual(mode, xs[1..], ys[1..]))
  }

  // ---------------------------------------------------------------------------
  // What the comparer computes: equality of the trees with identities erased

  lemma ConsEquals<T>(a: T, s: seq<T>, b: T, t: seq<T>)
    ensures [a] + s == [b] + t <==> a == b && s == t
  {
    if [a] + s == [b] + t {
      assert ([a] + s)[0] == a && ([b] + t)[0] == b;
      assert ([a] + s)[1..] == s && ([b] + t)[1..] == t;
    }
  }

  /** Parameter lists compare equal exactly when they agree once identities
      are forgotten: same length, and pairwise the same type and name. */
  lemma ParamsEqualErased(ps: seq<Param>, qs: seq<Param>)
    ensures ParamsEqual(ps, qs) <==> EraseParams(ps) == EraseParams(qs)
  {
    SequenceEqualSpec(ps, qs, ParamEquals);
    if EraseParams(ps) == EraseParams(qs) {
      forall i | 0 <= i < |ps|
        ensures ParamEquals(ps[i], qs[i])
      {
        assert EraseParams(ps)[i] == EraseParams(qs)[i];
      }
    }
  }

  /** The `Default` comparer decides structural equality: on a tree built
      only of the kinds it implements it never throws, and it returns true
      exactly when the two trees are equal up to object identity (and up to
      the constructor of `new` nodes, which it does not look at). */
  lemma {:induction false} EqualsErased(x: Expr, y: Expr)
    requires Every(x, IsNotOther)
    ensures Equals(Default, x, y) == Ok(Erase(x) == Erase(y))
    decreases x, 2
  {
    if x != y && SameShape(x, y) {
      PureEqualsErased(x, y);
    }
  }

  lemma {:induction false} PureEqualsErased(x: Expr, y: Expr)
    requires Every(x, IsNotOther) && SameShape(x, y)
    ensures PureEquals(Default, x, y) == Ok(Erase(x) == Erase(y))
    decreases x, 1
  {
    if x.LambdaExpr? || x.ParameterExpr? {
      LeafErased(x, y);
    } else if x.ConstantExpr? {
      ConstantErased(x, y);
    } else if x.CallExpr? || x.MemberExpr? || x.NewArrayExpr? || x.NewExpr? {
      ListwardErased(x, y);
    } else {
      BranchingErased(x, y);
    }
  }

  /** `PureEqualsErased` for lambdas and parameters. */
  lemma {:induction false} LeafErased(x: Expr, y: Expr)
    requires Every(x, IsNotOther) && SameShape(x, y)
    requires x.LambdaExpr? || x.ParameterExpr?
    ensures PureEquals(Default, x, y) == Ok(Erase(x) == Erase(y))
    decreases x, 0
  {
    match x
    case LambdaExpr(_, _, ps, body) =>
      ParamsEqualErased(ps, y.params);
      EqualsErased(body, y.body);
    case ParameterExpr(_, _, _) =>
  }

  /** `PureEqualsErased` for constants: type and value are all there is. */
  lemma ConstantErased(x: Expr, y: Expr)
    requires x.ConstantExpr? && SameShape(x, y)
    ensures PureEquals(Default, x, y) == Ok(Erase(x) == Erase(y))
  {
    assert Erase(x) == ConstantExpr(0, x.ty, x.value);
  }

  /** `PureEqualsErased` for the kinds with an optional target or a list of
      operands. */
  lemma {:induction false} ListwardErased(x: Expr, y: Expr)
    requires Every(x, IsNotOther) && SameShape(x, y)
    requires x.CallExpr? || x.MemberExpr? || x.NewArrayExpr? || x.NewExpr?
    ensures PureEquals(Default, x, y) == Ok(Erase(x) == Erase(y))
    decreases x, 0
  {
    match x
    case CallExpr(_, _, _, target, args) =>
      OptErased(target, y.target);
      SeqErased(args, y.args);
    case MemberExpr(_, _, _, target) =>
      OptErased(target, y.target);
    case NewArrayExpr(_, _, _, elems) =>
      SeqErased(elems, y.elems);
    case NewExpr(_, _, _, args, _) =>
      SeqErased(args, y.args);
  }

  /** `PureEqualsErased` for the kinds with sub-trees compared directly. */
  lemma {:induction false} BranchingErased(x: Expr, y: Expr)
    requires Every(x, IsNotOther) && SameShape(x, y)
    requires x.BinaryExpr? || x.UnaryExpr? || x.MemberInitExpr? || x.ConditionalExpr? || x.ListInitExpr?
    ensures PureEquals(Default, x, y) == Ok(Erase(x) == Erase(y))
    decreases x, 0
  {
    match x
    case BinaryExpr(_, _, _, _, left, right) =>
      EqualsErased(left, y.left);
      EqualsErased(right, y.right);
    case UnaryExpr(_, _, _, _, operand) =>
      EqualsErased(operand, y.operand);
    case MemberInitExpr(_, _, newExpr, bindings) =>
      EqualsErased(newExpr, y.newExpr);
      BindingsErased(bindings, y.bindings);
    case ConditionalExpr(_, _, test, ifTrue, ifFalse) =>
      EqualsErased(test, y.test);
      EqualsErased(ifTrue, y.ifTrue);
      EqualsErased(ifFalse, y.ifFalse);
    case ListInitExpr(_, _, newExpr, inits) =>
      EqualsErased(newExpr, y.newExpr);
      InitsErased(inits.items, y.inits.items);
  }

  lemma {:induction false} OptErased(x: Option<Expr>, y: Option<Expr>)
    requires EveryOpt(x, IsNotOther)
    ensures EqualsOpt(Default, x, y) == Ok(EraseOpt(x) == EraseOpt(y))
    decreases x, 0
  {
    if x.Some? && y.Some? {
      EqualsErased(x.value, y.value);
    }
  }

  lemma {:induction false} SeqErased(xs: seq<Expr>, ys: seq<Expr>)
    requires EverySeq(xs, IsNotOther)
    ensures SeqEquals(Default, xs, ys) == Ok(EraseSeq(xs) == EraseSeq(ys))
    decreases xs, 1
  {
    if |xs| == |ys| {
      PairwiseErased(xs, ys);
    }
  }

  lemma {:induction false} PairwiseErased(xs: seq<Expr>, ys: seq<Expr>)
    requires |xs| == |ys| && EverySeq(xs, IsNotOther)
    ensures PairwiseEquals(Default, xs, ys) == Ok(EraseSeq(xs) == EraseSeq(ys))
    decreases xs, 0
  {
    if |xs| > 0 {
      EqualsErased(xs[0], ys[0]);
      PairwiseErased(xs[1..], ys[1..]);
      ConsEquals(Erase(xs[0]), EraseSeq(xs[1..]), Erase(ys[0]), EraseSeq(ys[1..]));
    }
  }

  lemma {:induction false} InitErased(x: ElementInit, y: ElementInit)
    requires EverySeq(x.args, IsNotOther)
    ensures ElementInitEquals(Default, x, y) == Ok(EraseInit(x) == EraseInit(y))
    decreases x, 0
  {
    if x != y {
      SeqErased(x.args, y.args);
    }
  }

  lemma {:induction false} InitsErased(xs: seq<ElementInit>, ys: seq<ElementInit>)
    requires EveryInits(xs, IsNotOther)
    ensures InitsEqual(Default, xs, ys) == Ok(EraseInits(xs) == EraseInits(ys))
    decreases xs, 2
  {
    if |xs| == |ys| {
      PairwiseInitsErased(xs, ys);
    }
  }

  lemma {:induction false} PairwiseInitsErased(xs: seq<ElementInit>, ys: seq<ElementInit>)
    requires |xs| == |ys| && EveryInits(xs, IsNotOther)
    ensures PairwiseInitsEqual(Default, xs, ys) == Ok(EraseInits(xs) == EraseInits(ys))
    decreases xs, 1
  {
    if |xs| > 0 {
      InitErased(xs[0], ys[0]);
      PairwiseInitsErased(xs[1..], ys[1..]);
      ConsEquals(EraseInit(xs[0]), EraseInits(xs[1..]), EraseInit(ys[0]), EraseInits(ys[1..]));
    }
  }

  lemma {:induction false} BindingErased(x: Binding, y: Binding)
    requires EveryBinding(x, IsNotOther)
    ensures BindingEquals(Default, x, y) == Ok(EraseBinding(x) == EraseBinding(y))
    decreases x, 0
  {
    if x != y && BindingTypeCode(x) == BindingTypeCode(y) && x.member == y.member {
      match x
      case Assignment(_, _, expr) => EqualsErased(expr, y.expr);
      case ListBinding(_, _, inits) => InitsErased(inits, y.inits);
      case MemberMemberBinding(_, _, bs) => BindingsErased(bs, y.bindings);
    }
  }

  lemma {:induction false} BindingsErased(xs: seq<Binding>, ys: seq<Binding>)
    requires EveryBindings(xs, IsNotOther)
    ensures BindingsEqual(Default, xs, ys) == Ok(EraseBindings(xs) == EraseBindings(ys))
    decreases xs, 2
  {
    if |xs| == |ys| {
      PairwiseBindingsErased(xs, ys);
    }
  }

  lemma {:induction false} PairwiseBindingsErased(xs: seq<Binding>, ys: seq<Binding>)
    requires |xs| == |ys| && EveryBindings(xs, IsNotOther)
    ensures PairwiseBindingsEqual(Default, xs, ys) == Ok(EraseBindings(xs) == EraseBindings(ys))
    decreases xs, 1
  {
    if |xs| > 0 {
      BindingErased(xs[0], ys[0]);
      PairwiseBindingsErased(xs[1..], ys[1..]);
      ConsEquals(EraseBinding(xs[0]), EraseBindings(xs[1..]), EraseBinding(ys[0]), EraseBindings(ys[1..]));
    }
  }

  // ---------------------------------------------------------------------------
  // Hash codes

  /** `Type.GetHashCode`, `MemberInfo.GetHashCode` and `MethodInfo.GetHashCode`:
      runtime hashes the model leaves open. */
  datatype Hashers = Hashers(typeHash: Ty -> bv32, memberHash: MemberId -> bv32, methodHash: MethodId -> bv32)

  /** The bits of a 32-bit `int`, two's complement. */
  function Int32(i: int): bv32 {
    (i % 0x1_0000_0000) as bv32
  }

  /** `ExpressionComparer<T>.GetHashCode`: type hash xor node type. */
  function GetHashCode(h: Hashers, e: Expr): bv32 {
    h.typeHash(e.ty) ^ Int32(NodeTypeCode(NodeTypeOf(e)))
  }

  /** `LambdaComparer.GetHashCode`: also xor the parameter count. */
  function LambdaHash(h: Hashers, e: Expr): bv32
    requires e.LambdaExpr?
  {
    GetHashCode(h, e) ^ Int32(|e.params|)
  }

  /** `MethodCallComparer.GetHashCode`: also xor the argument count. */
  function CallHash(h: Hashers, e: Expr): bv32
    requires e.CallExpr?
  {
    GetHashCode(h, e) ^ Int32(|e.args|)
  }

  /** `MemberComparer.GetHashCode`: also xor the member's hash. */
  function MemberHash(h: Hashers, e: Expr): bv32
    requires e.MemberExpr?
  {
    GetHashCode(h, e) ^ h.memberHash(e.member)
  }

  /** `ElementInitComparer.GetHashCode`: the add method's hash. */
  function ElementInitHash(h: Hashers, init: ElementInit): bv32 {
    h.methodHash(init.addFn)
  }

  /** `MemberBindingComparer.GetHashCode`: binding type xor member hash. */
  function BindingHash(h: Hashers, b: Binding): bv32 {
    Int32(BindingTypeCode(b)) ^ h.memberHash(b.member)
  }
}
