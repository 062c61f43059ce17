/** Expression trees (System.Linq.Expressions) as an inductive datatype.
    Methods, constructors and members are opaque identifiers; every node,
    element initializer, member binding and initializer collection carries
    the `id` of the object it is, so reference equality is value equality
    and separately built identical trees are different objects. */
module Expressions {
  import opened Base
  import opened Types

  type MethodId = nat
  type MemberId = nat

  /** `ExpressionType`: the kinds the code distinguishes, and the rest. */
  datatype NodeType =
    | Add | AndAlso | Call | Conditional | Constant | Convert | Equal | Lambda
    | ListInit | MemberAccess | MemberInit | Multiply | Negate | New
    | NewArrayInit | NewArrayBounds | Not | NotEqual | OrElse | Parameter
    | Subtract | OtherNodeType(code: int)

  /** The numeric value of the `ExpressionType` member, which is also its hash. */
  function NodeTypeCode(t: NodeType): int {
    match t
    case Add => 0
    case AndAlso => 3
    case Call => 6
    case Conditional => 8
    case Constant => 9
    case Convert => 10
    case Equal => 13
    case Lambda => 18
    case ListInit => 22
    case MemberAccess => 23
    case MemberInit => 24
    case Multiply => 26
    case Negate => 28
    case New => 31
    case NewArrayInit => 32
    case NewArrayBounds => 33
    case Not => 34
    case NotEqual => 35
    case OrElse => 37
    case Parameter => 38
    case Subtract => 42
    case OtherNodeType(code) => code
  }

  /** The value a constant holds (`null`, a boxed primitive, or an object). */
  datatype Value =
    | NullValue
    | BoolValue(b: bool)
    | IntValue(i: int)
    | StringValue(s: string)
    | ObjectValue(ref: nat, runtimeType: Ty)

  /** `value.GetType()` of a non-null value. */
  function RuntimeType(v: Value): Ty
    requires !v.NullValue?
  {
    match v
    case BoolValue(_) => BoolType
    case IntValue(_) => IntType
    case StringValue(_) => StringType
    case ObjectValue(_, t) => t
  }

  /** A `ParameterExpression` in a lambda's parameter list. */
  datatype Param = Param(id: Id, ty: Ty, name: Option<string>)

  datatype Expr =
    | LambdaExpr(id: Id, ty: Ty, params: seq<Param>, body: Expr)
    | ParameterExpr(id: Id, ty: Ty, name: Option<string>)
    | CallExpr(id: Id, ty: Ty, callee: MethodId, target: Option<Expr>, args: seq<Expr>)
    | MemberExpr(id: Id, ty: Ty, member: MemberId, target: Option<Expr>)
    | BinaryExpr(id: Id, ty: Ty, op: NodeType, fn: Option<MethodId>, left: Expr, right: Expr)
    | ConstantExpr(id: Id, ty: Ty, value: Value)
    | UnaryExpr(id: Id, ty: Ty, op: NodeType, fn: Option<MethodId>, operand: Expr)
    | NewArrayExpr(id: Id, ty: Ty, op: NodeType, elems: seq<Expr>)
    | NewExpr(id: Id, ty: Ty, ctor: MethodId, args: seq<Expr>, members: Option<seq<MemberId>>)
    | MemberInitExpr(id: Id, ty: Ty, newExpr: Expr, bindings: seq<Binding>)
    | ConditionalExpr(id: Id, ty: Ty, test: Expr, ifTrue: Expr, ifFalse: Expr)
    | ListInitExpr(id: Id, ty: Ty, newExpr: Expr, inits: InitList)
    | OtherExpr(id: Id, ty: Ty, op: NodeType, children: seq<Expr>, className: string)

  /** `LambdaExpression`: a tree whose root is a lambda. */
  type LambdaExpression = e: Expr | e.LambdaExpr? witness LambdaExpr(0, ObjectType, [], ConstantExpr(0, ObjectType, NullValue))

  /** The read-only collection of a list initializer's `ElementInit`s. */
  datatype InitList = InitList(id: Id, items: seq<ElementInit>)

  datatype ElementInit = ElementInit(id: Id, addFn: MethodId, args: seq<Expr>)

  /** `MemberAssignment`, `MemberListBinding` and `MemberMemberBinding`. */
  datatype Binding =
    | Assignment(id: Id, member: MemberId, expr: Expr)
    | ListBinding(id: Id, member: MemberId, inits: seq<ElementInit>)
    | MemberMemberBinding(id: Id, member: MemberId, bindings: seq<Binding>)

  /** The parameter as an expression node: the same object. */
  function ParamExpr(p: Param): (r: Expr)
    ensures r.ParameterExpr? && r.id == p.id && r.ty == p.ty && r.name == p.name
  {
    ParameterExpr(p.id, p.ty, p.name)
  }

  /** `Expression.NodeType`. */
  function NodeTypeOf(e: Expr): NodeType {
    match e
    case LambdaExpr(_, _, _, _) => Lambda
    case ParameterExpr(_, _, _) => Parameter
    case CallExpr(_, _, _, _, _) => Call
    case MemberExpr(_, _, _, _) => MemberAccess
    case BinaryExpr(_, _, op, _, _, _) => op
    case ConstantExpr(_, _, _) => Constant
    case UnaryExpr(_, _, op, _, _) => op
    case NewArrayExpr(_, _, op, _) => op
    case NewExpr(_, _, _, _, _) => New
    case MemberInitExpr(_, _, _, _) => MemberInit
    case ConditionalExpr(_, _, _, _, _) => Conditional
    case ListInitExpr(_, _, _, _) => ListInit
    case OtherExpr(_, _, op, _, _) => op
  }

  /** A node class: one of the classes the model distinguishes by kind, or
      another class, known by its name. */
  datatype NodeClass = KnownClass(code: nat) | OtherClass(name: string)

  /** `GetType()`: the node class. */
  function ClassOf(e: Expr): NodeClass {
    match e
    case LambdaExpr(_, _, _, _) => KnownClass(0)
    case ParameterExpr(_, _, _) => KnownClass(1)
    case CallExpr(_, _, _, _, _) => KnownClass(2)
    case MemberExpr(_, _, _, _) => KnownClass(3)
    case BinaryExpr(_, _, _, _, _, _) => KnownClass(4)
    case ConstantExpr(_, ty, value) => KnownClass(ConstantCode(ty, value))
    case UnaryExpr(_, _, _, _, _) => KnownClass(6)
    case NewArrayExpr(_, _, _, _) => KnownClass(7)
    case NewExpr(_, _, _, _, _) => KnownClass(8)
    case MemberInitExpr(_, _, _, _) => KnownClass(9)
    case ConditionalExpr(_, _, _, _, _) => KnownClass(10)
    case ListInitExpr(_, _, _, _) => KnownClass(11)
    case OtherExpr(_, _, _, _, className) => OtherClass(className)
  }

  /** Whether `Expression.Constant(value, type)` builds a plain
      `ConstantExpression`: for `null` of type `object` or a value whose
      runtime type is the static type. Otherwise it builds the subclass
      `TypedConstantExpression`. */
  predicate IsPlainConstant(ty: Ty, value: Value) {
    if value.NullValue? then ty == ObjectType else RuntimeType(value) == ty
  }

  /** The class code of a constant: 5 for `ConstantExpression`, 12 for
      `TypedConstantExpression`. */
  function ConstantCode(ty: Ty, value: Value): (r: nat)
    ensures r == 5 <==> IsPlainConstant(ty, value)
  {
    if IsPlainConstant(ty, value) then 5 else 12
  }

  /** `GetType().Name`: the name of the node class. */
  function ClassName(e: Expr): string {
    match e
    case LambdaExpr(_, _, _, _) => "LambdaExpression"
    case ParameterExpr(_, _, _) => "ParameterExpression"
    case CallExpr(_, _, _, _, _) => "MethodCallExpression"
    case MemberExpr(_, _, _, _) => "MemberExpression"
    case BinaryExpr(_, _, _, _, _, _) => "BinaryExpression"
    case ConstantExpr(_, ty, value) => if IsPlainConstant(ty, value) then "ConstantExpression" else "TypedConstantExpression"
    case UnaryExpr(_, _, _, _, _) => "UnaryExpression"
    case NewArrayExpr(_, _, _, _) => "NewArrayExpression"
    case NewExpr(_, _, _, _, _) => "NewExpression"
    case MemberInitExpr(_, _, _, _) => "MemberInitExpression"
    case ConditionalExpr(_, _, _, _, _) => "ConditionalExpression"
    case ListInitExpr(_, _, _, _) => "ListInitExpression"
    case OtherExpr(_, _, _, _, className) => className
  }

  /** `MemberBinding.BindingType` as its numeric value. */
  function BindingTypeCode(b: Binding): int {
    match b
    case Assignment(_, _, _) => 0
    case MemberMemberBinding(_, _, _) => 1
    case ListBinding(_, _, _) => 2
  }

  // ---------------------------------------------------------------------------
  // Every node satisfies a predicate

  /** `p` holds at every expression node of `e`, including those inside
      bindings and element initializers. */
  predicate Every(e: Expr, p: Expr -> bool)
    decreases e, 1
  {
    p(e) &&
    match e
    case LambdaExpr(_, _, _, body) => Every(body, p)
    case ParameterExpr(_, _, _) => true
    case CallExpr(_, _, _, target, args) => EveryOpt(target, p) && EverySeq(args, p)
    case MemberExpr(_, _, _, target) => EveryOpt(target, p)
    case BinaryExpr(_, _, _, _, left, right) => Every(left, p) && Every(right, p)
    case ConstantExpr(_, _, _) => true
    case UnaryExpr(_, _, _, _, operand) => Every(operand, p)
    case NewArrayExpr(_, _, _, elems) => EverySeq(elems, p)
    case NewExpr(_, _, _, args, _) => EverySeq(args, p)
    case MemberInitExpr(_, _, newExpr, bindings) => Every(newExpr, p) && EveryBindings(bindings, p)
    case ConditionalExpr(_, _, test, ifTrue, ifFalse) => Every(test, p) && Every(ifTrue, p) && Every(ifFalse, p)
    case ListInitExpr(_, _, newExpr, inits) => Every(newExpr, p) && EveryInits(inits.items, p)
    case OtherExpr(_, _, _, children, _) => EverySeq(children, p)
  }

  predicate EveryOpt(e: Option<Expr>, p: Expr -> bool)
    decreases e, 0
  {
    e.Some? ==> Every(e.value, p)
  }

  predicate EverySeq(es: seq<Expr>, p: Expr -> bool)
    decreases es, 0
  {
    |es| > 0 ==> Every(es[0], p) && EverySeq(es[1..], p)
  }

  predicate EveryInits(inits: seq<ElementInit>, p: Expr -> bool)
    decreases inits, 1
  {
    |inits| > 0 ==> EverySeq(inits[0].args, p) && EveryInits(inits[1..], p)
  }

  predicate EveryBinding(b: Binding, p: Expr -> bool)
    decreases b, 0
  {
    match b
    case Assignment(_, _, expr) => Every(expr, p)
    case ListBinding(_, _, inits) => EveryInits(inits, p)
    case MemberMemberBinding(_, _, bs) => EveryBindings(bs, p)
  }

  predicate EveryBindings(bindings: seq<Binding>, p: Expr -> bool)
    decreases bindings, 1
  {
    |bindings| > 0 ==> EveryBinding(bindings[0], p) && EveryBindings(bindings[1..], p)
  }

  /** The node is of a kind the comparer implements. */
  predicate IsNotOther(n: Expr) {
    !n.OtherExpr?
  }

  /** The node is not a constant. */
  predicate IsNotConstant(n: Expr) {
    !n.ConstantExpr?
  }

  // ---------------------------------------------------------------------------
  // Identity erasure

  /** The tree with every object identity (and the constructor of `new`
      nodes) forgotten: what remains is exactly what the structural
      comparer looks at. */
  function Erase(e: Expr): (r: Expr)
    ensures NodeTypeOf(r) == NodeTypeOf(e) && r.ty == e.ty && ClassOf(r) == ClassOf(e)
    decreases e, 1
  {
    match e
    case LambdaExpr(_, ty, params, body) => LambdaExpr(0, ty, EraseParams(params), Erase(body))
    case ParameterExpr(_, ty, name) => ParameterExpr(0, ty, name)
    case CallExpr(_, ty, callee, target, args) => CallExpr(0, ty, callee, EraseOpt(target), EraseSeq(args))
    case MemberExpr(_, ty, member, target) => MemberExpr(0, ty, member, EraseOpt(target))
    case BinaryExpr(_, ty, op, fn, left, right) => BinaryExpr(0, ty, op, fn, Erase(left), Erase(right))
    case ConstantExpr(_, ty, value) => ConstantExpr(0, ty, value)
    case UnaryExpr(_, ty, op, fn, operand) => UnaryExpr(0, ty, op, fn, Erase(operand))
    case NewArrayExpr(_, ty, op, elems) => NewArrayExpr(0, ty, op, EraseSeq(elems))
    case NewExpr(_, ty, _, args, members) => NewExpr(0, ty, 0, EraseSeq(args), members)
    case MemberInitExpr(_, ty, newExpr, bindings) => MemberInitExpr(0, ty, Erase(newExpr), EraseBindings(bindings))
    case ConditionalExpr(_, ty, test, ifTrue, ifFalse) => ConditionalExpr(0, ty, Erase(test), Erase(ifTrue), Erase(ifFalse))
    case ListInitExpr(_, ty, newExpr, inits) => ListInitExpr(0, ty, Erase(newExpr), InitList(0, EraseInits(inits.items)))
    case OtherExpr(_, ty, op, children, className) => OtherExpr(0, ty, op, EraseSeq(children), className)
  }

  function EraseParam(p: Param): Param {
    Param(0, p.ty, p.name)
  }

  function EraseParams(ps: seq<Param>): (r: seq<Param>)
    ensures |r| == |ps|
    ensures forall i :: 0 <= i < |ps| ==> r[i] == EraseParam(ps[i])
  {
    if |ps| == 0 then [] else [EraseParam(ps[0])] + EraseParams(ps[1..])
  }

  function EraseOpt(e: Option<Expr>): (r: Option<Expr>)
    ensures r.Some? <==> e.Some?
    decreases e, 0
  {
    match e
    case None => None
    case Some(x) => Some(Erase(x))
  }

  function EraseSeq(es: seq<Expr>): (r: seq<Expr>)
    ensures |r| == |es|
    decreases es, 0
  {
    if |es| == 0 then [] else [Erase(es[0])] + EraseSeq(es[1..])
  }

  function EraseInit(init: ElementInit): ElementInit
    decreases init, 0
  {
    ElementInit(0, init.addFn, EraseSeq(init.args))
  }

  function EraseInits(inits: seq<ElementInit>): (r: seq<ElementInit>)
    ensures |r| == |inits|
    decreases inits, 1
  {
    if |inits| == 0 then [] else [EraseInit(inits[0])] + EraseInits(inits[1..])
  }

  function EraseBinding(b: Binding): (r: Binding)
    ensures BindingTypeCode(r) == BindingTypeCode(b) && r.member == b.member
    decreases b, 0
  {
    match b
    case Assignment(_, member, expr) => Assignment(0, member, Erase(expr))
    case ListBinding(_, member, inits) => ListBinding(0, member, EraseInits(inits))
    case MemberMemberBinding(_, member, bs) => MemberMemberBinding(0, member, EraseBindings(bs))
  }

  function EraseBindings(bs: seq<Binding>): (r: seq<Binding>)
    ensures |r| == |bs|
    decreases bs, 1
  {
    if |bs| == 0 then [] else [EraseBinding(bs[0])] + EraseBindings(bs[1..])
  }
}
