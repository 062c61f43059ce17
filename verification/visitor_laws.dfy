/** Laws of the traversal shared by every visitor: a visit that has nothing
    to change returns the very same object and allocates nothing, and the
    override visitor replaces exactly what it is told to, in one pass. */
module VisitorLaws {
  import opened Base
  import opened Types
  import opened Expressions
  import opened ExpressionVisitors

  /** The visitor leaves this node itself alone: it is not a node to
      replace, not a constant (which the lifting and optimising visitors
      act on), its lambda parameters, if any, are kept, and an
      initialiser node holds a constructor call, as the runtime's node
      factory guarantees. */
  predicate Quiet(v: Visitor, n: Expr) {
    !(v.Override? && v.isReplace(n)) &&
    !(!v.Override? && n.ConstantExpr?) &&
    ((n.MemberInitExpr? || n.ListInitExpr?) ==> n.newExpr.NewExpr?) &&
    (n.LambdaExpr? ==> forall i :: 0 <= i < |n.params| ==> VisitParam(v, n.params[i]) == Ok(n.params[i]))
  }

  function QuietFor(v: Visitor): Expr -> bool {
    n => Quiet(v, n)
  }

  lemma {:induction false} ParamsIdentity(v: Visitor, ps: seq<Param>)
    requires forall i :: 0 <= i < |ps| ==> VisitParam(v, ps[i]) == Ok(ps[i])
    ensures VisitParams(v, ps) == Ok(ps)
  {
    if |ps| > 0 {
      ParamsIdentity(v, ps[1..]);
      assert [ps[0]] + ps[1..] == ps;
    }
  }

  /** When no node of the tree is one the visitor acts on, the visit
      returns the tree itself, the same object, and hands out no identity:
      every node kind is rebuilt only when one of its children changed. */
  lemma {:induction false} VisitIdentity(v: Visitor, e: Expr, st: VisitState)
    requires Every(e, QuietFor(v))
    ensures Visit(v, e, st) == Ok((e, st))
    decreases e, 2
  {
    assert Quiet(v, e);
    match e
    case ParameterExpr(_, _, _) =>
    case ConstantExpr(_, _, _) =>
    case LambdaExpr(_, _, _, _) => LeafwardIdentity(v, e, st);
    case CallExpr(_, _, _, _, _) => LeafwardIdentity(v, e, st);
    case MemberExpr(_, _, _, _) => LeafwardIdentity(v, e, st);
    case UnaryExpr(_, _, _, _, _) => LeafwardIdentity(v, e, st);
    case NewArrayExpr(_, _, _, _) => LeafwardIdentity(v, e, st);
    case NewExpr(_, _, _, _, _) => LeafwardIdentity(v, e, st);
    case OtherExpr(_, _, _, _, _) => LeafwardIdentity(v, e, st);
    case BinaryExpr(_, _, _, _, _, _) => BranchingIdentity(v, e, st);
    case MemberInitExpr(_, _, _, _) => BranchingIdentity(v, e, st);
    case ConditionalExpr(_, _, _, _, _) => BranchingIdentity(v, e, st);
    case ListInitExpr(_, _, _, _) => BranchingIdentity(v, e, st);
  }

  /** The identity law for the kinds with one child or one list of them. */
  lemma {:induction false} LeafwardIdentity(v: Visitor, e: Expr, st: VisitState)
    requires e.LambdaExpr? || e.CallExpr? || e.MemberExpr? || e.UnaryExpr? || e.NewArrayExpr? || e.NewExpr? || e.OtherExpr?
    requires Every(e, QuietFor(v))
    ensures Visit(v, e, st) == Ok((e, st))
    decreases e, 1
  {
    assert Quiet(v, e);
    match e
    case LambdaExpr(_, _, ps, body) =>
      VisitIdentity(v, body, st);
      ParamsIdentity(v, ps);
    case CallExpr(_, _, _, target, args) =>
      OptIdentity(v, target, st);
      SeqIdentity(v, args, st);
    case MemberExpr(_, _, _, target) =>
      OptIdentity(v, target, st);
    case UnaryExpr(_, _, _, _, operand) =>
      VisitIdentity(v, operand, st);
    case NewArrayExpr(_, _, _, elems) =>
      SeqIdentity(v, elems, st);
    case NewExpr(_, _, _, args, _) =>
      SeqIdentity(v, args, st);
    case OtherExpr(_, _, _, children, _) =>
      SeqIdentity(v, children, st);
  }

  /** The identity law for the kinds with two or three parts. */
  lemma {:induction false} BranchingIdentity(v: Visitor, e: Expr, st: VisitState)
    requires e.BinaryExpr? || e.MemberInitExpr? || e.ConditionalExpr? || e.ListInitExpr?
    requires Every(e, QuietFor(v))
    ensures Visit(v, e, st) == Ok((e, st))
    decreases e, 1
  {
    assert Quiet(v, e);
    match e
    case BinaryExpr(_, _, _, _, left, right) =>
      VisitIdentity(v, left, st);
      VisitIdentity(v, right, st);
    case MemberInitExpr(_, _, newExpr, bindings) =>
      VisitIdentity(v, newExpr, st);
      BindingsIdentity(v, bindings, st);
    case ConditionalExpr(_, _, test, ifTrue, ifFalse) =>
      VisitIdentity(v, test, st);
      VisitIdentity(v, ifTrue, st);
      VisitIdentity(v, ifFalse, st);
    case ListInitExpr(_, _, newExpr, inits) =>
      VisitIdentity(v, newExpr, st);
      InitsIdentity(v, inits.items, st);
  }

  lemma {:induction false} OptIdentity(v: Visitor, e: Option<Expr>, st: VisitState)
    requires EveryOpt(e, QuietFor(v))
    ensures VisitOpt(v, e, st) == Ok((e, st))
    decreases e, 0
  {
    if e.Some? {
      VisitIdentity(v, e.value, st);
    }
  }

  lemma {:induction false} SeqIdentity(v: Visitor, es: seq<Expr>, st: VisitState)
    requires EverySeq(es, QuietFor(v))
    ensures VisitSeq(v, es, st) == Ok((es, st))
    decreases es, 1
  {
    if |es| > 0 {
      VisitIdentity(v, es[0], st);
      SeqIdentity(v, es[1..], st);
      assert [es[0]] + es[1..] == es;
    }
  }

  lemma {:induction false} InitIdentity(v: Visitor, init: ElementInit, st: VisitState)
    requires EverySeq(init.args, QuietFor(v))
    ensures VisitInit(v, init, st) == Ok((init, st))
    decreases init, 0
  {
    SeqIdentity(v, init.args, st);
  }

  lemma {:induction false} InitsIdentity(v: Visitor, inits: seq<ElementInit>, st: VisitState)
    requires EveryInits(inits, QuietFor(v))
    ensures VisitInits(v, inits, st) == Ok((inits, st))
    decreases inits, 1
  {
    if |inits| > 0 {
      InitIdentity(v, inits[0], st);
      InitsIdentity(v, inits[1..], st);
      assert [inits[0]] + inits[1..] == inits;
    }
  }

  lemma {:induction false} BindingIdentity(v: Visitor, b: Binding, st: VisitState)
    requires EveryBinding(b, QuietFor(v))
    ensures VisitBinding(v, b, st) == Ok((b, st))
    decreases b, 0
  {
    match b
    case Assignment(_, _, expr) => VisitIdentity(v, expr, st);
    case ListBinding(_, _, inits) => InitsIdentity(v, inits, st);
    case MemberMemberBinding(_, _, bs) => BindingsIdentity(v, bs, st);
  }

  lemma {:induction false} BindingsIdentity(v: Visitor, bs: seq<Binding>, st: VisitState)
    requires EveryBindings(bs, QuietFor(v))
    ensures VisitBindings(v, bs, st) == Ok((bs, st))
    decreases bs, 1
  {
    if |bs| > 0 {
      BindingIdentity(v, bs[0], st);
      BindingsIdentity(v, bs[1..], st);
      assert [bs[0]] + bs[1..] == bs;
    }
  }

  // ---------------------------------------------------------------------------
  // OverrideExpressionVisitor: one pass, nothing left to replace

  /** The node is not one the override visitor replaces. */
  function Kept(v: Visitor): Expr -> bool
    requires v.Override?
  {
    n => !v.isReplace(n)
  }

  /** Every node the visitor replaces existed before identity `k` was handed
      out, so no node the visit builds is one of them. */
  ghost predicate ReplacesOnlyOlder(v: Visitor, k: nat)
    requires v.Override?
  {
    forall n :: v.isReplace(n) ==> n.id < k
  }

  /** A successful override visit leaves no node to replace in the result,
      provided the replacement holds none itself: the replacement is not
      visited again, and the visit only adds new objects. */
  lemma {:induction false} OverrideLeavesNone(v: Visitor, e: Expr, st: VisitState)
    requires v.Override? && Every(v.newExpr, Kept(v)) && ReplacesOnlyOlder(v, st.nextId)
    ensures Visit(v, e, st).Ok? ==> Visit(v, e, st).value.1.nextId >= st.nextId && Every(Visit(v, e, st).value.0, Kept(v))
    decreases e, 2
  {
    if !v.isReplace(e) {
      match e
      case LambdaExpr(_, _, _, _) => LambdaLeavesNone(v, e, st);
      case ParameterExpr(_, _, _) =>
      case CallExpr(_, _, _, _, _) => CallLeavesNone(v, e, st);
      case MemberExpr(_, _, _, _) => MemberLeavesNone(v, e, st);
      case BinaryExpr(_, _, _, _, _, _) => BinaryLeavesNone(v, e, st);
      case ConstantExpr(_, _, _) =>
      case UnaryExpr(_, _, _, _, _) => UnaryLeavesNone(v, e, st);
      case NewArrayExpr(_, _, _, _) => NewArrayLeavesNone(v, e, st);
      case NewExpr(_, _, _, _, _) => NewLeavesNone(v, e, st);
      case MemberInitExpr(_, _, _, _) => MemberInitLeavesNone(v, e, st);
      case ConditionalExpr(_, _, _, _, _) => ConditionalLeavesNone(v, e, st);
      case ListInitExpr(_, _, _, _) => ListInitLeavesNone(v, e, st);
      case OtherExpr(_, _, _, _, _) => OtherLeavesNone(v, e, st);
    }
  }

  lemma {:induction false} LambdaLeavesNone(v: Visitor, e: Expr, st: VisitState)
    requires v.Override? && e.LambdaExpr? && !v.isReplace(e) && Every(v.newExpr, Kept(v)) && ReplacesOnlyOlder(v, st.nextId)
    ensures Visit(v, e, st).Ok? ==> Visit(v, e, st).value.1.nextId >= st.nextId && Every(Visit(v, e, st).value.0, Kept(v))
    decreases e, 1
  {
    OverrideLeavesNone(v, e.body, st);
  }

  lemma {:induction false} CallLeavesNone(v: Visitor, e: Expr, st: VisitState)
    requires v.Override? && e.CallExpr? && !v.isReplace(e) && Every(v.newExpr, Kept(v)) && ReplacesOnlyOlder(v, st.nextId)
    ensures Visit(v, e, st).Ok? ==> Visit(v, e, st).value.1.nextId >= st.nextId && Every(Visit(v, e, st).value.0, Kept(v))
    decreases e, 1
  {
    OptLeavesNone(v, e.target, st);
    if VisitOpt(v, e.target, st).Ok? {
      SeqLeavesNone(v, e.args, VisitOpt(v, e.target, st).value.1);
    }
  }

  lemma {:induction false} MemberLeavesNone(v: Visitor, e: Expr, st: VisitState)
    requires v.Override? && e.MemberExpr? && !v.isReplace(e) && Every(v.newExpr, Kept(v)) && ReplacesOnlyOlder(v, st.nextId)
    ensures Visit(v, e, st).Ok? ==> Visit(v, e, st).value.1.nextId >= st.nextId && Every(Visit(v, e, st).value.0, Kept(v))
    decreases e, 1
  {
    OptLeavesNone(v, e.target, st);
  }

  lemma {:induction false} BinaryLeavesNone(v: Visitor, e: Expr, st: VisitState)
    requires v.Override? && e.BinaryExpr? && !v.isReplace(e) && Every(v.newExpr, Kept(v)) && ReplacesOnlyOlder(v, st.nextId)
    ensures Visit(v, e, st).Ok? ==> Visit(v, e, st).value.1.nextId >= st.nextId && Every(Visit(v, e, st).value.0, Kept(v))
    decreases e, 1
  {
    OverrideLeavesNone(v, e.left, st);
    if Visit(v, e.left, st).Ok? {
      OverrideLeavesNone(v, e.right, Visit(v, e.left, st).value.1);
    }
  }

  lemma {:induction false} UnaryLeavesNone(v: Visitor, e: Expr, st: VisitState)
    requires v.Override? && e.UnaryExpr? && !v.isReplace(e) && Every(v.newExpr, Kept(v)) && ReplacesOnlyOlder(v, st.nextId)
    ensures Visit(v, e, st).Ok? ==> Visit(v, e, st).value.1.nextId >= st.nextId && Every(Visit(v, e, st).value.0, Kept(v))
    decreases e, 1
  {
    OverrideLeavesNone(v, e.operand, st);
  }

  lemma {:induction false} NewArrayLeavesNone(v: Visitor, e: Expr, st: VisitState)
    requires v.Override? && e.NewArrayExpr? && !v.isReplace(e) && Every(v.newExpr, Kept(v)) && ReplacesOnlyOlder(v, st.nextId)
    ensures Visit(v, e, st).Ok? ==> Visit(v, e, st).value.1.nextId >= st.nextId && Every(Visit(v, e, st).value.0, Kept(v))
    decreases e, 1
  {
    SeqLeavesNone(v, e.elems, st);
  }

  lemma {:induction false} NewLeavesNone(v: Visitor, e: Expr, st: VisitState)
    requires v.Override? && e.NewExpr? && !v.isReplace(e) && Every(v.newExpr, Kept(v)) && ReplacesOnlyOlder(v, st.nextId)
    ensures Visit(v, e, st).Ok? ==> Visit(v, e, st).value.1.nextId >= st.nextId && Every(Visit(v, e, st).value.0, Kept(v))
    decreases e, 1
  {
    SeqLeavesNone(v, e.args, st);
  }

  lemma {:induction false} MemberInitLeavesNone(v: Visitor, e: Expr, st: VisitState)
    requires v.Override? && e.MemberInitExpr? && !v.isReplace(e) && Every(v.newExpr, Kept(v)) && ReplacesOnlyOlder(v, st.nextId)
    ensures Visit(v, e, st).Ok? ==> Visit(v, e, st).value.1.nextId >= st.nextId && Every(Visit(v, e, st).value.0, Kept(v))
    decreases e, 1
  {
    OverrideLeavesNone(v, e.newExpr, st);
    if Visit(v, e.newExpr, st).Ok? {
      BindingsLeaveNone(v, e.bindings, Visit(v, e.newExpr, st).value.1);
    }
  }

  lemma {:induction false} ConditionalLeavesNone(v: Visitor, e: Expr, st: VisitState)
    requires v.Override? && e.ConditionalExpr? && !v.isReplace(e) && Every(v.newExpr, Kept(v)) && ReplacesOnlyOlder(v, st.nextId)
    ensures Visit(v, e, st).Ok? ==> Visit(v, e, st).value.1.nextId >= st.nextId && Every(Visit(v, e, st).value.0, Kept(v))
    decreases e, 1
  {
    OverrideLeavesNone(v, e.test, st);
    if Visit(v, e.test, st).Ok? {
      var s1 := Visit(v, e.test, st).value.1;
      OverrideLeavesNone(v, e.ifTrue, s1);
      if Visit(v, e.ifTrue, s1).Ok? {
        OverrideLeavesNone(v, e.ifFalse, Visit(v, e.ifTrue, s1).value.1);
      }
    }
  }

  lemma {:induction false} ListInitLeavesNone(v: Visitor, e: Expr, st: VisitState)
    requires v.Override? && e.ListInitExpr? && !v.isReplace(e) && Every(v.newExpr, Kept(v)) && ReplacesOnlyOlder(v, st.nextId)
    ensures Visit(v, e, st).Ok? ==> Visit(v, e, st).value.1.nextId >= st.nextId && Every(Visit(v, e, st).value.0, Kept(v))
    decreases e, 1
  {
    OverrideLeavesNone(v, e.newExpr, st);
    if Visit(v, e.newExpr, st).Ok? {
      InitsLeaveNone(v, e.inits.items, Visit(v, e.newExpr, st).value.1);
    }
  }

  lemma {:induction false} OtherLeavesNone(v: Visitor, e: Expr, st: VisitState)
    requires v.Override? && e.OtherExpr? && !v.isReplace(e) && Every(v.newExpr, Kept(v)) && ReplacesOnlyOlder(v, st.nextId)
    ensures Visit(v, e, st).Ok? ==> Visit(v, e, st).value.1.nextId >= st.nextId && Every(Visit(v, e, st).value.0, Kept(v))
    decreases e, 1
  {
    SeqLeavesNone(v, e.children, st);
  }

  lemma {:induction false} OptLeavesNone(v: Visitor, e: Option<Expr>, st: VisitState)
    requires v.Override? && Every(v.newExpr, Kept(v)) && ReplacesOnlyOlder(v, st.nextId)
    ensures VisitOpt(v, e, st).Ok? ==> VisitOpt(v, e, st).value.1.nextId >= st.nextId && EveryOpt(VisitOpt(v, e, st).value.0, Kept(v))
    decreases e, 0
  {
    if e.Some? {
      OverrideLeavesNone(v, e.value, st);
    }
  }

  lemma {:induction false} SeqLeavesNone(v: Visitor, es: seq<Expr>, st: VisitState)
    requires v.Override? && Every(v.newExpr, Kept(v)) && ReplacesOnlyOlder(v, st.nextId)
    ensures VisitSeq(v, es, st).Ok? ==> VisitSeq(v, es, st).value.1.nextId >= st.nextId && EverySeq(VisitSeq(v, es, st).value.0, Kept(v))
    decreases es, 1
  {
    if |es| > 0 {
      OverrideLeavesNone(v, es[0], st);
      if Visit(v, es[0], st).Ok? {
        var h := Visit(v, es[0], st).value;
        SeqLeavesNone(v, es[1..], h.1);
        if VisitSeq(v, es[1..], h.1).Ok? {
          var t := VisitSeq(v, es[1..], h.1).value;
          assert ([h.0] + t.0)[1..] == t.0;
        }
      }
    }
  }

  lemma {:induction false} InitLeavesNone(v: Visitor, init: ElementInit, st: VisitState)
    requires v.Override? && Every(v.newExpr, Kept(v)) && ReplacesOnlyOlder(v, st.nextId)
    ensures VisitInit(v, init, st).Ok? ==> VisitInit(v, init, st).value.1.nextId >= st.nextId && EverySeq(VisitInit(v, init, st).value.0.args, Kept(v))
    decreases init, 0
  {
    SeqLeavesNone(v, init.args, st);
  }

  lemma {:induction false} InitsLeaveNone(v: Visitor, inits: seq<ElementInit>, st: VisitState)
    requires v.Override? && Every(v.newExpr, Kept(v)) && ReplacesOnlyOlder(v, st.nextId)
    ensures VisitInits(v, inits, st).Ok? ==> VisitInits(v, inits, st).value.1.nextId >= st.nextId && EveryInits(VisitInits(v, inits, st).value.0, Kept(v))
    decreases inits, 1
  {
    if |inits| > 0 {
      InitLeavesNone(v, inits[0], st);
      if VisitInit(v, inits[0], st).Ok? {
        var h := VisitInit(v, inits[0], st).value;
        InitsLeaveNone(v, inits[1..], h.1);
        if VisitInits(v, inits[1..], h.1).Ok? {
          var t := VisitInits(v, inits[1..], h.1).value;
          assert ([h.0] + t.0)[1..] == t.0;
        }
      }
    }
  }

  lemma {:induction false} BindingLeavesNone(v: Visitor, b: Binding, st: VisitState)
    requires v.Override? && Every(v.newExpr, Kept(v)) && ReplacesOnlyOlder(v, st.nextId)
    ensures VisitBinding(v, b, st).Ok? ==> VisitBinding(v, b, st).value.1.nextId >= st.nextId && EveryBinding(VisitBinding(v, b, st).value.0, Kept(v))
    decreases b, 0
  {
    match b
    case Assignment(_, _, expr) => OverrideLeavesNone(v, expr, st);
    case ListBinding(_, _, inits) => InitsLeaveNone(v, inits, st);
    case MemberMemberBinding(_, _, bs) => BindingsLeaveNone(v, bs, st);
  }

  lemma {:induction false} BindingsLeaveNone(v: Visitor, bs: seq<Binding>, st: VisitState)
    requires v.Override? && Every(v.newExpr, Kept(v)) && ReplacesOnlyOlder(v, st.nextId)
    ensures VisitBindings(v, bs, st).Ok? ==> VisitBindings(v, bs, st).value.1.nextId >= st.nextId && EveryBindings(VisitBindings(v, bs, st).value.0, Kept(v))
    decreases bs, 1
  {
    if |bs| > 0 {
      BindingLeavesNone(v, bs[0], st);
      if VisitBinding(v, bs[0], st).Ok? {
        var h := VisitBinding(v, bs[0], st).value;
        BindingsLeaveNone(v, bs[1..], h.1);
        if VisitBindings(v, bs[1..], h.1).Ok? {
          var t := VisitBindings(v, bs[1..], h.1).value;
          assert ([h.0] + t.0)[1..] == t.0;
        }
      }
    }
  }
}
