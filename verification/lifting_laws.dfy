/** The constant-lifting visitor of `LambdaCompileCache`: every constant
    becomes a fresh parameter of its type, named `OverrideConst_k` in visit
    order, and is recorded with it; the rewritten tree holds no constant;
    the rewrite does not depend on the constants' values, so lambdas that
    differ only in them rewrite to comparer-equal keys; and binding the new
    parameters to the recorded values gives the rewritten expression the
    value of the original. */
module LiftingLaws {
  import opened Base
  import opened Types
  import opened Expressions
  import opened ExpressionComparers
  import opened ExpressionVisitors
  import opened OptimizerLaws
  import VisitorLaws

  /** What the runtime's node factories guarantee: the `new` part of a
      member or list initializer is a `new` node. */
  predicate InitShaped(n: Expr) {
    (n.MemberInitExpr? || n.ListInitExpr?) ==> n.newExpr.NewExpr?
  }

  /** A node of a lifted tree: not a constant, and initializer-shaped. */
  predicate LiftedNode(n: Expr) {
    !n.ConstantExpr? && InitShaped(n)
  }

  // ---------------------------------------------------------------------------
  // The constants of a tree, in the order the visitor meets them

  function Constants(e: Expr): (r: seq<Expr>)
    ensures forall i :: 0 <= i < |r| ==> r[i].ConstantExpr?
    decreases e, 1
  {
    match e
    case LambdaExpr(_, _, _, body) => Constants(body)
    case ParameterExpr(_, _, _) => []
    case CallExpr(_, _, _, target, args) => ConstantsOpt(target) + ConstantsSeq(args)
    case MemberExpr(_, _, _, target) => ConstantsOpt(target)
    case BinaryExpr(_, _, _, _, left, right) => Constants(left) + Constants(right)
    case ConstantExpr(_, _, _) => [e]
    case UnaryExpr(_, _, _, _, operand) => Constants(operand)
    case NewArrayExpr(_, _, _, elems) => ConstantsSeq(elems)
    case NewExpr(_, _, _, args, _) => ConstantsSeq(args)
    case MemberInitExpr(_, _, newExpr, bindings) => Constants(newExpr) + ConstantsBindings(bindings)
    case ConditionalExpr(_, _, test, ifTrue, ifFalse) => Constants(test) + Constants(ifTrue) + Constants(ifFalse)
    case ListInitExpr(_, _, newExpr, inits) => Constants(newExpr) + ConstantsInits(inits.items)
    case OtherExpr(_, _, _, children, _) => ConstantsSeq(children)
  }

  function ConstantsOpt(e: Option<Expr>): (r: seq<Expr>)
    ensures forall i :: 0 <= i < |r| ==> r[i].ConstantExpr?
    decreases e, 0
  {
    match e
    case None => []
    case Some(x) => Constants(x)
  }

  function ConstantsSeq(es: seq<Expr>): (r: seq<Expr>)
    ensures forall i :: 0 <= i < |r| ==> r[i].ConstantExpr?
    decreases es, 0
  {
    if |es| == 0 then [] else Constants(es[0]) + ConstantsSeq(es[1..])
  }

  function ConstantsInits(inits: seq<ElementInit>): (r: seq<Expr>)
    ensures forall i :: 0 <= i < |r| ==> r[i].ConstantExpr?
    decreases inits, 1
  {
    if |inits| == 0 then [] else ConstantsSeq(inits[0].args) + ConstantsInits(inits[1..])
  }

  function ConstantsBinding(b: Binding): (r: seq<Expr>)
    ensures forall i :: 0 <= i < |r| ==> r[i].ConstantExpr?
    decreases b, 0
  {
    match b
    case Assignment(_, _, expr) => Constants(expr)
    case ListBinding(_, _, inits) => ConstantsInits(inits)
    case MemberMemberBinding(_, _, bs) => ConstantsBindings(bs)
  }

  function ConstantsBindings(bs: seq<Binding>): (r: seq<Expr>)
    ensures forall i :: 0 <= i < |r| ==> r[i].ConstantExpr?
    decreases bs, 1
  {
    if |bs| == 0 then [] else ConstantsBinding(bs[0]) + ConstantsBindings(bs[1..])
  }

  // ---------------------------------------------------------------------------
  // What a visit records

  /** Going from `st` to `st2`, the visit recorded exactly one pair per
      constant of `cs`, in order, after the pairs already there. */
  predicate Records(st: VisitState, cs: seq<Expr>, st2: VisitState) {
    st.nextId <= st2.nextId &&
    |st2.lifted| == |st.lifted| + |cs| &&
    st2.lifted[..|st.lifted|] == st.lifted &&
    Fresh(st2.lifted[|st.lifted|..], cs, |st.lifted|, st.nextId, st2.nextId)
  }

  /** The pairs `added` lift the constants `cs`, counting names from `k`:
      the i-th pair holds the i-th constant and a parameter of its type
      named `OverrideConst_(k+i)`, whose identity lies in `[lo, hi)` and is
      larger than those of the pairs before it. */
  predicate Fresh(added: seq<(Param, Expr)>, cs: seq<Expr>, k: nat, lo: nat, hi: nat) {
    |added| == |cs| &&
    (forall i :: 0 <= i < |added| ==>
       added[i].1 == cs[i] && added[i].0.ty == cs[i].ty &&
       added[i].0.name == Some(LiftedName(k + i)) && lo <= added[i].0.id < hi) &&
    (forall i, j :: 0 <= i < j < |added| ==> added[i].0.id < added[j].0.id)
  }

  lemma FreshAppend(a: seq<(Param, Expr)>, xs: seq<Expr>, b: seq<(Param, Expr)>, ys: seq<Expr>, k: nat, lo: nat, mid: nat, hi: nat)
    requires lo <= mid <= hi && Fresh(a, xs, k, lo, mid) && Fresh(b, ys, k + |xs|, mid, hi)
    ensures Fresh(a + b, xs + ys, k, lo, hi)
  {
    var ab := a + b;
    forall i | 0 <= i < |ab|
      ensures ab[i].1 == (xs + ys)[i] && ab[i].0.ty == (xs + ys)[i].ty
      ensures ab[i].0.name == Some(LiftedName(k + i)) && lo <= ab[i].0.id < hi
    {
      if i >= |a| {
        assert ab[i] == b[i - |a|];
      }
    }
    forall i, j | 0 <= i < j < |ab|
      ensures ab[i].0.id < ab[j].0.id
    {
      if j < |a| {
      } else if i < |a| {
        assert ab[i].0.id < mid <= b[j - |a|].0.id;
      } else {
        assert ab[i] == b[i - |a|] && ab[j] == b[j - |a|];
      }
    }
  }

  /** Two visits in a row record the constants of both, in order. */
  lemma RecordsCompose(st1: VisitState, xs: seq<Expr>, st2: VisitState, ys: seq<Expr>, st3: VisitState)
    requires Records(st1, xs, st2) && Records(st2, ys, st3)
    ensures Records(st1, xs + ys, st3)
  {
    var n1, n2 := |st1.lifted|, |st2.lifted|;
    assert st3.lifted[..n1] == st3.lifted[..n2][..n1];
    assert st3.lifted == st2.lifted + st3.lifted[n2..];
    assert st3.lifted[n1..] == st2.lifted[n1..] + st3.lifted[n2..];
    FreshAppend(st2.lifted[n1..], xs, st3.lifted[n2..], ys, n1, st1.nextId, st2.nextId, st3.nextId);
  }

  /** A visit that meets no constant records nothing. */
  lemma RecordsNothing(st: VisitState, st2: VisitState)
    requires st2.lifted == st.lifted && st.nextId <= st2.nextId
    ensures Records(st, [], st2)
  {
  }

  // ---------------------------------------------------------------------------
  // The lifting visit

  /** What lifting promises for one expression: it returns; the result holds
      no constant and is initializer-shaped; it has no unsupported node when
      the input had none; a non-constant keeps its node class; and the state
      records the expression's constants. */
  predicate Lifts(e: Expr, st: VisitState, r: Result<(Expr, VisitState)>) {
    r.Ok? && Every(r.value.0, LiftedNode) &&
    (Every(e, IsNotOther) ==> Every(r.value.0, IsNotOther)) &&
    (!e.ConstantExpr? ==> ClassOf(r.value.0) == ClassOf(e)) &&
    Records(st, Constants(e), r.value.1)
  }

  lemma {:induction false} LiftFacts(e: Expr, st: VisitState)
    requires Every(e, InitShaped)
    ensures Lifts(e, st, Visit(ConstantToParameter, e, st))
    decreases e, 2
  {
    match e
    case LambdaExpr(_, _, _, _) => LambdaLifts(e, st);
    case ParameterExpr(_, _, _) => RecordsNothing(st, st);
    case CallExpr(_, _, _, _, _) => CallLifts(e, st);
    case MemberExpr(_, _, _, _) => MemberLifts(e, st);
    case BinaryExpr(_, _, _, _, _, _) => BinaryLifts(e, st);
    case ConstantExpr(_, _, _) =>
    case UnaryExpr(_, _, _, _, _) => UnaryLifts(e, st);
    case NewArrayExpr(_, _, _, _) => NewArrayLifts(e, st);
    case NewExpr(_, _, _, _, _) => NewLifts(e, st);
    case MemberInitExpr(_, _, _, _) => MemberInitLifts(e, st);
    case ConditionalExpr(_, _, _, _, _) => ConditionalLifts(e, st);
    case ListInitExpr(_, _, _, _) => ListInitLifts(e, st);
    case OtherExpr(_, _, _, _, _) => OtherLifts(e, st);
  }

  /** Lifting a lambda: its body; the parameters stay. */
  lemma {:induction false} LambdaLifts(e: Expr, st: VisitState)
    requires e.LambdaExpr? && Every(e, InitShaped)
    ensures Lifts(e, st, Visit(ConstantToParameter, e, st))
    decreases e, 1
  {
    var v := ConstantToParameter;
    LiftFacts(e.body, st);
    VisitorLaws.ParamsIdentity(v, e.params);
  }

  /** Lifting a call: the target, then the arguments. */
  lemma {:induction false} CallLifts(e: Expr, st: VisitState)
    requires e.CallExpr? && Every(e, InitShaped)
    ensures Lifts(e, st, Visit(ConstantToParameter, e, st))
    decreases e, 1
  {
    var v := ConstantToParameter;
    OptLifts(e.target, st);
    var t := VisitOpt(v, e.target, st).value;
    SeqLifts(e.args, t.1);
    var a := VisitSeq(v, e.args, t.1).value;
    RecordsCompose(st, ConstantsOpt(e.target), t.1, ConstantsSeq(e.args), a.1);
    CallRebuilt(e, st, t, a);
  }

  /** The last step of lifting a call: the node rebuilt over the lifted
      target and arguments. */
  lemma CallRebuilt(e: Expr, st: VisitState, t: (Option<Expr>, VisitState), a: (seq<Expr>, VisitState))
    requires e.CallExpr?
    requires VisitOpt(ConstantToParameter, e.target, st) == Ok(t)
    requires VisitSeq(ConstantToParameter, e.args, t.1) == Ok(a)
    requires EveryOpt(t.0, LiftedNode) && EverySeq(a.0, LiftedNode)
    requires Every(e, IsNotOther) ==> EveryOpt(t.0, IsNotOther) && EverySeq(a.0, IsNotOther)
    requires Records(st, Constants(e), a.1)
    ensures Lifts(e, st, Visit(ConstantToParameter, e, st))
  {
    var res := Rebuild(t.0 == e.target && a.0 == e.args, e, a.1, (id: Id) => CallExpr(id, e.ty, e.callee, t.0, a.0));
    assert Visit(ConstantToParameter, e, st) == Ok(res);
  }

  /** Lifting a member access: the target. */
  lemma {:induction false} MemberLifts(e: Expr, st: VisitState)
    requires e.MemberExpr? && Every(e, InitShaped)
    ensures Lifts(e, st, Visit(ConstantToParameter, e, st))
    decreases e, 1
  {
    var v := ConstantToParameter;
    OptLifts(e.target, st);
  }

  /** Lifting a binary node: left, then right. */
  lemma {:induction false} BinaryLifts(e: Expr, st: VisitState)
    requires e.BinaryExpr? && Every(e, InitShaped)
    ensures Lifts(e, st, Visit(ConstantToParameter, e, st))
    decreases e, 1
  {
    var v := ConstantToParameter;
    LiftFacts(e.left, st);
    var l := Visit(v, e.left, st).value;
    LiftFacts(e.right, l.1);
    var r := Visit(v, e.right, l.1).value;
    RecordsCompose(st, Constants(e.left), l.1, Constants(e.right), r.1);
    BinaryRebuilt(e, st, l, r);
  }

  /** The last step of lifting a binary node: the node rebuilt over the
      lifted operands. */
  lemma BinaryRebuilt(e: Expr, st: VisitState, l: (Expr, VisitState), r: (Expr, VisitState))
    requires e.BinaryExpr?
    requires Visit(ConstantToParameter, e.left, st) == Ok(l)
    requires Visit(ConstantToParameter, e.right, l.1) == Ok(r)
    requires Every(l.0, LiftedNode) && Every(r.0, LiftedNode)
    requires Every(e, IsNotOther) ==> Every(l.0, IsNotOther) && Every(r.0, IsNotOther)
    requires Records(st, Constants(e), r.1)
    ensures Lifts(e, st, Visit(ConstantToParameter, e, st))
  {
    var res := Rebuild(l.0 == e.left && r.0 == e.right, e, r.1, (id: Id) => BinaryExpr(id, e.ty, e.op, e.fn, l.0, r.0));
    assert Visit(ConstantToParameter, e, st) == Ok(res);
  }

  /** Lifting a unary node: its operand. */
  lemma {:induction false} UnaryLifts(e: Expr, st: VisitState)
    requires e.UnaryExpr? && Every(e, InitShaped)
    ensures Lifts(e, st, Visit(ConstantToParameter, e, st))
    decreases e, 1
  {
    var v := ConstantToParameter;
    LiftFacts(e.operand, st);
  }

  /** Lifting an array creation: its elements. */
  lemma {:induction false} NewArrayLifts(e: Expr, st: VisitState)
    requires e.NewArrayExpr? && Every(e, InitShaped)
    ensures Lifts(e, st, Visit(ConstantToParameter, e, st))
    decreases e, 1
  {
    var v := ConstantToParameter;
    SeqLifts(e.elems, st);
  }

  /** Lifting an object creation: its arguments. */
  lemma {:induction false} NewLifts(e: Expr, st: VisitState)
    requires e.NewExpr? && Every(e, InitShaped)
    ensures Lifts(e, st, Visit(ConstantToParameter, e, st))
    decreases e, 1
  {
    var v := ConstantToParameter;
    SeqLifts(e.args, st);
  }

  /** Lifting any other node: its children. */
  lemma {:induction false} OtherLifts(e: Expr, st: VisitState)
    requires e.OtherExpr? && Every(e, InitShaped)
    ensures Lifts(e, st, Visit(ConstantToParameter, e, st))
    decreases e, 1
  {
    var v := ConstantToParameter;
    SeqLifts(e.children, st);
  }

  /** Lifting a member initializer: the `new` part, then the bindings. */
  lemma {:induction false} MemberInitLifts(e: Expr, st: VisitState)
    requires e.MemberInitExpr? && Every(e, InitShaped)
    ensures Lifts(e, st, Visit(ConstantToParameter, e, st))
    decreases e, 1
  {
    var v := ConstantToParameter;
    LiftFacts(e.newExpr, st);
    var n := Visit(v, e.newExpr, st).value;
    assert n.0.NewExpr?;
    BindingsLift(e.bindings, n.1);
    var b := VisitBindings(v, e.bindings, n.1).value;
    RecordsCompose(st, Constants(e.newExpr), n.1, ConstantsBindings(e.bindings), b.1);
    MemberInitRebuilt(e, st, n, b);
  }

  /** The last step of lifting a member initializer: the node rebuilt over
      the lifted `new` part and bindings. */
  lemma MemberInitRebuilt(e: Expr, st: VisitState, n: (Expr, VisitState), b: (seq<Binding>, VisitState))
    requires e.MemberInitExpr?
    requires Visit(ConstantToParameter, e.newExpr, st) == Ok(n) && n.0.NewExpr?
    requires VisitBindings(ConstantToParameter, e.bindings, n.1) == Ok(b)
    requires Every(n.0, LiftedNode) && EveryBindings(b.0, LiftedNode)
    requires Every(e, IsNotOther) ==> Every(n.0, IsNotOther) && EveryBindings(b.0, IsNotOther)
    requires Records(st, Constants(e), b.1)
    ensures Lifts(e, st, Visit(ConstantToParameter, e, st))
  {
    var res := Rebuild(n.0 == e.newExpr && b.0 == e.bindings, e, b.1, (id: Id) => MemberInitExpr(id, e.ty, n.0, b.0));
    assert Visit(ConstantToParameter, e, st) == Ok(res);
    assert LiftedNode(res.0);
  }

  /** Lifting a conditional: test, then both branches. */
  lemma {:induction false} ConditionalLifts(e: Expr, st: VisitState)
    requires e.ConditionalExpr? && Every(e, InitShaped)
    ensures Lifts(e, st, Visit(ConstantToParameter, e, st))
    decreases e, 1
  {
    var v := ConstantToParameter;
    LiftFacts(e.test, st);
    var c := Visit(v, e.test, st).value;
    LiftFacts(e.ifTrue, c.1);
    var t := Visit(v, e.ifTrue, c.1).value;
    LiftFacts(e.ifFalse, t.1);
    var f := Visit(v, e.ifFalse, t.1).value;
    RecordsCompose(st, Constants(e.test), c.1, Constants(e.ifTrue), t.1);
    RecordsCompose(st, Constants(e.test) + Constants(e.ifTrue), t.1, Constants(e.ifFalse), f.1);
    ConditionalRebuilt(e, st, c, t, f);
  }

  /** The last step of lifting a conditional: the node rebuilt over the
      lifted test and branches. */
  lemma ConditionalRebuilt(e: Expr, st: VisitState, c: (Expr, VisitState), t: (Expr, VisitState), f: (Expr, VisitState))
    requires e.ConditionalExpr?
    requires Visit(ConstantToParameter, e.test, st) == Ok(c)
    requires Visit(ConstantToParameter, e.ifTrue, c.1) == Ok(t)
    requires Visit(ConstantToParameter, e.ifFalse, t.1) == Ok(f)
    requires Every(c.0, LiftedNode) && Every(t.0, LiftedNode) && Every(f.0, LiftedNode)
    requires Every(e, IsNotOther) ==> Every(c.0, IsNotOther) && Every(t.0, IsNotOther) && Every(f.0, IsNotOther)
    requires Records(st, Constants(e), f.1)
    ensures Lifts(e, st, Visit(ConstantToParameter, e, st))
  {
    var res := Rebuild(c.0 == e.test && t.0 == e.ifTrue && f.0 == e.ifFalse, e, f.1,
      (id: Id) => ConditionalExpr(id, e.ty, c.0, t.0, f.0));
    assert Visit(ConstantToParameter, e, st) == Ok(res);
  }

  /** Lifting a list initializer: the `new` part, then the element initializers. */
  lemma {:induction false} ListInitLifts(e: Expr, st: VisitState)
    requires e.ListInitExpr? && Every(e, InitShaped)
    ensures Lifts(e, st, Visit(ConstantToParameter, e, st))
    decreases e, 1
  {
    var v := ConstantToParameter;
    LiftFacts(e.newExpr, st);
    var n := Visit(v, e.newExpr, st).value;
    assert n.0.NewExpr?;
    InitsLift(e.inits.items, n.1);
    var i := VisitInits(v, e.inits.items, n.1).value;
    RecordsCompose(st, Constants(e.newExpr), n.1, ConstantsInits(e.inits.items), i.1);
    assert Every(e, IsNotOther) ==> Every(n.0, IsNotOther) && EveryInits(i.0, IsNotOther);
    ListInitRebuilt(e, st, n, i);
  }

  /** The last step of lifting a list initializer: the node rebuilt over
      the lifted parts, with a new initializer collection if an initializer
      changed. */
  lemma ListInitRebuilt(e: Expr, st: VisitState, n: (Expr, VisitState), i: (seq<ElementInit>, VisitState))
    requires e.ListInitExpr?
    requires Visit(ConstantToParameter, e.newExpr, st) == Ok(n) && n.0.NewExpr?
    requires VisitInits(ConstantToParameter, e.inits.items, n.1) == Ok(i)
    requires Every(n.0, LiftedNode) && EveryInits(i.0, LiftedNode)
    requires Every(e, IsNotOther) ==> Every(n.0, IsNotOther) && EveryInits(i.0, IsNotOther)
    requires Records(st, Constants(e), i.1)
    ensures Lifts(e, st, Visit(ConstantToParameter, e, st))
  {
    if i.0 == e.inits.items {
      ListInitKept(e, st, n, i);
    } else {
      ListInitReplaced(e, st, n, i);
    }
  }

  /** No initializer changed: the collection is kept. */
  lemma ListInitKept(e: Expr, st: VisitState, n: (Expr, VisitState), i: (seq<ElementInit>, VisitState))
    requires e.ListInitExpr? && i.0 == e.inits.items
    requires Visit(ConstantToParameter, e.newExpr, st) == Ok(n) && n.0.NewExpr?
    requires VisitInits(ConstantToParameter, e.inits.items, n.1) == Ok(i)
    requires Every(n.0, LiftedNode) && EveryInits(i.0, LiftedNode)
    requires Every(e, IsNotOther) ==> Every(n.0, IsNotOther) && EveryInits(i.0, IsNotOther)
    requires Records(st, Constants(e), i.1)
    ensures Lifts(e, st, Visit(ConstantToParameter, e, st))
  {
    var res := Rebuild(n.0 == e.newExpr, e, i.1, (id: Id) => ListInitExpr(id, e.ty, n.0, e.inits));
    assert Visit(ConstantToParameter, e, st) == Ok(res);
  }

  /** Some initializer changed: a new collection is allocated for them. */
  lemma ListInitReplaced(e: Expr, st: VisitState, n: (Expr, VisitState), i: (seq<ElementInit>, VisitState))
    requires e.ListInitExpr? && i.0 != e.inits.items
    requires Visit(ConstantToParameter, e.newExpr, st) == Ok(n) && n.0.NewExpr?
    requires VisitInits(ConstantToParameter, e.inits.items, n.1) == Ok(i)
    requires Every(n.0, LiftedNode) && EveryInits(i.0, LiftedNode)
    requires Every(e, IsNotOther) ==> Every(n.0, IsNotOther) && EveryInits(i.0, IsNotOther)
    requires Records(st, Constants(e), i.1)
    ensures Lifts(e, st, Visit(ConstantToParameter, e, st))
  {
    var list := InitList(i.1.nextId, i.0);
    var st2 := i.1.(nextId := i.1.nextId + 1);
    RecordsNothing(i.1, st2);
    RecordsCompose(st, Constants(e), i.1, [], st2);
    assert Constants(e) + [] == Constants(e);
    var res := Allocate(st2, (id: Id) => ListInitExpr(id, e.ty, n.0, list));
    assert Visit(ConstantToParameter, e, st) == Ok(res);
  }

  lemma {:induction false} OptLifts(e: Option<Expr>, st: VisitState)
    requires EveryOpt(e, InitShaped)
    ensures var r := VisitOpt(ConstantToParameter, e, st);
      r.Ok? && EveryOpt(r.value.0, LiftedNode) && (EveryOpt(e, IsNotOther) ==> EveryOpt(r.value.0, IsNotOther)) &&
      Records(st, ConstantsOpt(e), r.value.1)
    decreases e, 1
  {
    if e.Some? {
      LiftFacts(e.value, st);
    } else {
      RecordsNothing(st, st);
    }
  }

  lemma {:induction false} SeqLifts(es: seq<Expr>, st: VisitState)
    requires EverySeq(es, InitShaped)
    ensures var r := VisitSeq(ConstantToParameter, es, st);
      r.Ok? && EverySeq(r.value.0, LiftedNode) && (EverySeq(es, IsNotOther) ==> EverySeq(r.value.0, IsNotOther)) &&
      Records(st, ConstantsSeq(es), r.value.1)
    decreases es, 2
  {
    if |es| == 0 {
      RecordsNothing(st, st);
    } else {
      var v := ConstantToParameter;
      LiftFacts(es[0], st);
      var h := Visit(v, es[0], st).value;
      SeqLifts(es[1..], h.1);
      var t := VisitSeq(v, es[1..], h.1).value;
      assert ([h.0] + t.0)[1..] == t.0;
      RecordsCompose(st, Constants(es[0]), h.1, ConstantsSeq(es[1..]), t.1);
    }
  }

  lemma {:induction false} InitLifts(init: ElementInit, st: VisitState)
    requires EverySeq(init.args, InitShaped)
    ensures var r := VisitInit(ConstantToParameter, init, st);
      r.Ok? && EverySeq(r.value.0.args, LiftedNode) && (EverySeq(init.args, IsNotOther) ==> EverySeq(r.value.0.args, IsNotOther)) &&
      Records(st, ConstantsSeq(init.args), r.value.1)
    decreases init, 1
  {
    SeqLifts(init.args, st);
    var a := VisitSeq(ConstantToParameter, init.args, st).value;
    if a.0 != init.args {
      RecordsNothing(a.1, a.1.(nextId := a.1.nextId + 1));
        RecordsCompose(st, ConstantsSeq(init.args), a.1, [], a.1.(nextId := a.1.nextId + 1));
    }
  }

  lemma {:induction false} InitsLift(inits: seq<ElementInit>, st: VisitState)
    requires EveryInits(inits, InitShaped)
    ensures var r := VisitInits(ConstantToParameter, inits, st);
      r.Ok? && EveryInits(r.value.0, LiftedNode) && (EveryInits(inits, IsNotOther) ==> EveryInits(r.value.0, IsNotOther)) &&
      Records(st, ConstantsInits(inits), r.value.1)
    decreases inits, 2
  {
    if |inits| == 0 {
      RecordsNothing(st, st);
    } else {
      var v := ConstantToParameter;
      InitLifts(inits[0], st);
      var h := VisitInit(v, inits[0], st).value;
      InitsLift(inits[1..], h.1);
      var t := VisitInits(v, inits[1..], h.1).value;
      assert ([h.0] + t.0)[1..] == t.0;
      RecordsCompose(st, ConstantsSeq(inits[0].args), h.1, ConstantsInits(inits[1..]), t.1);
    }
  }

  lemma {:induction false} BindingLifts(b: Binding, st: VisitState)
    requires EveryBinding(b, InitShaped)
    ensures var r := VisitBinding(ConstantToParameter, b, st);
      r.Ok? && EveryBinding(r.value.0, LiftedNode) && (EveryBinding(b, IsNotOther) ==> EveryBinding(r.value.0, IsNotOther)) &&
      Records(st, ConstantsBinding(b), r.value.1)
    decreases b, 1
  {
    var v := ConstantToParameter;
    match b
    case Assignment(_, _, expr) =>
      LiftFacts(expr, st);
      var x := Visit(v, expr, st).value;
      if x.0 != expr {
        RecordsNothing(x.1, x.1.(nextId := x.1.nextId + 1));
        RecordsCompose(st, Constants(expr), x.1, [], x.1.(nextId := x.1.nextId + 1));
      }
    case ListBinding(_, _, inits) =>
      InitsLift(inits, st);
      var i := VisitInits(v, inits, st).value;
      if i.0 != inits {
        RecordsNothing(i.1, i.1.(nextId := i.1.nextId + 1));
        RecordsCompose(st, ConstantsInits(inits), i.1, [], i.1.(nextId := i.1.nextId + 1));
      }
    case MemberMemberBinding(_, _, bs) =>
      BindingsLift(bs, st);
      var n := VisitBindings(v, bs, st).value;
      if n.0 != bs {
        RecordsNothing(n.1, n.1.(nextId := n.1.nextId + 1));
        RecordsCompose(st, ConstantsBindings(bs), n.1, [], n.1.(nextId := n.1.nextId + 1));
      }
  }

  lemma {:induction false} BindingsLift(bs: seq<Binding>, st: VisitState)
    requires EveryBindings(bs, InitShaped)
    ensures var r := VisitBindings(ConstantToParameter, bs, st);
      r.Ok? && EveryBindings(r.value.0, LiftedNode) && (EveryBindings(bs, IsNotOther) ==> EveryBindings(r.value.0, IsNotOther)) &&
      Records(st, ConstantsBindings(bs), r.value.1)
    decreases bs, 2
  {
    if |bs| == 0 {
      RecordsNothing(st, st);
    } else {
      var v := ConstantToParameter;
      BindingLifts(bs[0], st);
      var h := VisitBinding(v, bs[0], st).value;
      BindingsLift(bs[1..], h.1);
      var t := VisitBindings(v, bs[1..], h.1).value;
      assert ([h.0] + t.0)[1..] == t.0;
      RecordsCompose(st, ConstantsBinding(bs[0]), h.1, ConstantsBindings(bs[1..]), t.1);
    }
  }

  // ---------------------------------------------------------------------------
  // Lifting does not look at the constants' values

  /** The tree with identities forgotten, as the comparer sees it, and with
      every constant's value forgotten too: only its type remains. A
      constant's node class depends on its value, so only the other nodes
      keep their class. */
  function Shape(e: Expr): (r: Expr)
    ensures (if e.ConstantExpr? then r.ConstantExpr? else ClassOf(r) == ClassOf(e)) && r.ty == e.ty
    decreases e, 1
  {
    match e
    case LambdaExpr(_, ty, params, body) => LambdaExpr(0, ty, EraseParams(params), Shape(body))
    case ParameterExpr(_, ty, name) => ParameterExpr(0, ty, name)
    case CallExpr(_, ty, callee, target, args) => CallExpr(0, ty, callee, ShapeOpt(target), ShapeSeq(args))
    case MemberExpr(_, ty, member, target) => MemberExpr(0, ty, member, ShapeOpt(target))
    case BinaryExpr(_, ty, op, fn, left, right) => BinaryExpr(0, ty, op, fn, Shape(left), Shape(right))
    case ConstantExpr(_, ty, _) => ConstantExpr(0, ty, NullValue)
    case UnaryExpr(_, ty, op, fn, operand) => UnaryExpr(0, ty, op, fn, Shape(operand))
    case NewArrayExpr(_, ty, op, elems) => NewArrayExpr(0, ty, op, ShapeSeq(elems))
    case NewExpr(_, ty, _, args, members) => NewExpr(0, ty, 0, ShapeSeq(args), members)
    case MemberInitExpr(_, ty, newExpr, bindings) => MemberInitExpr(0, ty, Shape(newExpr), ShapeBindings(bindings))
    case ConditionalExpr(_, ty, test, ifTrue, ifFalse) => ConditionalExpr(0, ty, Shape(test), Shape(ifTrue), Shape(ifFalse))
    case ListInitExpr(_, ty, newExpr, inits) => ListInitExpr(0, ty, Shape(newExpr), InitList(0, ShapeInits(inits.items)))
    case OtherExpr(_, ty, op, children, className) => OtherExpr(0, ty, op, ShapeSeq(children), className)
  }

  function ShapeOpt(e: Option<Expr>): (r: Option<Expr>)
    ensures r.Some? <==> e.Some?
    decreases e, 0
  {
    match e
    case None => None
    case Some(x) => Some(Shape(x))
  }

  function ShapeSeq(es: seq<Expr>): (r: seq<Expr>)
    ensures |r| == |es|
    decreases es, 0
  {
    if |es| == 0 then [] else [Shape(es[0])] + ShapeSeq(es[1..])
  }

  function ShapeInit(init: ElementInit): ElementInit
    decreases init, 0
  {
    ElementInit(0, init.addFn, ShapeSeq(init.args))
  }

  function ShapeInits(inits: seq<ElementInit>): (r: seq<ElementInit>)
    ensures |r| == |inits|
    decreases inits, 1
  {
    if |inits| == 0 then [] else [ShapeInit(inits[0])] + ShapeInits(inits[1..])
  }

  function ShapeBinding(b: Binding): (r: Binding)
    ensures BindingTypeCode(r) == BindingTypeCode(b)
    decreases b, 0
  {
    match b
    case Assignment(_, member, expr) => Assignment(0, member, Shape(expr))
    case ListBinding(_, member, inits) => ListBinding(0, member, ShapeInits(inits))
    case MemberMemberBinding(_, member, bs) => MemberMemberBinding(0, member, ShapeBindings(bs))
  }

  function ShapeBindings(bs: seq<Binding>): (r: seq<Binding>)
    ensures |r| == |bs|
    decreases bs, 1
  {
    if |bs| == 0 then [] else [ShapeBinding(bs[0])] + ShapeBindings(bs[1..])
  }

  /** Both visits return, with results the comparer cannot tell apart
      (equal up to identities), having recorded as many pairs. */
  predicate SameKey(r1: Result<(Expr, VisitState)>, r2: Result<(Expr, VisitState)>) {
    r1.Ok? && r2.Ok? && Erase(r1.value.0) == Erase(r2.value.0) && |r1.value.1.lifted| == |r2.value.1.lifted|
  }

  /** Two trees of one shape lift to equal trees, up to identities. */
  lemma {:induction false} LiftIgnoresValues(e1: Expr, e2: Expr, st1: VisitState, st2: VisitState)
    requires Shape(e1) == Shape(e2) && |st1.lifted| == |st2.lifted|
    requires Every(e1, InitShaped) && Every(e2, InitShaped)
    ensures SameKey(Visit(ConstantToParameter, e1, st1), Visit(ConstantToParameter, e2, st2))
    decreases e1, 2
  {
    match e1
    case LambdaExpr(_, _, _, _) => LambdaAlike(e1, e2, st1, st2);
    case ParameterExpr(_, _, _) =>
    case CallExpr(_, _, _, _, _) => CallAlike(e1, e2, st1, st2);
    case MemberExpr(_, _, _, _) => MemberAlike(e1, e2, st1, st2);
    case BinaryExpr(_, _, _, _, _, _) => BinaryAlike(e1, e2, st1, st2);
    case ConstantExpr(_, _, _) =>
    case UnaryExpr(_, _, _, _, _) => UnaryAlike(e1, e2, st1, st2);
    case NewArrayExpr(_, _, _, _) => NewArrayAlike(e1, e2, st1, st2);
    case NewExpr(_, _, _, _, _) => NewAlike(e1, e2, st1, st2);
    case MemberInitExpr(_, _, _, _) => MemberInitAlike(e1, e2, st1, st2);
    case ConditionalExpr(_, _, _, _, _) => ConditionalAlike(e1, e2, st1, st2);
    case ListInitExpr(_, _, _, _) => ListInitAlike(e1, e2, st1, st2);
    case OtherExpr(_, _, _, _, _) => OtherAlike(e1, e2, st1, st2);
  }

  /** Lambdas of one shape: the bodies; the parameters stay. */
  lemma {:induction false} LambdaAlike(e1: Expr, e2: Expr, st1: VisitState, st2: VisitState)
    requires e1.LambdaExpr? && Shape(e1) == Shape(e2) && |st1.lifted| == |st2.lifted|
    requires Every(e1, InitShaped) && Every(e2, InitShaped)
    ensures SameKey(Visit(ConstantToParameter, e1, st1), Visit(ConstantToParameter, e2, st2))
    decreases e1, 1
  {
    var v := ConstantToParameter;
    LiftIgnoresValues(e1.body, e2.body, st1, st2);
    VisitorLaws.ParamsIdentity(v, e1.params);
    VisitorLaws.ParamsIdentity(v, e2.params);
  }

  /** Calls of one shape: targets, then arguments. */
  lemma {:induction false} CallAlike(e1: Expr, e2: Expr, st1: VisitState, st2: VisitState)
    requires e1.CallExpr? && Shape(e1) == Shape(e2) && |st1.lifted| == |st2.lifted|
    requires Every(e1, InitShaped) && Every(e2, InitShaped)
    ensures SameKey(Visit(ConstantToParameter, e1, st1), Visit(ConstantToParameter, e2, st2))
    decreases e1, 1
  {
    var v := ConstantToParameter;
    OptAlike(e1.target, e2.target, st1, st2);
    var t1, t2 := VisitOpt(v, e1.target, st1).value, VisitOpt(v, e2.target, st2).value;
    SeqAlike(e1.args, e2.args, t1.1, t2.1);
    var a1, a2 := VisitSeq(v, e1.args, t1.1).value, VisitSeq(v, e2.args, t2.1).value;
    CallAlikeRebuilt(e1, st1, t1, a1);
    CallAlikeRebuilt(e2, st2, t2, a2);
  }

  /** The rebuilt call, up to identities, and its state. */
  lemma CallAlikeRebuilt(e: Expr, st: VisitState, t: (Option<Expr>, VisitState), a: (seq<Expr>, VisitState))
    requires e.CallExpr?
    requires VisitOpt(ConstantToParameter, e.target, st) == Ok(t)
    requires VisitSeq(ConstantToParameter, e.args, t.1) == Ok(a)
    ensures var x := Visit(ConstantToParameter, e, st);
      x.Ok? && Erase(x.value.0) == CallExpr(0, e.ty, e.callee, EraseOpt(t.0), EraseSeq(a.0)) &&
      |x.value.1.lifted| == |a.1.lifted|
  {
    var res := Rebuild(t.0 == e.target && a.0 == e.args, e, a.1, (id: Id) => CallExpr(id, e.ty, e.callee, t.0, a.0));
    assert Visit(ConstantToParameter, e, st) == Ok(res);
  }

  /** Member accesses of one shape: the targets. */
  lemma {:induction false} MemberAlike(e1: Expr, e2: Expr, st1: VisitState, st2: VisitState)
    requires e1.MemberExpr? && Shape(e1) == Shape(e2) && |st1.lifted| == |st2.lifted|
    requires Every(e1, InitShaped) && Every(e2, InitShaped)
    ensures SameKey(Visit(ConstantToParameter, e1, st1), Visit(ConstantToParameter, e2, st2))
    decreases e1, 1
  {
    var v := ConstantToParameter;
    OptAlike(e1.target, e2.target, st1, st2);
  }

  /** Binary nodes of one shape: left, then right. */
  lemma {:induction false} BinaryAlike(e1: Expr, e2: Expr, st1: VisitState, st2: VisitState)
    requires e1.BinaryExpr? && Shape(e1) == Shape(e2) && |st1.lifted| == |st2.lifted|
    requires Every(e1, InitShaped) && Every(e2, InitShaped)
    ensures SameKey(Visit(ConstantToParameter, e1, st1), Visit(ConstantToParameter, e2, st2))
    decreases e1, 1
  {
    var v := ConstantToParameter;
    LiftIgnoresValues(e1.left, e2.left, st1, st2);
    var l1, l2 := Visit(v, e1.left, st1).value, Visit(v, e2.left, st2).value;
    LiftIgnoresValues(e1.right, e2.right, l1.1, l2.1);
    var r1, r2 := Visit(v, e1.right, l1.1).value, Visit(v, e2.right, l2.1).value;
    BinaryAlikeRebuilt(e1, st1, l1, r1);
    BinaryAlikeRebuilt(e2, st2, l2, r2);
  }

  /** The rebuilt binary node, up to identities, and its state. */
  lemma BinaryAlikeRebuilt(e: Expr, st: VisitState, l: (Expr, VisitState), r: (Expr, VisitState))
    requires e.BinaryExpr?
    requires Visit(ConstantToParameter, e.left, st) == Ok(l)
    requires Visit(ConstantToParameter, e.right, l.1) == Ok(r)
    ensures var x := Visit(ConstantToParameter, e, st);
      x.Ok? && Erase(x.value.0) == BinaryExpr(0, e.ty, e.op, e.fn, Erase(l.0), Erase(r.0)) &&
      |x.value.1.lifted| == |r.1.lifted|
  {
    var res := Rebuild(l.0 == e.left && r.0 == e.right, e, r.1, (id: Id) => BinaryExpr(id, e.ty, e.op, e.fn, l.0, r.0));
    assert Visit(ConstantToParameter, e, st) == Ok(res);
  }

  /** Unary nodes of one shape: the operands. */
  lemma {:induction false} UnaryAlike(e1: Expr, e2: Expr, st1: VisitState, st2: VisitState)
    requires e1.UnaryExpr? && Shape(e1) == Shape(e2) && |st1.lifted| == |st2.lifted|
    requires Every(e1, InitShaped) && Every(e2, InitShaped)
    ensures SameKey(Visit(ConstantToParameter, e1, st1), Visit(ConstantToParameter, e2, st2))
    decreases e1, 1
  {
    var v := ConstantToParameter;
    assert e2.UnaryExpr? && Shape(e1.operand) == Shape(e2.operand);
    LiftIgnoresValues(e1.operand, e2.operand, st1, st2);
  }

  /** Array creations of one shape: the elements. */
  lemma {:induction false} NewArrayAlike(e1: Expr, e2: Expr, st1: VisitState, st2: VisitState)
    requires e1.NewArrayExpr? && Shape(e1) == Shape(e2) && |st1.lifted| == |st2.lifted|
    requires Every(e1, InitShaped) && Every(e2, InitShaped)
    ensures SameKey(Visit(ConstantToParameter, e1, st1), Visit(ConstantToParameter, e2, st2))
    decreases e1, 1
  {
    var v := ConstantToParameter;
    SeqAlike(e1.elems, e2.elems, st1, st2);
  }

  /** Object creations of one shape: the arguments. */
  lemma {:induction false} NewAlike(e1: Expr, e2: Expr, st1: VisitState, st2: VisitState)
    requires e1.NewExpr? && Shape(e1) == Shape(e2) && |st1.lifted| == |st2.lifted|
    requires Every(e1, InitShaped) && Every(e2, InitShaped)
    ensures SameKey(Visit(ConstantToParameter, e1, st1), Visit(ConstantToParameter, e2, st2))
    decreases e1, 1
  {
    var v := ConstantToParameter;
    SeqAlike(e1.args, e2.args, st1, st2);
  }

  /** Other nodes of one shape: the children. */
  lemma {:induction false} OtherAlike(e1: Expr, e2: Expr, st1: VisitState, st2: VisitState)
    requires e1.OtherExpr? && Shape(e1) == Shape(e2) && |st1.lifted| == |st2.lifted|
    requires Every(e1, InitShaped) && Every(e2, InitShaped)
    ensures SameKey(Visit(ConstantToParameter, e1, st1), Visit(ConstantToParameter, e2, st2))
    decreases e1, 1
  {
    var v := ConstantToParameter;
    SeqAlike(e1.children, e2.children, st1, st2);
  }

  /** Conditionals of one shape: test, then both branches. */
  lemma {:induction false} ConditionalAlike(e1: Expr, e2: Expr, st1: VisitState, st2: VisitState)
    requires e1.ConditionalExpr? && Shape(e1) == Shape(e2) && |st1.lifted| == |st2.lifted|
    requires Every(e1, InitShaped) && Every(e2, InitShaped)
    ensures SameKey(Visit(ConstantToParameter, e1, st1), Visit(ConstantToParameter, e2, st2))
    decreases e1, 1
  {
    var v := ConstantToParameter;
    LiftIgnoresValues(e1.test, e2.test, st1, st2);
    var c1, c2 := Visit(v, e1.test, st1).value, Visit(v, e2.test, st2).value;
    LiftIgnoresValues(e1.ifTrue, e2.ifTrue, c1.1, c2.1);
    var t1, t2 := Visit(v, e1.ifTrue, c1.1).value, Visit(v, e2.ifTrue, c2.1).value;
    LiftIgnoresValues(e1.ifFalse, e2.ifFalse, t1.1, t2.1);
    var f1, f2 := Visit(v, e1.ifFalse, t1.1).value, Visit(v, e2.ifFalse, t2.1).value;
    ConditionalAlikeRebuilt(e1, st1, c1, t1, f1);
    ConditionalAlikeRebuilt(e2, st2, c2, t2, f2);
  }

  /** The rebuilt conditional, up to identities, and its state. */
  lemma ConditionalAlikeRebuilt(e: Expr, st: VisitState, c: (Expr, VisitState), t: (Expr, VisitState), f: (Expr, VisitState))
    requires e.ConditionalExpr?
    requires Visit(ConstantToParameter, e.test, st) == Ok(c)
    requires Visit(ConstantToParameter, e.ifTrue, c.1) == Ok(t)
    requires Visit(ConstantToParameter, e.ifFalse, t.1) == Ok(f)
    ensures var r := Visit(ConstantToParameter, e, st);
      r.Ok? && Erase(r.value.0) == ConditionalExpr(0, e.ty, Erase(c.0), Erase(t.0), Erase(f.0)) &&
      |r.value.1.lifted| == |f.1.lifted|
  {
    var res := Rebuild(c.0 == e.test && t.0 == e.ifTrue && f.0 == e.ifFalse, e, f.1,
      (id: Id) => ConditionalExpr(id, e.ty, c.0, t.0, f.0));
    assert Visit(ConstantToParameter, e, st) == Ok(res);
  }

  /** Member initializers of one shape: the `new` parts, then the bindings. */
  lemma {:induction false} MemberInitAlike(e1: Expr, e2: Expr, st1: VisitState, st2: VisitState)
    requires e1.MemberInitExpr? && Shape(e1) == Shape(e2) && |st1.lifted| == |st2.lifted|
    requires Every(e1, InitShaped) && Every(e2, InitShaped)
    ensures SameKey(Visit(ConstantToParameter, e1, st1), Visit(ConstantToParameter, e2, st2))
    decreases e1, 1
  {
    var v := ConstantToParameter;
    LiftFacts(e1.newExpr, st1);
    LiftFacts(e2.newExpr, st2);
    LiftIgnoresValues(e1.newExpr, e2.newExpr, st1, st2);
    var n1, n2 := Visit(v, e1.newExpr, st1).value, Visit(v, e2.newExpr, st2).value;
    assert n1.0.NewExpr? && n2.0.NewExpr?;
    BindingsAlike(e1.bindings, e2.bindings, n1.1, n2.1);
    var b1, b2 := VisitBindings(v, e1.bindings, n1.1).value, VisitBindings(v, e2.bindings, n2.1).value;
    MemberInitAlikeRebuilt(e1, st1, n1, b1);
    MemberInitAlikeRebuilt(e2, st2, n2, b2);
  }

  /** The rebuilt member initializer, up to identities, and its state. */
  lemma MemberInitAlikeRebuilt(e: Expr, st: VisitState, n: (Expr, VisitState), b: (seq<Binding>, VisitState))
    requires e.MemberInitExpr?
    requires Visit(ConstantToParameter, e.newExpr, st) == Ok(n) && n.0.NewExpr?
    requires VisitBindings(ConstantToParameter, e.bindings, n.1) == Ok(b)
    ensures var r := Visit(ConstantToParameter, e, st);
      r.Ok? && Erase(r.value.0) == MemberInitExpr(0, e.ty, Erase(n.0), EraseBindings(b.0)) &&
      |r.value.1.lifted| == |b.1.lifted|
  {
    var res := Rebuild(n.0 == e.newExpr && b.0 == e.bindings, e, b.1, (id: Id) => MemberInitExpr(id, e.ty, n.0, b.0));
    assert Visit(ConstantToParameter, e, st) == Ok(res);
  }

  /** List initializers of one shape: the `new` parts, then the element initializers. */
  lemma {:induction false} ListInitAlike(e1: Expr, e2: Expr, st1: VisitState, st2: VisitState)
    requires e1.ListInitExpr? && Shape(e1) == Shape(e2) && |st1.lifted| == |st2.lifted|
    requires Every(e1, InitShaped) && Every(e2, InitShaped)
    ensures SameKey(Visit(ConstantToParameter, e1, st1), Visit(ConstantToParameter, e2, st2))
    decreases e1, 1
  {
    var v := ConstantToParameter;
    LiftFacts(e1.newExpr, st1);
    LiftFacts(e2.newExpr, st2);
    LiftIgnoresValues(e1.newExpr, e2.newExpr, st1, st2);
    var n1, n2 := Visit(v, e1.newExpr, st1).value, Visit(v, e2.newExpr, st2).value;
    assert n1.0.NewExpr? && n2.0.NewExpr?;
    InitsAlike(e1.inits.items, e2.inits.items, n1.1, n2.1);
    var i1, i2 := VisitInits(v, e1.inits.items, n1.1).value, VisitInits(v, e2.inits.items, n2.1).value;
    ListInitAlikeRebuilt(e1, st1, n1, i1);
    ListInitAlikeRebuilt(e2, st2, n2, i2);
  }

  /** The rebuilt list initializer, up to identities, and its state. */
  lemma ListInitAlikeRebuilt(e: Expr, st: VisitState, n: (Expr, VisitState), i: (seq<ElementInit>, VisitState))
    requires e.ListInitExpr?
    requires Visit(ConstantToParameter, e.newExpr, st) == Ok(n) && n.0.NewExpr?
    requires VisitInits(ConstantToParameter, e.inits.items, n.1) == Ok(i)
    ensures var r := Visit(ConstantToParameter, e, st);
      r.Ok? && Erase(r.value.0) == ListInitExpr(0, e.ty, Erase(n.0), InitList(0, EraseInits(i.0))) &&
      |r.value.1.lifted| == |i.1.lifted|
  {
    var v := ConstantToParameter;
    if i.0 == e.inits.items {
      var res := Rebuild(n.0 == e.newExpr, e, i.1, (id: Id) => ListInitExpr(id, e.ty, n.0, e.inits));
      assert Visit(v, e, st) == Ok(res);
    } else {
      var st2 := i.1.(nextId := i.1.nextId + 1);
      var res := Allocate(st2, (id: Id) => ListInitExpr(id, e.ty, n.0, InitList(i.1.nextId, i.0)));
      assert Visit(v, e, st) == Ok(res);
    }
  }

  lemma {:induction false} OptAlike(e1: Option<Expr>, e2: Option<Expr>, st1: VisitState, st2: VisitState)
    requires ShapeOpt(e1) == ShapeOpt(e2) && |st1.lifted| == |st2.lifted|
    requires EveryOpt(e1, InitShaped) && EveryOpt(e2, InitShaped)
    ensures var r1, r2 := VisitOpt(ConstantToParameter, e1, st1), VisitOpt(ConstantToParameter, e2, st2);
      r1.Ok? && r2.Ok? && EraseOpt(r1.value.0) == EraseOpt(r2.value.0) && |r1.value.1.lifted| == |r2.value.1.lifted|
    decreases e1, 1
  {
    if e1.Some? {
      LiftIgnoresValues(e1.value, e2.value, st1, st2);
    }
  }

  lemma {:induction false} SeqAlike(es1: seq<Expr>, es2: seq<Expr>, st1: VisitState, st2: VisitState)
    requires ShapeSeq(es1) == ShapeSeq(es2) && |st1.lifted| == |st2.lifted|
    requires EverySeq(es1, InitShaped) && EverySeq(es2, InitShaped)
    ensures var r1, r2 := VisitSeq(ConstantToParameter, es1, st1), VisitSeq(ConstantToParameter, es2, st2);
      r1.Ok? && r2.Ok? && EraseSeq(r1.value.0) == EraseSeq(r2.value.0) && |r1.value.1.lifted| == |r2.value.1.lifted|
    decreases es1, 2
  {
    if |es1| > 0 {
      var v := ConstantToParameter;
      assert ShapeSeq(es1)[0] == Shape(es1[0]) && ShapeSeq(es2)[0] == Shape(es2[0]);
      assert ShapeSeq(es1)[1..] == ShapeSeq(es1[1..]) && ShapeSeq(es2)[1..] == ShapeSeq(es2[1..]);
      LiftIgnoresValues(es1[0], es2[0], st1, st2);
      var h1, h2 := Visit(v, es1[0], st1).value, Visit(v, es2[0], st2).value;
      SeqAlike(es1[1..], es2[1..], h1.1, h2.1);
      var t1, t2 := VisitSeq(v, es1[1..], h1.1).value, VisitSeq(v, es2[1..], h2.1).value;
      assert ([h1.0] + t1.0)[1..] == t1.0 && ([h2.0] + t2.0)[1..] == t2.0;
    }
  }

  lemma {:induction false} InitAlike(x1: ElementInit, x2: ElementInit, st1: VisitState, st2: VisitState)
    requires ShapeInit(x1) == ShapeInit(x2) && |st1.lifted| == |st2.lifted|
    requires EverySeq(x1.args, InitShaped) && EverySeq(x2.args, InitShaped)
    ensures var r1, r2 := VisitInit(ConstantToParameter, x1, st1), VisitInit(ConstantToParameter, x2, st2);
      r1.Ok? && r2.Ok? && EraseInit(r1.value.0) == EraseInit(r2.value.0) && |r1.value.1.lifted| == |r2.value.1.lifted|
    decreases x1, 1
  {
    SeqAlike(x1.args, x2.args, st1, st2);
  }

  lemma {:induction false} InitsAlike(xs1: seq<ElementInit>, xs2: seq<ElementInit>, st1: VisitState, st2: VisitState)
    requires ShapeInits(xs1) == ShapeInits(xs2) && |st1.lifted| == |st2.lifted|
    requires EveryInits(xs1, InitShaped) && EveryInits(xs2, InitShaped)
    ensures var r1, r2 := VisitInits(ConstantToParameter, xs1, st1), VisitInits(ConstantToParameter, xs2, st2);
      r1.Ok? && r2.Ok? && EraseInits(r1.value.0) == EraseInits(r2.value.0) && |r1.value.1.lifted| == |r2.value.1.lifted|
    decreases xs1, 2
  {
    if |xs1| > 0 {
      var v := ConstantToParameter;
      assert ShapeInits(xs1)[0] == ShapeInit(xs1[0]) && ShapeInits(xs2)[0] == ShapeInit(xs2[0]);
      assert ShapeInits(xs1)[1..] == ShapeInits(xs1[1..]) && ShapeInits(xs2)[1..] == ShapeInits(xs2[1..]);
      InitAlike(xs1[0], xs2[0], st1, st2);
      var h1, h2 := VisitInit(v, xs1[0], st1).value, VisitInit(v, xs2[0], st2).value;
      InitsAlike(xs1[1..], xs2[1..], h1.1, h2.1);
      var t1, t2 := VisitInits(v, xs1[1..], h1.1).value, VisitInits(v, xs2[1..], h2.1).value;
      assert ([h1.0] + t1.0)[1..] == t1.0 && ([h2.0] + t2.0)[1..] == t2.0;
    }
  }

  lemma {:induction false} BindingAlike(b1: Binding, b2: Binding, st1: VisitState, st2: VisitState)
    requires ShapeBinding(b1) == ShapeBinding(b2) && |st1.lifted| == |st2.lifted|
    requires EveryBinding(b1, InitShaped) && EveryBinding(b2, InitShaped)
    ensures var r1, r2 := VisitBinding(ConstantToParameter, b1, st1), VisitBinding(ConstantToParameter, b2, st2);
      r1.Ok? && r2.Ok? && EraseBinding(r1.value.0) == EraseBinding(r2.value.0) && |r1.value.1.lifted| == |r2.value.1.lifted|
    decreases b1, 1
  {
    match b1
    case Assignment(_, _, expr) => LiftIgnoresValues(expr, b2.expr, st1, st2);
    case ListBinding(_, _, inits) => InitsAlike(inits, b2.inits, st1, st2);
    case MemberMemberBinding(_, _, bs) => BindingsAlike(bs, b2.bindings, st1, st2);
  }

  lemma {:induction false} BindingsAlike(bs1: seq<Binding>, bs2: seq<Binding>, st1: VisitState, st2: VisitState)
    requires ShapeBindings(bs1) == ShapeBindings(bs2) && |st1.lifted| == |st2.lifted|
    requires EveryBindings(bs1, InitShaped) && EveryBindings(bs2, InitShaped)
    ensures var r1, r2 := VisitBindings(ConstantToParameter, bs1, st1), VisitBindings(ConstantToParameter, bs2, st2);
      r1.Ok? && r2.Ok? && EraseBindings(r1.value.0) == EraseBindings(r2.value.0) && |r1.value.1.lifted| == |r2.value.1.lifted|
    decreases bs1, 2
  {
    if |bs1| > 0 {
      var v := ConstantToParameter;
      assert ShapeBindings(bs1)[0] == ShapeBinding(bs1[0]) && ShapeBindings(bs2)[0] == ShapeBinding(bs2[0]);
      assert ShapeBindings(bs1)[1..] == ShapeBindings(bs1[1..]) && ShapeBindings(bs2)[1..] == ShapeBindings(bs2[1..]);
      BindingAlike(bs1[0], bs2[0], st1, st2);
      var h1, h2 := VisitBinding(v, bs1[0], st1).value, VisitBinding(v, bs2[0], st2).value;
      BindingsAlike(bs1[1..], bs2[1..], h1.1, h2.1);
      var t1, t2 := VisitBindings(v, bs1[1..], h1.1).value, VisitBindings(v, bs2[1..], h2.1).value;
      assert ([h1.0] + t1.0)[1..] == t1.0 && ([h2.0] + t2.0)[1..] == t2.0;
    }
  }

  // ---------------------------------------------------------------------------
  // Lifting keeps the meaning

  /** `env2` extends `env` and binds the parameter of every pair recorded
      going from `st` to `st2` to the value of its constant. */
  predicate BindsLifted(env: Env, st: VisitState, st2: VisitState, env2: Env)
    requires |st.lifted| <= |st2.lifted|
  {
    (forall id :: id in env ==> id in env2 && env2[id] == env[id]) &&
    forall i :: |st.lifted| <= i < |st2.lifted| ==>
      var pair := st2.lifted[i];
      pair.1.ConstantExpr? && pair.0.id in env2 && env2[pair.0.id] == pair.1.value
  }

  /** On the boolean fragment, with the parameters the visit introduced
      bound to the values of their constants, the lifted expression has the
      value of the original. The visit only ever appends pairs. */
  lemma {:induction false} LiftKeepsValue(env: Env, e: Expr, st: VisitState, env2: Env)
    requires Typed(env, e)
    ensures var r := Visit(ConstantToParameter, e, st);
      r.Ok? && r.value.0.ty == e.ty && |st.lifted| <= |r.value.1.lifted| && r.value.1.lifted[..|st.lifted|] == st.lifted &&
      (BindsLifted(env, st, r.value.1, env2) ==> Eval(env2, r.value.0) == Eval(env, e))
    decreases e, 1
  {
    match e
    case ConstantExpr(_, _, _) => ConstantKeepsValue(env, e, st, env2);
    case ParameterExpr(_, _, _) =>
    case BinaryExpr(_, _, _, _, _, _) => BinaryKeepsValue(env, e, st, env2);
    case UnaryExpr(_, _, _, _, _) => UnaryKeepsValue(env, e, st, env2);
    case ConditionalExpr(_, _, _, _, _) => ConditionalKeepsValue(env, e, st, env2);
  }

  lemma ConstantKeepsValue(env: Env, e: Expr, st: VisitState, env2: Env)
    requires e.ConstantExpr?
    ensures var r := Visit(ConstantToParameter, e, st);
      r.Ok? && r.value.0.ty == e.ty && |st.lifted| <= |r.value.1.lifted| && r.value.1.lifted[..|st.lifted|] == st.lifted &&
      (BindsLifted(env, st, r.value.1, env2) ==> Eval(env2, r.value.0) == Eval(env, e))
  {
    var r := Visit(ConstantToParameter, e, st).value;
    assert r.1.lifted[|st.lifted|] == (r.1.lifted[|st.lifted|].0, e);
  }

  lemma {:induction false} UnaryKeepsValue(env: Env, e: Expr, st: VisitState, env2: Env)
    requires e.UnaryExpr? && Typed(env, e)
    ensures var r := Visit(ConstantToParameter, e, st);
      r.Ok? && r.value.0.ty == e.ty && |st.lifted| <= |r.value.1.lifted| && r.value.1.lifted[..|st.lifted|] == st.lifted &&
      (BindsLifted(env, st, r.value.1, env2) ==> Eval(env2, r.value.0) == Eval(env, e))
    decreases e, 0
  {
    LiftKeepsValue(env, e.operand, st, env2);
  }

  lemma {:induction false} BinaryKeepsValue(env: Env, e: Expr, st: VisitState, env2: Env)
    requires e.BinaryExpr? && Typed(env, e)
    ensures var r := Visit(ConstantToParameter, e, st);
      r.Ok? && r.value.0.ty == e.ty && |st.lifted| <= |r.value.1.lifted| && r.value.1.lifted[..|st.lifted|] == st.lifted &&
      (BindsLifted(env, st, r.value.1, env2) ==> Eval(env2, r.value.0) == Eval(env, e))
    decreases e, 0
  {
    var v := ConstantToParameter;
    LiftKeepsValue(env, e.left, st, env2);
    var l := Visit(v, e.left, st).value;
    LiftKeepsValue(env, e.right, l.1, env2);
    var r := Visit(v, e.right, l.1).value;
    LiftedPrefix(st, l.1, r.1, env, env2);
    var res := Rebuild(l.0 == e.left && r.0 == e.right, e, r.1, (id: Id) => BinaryExpr(id, e.ty, e.op, e.fn, l.0, r.0));
    assert Visit(v, e, st) == Ok(res);
    if BindsLifted(env, st, r.1, env2) {
      BinaryEvalAgrees(env, e, env2, BinaryExpr(res.0.id, e.ty, e.op, e.fn, l.0, r.0));
    }
  }

  /** Binary nodes over operands of the same types that evaluate alike
      evaluate alike. */
  lemma BinaryEvalAgrees(env: Env, e: Expr, env2: Env, n: Expr)
    requires e.BinaryExpr? && n.BinaryExpr? && n.op == e.op && n.fn == e.fn
    requires n.left.ty == e.left.ty && n.right.ty == e.right.ty
    requires Eval(env2, n.left) == Eval(env, e.left) && Eval(env2, n.right) == Eval(env, e.right)
    ensures Eval(env2, n) == Eval(env, e)
  {
  }

  lemma {:induction false} ConditionalKeepsValue(env: Env, e: Expr, st: VisitState, env2: Env)
    requires e.ConditionalExpr? && Typed(env, e)
    ensures var r := Visit(ConstantToParameter, e, st);
      r.Ok? && r.value.0.ty == e.ty && |st.lifted| <= |r.value.1.lifted| && r.value.1.lifted[..|st.lifted|] == st.lifted &&
      (BindsLifted(env, st, r.value.1, env2) ==> Eval(env2, r.value.0) == Eval(env, e))
    decreases e, 0
  {
    var v := ConstantToParameter;
    LiftKeepsValue(env, e.test, st, env2);
    var c := Visit(v, e.test, st).value;
    LiftKeepsValue(env, e.ifTrue, c.1, env2);
    var t := Visit(v, e.ifTrue, c.1).value;
    LiftKeepsValue(env, e.ifFalse, t.1, env2);
    var f := Visit(v, e.ifFalse, t.1).value;
    LiftedPrefix(c.1, t.1, f.1, env, env2);
    LiftedPrefix(st, c.1, f.1, env, env2);
    ConditionalValueRebuilt(env, e, st, c, t, f, env2);
  }

  /** The last step: the conditional rebuilt over parts that keep their
      values keeps its value. */
  lemma ConditionalValueRebuilt(env: Env, e: Expr, st: VisitState, c: (Expr, VisitState), t: (Expr, VisitState), f: (Expr, VisitState), env2: Env)
    requires e.ConditionalExpr?
    requires Visit(ConstantToParameter, e.test, st) == Ok(c)
    requires Visit(ConstantToParameter, e.ifTrue, c.1) == Ok(t)
    requires Visit(ConstantToParameter, e.ifFalse, t.1) == Ok(f)
    requires |st.lifted| <= |f.1.lifted| && f.1.lifted[..|st.lifted|] == st.lifted
    requires BindsLifted(env, st, f.1, env2) ==>
      Eval(env2, c.0) == Eval(env, e.test) && Eval(env2, t.0) == Eval(env, e.ifTrue) && Eval(env2, f.0) == Eval(env, e.ifFalse)
    ensures var r := Visit(ConstantToParameter, e, st);
      r.Ok? && r.value.0.ty == e.ty && |st.lifted| <= |r.value.1.lifted| && r.value.1.lifted[..|st.lifted|] == st.lifted &&
      (BindsLifted(env, st, r.value.1, env2) ==> Eval(env2, r.value.0) == Eval(env, e))
  {
    var st2 := f.1.(nextId := f.1.nextId + 1);
    if c.0 == e.test && t.0 == e.ifTrue && f.0 == e.ifFalse {
      assert Visit(ConstantToParameter, e, st) == Ok((e, f.1));
    } else {
      var n := ConditionalExpr(f.1.nextId, e.ty, c.0, t.0, f.0);
      assert Visit(ConstantToParameter, e, st) == Ok((n, st2));
      if BindsLifted(env, st, st2, env2) {
        assert BindsLifted(env, st, f.1, env2);
        ConditionalEvalAgrees(env, e, env2, n);
      }
    }
  }

  /** Conditionals whose parts evaluate alike evaluate alike. */
  lemma ConditionalEvalAgrees(env: Env, e: Expr, env2: Env, n: Expr)
    requires e.ConditionalExpr? && n.ConditionalExpr?
    requires Eval(env2, n.test) == Eval(env, e.test)
    requires Eval(env2, n.ifTrue) == Eval(env, e.ifTrue) && Eval(env2, n.ifFalse) == Eval(env, e.ifFalse)
    ensures Eval(env2, n) == Eval(env, e)
  {
  }

  /** Pairs recorded over two steps: a binding of all of them binds those
      of each step. */
  lemma LiftedPrefix(st1: VisitState, st2: VisitState, st3: VisitState, env: Env, env2: Env)
    requires |st1.lifted| <= |st2.lifted| <= |st3.lifted|
    requires st2.lifted[..|st1.lifted|] == st1.lifted && st3.lifted[..|st2.lifted|] == st2.lifted
    ensures st3.lifted[..|st1.lifted|] == st1.lifted
    ensures BindsLifted(env, st1, st3, env2) ==> BindsLifted(env, st1, st2, env2) && BindsLifted(env, st2, st3, env2)
  {
    assert st3.lifted[..|st1.lifted|] == st3.lifted[..|st2.lifted|][..|st1.lifted|];
    if BindsLifted(env, st1, st3, env2) {
      forall i | |st1.lifted| <= i < |st2.lifted|
        ensures st2.lifted[i] == st3.lifted[i]
      {
        assert st2.lifted[i] == st3.lifted[..|st2.lifted|][i];
      }
    }
  }

  /** The environment the compiled outer lambda runs in: `env`, plus each
      recorded parameter bound to its constant's value. */
  function LiftedEnv(env: Env, added: seq<(Param, Expr)>): (r: Env)
    ensures forall id :: id in env ==> id in r
    ensures forall i :: 0 <= i < |added| ==> added[i].0.id in r
  {
    if |added| == 0 then env
    else LiftedEnv(env, added[..|added| - 1])[added[|added| - 1].0.id := ConstantValueOr(added[|added| - 1].1)]
  }

  /** The value a recorded constant holds. */
  function ConstantValueOr(c: Expr): (r: Value)
    ensures c.ConstantExpr? ==> r == c.value
  {
    if c.ConstantExpr? then c.value else NullValue
  }

  /** When the recorded parameters are new (above every identity `env`
      uses) and distinct, `LiftedEnv` is a binding `LiftKeepsValue` speaks
      of: such bindings exist. */
  lemma {:induction false} LiftedEnvBinds(env: Env, st: VisitState, cs: seq<Expr>, st2: VisitState)
    requires Records(st, cs, st2) && forall i :: 0 <= i < |cs| ==> cs[i].ConstantExpr?
    requires forall id :: id in env ==> id < st.nextId
    ensures BindsLifted(env, st, st2, LiftedEnv(env, st2.lifted[|st.lifted|..]))
  {
    var added := st2.lifted[|st.lifted|..];
    LiftedEnvValues(env, added, st.nextId);
    forall i | |st.lifted| <= i < |st2.lifted|
      ensures st2.lifted[i] == added[i - |st.lifted|]
    {
    }
  }

  /** What `LiftedEnv` binds, given fresh ascending identities. */
  lemma {:induction false} LiftedEnvValues(env: Env, added: seq<(Param, Expr)>, lo: nat)
    requires forall i :: 0 <= i < |added| ==> added[i].1.ConstantExpr? && lo <= added[i].0.id
    requires forall i, j :: 0 <= i < j < |added| ==> added[i].0.id < added[j].0.id
    requires forall id :: id in env ==> id < lo
    ensures var r := LiftedEnv(env, added);
      (forall id :: id in env ==> r[id] == env[id]) &&
      forall i :: 0 <= i < |added| ==> r[added[i].0.id] == added[i].1.value
  {
    if |added| > 0 {
      var init := added[..|added| - 1];
      LiftedEnvValues(env, init, lo);
    }
  }

  /** The boolean fragment is initializer-shaped: it has no initializer. */
  lemma {:induction false} TypedIsInitShaped(env: Env, e: Expr)
    requires Typed(env, e)
    ensures Every(e, InitShaped) && Every(e, IsNotOther)
  {
    match e
    case ConstantExpr(_, _, _) =>
    case ParameterExpr(_, _, _) =>
    case BinaryExpr(_, _, _, _, left, right) =>
      TypedIsInitShaped(env, left);
      TypedIsInitShaped(env, right);
    case UnaryExpr(_, _, _, _, operand) =>
      TypedIsInitShaped(env, operand);
    case ConditionalExpr(_, _, test, ifTrue, ifFalse) =>
      TypedIsInitShaped(env, test);
      TypedIsInitShaped(env, ifTrue);
      TypedIsInitShaped(env, ifFalse);
  }

  /** Lifting keeps the meaning: in the environment that binds each new
      parameter to its constant's value, the lifted boolean expression
      evaluates as the original did. */
  lemma LiftKeepsMeaning(env: Env, e: Expr, st: VisitState)
    requires Typed(env, e) && forall id :: id in env ==> id < st.nextId
    ensures var r := Visit(ConstantToParameter, e, st);
      r.Ok? && |st.lifted| <= |r.value.1.lifted| &&
      Eval(LiftedEnv(env, r.value.1.lifted[|st.lifted|..]), r.value.0) == Eval(env, e)
  {
    TypedIsInitShaped(env, e);
    LiftFacts(e, st);
    var r := Visit(ConstantToParameter, e, st).value;
    LiftedEnvBinds(env, st, Constants(e), r.1);
    LiftKeepsValue(env, e, st, LiftedEnv(env, r.1.lifted[|st.lifted|..]));
  }
}
