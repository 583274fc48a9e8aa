/** Constant elimination, common-operand elimination and the equality test
    built on it. */
module EqElimination {
  import opened Expressions

  /* ----- expr_eliminate_yn ----- */

  function EliminateYn(e: Expr): (r: Expr)
    ensures Size(r) <= Size(e)
    ensures !e.Bin? ==> r == e
  {
    match e
    case Bin(op, l, r) =>
      var l' := EliminateYn(l);
      var r' := EliminateYn(r);
      if l' == Symbol(op.Zero()) then Symbol(op.Zero())
      else if l' == Symbol(op.Unit()) then r'
      else if r' == Symbol(op.Zero()) then Symbol(op.Zero())
      else if r' == Symbol(op.Unit()) then l'
      else Bin(op, l', r')
    case _ => e
  }

  lemma {:induction false} EliminateYnSameValue(v: Interp, e: Expr)
    ensures Eval(v, EliminateYn(e)) == Eval(v, e)
  {
    match e
    case Bin(op, l, r) =>
      EliminateYnSameValue(v, l);
      EliminateYnSameValue(v, r);
    case _ =>
  }

  /** No operand of a conjunction or disjunction is y or n. */
  predicate YnFree(e: Expr) {
    match e
    case Bin(op, l, r) =>
      && YnFree(l) && YnFree(r)
      && l != Symbol(Yes) && l != Symbol(No) && r != Symbol(Yes) && r != Symbol(No)
    case _ => true
  }

  /** Exactly the y and n operands go: the result has none, and an expression
      without any is returned as it is. */
  lemma {:induction false} EliminateYnComplete(e: Expr)
    ensures YnFree(EliminateYn(e))
    ensures YnFree(e) ==> EliminateYn(e) == e
  {
    match e
    case Bin(op, l, r) =>
      EliminateYnComplete(l);
      EliminateYnComplete(r);
    case _ =>
  }

  /** Some operand is neutral for its connective. */
  predicate HasUnit(e: Expr) {
    match e
    case Bin(op, l, r) => HasUnit(l) || HasUnit(r) || l == Symbol(op.Unit()) || r == Symbol(op.Unit())
    case _ => false
  }

  lemma {:induction false} UnitShrinks(e: Expr)
    requires HasUnit(e)
    ensures Size(EliminateYn(e)) < Size(e)
  {
    var Bin(op, l, r) := e;
    if HasUnit(l) { UnitShrinks(l); }
    if HasUnit(r) { UnitShrinks(r); }
  }

  /* ----- expr_eq, expr_eliminate_eq and its walk ----- */

  /** `expr_eq` on two expressions that are not NULL. */
  predicate Eq(e1: Expr, e2: Expr)
    decreases Size(e1) + Size(e2), 2
  {
    match (e1, e2)
    case (Comp(rel1, a1, b1), Comp(rel2, a2, b2)) => rel1 == rel2 && a1 == a2 && b1 == b2
    case (Symbol(s1), Symbol(s2)) => s1 == s2
    case (Not(x1), Not(x2)) => Eq(x1, x2)
    case (Bin(op1, _, _), Bin(op2, _, _)) =>
      op1 == op2 &&
      var (r1, r2) := EliminateEq(e1, e2);
      r1.Symbol? && r2.Symbol? && r1.sym == r2.sym
    case (_, _) => false
  }

  /** `__expr_eliminate_eq`: every node not of type `op` is a leaf; equal leaves
      of the two trees both become the unit of `op`. */
  function Walk(op: Op, e1: Expr, e2: Expr): (r: (Expr, Expr))
    ensures Size(r.0) <= Size(e1) && Size(r.1) <= Size(e2)
    ensures r.0.IsBin(op) == e1.IsBin(op) && r.1.IsBin(op) == e2.IsBin(op)
    decreases Size(e1) + Size(e2), if e1.IsBin(op) || e2.IsBin(op) then 0 else 3
  {
    if e1.IsBin(op) then
      var (l, f) := Walk(op, e1.l, e2);
      var (r, g) := Walk(op, e1.r, f);
      (Bin(op, l, r), g)
    else if e2.IsBin(op) then
      var (f, l) := Walk(op, e1, e2.l);
      var (g, r) := Walk(op, f, e2.r);
      (g, Bin(op, l, r))
    else if e1 == e2 && (e1 == Symbol(Yes) || e1 == Symbol(No)) then (e1, e2)
    else if !Eq(e1, e2) then (e1, e2)
    else (Symbol(op.Unit()), Symbol(op.Unit()))
  }

  /** `expr_eliminate_eq` */
  function EliminateEq(e1: Expr, e2: Expr): (r: (Expr, Expr))
    ensures Size(r.0) <= Size(e1) && Size(r.1) <= Size(e2)
    decreases Size(e1) + Size(e2), 1
  {
    var (f1, f2) := if e1.Bin? then Walk(e1.op, e1, e2) else (e1, e2);
    var (g1, g2) := if f2.Bin? && !f1.IsBin(f2.op) then Walk(f2.op, f1, f2) else (f1, f2);
    (EliminateYn(g1), EliminateYn(g2))
  }

  /** Equality found by `expr_eq` is equality of value under every valuation. */
  lemma {:induction false} EqSound(v: Interp, e1: Expr, e2: Expr)
    requires Eq(e1, e2)
    ensures Eval(v, e1) == Eval(v, e2)
    decreases Size(e1) + Size(e2), 2
  {
    match (e1, e2)
    case (Not(x1), Not(x2)) => EqSound(v, x1, x2);
    case (Bin(op1, _, _), Bin(op2, _, _)) =>
      var _, _ := EliminateEqFactors(v, e1, e2);
    case (_, _) =>
  }

  /** One operand `c`, common to both trees, was taken out of each. */
  lemma {:induction false} WalkFactors(v: Interp, op: Op, e1: Expr, e2: Expr) returns (c: Tri)
    ensures Eval(v, e1) == op.Apply(c, Eval(v, Walk(op, e1, e2).0))
    ensures Eval(v, e2) == op.Apply(c, Eval(v, Walk(op, e1, e2).1))
    decreases Size(e1) + Size(e2), if e1.IsBin(op) || e2.IsBin(op) then 0 else 3, 0
  {
    if e1.IsBin(op) {
      var (l, f) := Walk(op, e1.l, e2);
      var (r, g) := Walk(op, e1.r, f);
      var c1 := WalkFactors(v, op, e1.l, e2);
      var c2 := WalkFactors(v, op, e1.r, f);
      c := op.Apply(c1, c2);
      ApplyExchange(op, c1, Eval(v, l), c2, Eval(v, r));
      ApplyAssoc(op, c1, c2, Eval(v, g));
    } else if e2.IsBin(op) {
      var (f, l) := Walk(op, e1, e2.l);
      var (g, r) := Walk(op, f, e2.r);
      var c1 := WalkFactors(v, op, e1, e2.l);
      var c2 := WalkFactors(v, op, f, e2.r);
      c := op.Apply(c1, c2);
      ApplyExchange(op, c1, Eval(v, l), c2, Eval(v, r));
      ApplyAssoc(op, c1, c2, Eval(v, g));
    } else if Walk(op, e1, e2) == (e1, e2) {
      c := if op.And? then YES else NO;
    } else {
      EqSound(v, e1, e2);
      c := Eval(v, e1);
    }
  }

  /** The monotone context that the elimination factors out. */
  function Clamp(lo: Tri, hi: Tri, x: Tri): Tri { Max(lo, Min(hi, x)) }

  /** Clamping after `op` with a constant is clamping with one bound moved. */
  lemma ClampApply(lo: Tri, hi: Tri, op: Op, c: Tri, x: Tri)
    requires lo <= hi
    ensures lo <= Clamp(lo, hi, c) <= hi
    ensures Clamp(lo, hi, op.Apply(c, x)) ==
            if op.And? then Clamp(lo, Clamp(lo, hi, c), x) else Clamp(Clamp(lo, hi, c), hi, x)
  {}

  lemma ClampMonotone(lo: Tri, hi: Tri, x: Tri, y: Tri)
    requires x <= y
    ensures Clamp(lo, hi, x) <= Clamp(lo, hi, y)
  {}

  lemma WalkClamps(v: Interp, op: Op, e1: Expr, e2: Expr, lo: Tri, hi: Tri) returns (lo': Tri, hi': Tri)
    requires lo <= hi
    requires e1.IsBin(op) || e2.IsBin(op)
    ensures lo' <= hi'
    ensures Clamp(lo, hi, Eval(v, e1)) == Clamp(lo', hi', Eval(v, Walk(op, e1, e2).0))
    ensures Clamp(lo, hi, Eval(v, e2)) == Clamp(lo', hi', Eval(v, Walk(op, e1, e2).1))
    decreases Size(e1) + Size(e2), 0, 1
  {
    var c := WalkFactors(v, op, e1, e2);
    ClampApply(lo, hi, op, c, Eval(v, Walk(op, e1, e2).0));
    ClampApply(lo, hi, op, c, Eval(v, Walk(op, e1, e2).1));
    lo', hi' := if op.And? then lo else Clamp(lo, hi, c), if op.And? then Clamp(lo, hi, c) else hi;
  }

  /** Under every valuation both old values are the same monotone function of
      the new ones. */
  lemma {:induction false} EliminateEqFactors(v: Interp, e1: Expr, e2: Expr) returns (lo: Tri, hi: Tri)
    ensures lo <= hi
    ensures Eval(v, e1) == Clamp(lo, hi, Eval(v, EliminateEq(e1, e2).0))
    ensures Eval(v, e2) == Clamp(lo, hi, Eval(v, EliminateEq(e1, e2).1))
    decreases Size(e1) + Size(e2), 1
  {
    lo, hi := NO, YES;
    var f1, f2 := e1, e2;
    if e1.Bin? {
      f1, f2 := Walk(e1.op, e1, e2).0, Walk(e1.op, e1, e2).1;
      lo, hi := WalkClamps(v, e1.op, e1, e2, lo, hi);
    }
    var g1, g2 := f1, f2;
    if f2.Bin? && !f1.IsBin(f2.op) {
      g1, g2 := Walk(f2.op, f1, f2).0, Walk(f2.op, f1, f2).1;
      lo, hi := WalkClamps(v, f2.op, f1, f2, lo, hi);
    }
    EliminateYnSameValue(v, g1);
    EliminateYnSameValue(v, g2);
  }

  /** If elimination leaves y of the second expression, the first never exceeds it:
      the automatic-submenu test of `menu_finalize`. */
  lemma SupersetTest(v: Interp, dep: Expr, base: Expr)
    requires EliminateEq(dep, base).1 == Symbol(Yes)
    ensures Eval(v, dep) <= Eval(v, base)
  {
    var lo, hi := EliminateEqFactors(v, dep, base);
    ClampMonotone(lo, hi, Eval(v, EliminateEq(dep, base).0), YES);
  }
}
