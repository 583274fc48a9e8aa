/** `expr_eq` decides equality up to the order and grouping of operands. */
module EqOrder {
  import opened Expressions
  import opened EqElimination

  /** An expression with the operands of each chain of one connective as a multiset. */
  datatype Class =
    | Single(sym: Sym)
    | Test(rel: Rel, left: Sym, right: Sym)
    | Negated(of: Class)
    | Chain(op: Op, operands: multiset<Class>)

  function ClassOf(e: Expr): Class
    decreases Size(e), 1
  {
    match e
    case Symbol(s) => Single(s)
    case Comp(rel, a, b) => Test(rel, a, b)
    case Not(x) => Negated(ClassOf(x))
    case Bin(op, l, r) => Chain(op, Operands(op, l) + Operands(op, r))
  }

  function Operands(op: Op, e: Expr): multiset<Class>
    decreases Size(e), 2
  {
    if e.IsBin(op) then Operands(op, e.l) + Operands(op, e.r) else multiset{ClassOf(e)}
  }

  predicate IsYn(e: Expr) { e == Symbol(Yes) || e == Symbol(No) }

  /** No operand of a conjunction or disjunction is y or n, below negations either. */
  predicate NoYn(e: Expr) {
    match e
    case Bin(_, l, r) => NoYn(l) && NoYn(r) && !IsYn(l) && !IsYn(r)
    case Not(x) => NoYn(x)
    case _ => true
  }

  lemma {:induction false} NoYnIsFree(e: Expr)
    requires NoYn(e)
    ensures EliminateYn(e) == e
  {
    if e.Bin? { NoYnIsFree(e.l); NoYnIsFree(e.r); }
  }

  /** A chain part of whose operands have been replaced by the unit. */
  predicate Partial(op: Op, e: Expr) {
    if e.IsBin(op) then Partial(op, e.l) && Partial(op, e.r)
    else e == Symbol(op.Unit()) || (NoYn(e) && !IsYn(e))
  }

  /** The operands that are left. */
  function Left(op: Op, e: Expr): multiset<Class> {
    if e.IsBin(op) then Left(op, e.l) + Left(op, e.r)
    else if e == Symbol(op.Unit()) then multiset{}
    else multiset{ClassOf(e)}
  }

  lemma {:induction false} NoYnIsPartial(op: Op, e: Expr)
    requires NoYn(e) && !IsYn(e)
    ensures Partial(op, e) && Left(op, e) == Operands(op, e)
  {
    if e.IsBin(op) { NoYnIsPartial(op, e.l); NoYnIsPartial(op, e.r); }
  }

  /** What constant elimination makes of it: the unit if nothing is left, the operand if one is, a chain otherwise. */
  lemma {:induction false} PartialReduces(op: Op, e: Expr)
    requires Partial(op, e)
    ensures var r := EliminateYn(e);
      && (Left(op, e) == multiset{} <==> r == Symbol(op.Unit()))
      && !(r == Symbol(op.Zero()))
      && (!r.IsBin(op) && r != Symbol(op.Unit()) ==> Left(op, e) == multiset{ClassOf(r)})
  {
    if e.IsBin(op) {
      PartialReduces(op, e.l);
      PartialReduces(op, e.r);
    } else if e != Symbol(op.Unit()) {
      NoYnIsFree(e);
    }
  }

  lemma LessBoth(a: multiset<Class>, b: multiset<Class>, c: multiset<Class>)
    ensures (a - c) + (b - (c - a)) == (a + b) - c
    ensures (c - a) - b == c - (a + b)
  {}

  /** `f1` and `f2` are what is left of `e1` and `e2` without what they have in common. */
  predicate TakesCommon(op: Op, e1: Expr, e2: Expr, f1: Expr, f2: Expr) {
    && Partial(op, f1) && Partial(op, f2)
    && Left(op, f1) == Left(op, e1) - Left(op, e2)
    && Left(op, f2) == Left(op, e2) - Left(op, e1)
  }

  lemma LessTwice(a: multiset<Class>, b: multiset<Class>, c: multiset<Class>,
                  l: multiset<Class>, f: multiset<Class>, r: multiset<Class>, g: multiset<Class>)
    requires l == a - c && f == c - a && r == b - f && g == f - b
    ensures l + r == (a + b) - c && g == c - (a + b)
  {
    LessBoth(a, b, c);
  }

  lemma LeftOfBin(op: Op, l: Expr, r: Expr)
    ensures Left(op, Bin(op, l, r)) == Left(op, l) + Left(op, r)
    ensures Partial(op, Bin(op, l, r)) <==> Partial(op, l) && Partial(op, r)
  {}

  lemma CommonFirst(op: Op, l1: Expr, r1: Expr, e2: Expr, l: Expr, f: Expr, r: Expr, g: Expr)
    requires TakesCommon(op, l1, e2, l, f) && TakesCommon(op, r1, f, r, g)
    ensures TakesCommon(op, Bin(op, l1, r1), e2, Bin(op, l, r), g)
  {
    LeftOfBin(op, l1, r1);
    LeftOfBin(op, l, r);
    LessTwice(Left(op, l1), Left(op, r1), Left(op, e2), Left(op, l), Left(op, f), Left(op, r), Left(op, g));
  }

  lemma CommonSecond(op: Op, e1: Expr, l2: Expr, r2: Expr, f: Expr, l: Expr, g: Expr, r: Expr)
    requires TakesCommon(op, e1, l2, f, l) && TakesCommon(op, f, r2, g, r)
    ensures TakesCommon(op, e1, Bin(op, l2, r2), g, Bin(op, l, r))
  {
    LeftOfBin(op, l2, r2);
    LeftOfBin(op, l, r);
    LessTwice(Left(op, l2), Left(op, r2), Left(op, e1), Left(op, l), Left(op, f), Left(op, r), Left(op, g));
  }

  lemma EqSymbol(s: Sym, e: Expr)
    ensures Eq(Symbol(s), e) <==> e == Symbol(s)
    ensures Eq(e, Symbol(s)) <==> e == Symbol(s)
  {}

  lemma WalkOperands(op: Op, e1: Expr, e2: Expr)
    requires !e1.IsBin(op) && !e2.IsBin(op)
    ensures Walk(op, e1, e2) == if (e1 == e2 && IsYn(e1)) || !Eq(e1, e2) then (e1, e2)
                                else (Symbol(op.Unit()), Symbol(op.Unit()))
  {}

  lemma UnitOperand(op: Op, u: Expr, e: Expr)
    requires u == Symbol(op.Unit()) && Partial(op, e) && !e.IsBin(op)
    ensures Walk(op, u, e) == (u, e) && Walk(op, e, u) == (e, u)
  {
    EqSymbol(op.Unit(), e);
    WalkOperands(op, u, e);
    WalkOperands(op, e, u);
  }

  lemma NothingToTake(op: Op, e1: Expr, e2: Expr)
    requires Partial(op, e1) && Partial(op, e2) && (Left(op, e1) == multiset{} || Left(op, e2) == multiset{})
    ensures TakesCommon(op, e1, e2, e1, e2)
  {}

  lemma CommonOperands(op: Op, e1: Expr, e2: Expr)
    requires Partial(op, e1) && Partial(op, e2) && !e1.IsBin(op) && !e2.IsBin(op)
    requires !IsYn(e1) && !IsYn(e2) ==> (Eq(e1, e2) <==> ClassOf(e1) == ClassOf(e2))
    ensures TakesCommon(op, e1, e2, Walk(op, e1, e2).0, Walk(op, e1, e2).1)
  {
    if IsYn(e1) || IsYn(e2) {
      if IsYn(e1) { UnitOperand(op, e1, e2); } else { UnitOperand(op, e2, e1); }
      NothingToTake(op, e1, e2);
    } else {
      WalkOperands(op, e1, e2);
      OneEach(ClassOf(e1), ClassOf(e2));
    }
  }

  lemma OneEach(c: Class, d: Class)
    ensures multiset{c} - multiset{d} == if c == d then multiset{} else multiset{c}
    ensures multiset{d} - multiset{c} == if c == d then multiset{} else multiset{d}
  {}

  /** The walk takes out of both chains what they have in common. */
  lemma {:induction false} WalkTakesCommon(op: Op, e1: Expr, e2: Expr)
    requires Partial(op, e1) && Partial(op, e2)
    ensures TakesCommon(op, e1, e2, Walk(op, e1, e2).0, Walk(op, e1, e2).1)
    decreases Size(e1) + Size(e2), if e1.IsBin(op) || e2.IsBin(op) then 0 else 3
  {
    if e1.IsBin(op) {
      var (l, f) := Walk(op, e1.l, e2);
      var (r, g) := Walk(op, e1.r, f);
      WalkTakesCommon(op, e1.l, e2);
      WalkTakesCommon(op, e1.r, f);
      CommonFirst(op, e1.l, e1.r, e2, l, f, r, g);
    } else if e2.IsBin(op) {
      var (f, l) := Walk(op, e1, e2.l);
      var (g, r) := Walk(op, f, e2.r);
      WalkTakesCommon(op, e1, e2.l);
      WalkTakesCommon(op, f, e2.r);
      CommonSecond(op, e1, e2.l, e2.r, f, l, g, r);
    } else {
      if !IsYn(e1) && !IsYn(e2) { EqDecides(e1, e2); }
      CommonOperands(op, e1, e2);
    }
  }

  /** `expr_eq` holds exactly of expressions that differ in nothing but the order and grouping of operands. */
  lemma {:induction false} EqDecides(e1: Expr, e2: Expr)
    requires NoYn(e1) && NoYn(e2)
    ensures Eq(e1, e2) <==> ClassOf(e1) == ClassOf(e2)
    decreases Size(e1) + Size(e2), 2
  {
    match (e1, e2)
    case (Not(x1), Not(x2)) => EqDecides(x1, x2);
    case (Bin(op1, _, _), Bin(op2, _, _)) => if op1 == op2 { ChainsDecide(op1, e1, e2); }
    case (_, _) =>
  }

  lemma ChainsDecide(op: Op, e1: Expr, e2: Expr)
    requires NoYn(e1) && NoYn(e2) && e1.IsBin(op) && e2.IsBin(op)
    ensures Eq(e1, e2) <==> ClassOf(e1) == ClassOf(e2)
    decreases Size(e1) + Size(e2), 1
  {
    NoYnIsPartial(op, e1);
    NoYnIsPartial(op, e2);
    WalkTakesCommon(op, e1, e2);
    var (f1, f2) := Walk(op, e1, e2);
    RestDecides(op, Left(op, e1), Left(op, e2), f1, f2);
    assert EliminateEq(e1, e2) == (EliminateYn(f1), EliminateYn(f2));
    assert ClassOf(e1) == Chain(op, Left(op, e1)) && ClassOf(e2) == Chain(op, Left(op, e2));
  }

  lemma RestDecides(op: Op, a: multiset<Class>, b: multiset<Class>, f1: Expr, f2: Expr)
    requires Partial(op, f1) && Partial(op, f2) && Left(op, f1) == a - b && Left(op, f2) == b - a
    ensures var r1, r2 := EliminateYn(f1), EliminateYn(f2);
      r1.Symbol? && r2.Symbol? && r1.sym == r2.sym <==> a == b
  {
    PartialReduces(op, f1);
    PartialReduces(op, f2);
    NothingCommon(a, b);
  }

  lemma NothingCommon(a: multiset<Class>, b: multiset<Class>)
    ensures a - b == multiset{} && b - a == multiset{} <==> a == b
    ensures forall c :: !(c in a - b && c in b - a)
  {
    if a - b == multiset{} && b - a == multiset{} {
      forall c ensures a[c] == b[c] { assert (a - b)[c] == 0 && (b - a)[c] == 0; }
    }
  }

  lemma ClassOfBin(op: Op, a: Expr, b: Expr)
    ensures ClassOf(Bin(op, a, b)) == Chain(op, Operands(op, a) + Operands(op, b))
    ensures Operands(op, Bin(op, a, b)) == Operands(op, a) + Operands(op, b)
  {}

  lemma Regroup(a: multiset<Class>, b: multiset<Class>, c: multiset<Class>)
    ensures a + b == b + a && a + b + c == a + (b + c)
  {}

  /** Exchanged operands are found equal. */
  lemma Exchanged(op: Op, a: Expr, b: Expr)
    requires NoYn(a) && NoYn(b) && !IsYn(a) && !IsYn(b)
    ensures Eq(Bin(op, a, b), Bin(op, b, a))
  {
    ClassOfBin(op, a, b);
    ClassOfBin(op, b, a);
    Regroup(Operands(op, a), Operands(op, b), multiset{});
    EqDecides(Bin(op, a, b), Bin(op, b, a));
  }

  /** Regrouped operands are found equal. */
  lemma Regrouped(op: Op, a: Expr, b: Expr, c: Expr)
    requires NoYn(a) && NoYn(b) && NoYn(c) && !IsYn(a) && !IsYn(b) && !IsYn(c)
    ensures Eq(Bin(op, Bin(op, a, b), c), Bin(op, a, Bin(op, b, c)))
  {
    ClassOfBin(op, a, b);
    ClassOfBin(op, b, c);
    ClassOfBin(op, Bin(op, a, b), c);
    ClassOfBin(op, a, Bin(op, b, c));
    Regroup(Operands(op, a), Operands(op, b), Operands(op, c));
    EqDecides(Bin(op, Bin(op, a, b), c), Bin(op, a, Bin(op, b, c)));
  }

  /** With n among the operands it finds more: A && n and n && B are both n. */
  lemma ConstantsBlur(a: Sym, b: Sym)
    requires a.User? && b.User? && a != b
    ensures var e1, e2 := Bin(And, Symbol(a), Symbol(No)), Bin(And, Symbol(No), Symbol(b));
      Eq(e1, e2) && ClassOf(e1) != ClassOf(e2)
  {
    var e1, e2 := Bin(And, Symbol(a), Symbol(No)), Bin(And, Symbol(No), Symbol(b));
    NothingTaken(a, e2);
    NothingTaken(No, e2);
    assert Walk(And, e1, e2) == (e1, e2);
    assert EliminateYn(e1) == Symbol(No) && EliminateYn(e2) == Symbol(No);
    OneOperand(a);
    OneOperand(b);
    OneOperand(No);
    assert ClassOf(e1).operands == multiset{Single(a)} + multiset{Single(No)};
    assert ClassOf(e2).operands == multiset{Single(No)} + multiset{Single(b)};
    assert ClassOf(e1).operands[Single(a)] == 1 && ClassOf(e2).operands[Single(a)] == 0;
  }

  lemma OneOperand(s: Sym)
    ensures Operands(And, Symbol(s)) == multiset{Single(s)}
  {}

  lemma NothingTaken(s: Sym, e: Expr)
    requires e.IsBin(And) && e.l == Symbol(No) && e.r.Symbol? && (s == No || s != e.r.sym) && e.r.sym != No
    ensures Walk(And, Symbol(s), e) == (Symbol(s), e)
  {
    EqSymbol(s, e.l);
    EqSymbol(s, e.r);
    WalkOperands(And, Symbol(s), e.l);
    WalkOperands(And, Symbol(s), e.r);
  }

  // ----- the superset test of the automatic submenus -----

  lemma {:induction false} WalkYes(op: Op, e: Expr)
    ensures Walk(op, e, Symbol(Yes)) == (e, Symbol(Yes))
    decreases Size(e)
  {
    if e.IsBin(op) {
      WalkYes(op, e.l);
      WalkYes(op, e.r);
    } else {
      EqSymbol(Yes, e);
      WalkOperands(op, e, Symbol(Yes));
    }
  }

  /** Nothing is too little for y. */
  lemma SupersetOfYes(e: Expr)
    ensures EliminateEq(e, Symbol(Yes)).1 == Symbol(Yes)
  {
    if e.Bin? { WalkYes(e.op, e); }
  }

  lemma SupersetRest(dep: Expr, base: Expr, f1: Expr, f2: Expr)
    requires dep.IsBin(And) && (f1, f2) == Walk(And, dep, base)
    ensures EliminateEq(dep, base).1 == EliminateYn(if f2.IsBin(Or) then Walk(Or, f1, f2).1 else f2)
  {}

  lemma RestIsYes(f1: Expr, f2: Expr)
    requires f1.IsBin(And) && Partial(And, f2)
    ensures EliminateYn(if f2.IsBin(Or) then Walk(Or, f1, f2).1 else f2) == Symbol(Yes) <==> Left(And, f2) == multiset{}
  {
    PartialReduces(And, f2);
    if f2.IsBin(Or) {
      OrNeverYes(f1, f2);
      assert ClassOf(f2) in Left(And, f2);
    }
  }

  /** A conjunction passes the test exactly if it has every operand of the other one, up to order and grouping. */
  lemma SupersetExact(dep: Expr, base: Expr)
    requires NoYn(dep) && NoYn(base) && !IsYn(base) && dep.IsBin(And)
    ensures EliminateEq(dep, base).1 == Symbol(Yes) <==> Operands(And, base) <= Operands(And, dep)
  {
    NoYnIsPartial(And, dep);
    NoYnIsPartial(And, base);
    WalkTakesCommon(And, dep, base);
    var (f1, f2) := Walk(And, dep, base);
    SupersetRest(dep, base, f1, f2);
    RestIsYes(f1, f2);
    LessNothing(Operands(And, base), Operands(And, dep));
  }

  lemma LessNothing(a: multiset<Class>, b: multiset<Class>)
    ensures a - b == multiset{} <==> a <= b
  {
    if a - b == multiset{} {
      forall c ensures a[c] <= b[c] { assert (a - b)[c] == 0; }
    }
  }

  /** A disjunction without y or n does not become y by losing operands. */
  lemma OrNeverYes(f: Expr, e: Expr)
    requires e.IsBin(Or) && NoYn(e) && !f.IsBin(Or)
    ensures EliminateYn(Walk(Or, f, e).1) != Symbol(Yes)
  {
    NoYnIsPartial(Or, e);
    WalkPartial(f, e);
    PartialReduces(Or, Walk(Or, f, e).1);
  }

  lemma {:induction false} WalkPartial(f: Expr, e: Expr)
    requires Partial(Or, e) && !f.IsBin(Or)
    ensures Partial(Or, Walk(Or, f, e).1)
    decreases Size(e)
  {
    if e.IsBin(Or) {
      WalkPartial(f, e.l);
      WalkPartial(Walk(Or, f, e.l).0, e.r);
    } else {
      WalkOperands(Or, f, e);
    }
  }
}
