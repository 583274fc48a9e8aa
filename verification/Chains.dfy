/** Positions in a chain of one connective.  The rewriting of duplicates walks an
    expression with two slots into the same tree; a slot is a path from the top
    of the chain, and writing through it is `Put`. */
module Chains {
  import opened Expressions
  import opened EqElimination
  import opened Joins

  /** false goes left, true goes right */
  type Path = seq<bool>

  function Child(t: Expr, b: bool): Expr
    requires t.Bin?
  {
    if b then t.r else t.l
  }

  /** Every node above `p` has type `op`. */
  predicate InChain(op: Op, t: Expr, p: Path) {
    p == [] || (t.IsBin(op) && InChain(op, Child(t, p[0]), p[1..]))
  }

  function At(op: Op, t: Expr, p: Path): (e: Expr)
    requires InChain(op, t, p)
    ensures Size(e) <= Size(t)
    ensures p != [] ==> Size(e) < Size(t)
    decreases p
  {
    if p == [] then t else At(op, Child(t, p[0]), p[1..])
  }

  function Put(op: Op, t: Expr, p: Path, s: Expr): Expr
    requires InChain(op, t, p)
    decreases p
  {
    if p == [] then s
    else if p[0] then Bin(op, t.l, Put(op, t.r, p[1..], s))
    else Bin(op, Put(op, t.l, p[1..], s), t.r)
  }

  /** An operand of the chain: a slot whose node is not of type `op`. */
  predicate Operand(op: Op, t: Expr, p: Path) {
    InChain(op, t, p) && !At(op, t, p).IsBin(op)
  }

  /** The two chains branch in the same places. */
  predicate SameShape(op: Op, t: Expr, u: Expr) {
    if t.IsBin(op) then u.IsBin(op) && SameShape(op, t.l, u.l) && SameShape(op, t.r, u.r)
    else !u.IsBin(op)
  }

  /** The number of nodes of the chain, operands included. */
  function Span(op: Op, t: Expr): nat {
    if t.IsBin(op) then 1 + Span(op, t.l) + Span(op, t.r) else 1
  }

  lemma {:induction false} SameShapeRefl(op: Op, t: Expr)
    ensures SameShape(op, t, t)
  {
    if t.IsBin(op) { SameShapeRefl(op, t.l); SameShapeRefl(op, t.r); }
  }

  lemma {:induction false} SameShapeTrans(op: Op, t: Expr, u: Expr, w: Expr)
    requires SameShape(op, t, u) && SameShape(op, u, w)
    ensures SameShape(op, t, w)
  {
    if t.IsBin(op) { SameShapeTrans(op, t.l, u.l, w.l); SameShapeTrans(op, t.r, u.r, w.r); }
  }

  lemma {:induction false} SameShapeAt(op: Op, t: Expr, u: Expr, p: Path)
    requires SameShape(op, t, u) && InChain(op, t, p)
    ensures InChain(op, u, p)
    ensures SameShape(op, At(op, t, p), At(op, u, p))
    ensures Span(op, At(op, t, p)) == Span(op, At(op, u, p))
    decreases p
  {
    if p != [] { SameShapeAt(op, Child(t, p[0]), Child(u, p[0]), p[1..]); }
    else { SameShapeSpan(op, t, u); }
  }

  lemma {:induction false} SameShapeSpan(op: Op, t: Expr, u: Expr)
    requires SameShape(op, t, u)
    ensures Span(op, t) == Span(op, u)
  {
    if t.IsBin(op) { SameShapeSpan(op, t.l, u.l); SameShapeSpan(op, t.r, u.r); }
  }

  lemma {:induction false} Extend(op: Op, t: Expr, p: Path, b: bool)
    requires InChain(op, t, p) && At(op, t, p).IsBin(op)
    ensures InChain(op, t, p + [b])
    ensures At(op, t, p + [b]) == Child(At(op, t, p), b)
    decreases p
  {
    if p != [] {
      Extend(op, Child(t, p[0]), p[1..], b);
      assert (p + [b])[1..] == p[1..] + [b];
    }
  }

  /** Nothing of the chain lies below an operand. */
  lemma {:induction false} OperandIsLast(op: Op, t: Expr, p: Path, q: Path)
    requires Operand(op, t, p) && InChain(op, t, q) && p <= q
    ensures q == p
    decreases p
  {
    if p != [] { OperandIsLast(op, Child(t, p[0]), p[1..], q[1..]); }
  }

  lemma {:induction false} AtPut(op: Op, t: Expr, p: Path, s: Expr)
    requires InChain(op, t, p)
    ensures InChain(op, Put(op, t, p, s), p) && At(op, Put(op, t, p, s), p) == s
    ensures forall r: Expr :: Put(op, Put(op, t, p, s), p, r) == Put(op, t, p, r)
    ensures Put(op, t, p, At(op, t, p)) == t
    decreases p
  {
    if p != [] { AtPut(op, Child(t, p[0]), p[1..], s); }
  }

  /** Writing one operand leaves the others. */
  lemma {:induction false} AtPutOther(op: Op, t: Expr, p: Path, s: Expr, q: Path)
    requires Operand(op, t, p) && Operand(op, t, q) && p != q && !s.IsBin(op)
    ensures Operand(op, Put(op, t, p, s), q)
    ensures At(op, Put(op, t, p, s), q) == At(op, t, q)
    decreases p
  {
    assert p != [] && q != [];
    if p[0] == q[0] {
      assert p == [p[0]] + p[1..] && q == [q[0]] + q[1..];
      AtPutOther(op, Child(t, p[0]), p[1..], s, q[1..]);
    }
  }

  lemma {:induction false} PutShape(op: Op, t: Expr, p: Path, s: Expr)
    requires Operand(op, t, p) && !s.IsBin(op)
    ensures SameShape(op, t, Put(op, t, p, s))
    decreases p
  {
    if p != [] {
      PutShape(op, Child(t, p[0]), p[1..], s);
      SameShapeRefl(op, Child(t, !p[0]));
    }
  }

  lemma {:induction false} PutSize(op: Op, t: Expr, p: Path, s: Expr)
    requires InChain(op, t, p)
    ensures Size(Put(op, t, p, s)) == Size(t) - Size(At(op, t, p)) + Size(s)
    decreases p
  {
    if p != [] { PutSize(op, Child(t, p[0]), p[1..], s); }
  }

  lemma {:induction false} PutRights(op: Op, t: Expr, p: Path, s: Expr)
    requires InChain(op, t, p)
    ensures Rights(Put(op, t, p, s)) <= Rights(t) + Rights(s)
    ensures Rights(At(op, t, p)) <= Rights(t)
    decreases p
  {
    if p != [] { PutRights(op, Child(t, p[0]), p[1..], s); }
  }

  /** A negation stands only directly above a symbol. */
  predicate NegationNormal(e: Expr) {
    match e
    case Not(x) => x.Symbol?
    case Bin(_, l, r) => NegationNormal(l) && NegationNormal(r)
    case _ => true
  }

  lemma {:induction false} PutNegationNormal(op: Op, t: Expr, p: Path, s: Expr)
    requires InChain(op, t, p) && NegationNormal(t)
    ensures NegationNormal(At(op, t, p))
    ensures NegationNormal(s) ==> NegationNormal(Put(op, t, p, s))
    decreases p
  {
    if p != [] { PutNegationNormal(op, Child(t, p[0]), p[1..], s); }
  }

  lemma {:induction false} PutHasUnit(op: Op, t: Expr, p: Path, s: Expr)
    requires InChain(op, t, p) && HasUnit(s)
    ensures HasUnit(Put(op, t, p, s))
    decreases p
  {
    if p != [] { PutHasUnit(op, Child(t, p[0]), p[1..], s); }
  }

  lemma {:induction false} UnitOperand(op: Op, t: Expr, p: Path)
    requires InChain(op, t, p) && p != [] && At(op, t, p) == Symbol(op.Unit())
    ensures HasUnit(t)
    decreases p
  {
    if |p| > 1 { UnitOperand(op, Child(t, p[0]), p[1..]); }
  }

  /** Any operand can be taken out of the chain. */
  lemma {:induction false} Factor(i: Interp, op: Op, t: Expr, p: Path)
    requires InChain(op, t, p)
    ensures Eval(i, t) == op.Apply(Eval(i, At(op, t, p)), Eval(i, Put(op, t, p, Symbol(op.Unit()))))
    decreases p
  {
    if p != [] {
      Factor(i, op, Child(t, p[0]), p[1..]);
      var x := Eval(i, At(op, t, p));
      var c := Eval(i, Put(op, Child(t, p[0]), p[1..], Symbol(op.Unit())));
      var d := Eval(i, Child(t, !p[0]));
      ApplyAssoc(op, x, c, d);
      ApplyCommute(op, op.Apply(x, c), d);
      ApplyCommute(op, c, d);
    }
  }
}
