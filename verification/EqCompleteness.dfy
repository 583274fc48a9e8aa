/** The equality test recognises every expression as equal to itself, so a repeated
    operand is always found. */
module EqCompleteness {
  import opened Expressions
  import opened EqElimination
  import opened Joins
  import opened Chains
  import opened DupElimination

  predicate IsYn(e: Expr) { e == Symbol(Yes) || e == Symbol(No) }

  /** Every operand of the chain is y or n. */
  predicate Dead(op: Op, e: Expr) {
    if e.IsBin(op) then Dead(op, e.l) && Dead(op, e.r) else IsYn(e)
  }

  /** The chain with each operand other than y and n taken out. */
  function Deaden(op: Op, e: Expr): (d: Expr)
    ensures Dead(op, d)
  {
    if e.IsBin(op) then Bin(op, Deaden(op, e.l), Deaden(op, e.r))
    else if IsYn(e) then e
    else Symbol(op.Unit())
  }

  /** All operands to the left of `p` are y or n. */
  predicate LeftDead(op: Op, t: Expr, p: Path)
    requires InChain(op, t, p)
    decreases p
  {
    p == [] || ((p[0] ==> Dead(op, t.l)) && LeftDead(op, Child(t, p[0]), p[1..]))
  }

  lemma {:induction false} WalkDeadRight(op: Op, e: Expr, d: Expr)
    requires Dead(op, d)
    ensures Walk(op, e, d) == (e, d)
    decreases Size(e) + Size(d)
  {
    if e.IsBin(op) { WalkDeadRight(op, e.l, d); WalkDeadRight(op, e.r, d); }
    else if d.IsBin(op) { WalkDeadRight(op, e, d.l); WalkDeadRight(op, e, d.r); }
  }

  lemma {:induction false} WalkDeadLeft(op: Op, d: Expr, e: Expr)
    requires Dead(op, d)
    ensures Walk(op, d, e) == (d, e)
    decreases Size(e) + Size(d)
  {
    if d.IsBin(op) { WalkDeadLeft(op, d.l, e); WalkDeadLeft(op, d.r, e); }
    else if e.IsBin(op) { WalkDeadLeft(op, d, e.l); WalkDeadLeft(op, d, e.r); }
  }

  lemma {:induction false} DeadIsConstant(op: Op, d: Expr)
    requires Dead(op, d)
    ensures IsYn(EliminateYn(d))
  {
    if d.IsBin(op) { DeadIsConstant(op, d.l); DeadIsConstant(op, d.r); }
  }

  lemma {:induction false} PutBoth(op: Op, t: Expr, p: Path, l: Expr, r: Expr)
    requires InChain(op, t, p) && At(op, t, p).IsBin(op)
    ensures InChain(op, t, p + [false])
    ensures var u := Put(op, t, p + [false], l);
            InChain(op, u, p + [true]) && Put(op, u, p + [true], r) == Put(op, t, p, Bin(op, l, r))
    ensures var u := Put(op, t, p + [false], l);
            At(op, u, p + [true]) == At(op, t, p).r
    ensures LeftDead(op, t, p) ==> LeftDead(op, t, p + [false])
    ensures LeftDead(op, t, p) && Dead(op, l) ==> LeftDead(op, Put(op, t, p + [false], l), p + [true])
    decreases p
  {
    Extend(op, t, p, false);
    if p != [] {
      PutBoth(op, Child(t, p[0]), p[1..], l, r);
      assert (p + [false])[1..] == p[1..] + [false];
      assert (p + [true])[1..] == p[1..] + [true];
    }
  }

  /** An operand is matched with itself and with nothing before or after. */
  lemma {:induction false} WalkOperandFindsItself(op: Op, e: Expr, t: Expr, p: Path)
    requires Operand(op, t, p) && At(op, t, p) == e && LeftDead(op, t, p)
    requires Eq(e, e)
    ensures Walk(op, e, t) == (Deaden(op, e), Put(op, t, p, Deaden(op, e)))
    decreases p
  {
    if p != [] {
      if p[0] {
        WalkDeadRight(op, e, t.l);
        WalkOperandFindsItself(op, e, t.r, p[1..]);
      } else {
        WalkOperandFindsItself(op, e, t.l, p[1..]);
        WalkDeadLeft(op, Deaden(op, e), t.r);
      }
    }
  }

  lemma {:induction false} WalkFindsItself(op: Op, e: Expr, t: Expr, p: Path)
    requires InChain(op, t, p) && At(op, t, p) == e && LeftDead(op, t, p)
    ensures Walk(op, e, t) == (Deaden(op, e), Put(op, t, p, Deaden(op, e)))
    decreases Size(e), if e.IsBin(op) then 0 else 2
  {
    if e.IsBin(op) {
      Extend(op, t, p, false);
      PutBoth(op, t, p, Deaden(op, e.l), Deaden(op, e.r));
      WalkFindsItself(op, e.l, t, p + [false]);
      var u := Put(op, t, p + [false], Deaden(op, e.l));
      WalkFindsItself(op, e.r, u, p + [true]);
    } else {
      EqReflexive(e);
      WalkOperandFindsItself(op, e, t, p);
    }
  }

  lemma {:induction false} EqReflexive(e: Expr)
    ensures Eq(e, e)
    decreases Size(e), 1
  {
    match e
    case Not(x) => EqReflexive(x);
    case Bin(op, _, _) =>
      WalkFindsItself(op, e, e, []);
      DeadIsConstant(op, Deaden(op, e));
    case _ =>
  }

  /** After duplicate elimination no operand of a chain occurs twice. */
  lemma DedupedOperandsDiffer(e: Expr, q1: Path, q2: Path)
    requires e.Bin? && Deduped(e)
    requires Operand(e.op, e, q1) && Operand(e.op, e, q2) && q1 != q2
    ensures At(e.op, e, q1) != At(e.op, e, q2)
    ensures !Eq(At(e.op, e, q1), At(e.op, e, q2))
  {
    EqReflexive(At(e.op, e, q1));
    assert [] <= q1 && [] <= q2;
    assert Join(e.op, At(e.op, e, q1), At(e.op, e, q2)).None?;
  }
}
