/** Removal of duplicate and other redundant operands. */
module DupElimination {
  import opened Expressions
  import opened EqElimination
  import opened Joins
  import opened Chains

  /* ----- what a rewriting step keeps ----- */

  ghost predicate SameValue(t: Expr, u: Expr) {
    forall i: Interp :: Lawful(i) && Separates(i, Rights(t) + YMN) ==> Eval(i, u) == Eval(i, t)
  }

  ghost predicate Rewrites(t: Expr, u: Expr) {
    && Size(u) <= Size(t)
    && Rights(u) <= Rights(t) + YMN
    && (NegationNormal(t) ==> NegationNormal(u))
    && SameValue(t, u)
  }

  lemma RewritesTrans(t: Expr, u: Expr, w: Expr)
    requires Rewrites(t, u) && Rewrites(u, w)
    ensures Rewrites(t, w)
  {
    forall i: Interp | Lawful(i) && Separates(i, Rights(t) + YMN)
      ensures Eval(i, w) == Eval(i, t)
    {
      assert Separates(i, Rights(u) + YMN);
    }
  }

  lemma {:induction false} YnKeepsForm(e: Expr)
    ensures Rights(EliminateYn(e)) <= Rights(e)
    ensures NegationNormal(e) ==> NegationNormal(EliminateYn(e))
  {
    if e.Bin? { YnKeepsForm(e.l); YnKeepsForm(e.r); }
  }

  lemma YnRewrites(e: Expr)
    ensures Rewrites(e, EliminateYn(e))
  {
    YnKeepsForm(e);
    forall i: Interp ensures Eval(i, EliminateYn(e)) == Eval(i, e) { EliminateYnSameValue(i, e); }
  }

  /** Rewriting one operand rewrites the chain. */
  lemma PutRewrites(op: Op, t: Expr, p: Path, s: Expr)
    requires Operand(op, t, p) && Rewrites(At(op, t, p), s)
    ensures Rewrites(t, Put(op, t, p, s))
  {
    var x, u := At(op, t, p), Put(op, t, p, s);
    PutSize(op, t, p, s);
    PutRights(op, t, p, s);
    if NegationNormal(t) { PutNegationNormal(op, t, p, s); }
    AtPut(op, t, p, s);
    forall i: Interp | Lawful(i) && Separates(i, Rights(t) + YMN)
      ensures Eval(i, u) == Eval(i, t)
    {
      assert Separates(i, Rights(x) + YMN);
      Factor(i, op, t, p);
      Factor(i, op, u, p);
    }
  }

  /** A join is the first operand, a symbol, or a comparison with a constant at
      hand. */
  predicate JoinForm(e1: Expr, e2: Expr, j: Expr) {
    j == e1 || j.Symbol? || (j.Comp? && j.right in Rights(e1) + Rights(e2) + YMN)
  }

  lemma JoinOrForm(e1: Expr, e2: Expr)
    requires JoinOr(e1, e2).Some?
    ensures JoinForm(e1, e2, JoinOr(e1, e2).value)
  {}

  lemma JoinAndForm(e1: Expr, e2: Expr)
    requires JoinAnd(e1, e2).Some?
    ensures JoinForm(e1, e2, JoinAnd(e1, e2).value)
  {}

  lemma JoinShape(op: Op, e1: Expr, e2: Expr)
    requires Join(op, e1, e2).Some? && !e1.IsBin(op)
    ensures var j := Join(op, e1, e2).value;
            && Size(j) <= Size(e1) && !j.IsBin(op)
            && Rights(j) <= Rights(e1) + Rights(e2) + YMN
            && (NegationNormal(e1) ==> NegationNormal(j))
  {
    if op.And? { JoinAndForm(e1, e2); } else { JoinOrForm(e1, e2); }
    assert JoinForm(e1, e2, Join(op, e1, e2).value);
  }

  /** The tree after operands `p1` and `p2` were joined into `j`. */
  function Joined(op: Op, t: Expr, p1: Path, p2: Path, j: Expr): Expr
    requires Operand(op, t, p1) && Operand(op, t, p2) && p1 != p2
  {
    AtPutOther(op, t, p1, Symbol(op.Unit()), p2);
    Put(op, Put(op, t, p1, Symbol(op.Unit())), p2, j)
  }

  lemma JoinedValue(i: Interp, op: Op, t: Expr, p1: Path, p2: Path)
    requires Operand(op, t, p1) && Operand(op, t, p2) && p1 != p2
    requires Join(op, At(op, t, p1), At(op, t, p2)).Some?
    requires Lawful(i) && Separates(i, Rights(t) + YMN)
    ensures Eval(i, Joined(op, t, p1, p2, Join(op, At(op, t, p1), At(op, t, p2)).value)) == Eval(i, t)
  {
    var x, y := At(op, t, p1), At(op, t, p2);
    var j := Join(op, x, y).value;
    var t1 := Put(op, t, p1, Symbol(op.Unit()));
    AtPutOther(op, t, p1, Symbol(op.Unit()), p2);
    var rest := Put(op, t1, p2, Symbol(op.Unit()));
    var u := Put(op, t1, p2, j);
    PutRights(op, t, p1, x);
    PutRights(op, t, p2, y);
    JoinSound(i, op, x, y, Rights(t) + YMN);
    Factor(i, op, t, p1);
    Factor(i, op, t1, p2);
    AtPut(op, t1, p2, j);
    Factor(i, op, u, p2);
    ApplyAssoc(op, Eval(i, x), Eval(i, y), Eval(i, rest));
  }

  lemma JoinedRewrites(op: Op, t: Expr, p1: Path, p2: Path)
    requires Operand(op, t, p1) && Operand(op, t, p2) && p1 != p2
    requires Join(op, At(op, t, p1), At(op, t, p2)).Some?
    ensures var u := Joined(op, t, p1, p2, Join(op, At(op, t, p1), At(op, t, p2)).value);
            Rewrites(t, u) && SameShape(op, t, u) && (p1 != [] ==> HasUnit(u))
  {
    var x, y := At(op, t, p1), At(op, t, p2);
    var j := Join(op, x, y).value;
    var unit := Symbol(op.Unit());
    var t1 := Put(op, t, p1, unit);
    AtPut(op, t, p1, unit);
    AtPutOther(op, t, p1, unit, p2);
    var u := Put(op, t1, p2, j);
    JoinShape(op, x, y);
    PutSize(op, t, p1, unit);
    PutSize(op, t1, p2, j);
    PutRights(op, t, p1, unit);
    PutRights(op, t, p2, y);
    PutRights(op, t1, p2, j);
    if NegationNormal(t) { PutNegationNormal(op, t, p1, unit); PutNegationNormal(op, t1, p2, j); }
    PutShape(op, t, p1, unit);
    PutShape(op, t1, p2, j);
    SameShapeTrans(op, t, t1, u);
    AtPutOther(op, t1, p2, j, p1);
    if p1 != [] { UnitOperand(op, u, p1); }
    forall i: Interp | Lawful(i) && Separates(i, Rights(t) + YMN) ensures Eval(i, u) == Eval(i, t) {
      JoinedValue(i, op, t, p1, p2);
    }
  }

  /* ----- the result that is aimed at ----- */

  /** No operand below `p1` can be joined with a different one below `p2`, and
      what stands below `p1` holds no redundant operands itself. */
  ghost predicate Clean(op: Op, t: Expr, p1: Path, p2: Path)
    requires t.IsBin(op)
    decreases Size(t), 0
  {
    forall q1: Path, q2: Path ::
      p1 <= q1 && p2 <= q2 && Operand(op, t, q1) && Operand(op, t, q2) && q1 != q2 ==>
      Join(op, At(op, t, q1), At(op, t, q2)).None? && Deduped(At(op, t, q1))
  }

  lemma Below(op: Op, t: Expr, p: Path, q: Path)
    requires InChain(op, t, p) && At(op, t, p).IsBin(op) && p <= q && Operand(op, t, q)
    ensures p + [true] <= q || p + [false] <= q
  {
    assert q != p;
    if q[|p|] { assert p + [true] <= q; } else { assert p + [false] <= q; }
  }

  /** No two operands of any chain in `e` can be joined. */
  ghost predicate Deduped(e: Expr)
    decreases Size(e), 1
  {
    e.Bin? ==> Clean(e.op, e, [], [])
  }

  lemma CleanFewer(op: Op, t: Expr, p1: Path, p2: Path, r1: Path, r2: Path)
    requires t.IsBin(op) && Clean(op, t, p1, p2) && p1 <= r1 && p2 <= r2
    ensures Clean(op, t, r1, r2)
  {}

  lemma CleanBelowFirst(op: Op, t: Expr, p1: Path, p2: Path)
    requires t.IsBin(op) && InChain(op, t, p1) && At(op, t, p1).IsBin(op)
    ensures Clean(op, t, p1, p2) <==> Clean(op, t, p1 + [false], p2) && Clean(op, t, p1 + [true], p2)
  {
    if Clean(op, t, p1, p2) {
      CleanFewer(op, t, p1, p2, p1 + [false], p2);
      CleanFewer(op, t, p1, p2, p1 + [true], p2);
    }
    if Clean(op, t, p1 + [false], p2) && Clean(op, t, p1 + [true], p2) {
      forall q1: Path, q2: Path |
        p1 <= q1 && p2 <= q2 && Operand(op, t, q1) && Operand(op, t, q2) && q1 != q2
        ensures Join(op, At(op, t, q1), At(op, t, q2)).None? && Deduped(At(op, t, q1))
      {
        Below(op, t, p1, q1);
      }
    }
  }

  lemma CleanBelowSecond(op: Op, t: Expr, p1: Path, p2: Path)
    requires t.IsBin(op) && InChain(op, t, p2) && At(op, t, p2).IsBin(op)
    ensures Clean(op, t, p1, p2) <==> Clean(op, t, p1, p2 + [false]) && Clean(op, t, p1, p2 + [true])
  {
    if Clean(op, t, p1, p2) {
      CleanFewer(op, t, p1, p2, p1, p2 + [false]);
      CleanFewer(op, t, p1, p2, p1, p2 + [true]);
    }
    if Clean(op, t, p1, p2 + [false]) && Clean(op, t, p1, p2 + [true]) {
      forall q1: Path, q2: Path |
        p1 <= q1 && p2 <= q2 && Operand(op, t, q1) && Operand(op, t, q2) && q1 != q2
        ensures Join(op, At(op, t, q1), At(op, t, q2)).None? && Deduped(At(op, t, q1))
      {
        Below(op, t, p2, q2);
      }
    }
  }

  lemma CleanOperands(op: Op, t: Expr, p1: Path, p2: Path)
    requires t.IsBin(op) && Operand(op, t, p1) && Operand(op, t, p2)
    requires p1 != p2 ==> Join(op, At(op, t, p1), At(op, t, p2)).None? && Deduped(At(op, t, p1))
    ensures Clean(op, t, p1, p2)
  {
    forall q1: Path, q2: Path |
      p1 <= q1 && p2 <= q2 && Operand(op, t, q1) && Operand(op, t, q2) && q1 != q2
      ensures Join(op, At(op, t, q1), At(op, t, q2)).None? && Deduped(At(op, t, q1))
    {
      OperandIsLast(op, t, p1, q1);
      OperandIsLast(op, t, p2, q2);
    }
  }

  /* ----- expr_eliminate_dups ----- */

  /** `expr_eliminate_dups1`: compares every operand below slot `p1` with every
      operand below slot `p2` of the same tree, rewriting both slots in place, and
      counts the joins. */
  method WalkPairs(op: Op, t: Expr, p1: Path, p2: Path) returns (u: Expr, joins: nat)
    requires t.IsBin(op) && InChain(op, t, p1) && InChain(op, t, p2)
    ensures SameShape(op, t, u) && Rewrites(t, u)
    ensures joins > 0 ==> HasUnit(u)
    ensures joins == 0 ==> u == t
    ensures joins == 0 <==> Clean(op, t, p1, p2)
    decreases Size(t), Span(op, At(op, t, p1)) + Span(op, At(op, t, p2)), 1
  {
    if At(op, t, p1).IsBin(op) {
      u, joins := WalkFirst(op, t, p1, p2);
    } else if At(op, t, p2).IsBin(op) {
      u, joins := WalkSecond(op, t, p1, p2);
    } else if p1 == p2 {
      SameShapeRefl(op, t);
      CleanOperands(op, t, p1, p2);
      u, joins := t, 0;
    } else {
      u, joins := JoinSlots(op, t, p1, p2);
    }
  }

  method WalkFirst(op: Op, t: Expr, p1: Path, p2: Path) returns (u: Expr, joins: nat)
    requires t.IsBin(op) && InChain(op, t, p1) && InChain(op, t, p2) && At(op, t, p1).IsBin(op)
    ensures SameShape(op, t, u) && Rewrites(t, u)
    ensures joins > 0 ==> HasUnit(u)
    ensures joins == 0 ==> u == t
    ensures joins == 0 <==> Clean(op, t, p1, p2)
    decreases Size(t), Span(op, At(op, t, p1)) + Span(op, At(op, t, p2)), 0
  {
    Extend(op, t, p1, false);
    Extend(op, t, p1, true);
    CleanBelowFirst(op, t, p1, p2);
    var w, m := WalkPairs(op, t, p1 + [false], p2);
    SameShapeAt(op, t, w, p1 + [true]);
    SameShapeAt(op, t, w, p2);
    var n;
    u, n := WalkPairs(op, w, p1 + [true], p2);
    joins := m + n;
    SameShapeTrans(op, t, w, u);
    RewritesTrans(t, w, u);
  }

  method WalkSecond(op: Op, t: Expr, p1: Path, p2: Path) returns (u: Expr, joins: nat)
    requires t.IsBin(op) && InChain(op, t, p1) && InChain(op, t, p2) && At(op, t, p2).IsBin(op)
    ensures SameShape(op, t, u) && Rewrites(t, u)
    ensures joins > 0 ==> HasUnit(u)
    ensures joins == 0 ==> u == t
    ensures joins == 0 <==> Clean(op, t, p1, p2)
    decreases Size(t), Span(op, At(op, t, p1)) + Span(op, At(op, t, p2)), 0
  {
    Extend(op, t, p2, false);
    Extend(op, t, p2, true);
    CleanBelowSecond(op, t, p1, p2);
    var w, m := WalkPairs(op, t, p1, p2 + [false]);
    SameShapeAt(op, t, w, p1);
    SameShapeAt(op, t, w, p2 + [true]);
    var n;
    u, n := WalkPairs(op, w, p1, p2 + [true]);
    joins := m + n;
    SameShapeTrans(op, t, w, u);
    RewritesTrans(t, w, u);
  }

  /** The part of `expr_eliminate_dups1` for two different operands. */
  method JoinSlots(op: Op, t: Expr, p1: Path, p2: Path) returns (u: Expr, joins: nat)
    requires t.IsBin(op) && Operand(op, t, p1) && Operand(op, t, p2) && p1 != p2
    ensures SameShape(op, t, u) && Rewrites(t, u)
    ensures joins > 0 ==> HasUnit(u)
    ensures joins == 0 ==> u == t
    ensures joins == 0 <==> Clean(op, t, p1, p2)
    decreases Size(t), 0
  {
    var x := At(op, t, p1);
    var m := 0;
    if x.Bin? {
      x, m := WalkPairs(x.op, x, [], []);
    }
    var w := Put(op, t, p1, x);
    AtPut(op, t, p1, x);
    PutRewrites(op, t, p1, x);
    PutShape(op, t, p1, x);
    AtPutOther(op, t, p1, x, p2);
    if m > 0 { PutHasUnit(op, t, p1, x); }
    var j := Join(op, x, At(op, w, p2));
    if j.Some? {
      JoinedRewrites(op, w, p1, p2);
      u, joins := Joined(op, w, p1, p2, j.value), m + 1;
      SameShapeTrans(op, t, w, u);
      RewritesTrans(t, w, u);
    } else {
      u, joins := w, m;
      if m == 0 { CleanOperands(op, t, p1, p2); }
    }
  }

  /** `expr_eliminate_dups`: the value is kept, nothing grows, no two operands that
      could be joined are left at any level, and if there are none nothing changes. */
  method EliminateDups(e: Expr) returns (r: Expr)
    ensures Rewrites(e, r)
    ensures Deduped(r)
    ensures Deduped(e) ==> r == e
  {
    r := e;
    while true
      invariant Rewrites(e, r)
      invariant Deduped(e) ==> r == e
      decreases Size(r)
    {
      var joins := 0;
      if r.Bin? {
        var u;
        u, joins := WalkPairs(r.op, r, [], []);
        if joins != 0 {
          UnitShrinks(u);
          YnRewrites(u);
          RewritesTrans(r, u, EliminateYn(u));
          RewritesTrans(e, r, EliminateYn(u));
          r := EliminateYn(u);
        }
      }
      if joins == 0 { break; }
    }
  }
}
