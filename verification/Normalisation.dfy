/** Normalisation of expressions: negations are pushed to the symbols and
    comparisons of bool symbols disappear. */
module Normalisation {
  import opened Expressions
  import opened Joins
  import opened Chains

  /* ----- expr_transform ----- */

  /** A negation doubles what it stands on; a comparison weighs as much as a
      negated symbol. */
  function Weight(e: Expr): (w: nat)
    ensures w >= 1
  {
    match e
    case Symbol(_) => 1
    case Comp(_, _, _) => 2
    case Not(x) => 2 * Weight(x)
    case Bin(_, l, r) => 1 + Weight(l) + Weight(r)
  }

  predicate IsLiteral(s: Sym) { s == Yes || s == Mod || s == No }

  /** A bool symbol tested for equality with y, m or n. */
  predicate BoolTest(e: Expr) {
    e.Comp? && (e.rel.Equal? || e.rel.Unequal?) && e.left.Type().Boolean? && IsLiteral(e.right)
  }

  /** What normalisation leaves: negations only above symbols other than y, m
      and n, and no test of a bool symbol. */
  predicate Normal(e: Expr) {
    match e
    case Symbol(_) => true
    case Comp(_, _, _) => !BoolTest(e)
    case Not(x) => x.Symbol? && !IsLiteral(x.sym)
    case Bin(_, l, r) => Normal(l) && Normal(r)
  }

  function TransformComp(e: Expr): (r: Expr)
    requires e.Comp?
    ensures Normal(r) && Weight(r) <= 2
  {
    if !BoolTest(e) then e
    else if e.rel.Equal? then
      (if e.right == No then Not(Symbol(e.left))
       else if e.right == Mod then Symbol(No)
       else Symbol(e.left))
    else
      (if e.right == No then Symbol(e.left)
       else if e.right == Mod then Symbol(Yes)
       else Not(Symbol(e.left)))
  }

  function NegateLiteral(s: Sym): Sym
    requires IsLiteral(s)
  {
    if s == Yes then No else if s == No then Yes else Mod
  }

  /** !(a op b) with the negation on the operands. */
  function PushNot(op: Op, a: Expr, b: Expr): (r: Expr)
    ensures Weight(r) < 2 * Weight(Bin(op, a, b))
  {
    assert Weight(Not(a)) == 2 * Weight(a) && Weight(Not(b)) == 2 * Weight(b);
    Bin(op.Dual(), Not(a), Not(b))
  }

  function Transform(e: Expr): (r: Expr)
    ensures Normal(r) && Weight(r) <= Weight(e)
    decreases Weight(e)
  {
    match e
    case Symbol(_) => e
    case Comp(_, _, _) => TransformComp(e)
    case Bin(op, l, r) => Bin(op, Transform(l), Transform(r))
    case Not(x) =>
      match Transform(x)
      case Not(y) => Transform(y)
      case Comp(rel, a, b) => Comp(rel.Negate(), a, b)
      case Bin(op, a, b) => Transform(PushNot(op, a, b))
      case Symbol(s) => if IsLiteral(s) then Symbol(NegateLiteral(s)) else Not(Symbol(s))
  }

  lemma {:induction false} TransformNormal(e: Expr)
    requires Normal(e)
    ensures Transform(e) == e
  {
    if e.Bin? { TransformNormal(e.l); TransformNormal(e.r); }
  }

  lemma TransformIdempotent(e: Expr)
    ensures Transform(Transform(e)) == Transform(e)
  {
    TransformNormal(Transform(e));
  }

  lemma TransformCompValue(i: Interp, e: Expr)
    requires Lawful(i) && e.Comp?
    ensures Eval(i, TransformComp(e)) == Eval(i, e)
  {
    if BoolTest(e) { LawfulAt(i, e.left); }
  }

  lemma DeMorgan(op: Op, a: Tri, b: Tri)
    ensures op.Dual().Apply(Neg(a), Neg(b)) == Neg(op.Apply(a, b))
  {}

  lemma {:induction false} TransformSameValue(i: Interp, e: Expr)
    requires Lawful(i)
    ensures Eval(i, Transform(e)) == Eval(i, e)
    decreases Weight(e)
  {
    match e
    case Symbol(_) =>
    case Comp(_, _, _) => TransformCompValue(i, e);
    case Bin(op, l, r) => TransformSameValue(i, l); TransformSameValue(i, r);
    case Not(x) =>
      TransformSameValue(i, x);
      match Transform(x)
      case Not(y) => TransformSameValue(i, y);
      case Comp(rel, a, b) =>
      case Bin(op, a, b) =>
        TransformSameValue(i, PushNot(op, a, b));
        DeMorgan(op, Eval(i, a), Eval(i, b));
      case Symbol(s) =>
  }

  lemma {:induction false} TransformRights(e: Expr)
    ensures Rights(Transform(e)) <= Rights(e)
    decreases Weight(e)
  {
    match e
    case Symbol(_) =>
    case Comp(_, _, _) =>
    case Bin(op, l, r) => TransformRights(l); TransformRights(r);
    case Not(x) =>
      TransformRights(x);
      match Transform(x)
      case Not(y) => TransformRights(y);
      case Comp(rel, a, b) =>
      case Bin(op, a, b) => TransformRights(PushNot(op, a, b));
      case Symbol(s) =>
  }

  lemma {:induction false} NormalIsNegationNormal(e: Expr)
    requires Normal(e)
    ensures NegationNormal(e)
  {
    if e.Bin? { NormalIsNegationNormal(e.l); NormalIsNegationNormal(e.r); }
  }

  /* ----- rewrite_m ----- */

  function RewriteM(e: Expr, modules: Sym): Expr {
    match e
    case Not(x) => Not(RewriteM(x, modules))
    case Bin(op, l, r) => Bin(op, RewriteM(l, modules), RewriteM(r, modules))
    case Symbol(s) => if s == Mod then Bin(And, e, Symbol(modules)) else e
    case Comp(_, _, _) => e
  }

  /** The value of `e` when the literal m stands for "m if modules are enabled". */
  function EvalModules(i: Interp, modules: Sym, e: Expr): Tri {
    match e
    case Symbol(s) => if s == Mod then Min(MOD, CurrTri(i, modules)) else CurrTri(i, s)
    case Not(x) => Neg(EvalModules(i, modules, x))
    case Bin(op, l, r) => op.Apply(EvalModules(i, modules, l), EvalModules(i, modules, r))
    case Comp(rel, a, b) => OfBool(rel.Holds(i.cmp(a, b)))
  }

  lemma {:induction false} RewriteMValue(i: Interp, e: Expr, modules: Sym)
    ensures Eval(i, RewriteM(e, modules)) == EvalModules(i, modules, e)
  {
    match e
    case Not(x) => RewriteMValue(i, x, modules);
    case Bin(op, l, r) => RewriteMValue(i, l, modules); RewriteMValue(i, r, modules);
    case Symbol(_) =>
    case Comp(_, _, _) =>
  }

  lemma {:induction false} RewriteMRights(e: Expr, modules: Sym)
    ensures Rights(RewriteM(e, modules)) == Rights(e)
  {
    match e
    case Not(x) => RewriteMRights(x, modules);
    case Bin(op, l, r) => RewriteMRights(l, modules); RewriteMRights(r, modules);
    case Symbol(_) =>
    case Comp(_, _, _) =>
  }

  /* ----- expr_trans_bool ----- */

  function TransBool(e: Expr): Expr {
    match e
    case Not(x) => Not(TransBool(x))
    case Bin(op, l, r) => Bin(op, TransBool(l), TransBool(r))
    case Comp(rel, a, b) => if rel.Unequal? && a.Type().Tristate? && b == No then Symbol(a) else e
    case Symbol(_) => e
  }

  /** No tristate symbol is tested for being different from n. */
  predicate NoTestLeft(e: Expr) {
    match e
    case Not(x) => NoTestLeft(x)
    case Bin(_, l, r) => NoTestLeft(l) && NoTestLeft(r)
    case Comp(rel, a, b) => !(rel.Unequal? && a.Type().Tristate? && b == No)
    case Symbol(_) => true
  }

  /** All such tests go, at any depth, and an expression without any stays as it is. */
  lemma {:induction false} TransBoolComplete(e: Expr)
    ensures NoTestLeft(TransBool(e))
    ensures NoTestLeft(e) ==> TransBool(e) == e
  {
    match e
    case Not(x) => TransBoolComplete(x);
    case Bin(_, l, r) => TransBoolComplete(l); TransBoolComplete(r);
    case Comp(_, _, _) =>
    case Symbol(_) =>
  }

  /** How a value m counts for anything but a tristate. */
  function Round(t: Tri): Tri { if t == MOD then YES else t }

  lemma RoundApply(op: Op, a: Tri, b: Tri)
    ensures Round(op.Apply(a, b)) == op.Apply(Round(a), Round(b))
  {}

  lemma {:induction false} TransBoolRounded(i: Interp, e: Expr)
    requires Lawful(i) && NegationNormal(e)
    ensures Round(Eval(i, TransBool(e))) == Round(Eval(i, e))
  {
    match e
    case Bin(op, l, r) =>
      TransBoolRounded(i, l);
      TransBoolRounded(i, r);
      RoundApply(op, Eval(i, l), Eval(i, r));
      RoundApply(op, Eval(i, TransBool(l)), Eval(i, TransBool(r)));
    case Comp(rel, a, b) => if a.Logical() { LawfulAt(i, a); }
    case _ =>
  }

  /** Above a comparison a negation breaks this: at m the rewritten operand is m
      again under the negation. */
  lemma TransBoolUnderNot(i: Interp, a: Sym)
    requires Lawful(i) && a.Type().Tristate?
    ensures Round(Eval(i, TransBool(Not(Comp(Unequal, a, No))))) == Round(Eval(i, Not(Comp(Unequal, a, No))))
            <==> i.tri(a) != MOD
  {
    LawfulAt(i, a);
    assert TransBool(Not(Comp(Unequal, a, No))) == Not(Symbol(a));
  }

  /* ----- expr_trans_compare ----- */

  /** `expr_trans_compare` with a relation = or != and one of n, m, y. */
  function TransCompare(e: Expr, rel: Rel, c: Tri): Expr {
    match e
    case Bin(op, l, r) =>
      var e1 := TransCompare(l, Equal, c);
      var e2 := TransCompare(r, Equal, c);
      var f := if c == YES then Bin(op, e1, e2) else if c == NO then Bin(op.Dual(), e1, e2) else e;
      if rel.Unequal? then Not(f) else f
    case Not(x) => TransCompare(x, if rel.Equal? then Unequal else Equal, c)
    case Comp(_, _, _) =>
      if c == MOD then Symbol(if rel.Equal? then No else Yes)
      else if rel.Equal? == (c == YES) then e
      else Not(e)
    case Symbol(s) => Comp(rel, s, ConstFor(c))
  }

  function TransCompareDep(d: Dep, rel: Rel, c: Tri): Expr {
    match d
    case Some(e) => TransCompare(e, rel, c)
    case None => if rel.Unequal? then Not(Symbol(ConstFor(c))) else Symbol(ConstFor(c))
  }

  predicate EqualityHolds(rel: Rel, a: Tri, b: Tri) {
    if rel.Equal? then a == b else a != b
  }

  /** The value when every symbol is only asked whether it compares equal to `c`: it is `c`
      if so, and the opposite otherwise. */
  function EvalSharp(i: Interp, e: Expr, c: Tri): Tri {
    match e
    case Symbol(s) => if i.cmp(s, ConstFor(c)) == 0 then c else Neg(c)
    case Comp(_, _, _) => Eval(i, e)
    case Not(x) => Neg(EvalSharp(i, x, c))
    case Bin(op, l, r) => op.Apply(EvalSharp(i, l, c), EvalSharp(i, r, c))
  }

  lemma SharpIsBinary(i: Interp, e: Expr, c: Tri)
    requires c != MOD
    ensures EvalSharp(i, e, c) != MOD
  {}

  /** What the comparison computes, for every expression and every valuation. */
  lemma {:induction false} TransCompareSharp(i: Interp, e: Expr, rel: Rel, c: Tri)
    requires c != MOD && (rel.Equal? || rel.Unequal?)
    ensures Eval(i, TransCompare(e, rel, c)) == OfBool(EqualityHolds(rel, EvalSharp(i, e, c), c))
  {
    match e
    case Symbol(s) =>
    case Comp(_, _, _) =>
    case Not(x) =>
      TransCompareSharp(i, x, if rel.Equal? then Unequal else Equal, c);
      SharpIsBinary(i, x, c);
    case Bin(op, l, r) =>
      TransCompareSharp(i, l, Equal, c);
      TransCompareSharp(i, r, Equal, c);
      TransCompareBin(op, EvalSharp(i, l, c), EvalSharp(i, r, c), c);
  }

  /** The comparison of an expression is right if and only if asking the symbols sharply
      agrees with the expression on being `c`. */
  lemma TransCompareExact(i: Interp, e: Expr, rel: Rel, c: Tri)
    requires c != MOD && (rel.Equal? || rel.Unequal?)
    ensures Eval(i, TransCompare(e, rel, c)) == OfBool(EqualityHolds(rel, Eval(i, e), c))
            <==> (EvalSharp(i, e, c) == c <==> Eval(i, e) == c)
  {
    TransCompareSharp(i, e, rel, c);
  }

  /** Only bool and tristate symbols and literals stand for a value. */
  predicate LogicalLeaves(e: Expr) {
    match e
    case Symbol(s) => s.User? ==> s.Logical()
    case Comp(_, _, _) => true
    case Not(x) => LogicalLeaves(x)
    case Bin(_, l, r) => LogicalLeaves(l) && LogicalLeaves(r)
  }

  /** The value with m read as y at each symbol, or as n. */
  function EvalRounded(i: Interp, e: Expr, up: bool): Tri {
    match e
    case Symbol(s) => if CurrTri(i, s) == MOD then (if up then YES else NO) else CurrTri(i, s)
    case Comp(_, _, _) => Eval(i, e)
    case Not(x) => Neg(EvalRounded(i, x, up))
    case Bin(op, l, r) => op.Apply(EvalRounded(i, l, up), EvalRounded(i, r, up))
  }

  /** Over bool and tristate symbols, comparing with n reads m as y, and comparing with y
      reads it as n. */
  lemma {:induction false} SharpIsRounded(i: Interp, e: Expr, c: Tri)
    requires Lawful(i) && LogicalLeaves(e) && c != MOD
    ensures EvalSharp(i, e, c) == EvalRounded(i, e, c == NO)
  {
    match e
    case Symbol(s) =>
      if s.User? { LawfulAt(i, s); } else { LiteralsDiffer(i, CurrTri(i, s), c); }
    case Comp(_, _, _) =>
    case Not(x) => SharpIsRounded(i, x, c);
    case Bin(op, l, r) =>
      SharpIsRounded(i, l, c);
      SharpIsRounded(i, r, c);
  }

  /** No negation stands above a value m. */
  predicate NegationSafe(i: Interp, e: Expr) {
    match e
    case Symbol(_) => true
    case Comp(_, _, _) => true
    case Not(x) => NegationSafe(i, x) && Eval(i, x) != MOD
    case Bin(_, l, r) => NegationSafe(i, l) && NegationSafe(i, r)
  }

  lemma {:induction false} SafeRounds(i: Interp, e: Expr, up: bool)
    requires NegationSafe(i, e)
    ensures EvalRounded(i, e, up) == if Eval(i, e) == MOD then (if up then YES else NO) else Eval(i, e)
  {
    match e
    case Not(x) => SafeRounds(i, x, up);
    case Bin(op, l, r) =>
      SafeRounds(i, l, up);
      SafeRounds(i, r, up);
    case Symbol(_) =>
    case Comp(_, _, _) =>
  }

  /** In particular the comparison is right where only bool and tristate symbols stand for
      values and no negated value is m. */
  lemma TransCompareValue(i: Interp, e: Expr, rel: Rel, c: Tri)
    requires Lawful(i) && LogicalLeaves(e) && NegationSafe(i, e) && c != MOD && (rel.Equal? || rel.Unequal?)
    ensures Eval(i, TransCompare(e, rel, c)) == OfBool(EqualityHolds(rel, Eval(i, e), c))
  {
    TransCompareExact(i, e, rel, c);
    SharpIsRounded(i, e, c);
    SafeRounds(i, e, c == NO);
  }

  lemma LiteralsDiffer(i: Interp, t: Tri, c: Tri)
    requires Lawful(i)
    ensures i.cmp(ConstFor(t), ConstFor(c)) == 0 <==> t == c
  {}

  lemma TransCompareBin(op: Op, a: Tri, b: Tri, c: Tri)
    requires c != MOD
    ensures OfBool(op.Apply(a, b) == c) ==
            (if c == YES then op else op.Dual()).Apply(OfBool(a == c), OfBool(b == c))
  {}

  function SharpDep(i: Interp, d: Dep): Tri { if d.None? then YES else EvalSharp(i, d.value, NO) }

  /** The comparison with n of a dependency that may be missing. */
  lemma TransCompareDepSharp(i: Interp, d: Dep)
    ensures Eval(i, TransCompareDep(d, Unequal, NO)) == OfBool(SharpDep(i, d) != NO)
  {
    if d.Some? { TransCompareSharp(i, d.value, Unequal, NO); }
  }

  /** On a negated symbol the comparison is right exactly when the symbol is not m. */
  lemma TransCompareNotExact(i: Interp, s: Sym)
    requires Lawful(i) && s.Logical()
    ensures Eval(i, TransCompare(Not(Symbol(s)), Unequal, NO)) == OfBool(Eval(i, Not(Symbol(s))) != NO)
            <==> i.tri(s) != MOD
  {
    LawfulAt(i, s);
    assert TransCompare(Not(Symbol(s)), Unequal, NO) == Comp(Equal, s, No);
  }

  /* ----- expr_contains_symbol and expr_depends_symbol ----- */

  predicate ContainsSymbol(e: Expr, s: Sym) {
    match e
    case Bin(_, l, r) => ContainsSymbol(l, s) || ContainsSymbol(r, s)
    case Symbol(t) => t == s
    case Comp(_, a, b) => a == s || b == s
    case Not(x) => ContainsSymbol(x, s)
  }

  predicate DependsSymbol(e: Expr, s: Sym) {
    match e
    case Bin(op, l, r) => op.And? && (DependsSymbol(l, s) || DependsSymbol(r, s))
    case Symbol(t) => t == s
    case Comp(rel, a, b) =>
      a == s && ((rel.Equal? && (b == Yes || b == Mod)) || (rel.Unequal? && b == No))
    case Not(_) => false
  }

  lemma {:induction false} ContainsIsSyms(e: Expr, s: Sym)
    ensures ContainsSymbol(e, s) <==> s in Syms(e)
    ensures DependsSymbol(e, s) ==> ContainsSymbol(e, s)
  {
    match e
    case Bin(_, l, r) => ContainsIsSyms(l, s); ContainsIsSyms(r, s);
    case Not(x) => ContainsIsSyms(x, s);
    case _ =>
  }

  /** An expression that depends on a bool or tristate symbol is n when the
      symbol is. */
  lemma {:induction false} DependsForcesNo(i: Interp, e: Expr, s: Sym)
    requires Lawful(i) && s.Logical() && DependsSymbol(e, s) && i.tri(s) == NO
    ensures Eval(i, e) == NO
  {
    LawfulAt(i, s);
    if e.Bin? {
      if DependsSymbol(e.l, s) { DependsForcesNo(i, e.l, s); } else { DependsForcesNo(i, e.r, s); }
    }
  }
}
