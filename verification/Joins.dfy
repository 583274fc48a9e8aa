/** Joining two operands of a conjunction or disjunction into one. */
module Joins {
  import opened Strings
  import opened Expressions
  import opened Values
  import opened EqElimination

  /** An expression that `expr_join_or` and `expr_join_and` look into. */
  predicate EqualityOrSymbol(e: Expr) {
    e.Symbol? || (e.Comp? && (e.rel.Equal? || e.rel.Unequal?))
  }

  function HeadSym(e: Expr): Sym
    requires EqualityOrSymbol(e)
  {
    if e.Symbol? then e.sym else e.left
  }

  /** The symbol the first operand is about, if the join considers it. */
  function FirstSym(e: Expr): Option<Sym> {
    if EqualityOrSymbol(e) then Some(HeadSym(e))
    else if e.Not? && EqualityOrSymbol(e.e) then Some(HeadSym(e.e))
    else None
  }

  /** The symbol the second operand is about: under a negation, only a symbol. */
  function SecondSym(e: Expr): Option<Sym> {
    if EqualityOrSymbol(e) then Some(HeadSym(e))
    else if e.Not? && e.e.Symbol? then Some(e.e.sym)
    else None
  }

  /** Both operands speak about one bool or tristate symbol. */
  function CommonSym(e1: Expr, e2: Expr): Option<Sym> {
    match (FirstSym(e1), SecondSym(e2))
    case (Some(s1), Some(s2)) => if s1 == s2 && s1.Logical() then Some(s1) else None
    case (_, _) => None
  }

  predicate IsComp(e: Expr, rel: Rel) { e.Comp? && e.rel == rel }

  /** `e` compares with the constant `c`. */
  predicate Against(e: Expr, rel: Rel, c: Sym) { IsComp(e, rel) && e.right == c }

  /** One operand compares with `c` and the other with `d`. */
  predicate Pair(e1: Expr, e2: Expr, rel: Rel, c: Sym, d: Sym) {
    || (Against(e1, rel, c) && Against(e2, rel, d))
    || (Against(e1, rel, d) && Against(e2, rel, c))
  }

  /** One operand is the symbol itself and the other compares it with `c`. */
  predicate SymbolAnd(e1: Expr, e2: Expr, rel: Rel, c: Sym) {
    || (e1.Symbol? && Against(e2, rel, c))
    || (e2.Symbol? && Against(e1, rel, c))
  }

  /** `expr_join_or`; None where the source returns NULL. */
  function JoinOr(e1: Expr, e2: Expr): Option<Expr> {
    if Eq(e1, e2) then Some(e1)
    else match CommonSym(e1, e2)
      case None => None
      case Some(s) =>
        if s.Type().Tristate? && Pair(e1, e2, Equal, Yes, Mod) then Some(Comp(Unequal, s, No))
        else if s.Type().Tristate? && Pair(e1, e2, Equal, Yes, No) then Some(Comp(Unequal, s, Mod))
        else if s.Type().Tristate? && Pair(e1, e2, Equal, Mod, No) then Some(Comp(Unequal, s, Yes))
        else if s.Type().Boolean? &&
                ((e1.Not? && e1.e.Symbol? && e2.Symbol?) || (e2.Not? && e2.e.Symbol? && e1.Symbol?))
        then Some(Symbol(Yes))
        else None
  }

  /** (a = b) && (a != c) for constants b and c. */
  function JoinEqualUnequal(s: Sym, b: Sym, c: Sym): Expr {
    if b != c then Comp(Equal, s, b) else Symbol(No)
  }

  /** `expr_join_and`; None where the source returns NULL. */
  function JoinAnd(e1: Expr, e2: Expr): Option<Expr> {
    if Eq(e1, e2) then Some(e1)
    else match CommonSym(e1, e2)
      case None => None
      case Some(s) =>
        if SymbolAnd(e1, e2, Equal, Yes) then Some(Comp(Equal, s, Yes))
        else if SymbolAnd(e1, e2, Unequal, No) then Some(Symbol(s))
        else if SymbolAnd(e1, e2, Unequal, Mod) then Some(Comp(Equal, s, Yes))
        else if !s.Type().Tristate? then None
        else if IsComp(e1, Equal) && IsComp(e2, Unequal) && e1.right.IsConst() && e2.right.IsConst()
        then Some(JoinEqualUnequal(s, e1.right, e2.right))
        else if IsComp(e1, Unequal) && IsComp(e2, Equal) && e1.right.IsConst() && e2.right.IsConst()
        then Some(JoinEqualUnequal(s, e2.right, e1.right))
        else if Pair(e1, e2, Unequal, Yes, No) then Some(Comp(Equal, s, Mod))
        else if Pair(e1, e2, Unequal, Yes, Mod) then Some(Comp(Equal, s, No))
        else if Pair(e1, e2, Unequal, Mod, No) then Some(Comp(Equal, s, Yes))
        else None
  }

  function Join(op: Op, e1: Expr, e2: Expr): Option<Expr> {
    if op.And? then JoinAnd(e1, e2) else JoinOr(e1, e2)
  }

  /* ----- what is joined ----- */

  /** Equal operands are joined, whatever they are. */
  lemma EqualJoin(op: Op, e1: Expr, e2: Expr)
    requires Eq(e1, e2)
    ensures Join(op, e1, e2) == Some(e1)
  {}

  /** Two of the three values of a tristate exclude the third. */
  lemma TwoValuesJoin(s: Sym, b: Sym, c: Sym, d: Sym)
    requires s.Type().Tristate? && {b, c, d} == {Yes, Mod, No} && b != c && c != d && b != d
    ensures Join(Or, Comp(Equal, s, b), Comp(Equal, s, c)) == Some(Comp(Unequal, s, d))
    ensures Join(And, Comp(Unequal, s, b), Comp(Unequal, s, c)) == Some(Comp(Equal, s, d))
  {
    assert b in {Yes, Mod, No} && c in {Yes, Mod, No} && d in {Yes, Mod, No};
  }

  /** A value of a tristate and the exclusion of one. */
  lemma ValueAndExclusionJoin(s: Sym, b: Sym, c: Sym)
    requires s.Type().Tristate? && b.IsConst() && c.IsConst()
    ensures var both := if b == c then Symbol(No) else Comp(Equal, s, b);
      && Join(And, Comp(Equal, s, b), Comp(Unequal, s, c)) == Some(both)
      && Join(And, Comp(Unequal, s, c), Comp(Equal, s, b)) == Some(both)
  {}

  /** A symbol and a test of it. */
  lemma SymbolAndTestJoin(s: Sym)
    requires s.Logical()
    ensures forall e :: e == Comp(Equal, s, Yes) || e == Comp(Unequal, s, Mod) ==>
      Join(And, Symbol(s), e) == Join(And, e, Symbol(s)) == Some(Comp(Equal, s, Yes))
    ensures Join(And, Symbol(s), Comp(Unequal, s, No)) == Join(And, Comp(Unequal, s, No), Symbol(s)) == Some(Symbol(s))
  {}

  /** A bool symbol or its negation. */
  lemma ExcludedMiddleJoins(s: Sym)
    requires s.Type().Boolean?
    ensures Join(Or, Symbol(s), Not(Symbol(s))) == Join(Or, Not(Symbol(s)), Symbol(s)) == Some(Symbol(Yes))
  {}

  /** Operands about different symbols are never joined. */
  lemma DifferentSymbolsStay(op: Op, e1: Expr, e2: Expr)
    requires EqualityOrSymbol(e1) && EqualityOrSymbol(e2) && HeadSym(e1) != HeadSym(e2)
    ensures Join(op, e1, e2).None?
  {}

  /* ----- when joining keeps the value ----- */

  /** The symbols that comparisons in `e` have on the right. */
  function Rights(e: Expr): set<Sym> {
    match e
    case Symbol(_) => {}
    case Comp(_, _, b) => {b}
    case Not(x) => Rights(x)
    case Bin(_, l, r) => Rights(l) + Rights(r)
  }

  /** No tristate equals two different constants among `k` or y, m, n. */
  ghost predicate Separates(i: Interp, k: set<Sym>) {
    forall s: Sym, b: Sym, c: Sym ::
      s.Type().Tristate? && b in k && c in k && b.IsConst() && c.IsConst() && b != c
      ==> i.cmp(s, b) != 0 || i.cmp(s, c) != 0
  }

  const YMN: set<Sym> := {Yes, Mod, No}

  lemma JoinOrSound(i: Interp, e1: Expr, e2: Expr)
    requires Lawful(i) && JoinOr(e1, e2).Some?
    ensures Eval(i, JoinOr(e1, e2).value) == Max(Eval(i, e1), Eval(i, e2))
  {
    if Eq(e1, e2) {
      EqSound(i, e1, e2);
    } else {
      var s := CommonSym(e1, e2).value;
      LawfulAt(i, s);
    }
  }

  lemma LawfulAt(i: Interp, s: Sym)
    requires Lawful(i) && s.Logical()
    ensures i.cmp(s, Yes) == 0 <==> i.tri(s) == YES
    ensures i.cmp(s, Mod) == 0 <==> i.tri(s) == MOD
    ensures i.cmp(s, No) == 0 <==> i.tri(s) == NO
    ensures s.User?
  {
    assert ConstFor(YES) == Yes && ConstFor(MOD) == Mod && ConstFor(NO) == No;
  }

  lemma JoinAndSound(i: Interp, e1: Expr, e2: Expr, k: set<Sym>)
    requires Lawful(i) && JoinAnd(e1, e2).Some?
    requires Separates(i, k) && Rights(e1) <= k && Rights(e2) <= k
    ensures Eval(i, JoinAnd(e1, e2).value) == Min(Eval(i, e1), Eval(i, e2))
  {
    if Eq(e1, e2) {
      EqSound(i, e1, e2);
    } else if e1.Comp? && e2.Comp? {
      JoinCompsSound(i, e1, e2, k);
    } else {
      LawfulAt(i, CommonSym(e1, e2).value);
    }
  }

  lemma JoinCompsSound(i: Interp, e1: Expr, e2: Expr, k: set<Sym>)
    requires Lawful(i) && JoinAnd(e1, e2).Some? && !Eq(e1, e2) && e1.Comp? && e2.Comp?
    requires Separates(i, k) && Rights(e1) <= k && Rights(e2) <= k
    ensures Eval(i, JoinAnd(e1, e2).value) == Min(Eval(i, e1), Eval(i, e2))
  {
    LawfulAt(i, CommonSym(e1, e2).value);
  }

  /** The joined operand has the value of the two together. */
  lemma JoinSound(i: Interp, op: Op, e1: Expr, e2: Expr, k: set<Sym>)
    requires Lawful(i) && Join(op, e1, e2).Some?
    requires Separates(i, k) && Rights(e1) <= k && Rights(e2) <= k
    ensures Eval(i, Join(op, e1, e2).value) == op.Apply(Eval(i, e1), Eval(i, e2))
  {
    if op.And? { JoinAndSound(i, e1, e2, k); } else { JoinOrSound(i, e1, e2); }
  }

  /* ----- which constants may be compared with a tristate ----- */

  function ConstText(c: Sym): string {
    match c
    case Yes => "y"
    case Mod => "m"
    case No => "n"
    case User(_, name, _, _) => name
  }

  /** The tristate values that compare equal to the constant `c`. */
  function Denotes(c: Sym): set<Tri> {
    set t: Tri | 0 <= t <= 2 && CompareValues(Letter(t), Tristate, ConstText(c), Unknown) == 0
  }

  lemma CompareWithConst(v: Valuation, a: Sym, c: Sym)
    requires Consistent(v) && a.Type().Tristate? && c.Type().Unknown?
    ensures Compare(v, a, c) == 0 <==> TriOf(v, a) in Denotes(c)
  {
    assert StringValue(v, a) == Letter(TriOf(v, a));
    assert StringValue(v, c) == ConstText(c);
  }

  /** The join of (a = b) && (a != c) has the value of the conjunction under `v`. */
  ghost predicate JoinKeepsValue(v: Valuation, a: Sym, b: Sym, c: Sym) {
    Eval(InterpOf(v), JoinEqualUnequal(a, b, c)) ==
    Min(Eval(InterpOf(v), Comp(Equal, a, b)), Eval(InterpOf(v), Comp(Unequal, a, c)))
  }

  lemma JoinKeepsValueAt(v: Valuation, a: Sym, b: Sym, c: Sym)
    requires Consistent(v) && a.Type().Tristate? && b.Type().Unknown? && c.Type().Unknown? && b != c
    ensures JoinKeepsValue(v, a, b, c) <==> !(TriOf(v, a) in Denotes(b) && TriOf(v, a) in Denotes(c))
  {
    CompareWithConst(v, a, b);
    CompareWithConst(v, a, c);
  }

  /** A consistent valuation in which the tristate `a` holds `t`. */
  function Holding(a: Sym, t: Tri): Valuation {
    Valuation((s: Sym) => if s == a then Value("", t)
                          else if s.Type().Unknown? then Value(ConstText(s), NO)
                          else Value("", NO), Yes)
  }

  lemma HoldingIsConsistent(a: Sym, t: Tri)
    requires a.Type().Tristate?
    ensures Consistent(Holding(a, t)) && TriOf(Holding(a, t), a) == t
  {}

  /** The join of (a = b) && (a != c) keeps the value under every consistent
      valuation exactly when no tristate value equals both constants. */
  lemma JoinEqualUnequalExact(a: Sym, b: Sym, c: Sym)
    requires a.Type().Tristate? && b.Type().Unknown? && c.Type().Unknown? && b != c
    ensures (forall v: Valuation :: Consistent(v) ==> JoinKeepsValue(v, a, b, c))
            <==> Denotes(b) !! Denotes(c)
  {
    if Denotes(b) !! Denotes(c) {
      forall v: Valuation | Consistent(v) ensures JoinKeepsValue(v, a, b, c) {
        JoinKeepsValueAt(v, a, b, c);
      }
    } else {
      var t :| t in Denotes(b) && t in Denotes(c);
      HoldingIsConsistent(a, t);
      JoinKeepsValueAt(Holding(a, t), a, b, c);
    }
  }

  /** The failing family is not empty: the constant "0" is a number, equal to n. */
  lemma NumericConstantBreaksJoin(a: Sym, zero: Sym)
    requires a.Type().Tristate? && zero.User? && zero.ty.Unknown? && zero.const_ && zero.name == "0"
    ensures JoinAnd(Comp(Equal, a, No), Comp(Unequal, a, zero)) == Some(Comp(Equal, a, No))
    ensures NO in Denotes(No) && NO in Denotes(zero)
  {
    assert !Eq(Comp(Equal, a, No), Comp(Unequal, a, zero));
    assert SkipSpaces("0", 0) == 0;
    assert Digits("0", 1, 8, 0) == (0, 1);
    assert Digits("0", 0, 8, 0) == Digits("0", 1, 8, 0);
    ConstantsAreStrings(NO);
  }

  /** Constants that denote disjoint sets of tristate values satisfy what the
      joins rely on. */
  lemma DisjointConstantsSeparate(v: Valuation, k: set<Sym>)
    requires Consistent(v)
    requires forall b :: b in k && b.IsConst() ==> b.Type().Unknown?
    requires forall b, c :: b in k && c in k && b.IsConst() && c.IsConst() && b != c ==> Denotes(b) !! Denotes(c)
    ensures Separates(InterpOf(v), k)
  {
    var i := InterpOf(v);
    forall s: Sym, b: Sym, c: Sym |
      s.Type().Tristate? && b in k && c in k && b.IsConst() && c.IsConst() && b != c
      ensures i.cmp(s, b) != 0 || i.cmp(s, c) != 0
    {
      CompareWithConst(v, s, b);
      CompareWithConst(v, s, c);
    }
  }
}
