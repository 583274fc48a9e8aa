/** How `menu_finalize` combines and tests dependencies. */
module Pipeline {
  import opened Expressions
  import opened Values
  import opened EqElimination
  import opened Joins
  import opened Chains
  import opened DupElimination
  import EqOrder
  import opened Normalisation

  /** `expr_alloc_and` */
  function AllocAnd(a: Dep, b: Dep): Dep {
    if a.None? then b else if b.None? then a else Some(Bin(And, a.value, b.value))
  }

  lemma AllocAndValue(i: Interp, a: Dep, b: Dep)
    ensures EvalDep(i, AllocAnd(a, b)) == Min(EvalDep(i, a), EvalDep(i, b))
  {}

  function DepRights(d: Dep): set<Sym> { if d.None? then {} else Rights(d.value) }

  predicate DepNegationNormal(d: Dep) { d.None? || NegationNormal(d.value) }

  function EvalModulesDep(i: Interp, modules: Sym, d: Dep): Tri {
    if d.None? then YES else EvalModules(i, modules, d.value)
  }

  /** What the rewrites rely on, for the comparisons of two dependencies. */
  ghost predicate Admissible(i: Interp, a: Dep, b: Dep) {
    Lawful(i) && Separates(i, DepRights(a) + DepRights(b) + YMN)
  }

  method EliminateDupsDep(d: Dep) returns (r: Dep)
    ensures r.None? == d.None?
    ensures d.Some? ==> Rewrites(d.value, r.value) && Deduped(r.value)
  {
    if d.None? { return None; }
    var e := EliminateDups(d.value);
    return Some(e);
  }

  function Normalise(d: Dep, modules: Sym): Dep {
    if d.None? then None else Some(Transform(RewriteM(d.value, modules)))
  }

  lemma NormaliseValue(i: Interp, d: Dep, modules: Sym)
    requires Lawful(i)
    ensures EvalDep(i, Normalise(d, modules)) == EvalModulesDep(i, modules, d)
  {
    if d.Some? {
      RewriteMValue(i, d.value, modules);
      TransformSameValue(i, RewriteM(d.value, modules));
    }
  }

  lemma NormaliseForm(d: Dep, modules: Sym)
    ensures DepRights(Normalise(d, modules)) <= DepRights(d)
    ensures DepNegationNormal(Normalise(d, modules))
  {
    if d.Some? {
      var e := RewriteM(d.value, modules);
      RewriteMRights(d.value, modules);
      TransformRights(e);
      NormalIsNegationNormal(Transform(e));
    }
  }

  /** Propagation of a parent's dependency: the result is the conjunction of the
      parent's and the node's own, in which m counts only with modules. */
  method Propagate(parent: Dep, own: Dep, modules: Sym) returns (r: Dep)
    ensures forall i: Interp :: Admissible(i, parent, own) ==>
              EvalDep(i, r) == Min(EvalDep(i, parent), EvalModulesDep(i, modules, own))
    ensures DepNegationNormal(parent) ==> DepNegationNormal(r)
    ensures r.Some? ==> Deduped(r.value)
    ensures DepRights(r) <= DepRights(parent) + DepRights(own) + YMN
  {
    var both := AllocAnd(parent, Normalise(own, modules));
    r := EliminateDupsDep(both);
    NormaliseForm(own, modules);
    forall i: Interp | Admissible(i, parent, own)
      ensures EvalDep(i, r) == Min(EvalDep(i, parent), EvalModulesDep(i, modules, own))
    {
      NormaliseValue(i, own, modules);
      AllocAndValue(i, parent, Normalise(own, modules));
      if both.Some? {
        assert Separates(i, Rights(both.value) + YMN);
        assert SameValue(both.value, r.value);
      }
    }
  }

  /** The smallest of the own dependencies, in which m counts only with modules. */
  function MinOfOwn(i: Interp, modules: Sym, owns: seq<Dep>): Tri {
    if owns == [] then YES
    else Min(MinOfOwn(i, modules, owns[..|owns| - 1]), EvalModulesDep(i, modules, owns[|owns| - 1]))
  }

  function AllRights(owns: seq<Dep>): set<Sym> { set d, s | d in owns && s in DepRights(d) :: s }

  lemma MinOfOwnNext(i: Interp, modules: Sym, owns: seq<Dep>, k: nat)
    requires k < |owns|
    ensures MinOfOwn(i, modules, owns[..k + 1]) == Min(MinOfOwn(i, modules, owns[..k]), EvalModulesDep(i, modules, owns[k]))
  {
    assert owns[..k + 1][..k] == owns[..k];
  }

  lemma SeparatesFewer(i: Interp, k: set<Sym>, k': set<Sym>)
    requires Separates(i, k) && k' <= k
    ensures Separates(i, k')
  {}

  /** Propagation from the root down a path of entries: the dependency of the last is the
      smallest of the own dependencies of all of them. */
  method PropagatePath(owns: seq<Dep>, modules: Sym) returns (r: Dep)
    ensures forall i: Interp :: Lawful(i) && Separates(i, AllRights(owns) + YMN) ==>
              EvalDep(i, r) == MinOfOwn(i, modules, owns)
    ensures DepNegationNormal(r) && DepRights(r) <= AllRights(owns) + YMN
  {
    r := None;
    for k := 0 to |owns|
      invariant DepNegationNormal(r) && DepRights(r) <= AllRights(owns) + YMN
      invariant forall i: Interp :: Lawful(i) && Separates(i, AllRights(owns) + YMN) ==>
                  EvalDep(i, r) == MinOfOwn(i, modules, owns[..k])
    {
      var parent, own := r, owns[k];
      r := Propagate(parent, own, modules);
      assert owns[k] in owns;
      assert DepRights(own) <= AllRights(owns);
      forall i: Interp | Lawful(i) && Separates(i, AllRights(owns) + YMN)
        ensures EvalDep(i, r) == MinOfOwn(i, modules, owns[..k + 1])
      {
        SeparatesFewer(i, AllRights(owns) + YMN, DepRights(parent) + DepRights(own) + YMN);
        assert Admissible(i, parent, own);
        MinOfOwnNext(i, modules, owns, k);
      }
    }
    assert owns[..|owns|] == owns;
  }

  /** Propagation to a property of a symbol: for anything but a tristate only the
      value rounded from m to y matters, and only that is kept. */
  method PropagateToProperty(base: Dep, own: Dep, modules: Sym, owner: SymType) returns (r: Dep)
    requires DepNegationNormal(base)
    ensures forall i: Interp :: Admissible(i, base, own) ==>
              Round(EvalDep(i, r)) == Round(Min(EvalDep(i, base), EvalModulesDep(i, modules, own)))
    ensures owner.Tristate? ==> forall i: Interp :: Admissible(i, base, own) ==>
              EvalDep(i, r) == Min(EvalDep(i, base), EvalModulesDep(i, modules, own))
  {
    var d := Propagate(base, own, modules);
    r := d;
    if !owner.Tristate? && d.Some? {
      r := Some(TransBool(d.value));
      forall i: Interp | Admissible(i, base, own)
        ensures Round(EvalDep(i, r)) == Round(EvalDep(i, d))
      {
        TransBoolRounded(i, d.value);
      }
    }
  }

  /* ----- automatic submenus ----- */

  /** The comparison of `d` with n is right. */
  predicate ComparesRight(i: Interp, d: Dep) { SharpDep(i, d) == NO <==> EvalDep(i, d) == NO }

  lemma SafeComparesRight(i: Interp, d: Dep)
    requires Lawful(i) && (d.Some? ==> LogicalLeaves(d.value) && NegationSafe(i, d.value))
    ensures ComparesRight(i, d)
  {
    if d.Some? {
      SharpIsRounded(i, d.value, NO);
      SafeRounds(i, d.value, true);
    }
  }

  /** The comparison with n, normalised. */
  function NoForm(d: Dep): Expr { Transform(TransCompareDep(d, Unequal, NO)) }

  /** The comparison with n that the submenu test works on: what it computes, and that it is
      right if and only if `ComparesRight`. */
  method CompareWithNo(d: Dep) returns (r: Expr)
    ensures Deduped(NoForm(d)) ==> r == NoForm(d)
    ensures forall i: Interp :: Lawful(i) && Separates(i, DepRights(d) + YMN) ==>
              Eval(i, r) == OfBool(SharpDep(i, d) != NO)
    ensures forall i: Interp :: Lawful(i) && Separates(i, DepRights(d) + YMN) ==>
              (Eval(i, r) == OfBool(EvalDep(i, d) != NO) <==> ComparesRight(i, d))
  {
    var c := TransCompareDep(d, Unequal, NO);
    r := EliminateDups(Transform(c));
    TransCompareRights(d);
    TransformRights(c);
    forall i: Interp | Lawful(i) && Separates(i, DepRights(d) + YMN)
      ensures Eval(i, r) == OfBool(SharpDep(i, d) != NO)
    {
      TransCompareDepSharp(i, d);
      TransformSameValue(i, c);
      assert Separates(i, Rights(Transform(c)) + YMN);
      assert SameValue(Transform(c), r);
    }
  }

  lemma TransCompareRights(d: Dep)
    ensures Rights(TransCompareDep(d, Unequal, NO)) <= DepRights(d) + YMN
  {
    if d.Some? { TransCompareRightsExpr(d.value, Unequal); }
  }

  lemma {:induction false} TransCompareRightsExpr(e: Expr, rel: Rel)
    ensures Rights(TransCompare(e, rel, NO)) <= Rights(e) + YMN
  {
    match e
    case Not(x) => TransCompareRightsExpr(x, if rel.Equal? then Unequal else Equal);
    case Bin(op, l, r) => TransCompareRightsExpr(l, Equal); TransCompareRightsExpr(r, Equal);
    case Symbol(_) =>
    case Comp(_, _, _) =>
  }

  /** What the comparison with n leaves has no operand y or n and no two that can be joined. */
  ghost predicate Regular(d: Dep) { Deduped(NoForm(d)) && EqOrder.NoYn(NoForm(d)) && !EqOrder.IsYn(NoForm(d)) }

  /** Whether a following entry with dependency `dep` goes into the submenu of
      `sym`, whose prompt depends on `base`.  If it does, the entry is never
      available without the symbol's prompt, or never while the symbol is n. */
  method GoesIntoSubmenu(sym: Sym, base: Dep, dep: Dep) returns (b: bool)
    ensures b ==> dep.Some? && sym in Syms(dep.value)
    ensures b && sym.Logical() ==>
              || (forall i: Interp :: Lawful(i) && CurrTri(i, sym) == NO ==> EvalDep(i, dep) == NO)
              || (forall i: Interp :: Admissible(i, base, dep) ==>
                    && (SharpDep(i, dep) != NO ==> SharpDep(i, base) != NO)
                    && (ComparesRight(i, base) && ComparesRight(i, dep) ==>
                          EvalDep(i, dep) != NO ==> EvalDep(i, base) != NO))
    ensures dep.Some? && DependsSymbol(dep.value, sym) ==> b
    ensures dep.Some? && sym in Syms(dep.value) && base.None? ==> b
    ensures dep.Some? && sym in Syms(dep.value) && !DependsSymbol(dep.value, sym) &&
            Regular(dep) && Regular(base) && NoForm(dep).IsBin(And) ==>
              (b <==> EqOrder.Operands(And, NoForm(base)) <= EqOrder.Operands(And, NoForm(dep)))
  {
    if dep.None? { return false; }
    ContainsIsSyms(dep.value, sym);
    if !ContainsSymbol(dep.value, sym) { return false; }
    if DependsSymbol(dep.value, sym) {
      if sym.Logical() {
        forall i: Interp | Lawful(i) && CurrTri(i, sym) == NO ensures EvalDep(i, dep) == NO {
          DependsForcesNo(i, dep.value, sym);
        }
      }
      return true;
    }
    var base1 := CompareWithNo(base);
    var dep1 := CompareWithNo(dep);
    b := EliminateEq(dep1, base1).1 == Symbol(Yes);
    if base.None? { EqOrder.SupersetOfYes(dep1); }
    if Regular(dep) && Regular(base) && NoForm(dep).IsBin(And) { EqOrder.SupersetExact(NoForm(dep), NoForm(base)); }
    if b {
      forall i: Interp | Admissible(i, base, dep)
        ensures SharpDep(i, dep) != NO ==> SharpDep(i, base) != NO
      {
        SupersetTest(i, dep1, base1);
        assert Separates(i, DepRights(base) + YMN) && Separates(i, DepRights(dep) + YMN);
      }
    }
  }

  /** What is left of the test that a symbol is not n. */
  function IsNot(s: Sym): Expr { if s.Type().Boolean? then Symbol(s) else Comp(Unequal, s, No) }

  lemma NoFormOfSymbol(s: Sym)
    requires s.User? && s.Logical()
    ensures NoForm(Some(Symbol(s))) == IsNot(s) && Regular(Some(Symbol(s)))
  {}

  lemma NotTest(s: Sym)
    requires s.User? && s.Logical()
    ensures Transform(Not(Transform(Comp(Equal, s, No)))) == IsNot(s)
  {
    var t := Transform(Comp(Equal, s, No));
    TransformNormal(t);
    assert t == if s.Type().Boolean? then Not(Symbol(s)) else Comp(Equal, s, No);
  }

  lemma NotBin(op: Op, a: Expr, b: Expr)
    ensures Transform(Not(Bin(op, a, b))) == Bin(op.Dual(), Transform(Not(Transform(a))), Transform(Not(Transform(b))))
  {}

  lemma NotNormal(a: Expr)
    ensures Transform(Not(Transform(Transform(a)))) == Transform(Not(Transform(a)))
  {
    TransformIdempotent(a);
  }

  lemma NoFormOfExample(s: Sym, q: Sym, r: Sym)
    requires s.User? && q.User? && r.User? && s.Logical() && q.Logical() && r.Logical()
    ensures NoForm(Some(Bin(And, Bin(Or, Symbol(s), Symbol(q)), Symbol(r)))) == Bin(And, Bin(Or, IsNot(s), IsNot(q)), IsNot(r))
  {
    var x, y, z := Comp(Equal, s, No), Comp(Equal, q, No), Comp(Equal, r, No);
    var dep := Bin(And, Bin(Or, Symbol(s), Symbol(q)), Symbol(r));
    assert TransCompare(Bin(Or, Symbol(s), Symbol(q)), Equal, NO) == Bin(And, x, y);
    assert TransCompare(dep, Unequal, NO) == Not(Bin(Or, Bin(And, x, y), z));
    NotBin(Or, Bin(And, x, y), z);
    assert Transform(Bin(And, x, y)) == Bin(And, Transform(x), Transform(y));
    NotBin(And, Transform(x), Transform(y));
    NotNormal(x);
    NotNormal(y);
    NotTest(s);
    NotTest(q);
    NotTest(r);
  }

  lemma ExampleRegular(s: Sym, q: Sym, r: Sym)
    requires s.User? && q.User? && r.User? && s.Logical() && q.Logical() && r.Logical() && s != q && s != r && q != r
    ensures var e := Bin(And, Bin(Or, IsNot(s), IsNot(q)), IsNot(r));
      && Deduped(e) && EqOrder.NoYn(e)
      && EqOrder.Operands(And, IsNot(r)) <= EqOrder.Operands(And, e)
  {
    var either := Bin(Or, IsNot(s), IsNot(q));
    var e := Bin(And, either, IsNot(r));
    DifferentSymbolsStay(Or, IsNot(s), IsNot(q));
    DifferentSymbolsStay(Or, IsNot(q), IsNot(s));
    TwoOperands(Or, IsNot(s), IsNot(q));
    assert Join(And, either, IsNot(r)).None? && Join(And, IsNot(r), either).None?;
    TwoOperands(And, either, IsNot(r));
  }

  lemma TwoOperands(op: Op, a: Expr, b: Expr)
    requires !a.IsBin(op) && !b.IsBin(op) && Deduped(a) && Deduped(b) && Join(op, a, b).None? && Join(op, b, a).None?
    ensures Deduped(Bin(op, a, b))
  {
    var t := Bin(op, a, b);
    forall q1: Path, q2: Path | [] <= q1 && [] <= q2 && Operand(op, t, q1) && Operand(op, t, q2) && q1 != q2
      ensures Join(op, At(op, t, q1), At(op, t, q2)).None? && Deduped(At(op, t, q1))
    {
      OneStepDown(op, a, b, q1);
      OneStepDown(op, a, b, q2);
    }
  }

  lemma OneStepDown(op: Op, a: Expr, b: Expr, q: Path)
    requires !a.IsBin(op) && !b.IsBin(op) && Operand(op, Bin(op, a, b), q)
    ensures (q == [false] && At(op, Bin(op, a, b), q) == a) || (q == [true] && At(op, Bin(op, a, b), q) == b)
  {
    assert q != [] && q == [q[0]] + q[1..];
    assert InChain(op, Child(Bin(op, a, b), q[0]), q[1..]);
  }

  /** The case the menu code is made for: (FOO || Q) && R goes into the submenu of FOO, which depends on R. */
  method DocumentedExample(s: Sym, q: Sym, r: Sym) returns (b: bool)
    requires s.User? && q.User? && r.User? && s.Logical() && q.Logical() && r.Logical() && s != q && s != r && q != r
    ensures b
  {
    var dep := Some(Bin(And, Bin(Or, Symbol(s), Symbol(q)), Symbol(r)));
    NoFormOfSymbol(r);
    NoFormOfExample(s, q, r);
    ExampleRegular(s, q, r);
    assert s in Syms(Symbol(s)) && s in Syms(Bin(Or, Symbol(s), Symbol(q)));
    b := GoesIntoSubmenu(s, Some(Symbol(r)), dep);
  }

  /** A string symbol with a text other than n: its value is n, its comparison with n is not. */
  lemma BareStringComparesWrong(v: Valuation, s: Sym)
    requires s.User? && s.ty.Str? && TriOf(v, s) == NO && StrOf(v, s) != "n"
    ensures Eval(InterpOf(v), Symbol(s)) == NO
    ensures Eval(InterpOf(v), TransCompare(Symbol(s), Unequal, NO)) == YES
    ensures !ComparesRight(InterpOf(v), Some(Symbol(s)))
  {
    DifferentFromNo(v, s);
  }

  /** Under `v` the dependency of `e` on `s` is absolute. */
  ghost predicate ForcedNo(v: Valuation, e: Expr, s: Sym) {
    DependsSymbol(e, s) && TriOf(v, s) == NO ==> Eval(InterpOf(v), e) == NO
  }

  /** For a symbol of another type "the symbol is n" does not make what depends on
      it n: the test FOO != n looks at its text. */
  lemma DependsExact(s: Sym)
    requires s.User? && s.name != "n"
    ensures (forall v: Valuation, e: Expr :: Consistent(v) ==> ForcedNo(v, e, s)) <==> s.Logical()
  {
    if s.Logical() {
      forall v: Valuation, e: Expr | Consistent(v) ensures ForcedNo(v, e, s) {
        ConsistentIsLawful(v);
        if DependsSymbol(e, s) && TriOf(v, s) == NO { DependsForcesNo(InterpOf(v), e, s); }
      }
    } else {
      var v := Valuation((t: Sym) => if t.Type().Unknown? then Value(ConstText(t), NO) else Value("-", NO), Yes);
      var e := Comp(Unequal, s, No);
      DifferentFromNo(v, s);
      assert Consistent(v) && !ForcedNo(v, e, s);
    }
  }

  lemma DifferentFromNo(v: Valuation, s: Sym)
    requires !s.Logical() && StrOf(v, s) != "n"
    ensures Compare(v, s, No) != 0
  {
    ConstantsAreStrings(NO);
    assert StringValue(v, No) == Letter(NO);
  }
}
