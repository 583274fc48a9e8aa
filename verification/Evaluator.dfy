/** The memoising symbol evaluator. */
module Evaluator {
  import opened Strings
  import opened Expressions
  import opened Values
  import opened Config
  import opened Solutions
  import opened UserValues

  /** An order in which the symbols can be calculated, and the values that the
      configuration determines. */
  datatype Plan = Plan(rank: map<Sym, nat>, sol: Results)

  ghost predicate PlanFor(g: Graph, c: Plan) {
    Acyclic(g, c.rank) && IsSolution(g, c.sol)
  }

  /** The determined values. */
  function Goal(g: Graph, c: Plan): Valuation { ValuationOf(g, c.sol) }

  function GoalInterp(g: Graph, c: Plan): Interp { InterpOf(Goal(g, c)) }

  /** The user symbols of `ss` are defined and rank below `b`. */
  ghost predicate Below(g: Graph, c: Plan, ss: set<Sym>, b: nat) {
    forall s :: s in ss && s.User? ==> s in g.defs && s in c.rank && c.rank[s] < b
  }

  lemma DepsBelow(g: Graph, c: Plan, s: Sym)
    requires PlanFor(g, c) && s in g.defs
    ensures Below(g, c, Deps(g, s), c.rank[s])
  {}

  lemma MentionedBelow(g: Graph, c: Plan, s: Sym)
    requires PlanFor(g, c) && s in g.defs && !s.ty.Unknown?
    ensures var d, b := g.defs[s], c.rank[s];
            && Below(g, c, PromptSyms(d.prompts), b)
            && Below(g, c, DefaultSyms(d.defaults), b)
            && Below(g, c, RangeCondSyms(d.ranges), b)
            && Below(g, c, RangeEndSyms(d.ranges), b)
            && Below(g, c, DepSyms(d.dirDep), b)
            && Below(g, c, DepSyms(d.revDep), b)
            && Below(g, c, DepSyms(d.implied), b)
  {
    DepsBelow(g, c, s);
    assert Mentioned(g.defs[s]) <= Deps(g, s);
  }

  /** The four dependencies of a symbol as they are stored. */
  datatype Reach = Reach(visible: Tri, dirDep: Tri, revDep: Tri, implied: Tri)

  function ReachOf(r: Result): Reach { Reach(r.visible, r.dirDep, r.revDep, r.implied) }

  function GoalReach(g: Graph, c: Plan, s: Sym): Reach
    requires s.User? && s in g.defs
  {
    var d, i, m := g.defs[s], GoalInterp(g, c), TriOf(Goal(g, c), g.modules);
    Reach(VisibilityFor(s.ty, m, AnyPrompt(i, d.prompts)), RoundFor(s.ty, m, EvalDep(i, d.dirDep)),
          RoundFor(s.ty, m, EvalReverse(i, d.revDep)), RoundFor(s.ty, m, EvalReverse(i, d.implied)))
  }

  function GoalValue(g: Graph, c: Plan, s: Sym, r: Reach): Value
    requires s.User? && s in g.defs
  {
    var d, i, m := g.defs[s], GoalInterp(g, c), TriOf(Goal(g, c), g.modules);
    if s.Logical() then Value("n", NewTri(i, s.ty, m, d, r.visible, r.dirDep, r.revDep, r.implied))
    else Value(NewStr(Goal(g, c), s.ty, d, r.visible), NO)
  }

  /** The solution, in the order in which it is calculated. */
  lemma GoalParts(g: Graph, c: Plan, s: Sym)
    requires PlanFor(g, c) && s in g.defs && !s.ty.Unknown?
    ensures s in c.sol && ReachOf(c.sol[s]) == GoalReach(g, c, s)
    ensures c.sol[s].value == GoalValue(g, c, s, GoalReach(g, c, s))
    ensures var r := GoalReach(g, c, s);
            c.sol[s].write == Writes(GoalInterp(g, c), s.ty, g.defs[s], r.visible, r.revDep, r.implied)
  {
    assert Determined(g, c.sol, s);
  }

  lemma LogicalGoal(g: Graph, c: Plan, s: Sym, r: Reach, t: Tri, w: bool)
    requires s in g.defs && s.Logical()
    requires var d := g.defs[s];
             t == if r.visible != NO && d.hasUser then Min(d.userTri, r.visible)
                  else DefaultTri(GoalInterp(g, c), d, r.dirDep, r.implied)
    requires !(r.visible != NO && g.defs[s].hasUser) ==>
               w == (FirstDefault(GoalInterp(g, c), g.defs[s].defaults).Some? || r.implied != NO)
    ensures GoalValue(g, c, s, r) ==
            Value("n", RoundFor(s.ty, TriOf(Goal(g, c), g.modules), Selected(t, r.dirDep, r.revDep)))
    ensures Writes(GoalInterp(g, c), s.ty, g.defs[s], r.visible, r.revDep, r.implied) <==>
            !g.defs[s].noWrite && (r.visible != NO || r.revDep != NO || w)
  {}

  lemma GoalUnknown(g: Graph, c: Plan, s: Sym)
    requires PlanFor(g, c) && s in g.defs && s.ty.Unknown?
    ensures s in c.sol && c.sol[s].value == Value(s.name, NO)
  {
    assert Determined(g, c.sol, s);
  }

  lemma GoalBinary(g: Graph, c: Plan, s: Sym)
    requires PlanFor(g, c) && s in g.defs && s.ty.Boolean?
    ensures s in c.sol && c.sol[s].value.tri != MOD
  {
    DeterminedBinary(g, c.sol, s);
  }

  lemma TristateNeedsModules(g: Graph, c: Plan, s: Sym)
    requires PlanFor(g, c) && s in g.defs && s.ty.Tristate?
    ensures g.modules.User? ==> g.modules in g.defs && c.rank[g.modules] < c.rank[s]
  {
    assert g.modules in Deps(g, s);
  }

  class SymbolTable {
    /** The symbols with their properties and user values. */
    var g: Graph
    /** The symbols with SYMBOL_VALID set. */
    var valid: set<Sym>
    var res: Results
    var modulesVal: Tri

    /** `modules_val` follows the stored value of the modules symbol, except while
        that symbol is being calculated. */
    ghost predicate ModulesInSync(active: set<Sym>)
      reads this
    {
      if g.modules.User? then
        && g.modules in res
        && (g.modules !in active ==> modulesVal == res[g.modules].value.tri)
        && (g.modules.ty.Unknown? ==> res[g.modules].value.tri == NO)
      else modulesVal == TriOf(Now(), g.modules)
    }

    /** Every valid symbol that is not being calculated holds its determined value. */
    ghost predicate Inv(c: Plan, active: set<Sym>)
      reads this
    {
      && res.Keys == g.defs.Keys
      && active <= valid <= g.defs.Keys
      && ModulesInSync(active)
      && (forall s :: s in valid && s !in active ==> s in c.sol && Agrees(s, res[s], c.sol[s]))
    }

    ghost predicate Done(s: Sym, active: set<Sym>)
      reads this
    {
      s.User? ==> s in valid && s !in active
    }

    /** Either the modules symbol has its value, or only symbols that do not need
        it are calculated. */
    ghost predicate Ready(c: Plan, active: set<Sym>, b: nat)
      reads this
    {
      !Done(g.modules, active) ==> g.modules in c.rank && b <= c.rank[g.modules]
    }

    /** The symbols being calculated rank at least `b`. */
    ghost predicate Above(c: Plan, active: set<Sym>, b: nat)
      reads this
    {
      forall s :: s in active ==> s in c.rank && b <= c.rank[s]
    }

    /** What nested calculations leave alone. */
    twostate predicate Kept(active: set<Sym>)
      reads this
    {
      && g == old(g)
      && old(valid) <= valid
      && (forall s :: s in active && s in old(res) ==> s in res && res[s] == old(res)[s])
      && (g.modules in active ==> modulesVal == old(modulesVal))
    }

    function Now(): Valuation
      reads this
    {
      ValuationOf(g, res)
    }

    /** A calculated symbol reads as determined. */
    lemma Reads(c: Plan, active: set<Sym>, s: Sym)
      requires Inv(c, active) && Done(s, active)
      ensures TriOf(Now(), s) == TriOf(Goal(g, c), s) && StrOf(Now(), s) == StrOf(Goal(g, c), s)
    {}

    /** When a tristate is looked at, the modules symbol has its value. */
    lemma ModulesKnown(c: Plan, active: set<Sym>, b: nat, s: Sym)
      requires PlanFor(g, c) && Inv(c, active) && Ready(c, active, b) && s in g.defs && c.rank[s] <= b
      requires s.ty.Tristate?
      ensures modulesVal == TriOf(Goal(g, c), g.modules) == TriOf(Now(), g.modules)
    {
      TristateNeedsModules(g, c, s);
      Reads(c, active, g.modules);
    }

    lemma SameRounding(c: Plan, active: set<Sym>, s: Sym)
      requires PlanFor(g, c) && s in g.defs && Inv(c, active) && Ready(c, active, c.rank[s])
      ensures forall t: Tri :: RoundFor(s.ty, modulesVal, t) == RoundFor(s.ty, TriOf(Goal(g, c), g.modules), t)
      ensures forall t: Tri :: VisibilityFor(s.ty, modulesVal, t) == VisibilityFor(s.ty, TriOf(Goal(g, c), g.modules), t)
    {
      if s.ty.Tristate? { ModulesKnown(c, active, c.rank[s], s); }
      ModulesMatterToTristates(s.ty, modulesVal, TriOf(Goal(g, c), g.modules));
    }

    /** `sym_get_string_value` of a symbol that has been calculated. */
    method GetString(s: Sym, ghost c: Plan, ghost active: set<Sym>, ghost b: nat) returns (str: string)
      requires PlanFor(g, c) && Inv(c, active) && Ready(c, active, b)
      requires Done(s, active) && Below(g, c, {s}, b)
      ensures str == StringValue(Goal(g, c), s)
    {
      Reads(c, active, s);
      if s.Logical() {
        var t := TriOf(Now(), s);
        if t == NO { str := "n"; }
        else if t == YES { str := "y"; }
        else {
          if s.ty.Boolean? { GoalBinary(g, c, s); } else { ModulesKnown(c, active, b, s); }
          str := if TriOf(Now(), g.modules) == NO then "n" else "m";
        }
      } else {
        str := StrOf(Now(), s);
      }
    }

    /** `expr_calc_value` */
    method CalcExpr(e: Expr, ghost c: Plan, ghost active: set<Sym>, ghost b: nat) returns (t: Tri)
      requires PlanFor(g, c) && Inv(c, active) && Ready(c, active, b) && Above(c, active, b)
      requires Below(g, c, Syms(e), b)
      modifies this`valid, this`res, this`modulesVal
      ensures Inv(c, active) && Ready(c, active, b) && Kept(active)
      ensures t == Eval(GoalInterp(g, c), e)
      decreases b, 0, Size(e) + 1
    {
      match e
      case Symbol(s) =>
        CalcValue(s, c, active);
        Reads(c, active, s);
        t := TriOf(Now(), s);
      case Not(x) =>
        t := CalcExpr(x, c, active, b);
        t := Neg(t);
      case Bin(op, l, r) =>
        var t1 := CalcExpr(l, c, active, b);
        var t2 := CalcExpr(r, c, active, b);
        t := op.Apply(t1, t2);
      case Comp(rel, x, y) =>
        t := CalcComparison(rel, x, y, c, active, b);
    }

    method CalcComparison(rel: Rel, x: Sym, y: Sym, ghost c: Plan, ghost active: set<Sym>,
                          ghost b: nat) returns (t: Tri)
      requires PlanFor(g, c) && Inv(c, active) && Ready(c, active, b) && Above(c, active, b)
      requires Below(g, c, {x}, b) && Below(g, c, {y}, b)
      modifies this`valid, this`res, this`modulesVal
      ensures Inv(c, active) && Ready(c, active, b) && Kept(active)
      ensures t == OfBool(rel.Holds(Compare(Goal(g, c), x, y)))
      decreases b, 0, 1
    {
      CalcValue(x, c, active);
      CalcValue(y, c, active);
      var str1 := GetString(x, c, active, b);
      var str2 := GetString(y, c, active, b);
      t := OfBool(rel.Holds(CompareValues(str1, x.Type(), str2, y.Type())));
    }

    method CalcDep(d: Dep, absent: Tri, ghost c: Plan, ghost active: set<Sym>, ghost b: nat) returns (t: Tri)
      requires PlanFor(g, c) && Inv(c, active) && Ready(c, active, b) && Above(c, active, b)
      requires Below(g, c, DepSyms(d), b)
      modifies this`valid, this`res, this`modulesVal
      ensures Inv(c, active) && Ready(c, active, b) && Kept(active)
      ensures t == if d.None? then absent else Eval(GoalInterp(g, c), d.value)
      decreases b, 1, 0
    {
      if d.None? { return absent; }
      t := CalcExpr(d.value, c, active, b);
    }

    /** The loop over the prompts in `sym_calc_visibility`. */
    method CalcPrompts(ps: seq<Dep>, ghost c: Plan, ghost active: set<Sym>, ghost b: nat) returns (t: Tri)
      requires PlanFor(g, c) && Inv(c, active) && Ready(c, active, b) && Above(c, active, b)
      requires Below(g, c, PromptSyms(ps), b)
      modifies this`valid, this`res, this`modulesVal
      ensures Inv(c, active) && Ready(c, active, b) && Kept(active)
      ensures t == AnyPrompt(GoalInterp(g, c), ps)
      decreases b, 2, 0
    {
      t := NO;
      var k := 0;
      while k < |ps|
        invariant 0 <= k <= |ps|
        invariant Inv(c, active) && Ready(c, active, b) && Kept(active)
        invariant t == AnyPrompt(GoalInterp(g, c), ps[..k])
      {
        assert ps[k] in ps;
        var tri := CalcDep(ps[k], YES, c, active, b);
        t := Max(t, tri);
        assert ps[..k + 1][..k] == ps[..k];
        k := k + 1;
      }
      assert ps[..k] == ps;
    }

    /** `sym_get_default_prop`, with the value of the condition it found. */
    method GetDefault(ds: seq<Default>, ghost c: Plan, ghost active: set<Sym>, ghost b: nat)
      returns (p: Option<Default>, cond: Tri)
      requires PlanFor(g, c) && Inv(c, active) && Ready(c, active, b) && Above(c, active, b)
      requires Below(g, c, DefaultSyms(ds), b)
      modifies this`valid, this`res, this`modulesVal
      ensures Inv(c, active) && Ready(c, active, b) && Kept(active)
      ensures p == FirstDefault(GoalInterp(g, c), ds)
      ensures p.Some? ==> cond == EvalDep(GoalInterp(g, c), p.value.cond) && Below(g, c, Syms(p.value.value), b)
      decreases b, 2, 0
    {
      var k := 0;
      while k < |ds|
        invariant 0 <= k <= |ds|
        invariant Inv(c, active) && Ready(c, active, b) && Kept(active)
        invariant FirstDefault(GoalInterp(g, c), ds) == FirstDefault(GoalInterp(g, c), ds[k..])
      {
        assert ds[k] in ds;
        assert Syms(ds[k].value) + DepSyms(ds[k].cond) <= DefaultSyms(ds);
        cond := CalcDep(ds[k].cond, YES, c, active, b);
        if cond != NO { return Some(ds[k]), cond; }
        k := k + 1;
      }
      return None, NO;
    }

    /** `sym_get_range_prop` */
    method GetRange(rs: seq<Range>, ghost c: Plan, ghost active: set<Sym>, ghost b: nat) returns (p: Option<Range>)
      requires PlanFor(g, c) && Inv(c, active) && Ready(c, active, b) && Above(c, active, b)
      requires Below(g, c, RangeCondSyms(rs), b) && Below(g, c, RangeEndSyms(rs), b)
      modifies this`valid, this`res, this`modulesVal
      ensures Inv(c, active) && Ready(c, active, b) && Kept(active)
      ensures p == FirstRange(GoalInterp(g, c), rs)
      ensures p.Some? ==> Below(g, c, {p.value.lo}, b) && Below(g, c, {p.value.hi}, b)
      decreases b, 2, 0
    {
      var k := 0;
      while k < |rs|
        invariant 0 <= k <= |rs|
        invariant Inv(c, active) && Ready(c, active, b) && Kept(active)
        invariant FirstRange(GoalInterp(g, c), rs) == FirstRange(GoalInterp(g, c), rs[k..])
      {
        assert rs[k] in rs;
        assert rs[k].lo in RangeEndSyms(rs) && rs[k].hi in RangeEndSyms(rs);
        var cond := CalcDep(rs[k].cond, YES, c, active, b);
        if cond != NO { return Some(rs[k]); }
        k := k + 1;
      }
      return None;
    }

    /** `sym_validate_range` */
    method ValidateRange(ty: SymType, rs: seq<Range>, str: string, ghost c: Plan, ghost active: set<Sym>, ghost b: nat)
      returns (clipped: string)
      requires PlanFor(g, c) && Inv(c, active) && Ready(c, active, b) && Above(c, active, b)
      requires Below(g, c, RangeCondSyms(rs), b) && Below(g, c, RangeEndSyms(rs), b)
      modifies this`valid, this`res, this`modulesVal
      ensures Inv(c, active) && Ready(c, active, b) && Kept(active)
      ensures clipped == Clip(Goal(g, c), ty, rs, str)
      decreases b, 3, 0
    {
      if !ty.Int? && !ty.Hex? { return str; }
      var p := GetRange(rs, c, active, b);
      if p.None? { return str; }
      var base := Base(ty, 0);
      clipped := ClipTo(Strtoll(str, base), base, p.value, str, c, active, b);
    }

    /** The part of `sym_validate_range` once the range is found. */
    method ClipTo(val: int, base: nat, r: Range, str: string, ghost c: Plan, ghost active: set<Sym>, ghost b: nat)
      returns (clipped: string)
      requires PlanFor(g, c) && Inv(c, active) && Ready(c, active, b) && Above(c, active, b)
      requires Below(g, c, {r.lo}, b) && Below(g, c, {r.hi}, b)
      modifies this`valid, this`res, this`modulesVal
      ensures Inv(c, active) && Ready(c, active, b) && Kept(active)
      ensures clipped == ClipRange(Goal(g, c), val, base, r, str)
      decreases b, 2, 2
    {
      var end, lo := GetRangeEnd(r.lo, base, c, active, b);
      if val < end { return lo; }
      clipped := ClipAbove(val, r.hi, base, str, c, active, b);
    }

    method ClipAbove(val: int, s: Sym, base: nat, str: string, ghost c: Plan, ghost active: set<Sym>, ghost b: nat)
      returns (clipped: string)
      requires PlanFor(g, c) && Inv(c, active) && Ready(c, active, b) && Above(c, active, b)
      requires Below(g, c, {s}, b)
      modifies this`valid, this`res, this`modulesVal
      ensures Inv(c, active) && Ready(c, active, b) && Kept(active)
      ensures clipped == if val > RangeVal(Goal(g, c), s, base) then StrOf(Goal(g, c), s) else str
      decreases b, 2, 1
    {
      var end, hi := GetRangeEnd(s, base, c, active, b);
      clipped := if val > end then hi else str;
    }

    /** `sym_get_range_val`, and the text of the symbol. */
    method GetRangeEnd(s: Sym, base: nat, ghost c: Plan, ghost active: set<Sym>, ghost b: nat)
      returns (val: int, str: string)
      requires PlanFor(g, c) && Inv(c, active) && Ready(c, active, b) && Above(c, active, b)
      requires Below(g, c, {s}, b)
      modifies this`valid, this`res, this`modulesVal
      ensures Inv(c, active) && Ready(c, active, b) && Kept(active)
      ensures val == RangeVal(Goal(g, c), s, base) && str == StrOf(Goal(g, c), s)
      decreases b, 2, 0
    {
      CalcValue(s, c, active);
      Reads(c, active, s);
      str := StrOf(Now(), s);
      val := Strtoll(str, Base(s.Type(), base));
    }

    /** `sym_calc_visibility`: the visibility and the three dependencies. */
    method CalcVisibility(s: Sym, ghost c: Plan, ghost active: set<Sym>) returns (r: Reach)
      requires PlanFor(g, c) && s in g.defs && !s.ty.Unknown?
      requires Inv(c, active) && Ready(c, active, c.rank[s]) && Above(c, active, c.rank[s])
      modifies this`valid, this`res, this`modulesVal
      ensures Inv(c, active) && Ready(c, active, c.rank[s]) && Kept(active)
      ensures r == GoalReach(g, c, s)
      decreases c.rank[s], 3, 0
    {
      MentionedBelow(g, c, s);
      var d := g.defs[s];
      var tri := CalcPrompts(d.prompts, c, active, c.rank[s]);
      SameRounding(c, active, s);
      var visible := VisibilityFor(s.ty, modulesVal, tri);
      var dirDep := CalcRounded(d.dirDep, YES, s, c, active);
      var revDep := CalcRounded(d.revDep, NO, s, c, active);
      var implied := CalcRounded(d.implied, NO, s, c, active);
      r := Reach(visible, dirDep, revDep, implied);
    }

    method CalcRounded(d: Dep, absent: Tri, s: Sym, ghost c: Plan, ghost active: set<Sym>) returns (t: Tri)
      requires PlanFor(g, c) && s in g.defs && Below(g, c, DepSyms(d), c.rank[s])
      requires Inv(c, active) && Ready(c, active, c.rank[s]) && Above(c, active, c.rank[s])
      modifies this`valid, this`res, this`modulesVal
      ensures Inv(c, active) && Ready(c, active, c.rank[s]) && Kept(active)
      ensures t == RoundFor(s.ty, TriOf(Goal(g, c), g.modules), if d.None? then absent else Eval(GoalInterp(g, c), d.value))
      decreases c.rank[s], 2, 0
    {
      t := CalcDep(d, absent, c, active, c.rank[s]);
      SameRounding(c, active, s);
      t := RoundFor(s.ty, modulesVal, t);
    }

    /** The part of the default and of being implied in the value. */
    method CalcDefault(s: Sym, r: Reach, ghost c: Plan, ghost active: set<Sym>) returns (tri: Tri, write: bool)
      requires PlanFor(g, c) && s in g.defs && !s.ty.Unknown?
      requires Inv(c, active) && Ready(c, active, c.rank[s]) && Above(c, active, c.rank[s])
      modifies this`valid, this`res, this`modulesVal
      ensures Inv(c, active) && Ready(c, active, c.rank[s]) && Kept(active)
      ensures tri == DefaultTri(GoalInterp(g, c), g.defs[s], r.dirDep, r.implied)
      ensures write == (FirstDefault(GoalInterp(g, c), g.defs[s].defaults).Some? || r.implied != NO)
      decreases c.rank[s], 3, 0
    {
      MentionedBelow(g, c, s);
      write := false;
      tri := NO;
      var p, cond := GetDefault(g.defs[s].defaults, c, active, c.rank[s]);
      if p.Some? {
        write := true;
        var t := CalcExpr(p.value.value, c, active, c.rank[s]);
        tri := Min(t, cond);
      }
      if r.implied != NO {
        write := true;
        tri := Min(Max(tri, r.implied), r.dirDep);
      }
    }

    /** The value of a bool or tristate symbol, by user, default, imply and select,
        and whether any of these makes it written out. */
    method CalcLogical(s: Sym, r: Reach, ghost c: Plan, ghost active: set<Sym>) returns (tri: Tri, write: bool)
      requires PlanFor(g, c) && s in g.defs && s.Logical()
      requires Inv(c, active) && Ready(c, active, c.rank[s]) && Above(c, active, c.rank[s])
      modifies this`valid, this`res, this`modulesVal
      ensures Inv(c, active) && Ready(c, active, c.rank[s]) && Kept(active)
      ensures Value("n", tri) == GoalValue(g, c, s, r)
      ensures write && !g.defs[s].noWrite <==>
              Writes(GoalInterp(g, c), s.ty, g.defs[s], r.visible, r.revDep, r.implied)
      decreases c.rank[s], 4, 0
    {
      var d := g.defs[s];
      var w := false;
      if r.visible != NO && d.hasUser {
        tri := Min(d.userTri, r.visible);
      } else {
        tri, w := CalcDefault(s, r, c, active);
      }
      write := r.visible != NO || r.revDep != NO || w;
      LogicalGoal(g, c, s, r, tri, w);
      SameRounding(c, active, s);
      tri := RoundFor(s.ty, modulesVal, Selected(tri, r.dirDep, r.revDep));
    }

    /** The text of an int, hex or string symbol, by user or default. */
    method CalcText(s: Sym, r: Reach, ghost c: Plan, ghost active: set<Sym>) returns (str: string, write: bool)
      requires PlanFor(g, c) && s in g.defs && !s.Logical() && !s.ty.Unknown?
      requires Inv(c, active) && Ready(c, active, c.rank[s]) && Above(c, active, c.rank[s])
      modifies this`valid, this`res, this`modulesVal
      ensures Inv(c, active) && Ready(c, active, c.rank[s]) && Kept(active)
      ensures Value(str, NO) == GoalValue(g, c, s, r)
      ensures write && !g.defs[s].noWrite <==>
              Writes(GoalInterp(g, c), s.ty, g.defs[s], r.visible, r.revDep, r.implied)
      decreases c.rank[s], 4, 0
    {
      MentionedBelow(g, c, s);
      var d := g.defs[s];
      write := r.visible != NO;
      str := "";
      if r.visible != NO && d.hasUser {
        str := d.userStr;
      } else {
        var some;
        str, some := CalcDefaultText(s, c, active);
        write := write || some;
      }
      str := ValidateRange(s.ty, d.ranges, str, c, active, c.rank[s]);
    }

    /** The text of the symbol that a default names. */
    method CalcDefaultText(s: Sym, ghost c: Plan, ghost active: set<Sym>) returns (str: string, some: bool)
      requires PlanFor(g, c) && s in g.defs && !s.ty.Unknown?
      requires Inv(c, active) && Ready(c, active, c.rank[s]) && Above(c, active, c.rank[s])
      modifies this`valid, this`res, this`modulesVal
      ensures Inv(c, active) && Ready(c, active, c.rank[s]) && Kept(active)
      ensures var ds := DefaultSym(FirstDefault(GoalInterp(g, c), g.defs[s].defaults));
              some == ds.Some? && str == if ds.Some? then StrOf(Goal(g, c), ds.value) else ""
      decreases c.rank[s], 3, 0
    {
      MentionedBelow(g, c, s);
      str, some := "", false;
      var p, cond := GetDefault(g.defs[s].defaults, c, active, c.rank[s]);
      var ds := DefaultSym(p);
      if ds.Some? {
        some := true;
        CalcValue(ds.value, c, active);
        Reads(c, active, ds.value);
        str := StrOf(Now(), ds.value);
      }
    }

    /** The default value, should the symbol be asked for while it is calculated. */
    method StoreDefault(s: Sym, ghost c: Plan, ghost active: set<Sym>)
      requires s in active && Inv(c, active) && s.User? && !s.ty.Unknown?
      modifies this`res
      ensures Inv(c, active) && Kept(active - {s})
      ensures unchanged(`modulesVal)
    {
      res := res[s := res[s].(value := if s.Logical() then Value("n", NO) else Value("", NO))];
    }

    /** The record of a symbol with a type. */
    method Calculate(s: Sym, ghost c: Plan, ghost active: set<Sym>) returns (r: Result)
      requires PlanFor(g, c) && s in g.defs && !s.ty.Unknown? && s in active
      requires Inv(c, active) && Ready(c, active, c.rank[s]) && Above(c, active, c.rank[s])
      modifies this`valid, this`res, this`modulesVal
      ensures Inv(c, active) && Kept(active - {s})
      ensures g.modules == s ==> modulesVal == old(modulesVal)
      ensures s in c.sol && r == c.sol[s]
      decreases c.rank[s], 5, 0
    {
      var reach := CalcVisibility(s, c, active);
      StoreDefault(s, c, active);
      var newval, write;
      if s.Logical() {
        var tri;
        tri, write := CalcLogical(s, reach, c, active);
        newval := Value("n", tri);
      } else {
        var str;
        str, write := CalcText(s, reach, c, active);
        newval := Value(str, NO);
      }
      GoalParts(g, c, s);
      r := Result(reach.visible, reach.dirDep, reach.revDep, reach.implied, newval, write && !g.defs[s].noWrite);
    }

    /** `sym_calc_value`: afterwards `s` is valid, and whatever is valid holds the
        value that the configuration determines. */
    method CalcValue(s: Sym, ghost c: Plan, ghost active: set<Sym>)
      requires PlanFor(g, c) && Known(g, s) && Inv(c, active)
      requires s.User? ==> Ready(c, active, c.rank[s]) && Above(c, active, c.rank[s] + 1)
      modifies this`valid, this`res, this`modulesVal
      ensures Inv(c, active) && Kept(active)
      ensures Done(s, active)
      decreases if s.User? then c.rank[s] else 0, if s.User? then 7 else 0, 0
    {
      if !s.User? || s in valid { return; }
      CalcInvalid(s, c, active);
    }

    method CalcInvalid(s: Sym, ghost c: Plan, ghost active: set<Sym>)
      requires PlanFor(g, c) && s in g.defs && s !in valid && Inv(c, active)
      requires Ready(c, active, c.rank[s]) && Above(c, active, c.rank[s] + 1)
      modifies this`valid, this`res, this`modulesVal
      ensures Inv(c, active) && Kept(active) && Done(s, active)
      decreases c.rank[s], 6, 0
    {
      var oldval := res[s].value;
      Mark(s, c, active);
      if s.ty.Unknown? {
        GoalUnknown(g, c, s);
        StoreName(s, c, active);
        return;
      }
      CalcTyped(s, oldval, c, active);
    }

    /** The part of `sym_calc_value` for a marked symbol with a type. */
    method CalcTyped(s: Sym, oldval: Value, ghost c: Plan, ghost active: set<Sym>)
      requires PlanFor(g, c) && s in g.defs && s !in active && !s.ty.Unknown? && Inv(c, active + {s})
      requires Ready(c, active + {s}, c.rank[s]) && Above(c, active + {s}, c.rank[s])
      requires g.modules == s ==> modulesVal == oldval.tri
      modifies this`valid, this`res, this`modulesVal
      ensures Inv(c, active) && Kept(active) && Done(s, active)
      decreases c.rank[s], 5, 1
    {
      var r := Calculate(s, c, active + {s});
      assert Kept(active) by { assert active + {s} - {s} == active; }
      Finish(s, r, oldval, c, active);
    }

    method Mark(s: Sym, ghost c: Plan, ghost active: set<Sym>)
      requires PlanFor(g, c) && s in g.defs && s !in valid && Inv(c, active)
      requires Ready(c, active, c.rank[s]) && Above(c, active, c.rank[s] + 1)
      modifies this`valid
      ensures valid == old(valid) + {s}
      ensures Inv(c, active + {s}) && Ready(c, active + {s}, c.rank[s]) && Above(c, active + {s}, c.rank[s])
    {
      valid := valid + {s};
    }

    /** The value of a symbol without a type. */
    method StoreName(s: Sym, ghost c: Plan, ghost active: set<Sym>)
      requires s.User? && s !in active && s.ty.Unknown? && Inv(c, active + {s})
      requires s in c.sol && c.sol[s].value == Value(s.name, NO)
      requires g.modules == s ==> modulesVal == res[s].value.tri
      modifies this`res
      ensures Inv(c, active) && Kept(active) && Done(s, active)
    {
      res := res[s := res[s].(value := Value(s.name, NO))];
    }

    /** The end of `sym_calc_value`: the record is stored, and `modules_val` follows
        a change of the modules symbol. */
    method Finish(s: Sym, r: Result, oldval: Value, ghost c: Plan, ghost active: set<Sym>)
      requires s.User? && s !in active && !s.ty.Unknown? && Inv(c, active + {s})
      requires s in c.sol && r == c.sol[s]
      requires g.modules == s ==> modulesVal == oldval.tri
      modifies this`res, this`modulesVal
      ensures Inv(c, active) && Kept(active) && Done(s, active)
    {
      res := res[s := r];
      if oldval != r.value && g.modules == s {
        modulesVal := r.value.tri;
      }
    }

    /* ----- operations between calculations ----- */

    /** Nothing is being calculated, the modules symbol has its value, and every
        valid symbol holds its determined value. */
    ghost predicate AtRest(c: Plan)
      reads this
    {
      PlanFor(g, c) && Inv(c, {}) && Done(g.modules, {})
    }

    /** All values cleared, as after parsing. */
    constructor (graph: Graph)
      requires graph.modules.User? ==> graph.modules in graph.defs
      requires !graph.modules.User? ==> graph.modules == No
      ensures g == graph && valid == {}
      ensures res.Keys == g.defs.Keys && ModulesInSync({})
    {
      g := graph;
      valid := {};
      res := map s | s in graph.defs :: Result(NO, NO, NO, NO, Value("", NO), false);
      modulesVal := NO;
    }

    /** `sym_clear_all_valid`: whatever was stored, only determined values remain
        valid. */
    method ClearAllValid(ghost c: Plan)
      requires PlanFor(g, c) && Stored()
      modifies this`valid, this`res, this`modulesVal
      ensures AtRest(c) && g == old(g)
    {
      var todo := g.defs.Keys;
      while todo != {}
        invariant valid <= todo <= g.defs.Keys && res == old(res) && modulesVal == old(modulesVal)
        decreases |todo|
      {
        var s :| s in todo;
        valid := valid - {s};
        todo := todo - {s};
      }
      CalcValue(g.modules, c, {});
    }

    /** `sym_calc_value` as the rest of the program calls it. */
    method CalcAtRest(s: Sym, ghost c: Plan)
      requires AtRest(c) && Known(g, s)
      modifies this`valid, this`res, this`modulesVal
      ensures AtRest(c) && g == old(g) && old(valid) <= valid && Done(s, {})
    {
      CalcValue(s, c, {});
    }

    method CalcNext(order: seq<Sym>, k: nat, ghost c: Plan)
      requires k < |order| && AtRest(c) && Known(g, order[k]) && UserSyms(order[..k]) <= valid
      modifies this`valid, this`res, this`modulesVal
      ensures AtRest(c) && g == old(g) && UserSyms(order[..k + 1]) <= valid
    {
      assert order[..k + 1] == order[..k] + [order[k]];
      CalcAtRest(order[k], c);
    }

    /** Any sequence of `sym_calc_value` calls, in any order and with repetitions,
        gives each symbol the value that the configuration determines. */
    method CalcAll(order: seq<Sym>, ghost c: Plan)
      requires AtRest(c) && forall k :: 0 <= k < |order| ==> Known(g, order[k])
      modifies this`valid, this`res, this`modulesVal
      ensures AtRest(c) && g == old(g)
      ensures forall k :: 0 <= k < |order| ==> Settled(c, order[k])
    {
      var k := 0;
      while k < |order|
        invariant 0 <= k <= |order|
        invariant AtRest(c) && g == old(g)
        invariant UserSyms(order[..k]) <= valid
      {
        CalcNext(order, k, c);
        k := k + 1;
      }
      assert order[..k] == order;
      AllSettled(c, order);
    }

    static function UserSyms(order: seq<Sym>): set<Sym> { set s | s in order && s.User? }

    lemma AllSettled(c: Plan, order: seq<Sym>)
      requires AtRest(c) && UserSyms(order) <= valid
      ensures forall k :: 0 <= k < |order| ==> Settled(c, order[k])
    {
      forall j | 0 <= j < |order| ensures Settled(c, order[j]) { DoneIsSettled(c, order[j]); }
    }

    /** `s` is valid and holds its determined value. */
    ghost predicate Settled(c: Plan, s: Sym)
      reads this
    {
      s.User? ==> s in valid && s in res && s in c.sol && Agrees(s, res[s], c.sol[s])
    }

    lemma DoneIsSettled(c: Plan, s: Sym)
      requires Inv(c, {}) && Done(s, {})
      ensures Settled(c, s)
    {}

    /** `sym_set_tristate_value`.  A refused value changes nothing; an accepted one that
        differs from the stored value discards all results, so that only values of the new
        configuration remain valid; an accepted equal one discards nothing, and for a
        calculated symbol the results are then those of the new configuration if and only
        if the value settles. */
    method SetTristateValue(s: Sym, val: Tri, ghost c: Plan, ghost c': Plan) returns (ok: bool)
      requires AtRest(c) && s in g.defs && s.Logical()
      requires PlanFor(SetUser(g, s, val), c')
      modifies this
      ensures ok <==> val == old(res)[s].value.tri || WithinRange(old(res)[s], s.ty, old(modulesVal), val)
      ensures !ok ==> g == old(g) && valid == old(valid) && res == old(res) && modulesVal == old(modulesVal)
      ensures ok ==> g == SetUser(old(g), s, val)
      ensures ok && val != old(res)[s].value.tri ==> AtRest(c')
      ensures ok && val == old(res)[s].value.tri ==>
                valid == old(valid) && res == old(res) && modulesVal == old(modulesVal)
      ensures ok && val == old(res)[s].value.tri && s in old(valid) ==> (AtRest(c') <==> Settles(old(res)[s], val))
    {
      var oldval := res[s].value.tri;
      if oldval != val && !WithinRange(res[s], s.ty, modulesVal, val) { return false; }
      ok := true;
      Accept(s, val, oldval, c, c');
    }

    method Accept(s: Sym, val: Tri, oldval: Tri, ghost c: Plan, ghost c': Plan)
      requires AtRest(c) && s in g.defs && s.Logical() && oldval == res[s].value.tri
      requires PlanFor(SetUser(g, s, val), c')
      modifies this
      ensures g == SetUser(old(g), s, val)
      ensures oldval != val ==> AtRest(c')
      ensures oldval == val ==> valid == old(valid) && res == old(res) && modulesVal == old(modulesVal)
      ensures oldval == val && s in valid ==> (AtRest(c') <==> Settles(res[s], val))
    {
      StoreUser(s, val, c, c');
      if oldval != val { ClearAllValid(c'); }
    }

    /** Stores the user's value; if it is the calculated value, the results stay right
        exactly when it settles. */
    method StoreUser(s: Sym, val: Tri, ghost c: Plan, ghost c': Plan)
      requires AtRest(c) && s in g.defs && s.Logical()
      requires PlanFor(SetUser(g, s, val), c')
      modifies this`g
      ensures g == SetUser(old(g), s, val)
      ensures Stored() && PlanFor(g, c')
      ensures res[s].value.tri == val && s in valid ==> (AtRest(c') <==> Settles(res[s], val))
    {
      ghost var same := res[s].value.tri == val && s in valid;
      assert same ==> Follows(s, val, c, c') by { if same { SameValueKept(s, val, c, c'); } }
      PutUser(s, val, c);
      if same { RestAfter(s, val, c, c'); }
    }

    /** The solution stays if the value settles, and otherwise differs at `s`. */
    ghost predicate Follows(s: Sym, val: Tri, c: Plan, c': Plan)
      requires s in res
      reads this`res
    {
      if Settles(res[s], val) then c'.sol == c.sol else s in c'.sol && c'.sol[s] != res[s]
    }

    /** The stored values are none of the user value's business. */
    method PutUser(s: Sym, val: Tri, ghost c: Plan)
      requires Inv(c, {}) && Done(g.modules, {}) && s in g.defs
      modifies this`g
      ensures g == SetUser(old(g), s, val)
      ensures Stored() && Inv(c, {}) && Done(g.modules, {})
    {
      g := SetUser(g, s, val);
    }

    /** What `ClearAllValid` needs of the stored values. */
    ghost predicate Stored()
      reads this
    {
      res.Keys == g.defs.Keys && valid <= g.defs.Keys && ModulesInSync({})
    }

    lemma RestAfter(s: Sym, val: Tri, c: Plan, c': Plan)
      requires PlanFor(g, c') && Inv(c, {}) && Done(g.modules, {}) && s in valid && s.Logical()
      requires s in res && Follows(s, val, c, c')
      ensures AtRest(c') <==> Settles(res[s], val)
    {}

    /** The solution of the new configuration is the old one exactly if the value settles,
        and otherwise the changed symbol differs in it. */
    lemma SameValueKept(s: Sym, val: Tri, c: Plan, c': Plan)
      requires AtRest(c) && s in g.defs && s.Logical() && s in valid && res[s].value.tri == val
      requires PlanFor(SetUser(g, s, val), c')
      ensures Follows(s, val, c, c')
    {
      Reads(c, {}, g.modules);
      SameValueExact(g, s, val, c.sol);
      if Settles(res[s], val) {
        SolutionUnique(SetUser(g, s, val), c'.rank, c.sol, c'.sol);
      } else {
        ChangedSymbol(g, c.rank, s, val, c.sol, c'.sol);
        assert Determined(g, c.sol, s);
        SettlesExact(g, s, val, Goal(g, c));
      }
    }
  }
}
