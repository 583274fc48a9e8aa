/** What setting a user value does to the values that a configuration determines. */
module UserValues {
  import opened Expressions
  import opened Values
  import opened Config
  import opened Solutions

  function SetUser(g: Graph, s: Sym, val: Tri): Graph
    requires s in g.defs
  {
    g.(defs := g.defs[s := g.defs[s].(hasUser := true, userTri := val)])
  }

  /** User values do not take part in the order of calculation. */
  lemma SetUserAcyclic(g: Graph, rank: map<Sym, nat>, s: Sym, val: Tri)
    requires s in g.defs && Acyclic(g, rank)
    ensures Acyclic(SetUser(g, s, val), rank)
  {
    var h := SetUser(g, s, val);
    forall t | t in h.defs ensures RanksAfter(h, rank, t, Deps(h, t)) {
      SetUserDeps(g, s, val, t);
      assert RanksAfter(g, rank, t, Deps(g, t));
    }
  }

  lemma SetUserDeps(g: Graph, s: Sym, val: Tri, t: Sym)
    requires s in g.defs
    ensures Deps(SetUser(g, s, val), t) == Deps(g, t)
  {
    if t in g.defs { assert Mentioned(SetUser(g, s, val).defs[t]) == Mentioned(g.defs[t]); }
  }

  /* ----- symbols that do not depend on the changed one ----- */

  /** A chain of dependencies that leads from `t` to `s`. */
  ghost predicate Leads(g: Graph, p: seq<Sym>, t: Sym, s: Sym) {
    && |p| > 0 && p[0] == t && p[|p| - 1] == s
    && (forall k :: 0 <= k < |p| - 1 ==> p[k + 1] in Deps(g, p[k]))
  }

  ghost predicate DependsOn(g: Graph, t: Sym, s: Sym) { exists p: seq<Sym> :: Leads(g, p, t, s) }

  lemma DependsOnStep(g: Graph, t: Sym, u: Sym, s: Sym)
    requires u in Deps(g, t) && DependsOn(g, u, s)
    ensures DependsOn(g, t, s)
  {
    var p :| Leads(g, p, u, s);
    var q := [t] + p;
    forall k | 0 <= k < |q| - 1 ensures q[k + 1] in Deps(g, q[k]) {
      if k > 0 { assert p[k] in Deps(g, p[k - 1]); }
    }
    assert Leads(g, q, t, s);
  }

  /** Symbols that do not depend on `s` keep their values. */
  lemma {:induction false} IndependentKeeps(g: Graph, rank: map<Sym, nat>, s: Sym, val: Tri, a: Results, b: Results,
                                            t: Sym)
    requires s in g.defs && Acyclic(g, rank)
    requires IsSolution(g, a) && IsSolution(SetUser(g, s, val), b)
    requires t in g.defs && !DependsOn(g, t, s)
    ensures a[t] == b[t]
    decreases rank[t]
  {
    var h := SetUser(g, s, val);
    assert t != s by { if t == s { assert Leads(g, [t], t, s); } }
    forall u | u in Deps(g, t) && u.User? ensures ValuationOf(g, a).curr(u) == ValuationOf(h, b).curr(u) {
      if DependsOn(g, u, s) { DependsOnStep(g, t, u, s); }
      assert RanksAfter(g, rank, t, Deps(g, t));
      IndependentKeeps(g, rank, s, val, a, b, u);
    }
    SolutionConsistent(g, a);
    StepLocal(g, t, ValuationOf(g, a), ValuationOf(h, b));
    assert Determined(g, a, t) && Determined(h, b, t);
    StepOther(g, s, val, t, ValuationOf(h, b));
  }

  lemma StepOther(g: Graph, s: Sym, val: Tri, t: Sym, v: Valuation)
    requires s in g.defs && t.User? && t in g.defs && t != s
    ensures Step(SetUser(g, s, val), t, v) == Step(g, t, v)
  {}

  lemma {:induction false} LeadsDown(g: Graph, rank: map<Sym, nat>, p: seq<Sym>, t: Sym, s: Sym)
    requires Acyclic(g, rank) && Leads(g, p, t, s) && t in g.defs && s in g.defs
    ensures rank[s] <= rank[t]
    decreases |p|
  {
    if |p| > 1 {
      assert p[0 + 1] in Deps(g, p[0]);
      assert RanksAfter(g, rank, t, Deps(g, t));
      if |p| > 2 { assert p[1 + 1] in Deps(g, p[1]); }
      if p[1].User? {
        forall k | 0 <= k < |p[1..]| - 1 ensures p[1..][k + 1] in Deps(g, p[1..][k]) {
          assert p[(k + 1) + 1] in Deps(g, p[k + 1]);
        }
        LeadsDown(g, rank, p[1..], p[1], s);
      }
    }
  }

  /** In an acyclic configuration a symbol's dependencies do not depend on it. */
  lemma DependencyIndependent(g: Graph, rank: map<Sym, nat>, s: Sym, t: Sym)
    requires Acyclic(g, rank) && s in g.defs && t in Deps(g, s) && t.User?
    ensures t in g.defs && !DependsOn(g, t, s)
  {
    assert RanksAfter(g, rank, s, Deps(g, s));
    if DependsOn(g, t, s) {
      var p :| Leads(g, p, t, s);
      LeadsDown(g, rank, p, t, s);
    }
  }

  /* ----- the changed symbol ----- */

  /** `sym_tristate_within_range` without choices */
  predicate WithinRange(r: Result, ty: SymType, mods: Tri, val: Tri) {
    var t := EffectiveType(ty, mods);
    && r.visible != NO
    && (t.Boolean? || t.Tristate?)
    && !(t.Boolean? && val == MOD)
    && r.visible > r.revDep
    && r.revDep <= val <= r.visible
  }

  /** A select overrides the symbol although a dependency is unmet. */
  predicate DependencyUnmet(r: Result) { r.dirDep == NO && r.revDep != NO }

  /** With the user value `val` a visible symbol has this value. */
  function UserTri(r: Result, ty: SymType, mods: Tri, val: Tri): Tri {
    RoundFor(ty, mods, Selected(Min(val, r.visible), r.dirDep, r.revDep))
  }

  /** The new record of the changed symbol: all but a visible symbol's value stays. */
  lemma StepWithUser(g: Graph, s: Sym, val: Tri, v: Valuation)
    requires s.User? && s in g.defs && s.Logical()
    ensures var r := Step(g, s, v);
            Step(SetUser(g, s, val), s, v) ==
            if r.visible == NO then r
            else r.(value := Value("n", UserTri(r, s.ty, TriOf(v, g.modules), val)))
  {}

  /** The values that are accepted are exactly those that the symbol would then have, as long as a select
      does not already fix it and no dependency is unmet. */
  lemma RangeExact(g: Graph, s: Sym, a: Results, val: Tri)
    requires s in g.defs && s.Logical() && IsSolution(g, a) && !DependencyUnmet(a[s])
    ensures var r, mods := a[s], TriOf(ValuationOf(g, a), g.modules);
      WithinRange(r, s.ty, mods, val) <==> r.visible > r.revDep && UserTri(r, s.ty, mods, val) == val
  {
    assert Determined(g, a, s);
  }

  /** In the new solution the changed symbol is as its unchanged dependencies say. */
  lemma ChangedSymbol(g: Graph, rank: map<Sym, nat>, s: Sym, val: Tri, a: Results, b: Results)
    requires s in g.defs && s.Logical() && Acyclic(g, rank)
    requires IsSolution(g, a) && IsSolution(SetUser(g, s, val), b)
    ensures var r := a[s];
            b[s] == if r.visible == NO then r
                    else r.(value := Value("n", UserTri(r, s.ty, TriOf(ValuationOf(g, a), g.modules), val)))
  {
    var h := SetUser(g, s, val);
    var v, w := ValuationOf(g, a), ValuationOf(h, b);
    forall t | t in Deps(h, s) && t.User? ensures v.curr(t) == w.curr(t) {
      SetUserDeps(g, s, val, s);
      DependencyIndependent(g, rank, s, t);
      IndependentKeeps(g, rank, s, val, a, b, t);
    }
    SolutionConsistent(g, a);
    StepLocal(h, s, v, w);
    assert Determined(g, a, s) && Determined(h, b, s);
    StepWithUser(g, s, val, v);
  }

  /** A value accepted by the range check is the symbol's value afterwards, exactly
      when no select overrides an unmet dependency. */
  lemma AcceptedValueSticks(g: Graph, rank: map<Sym, nat>, s: Sym, val: Tri, a: Results, b: Results)
    requires s in g.defs && s.Logical() && Acyclic(g, rank)
    requires IsSolution(g, a) && IsSolution(SetUser(g, s, val), b)
    requires WithinRange(a[s], s.ty, TriOf(ValuationOf(g, a), g.modules), val)
    ensures b[s].value.tri == val <==> !DependencyUnmet(a[s])
  {
    ChangedSymbol(g, rank, s, val, a, b);
  }

  /** A visible tristate whose only dependency is n, selected at m.  It arises from two
      definitions, one without a dependency and one under a dependency that is n: the
      missing dependency is dropped when the two are combined. */
  function OverriddenSymbol(): SymDef {
    SymDef([None], [], [], Some(Symbol(No)), Some(Symbol(Mod)), None, false, false, NO, "")
  }

  /** For such a symbol y is within range, but it does not stick: the new value is n. */
  lemma AcceptedValueCanBeLost(s: Sym, a: Results, b: Results)
    requires s.User? && s.ty.Tristate?
    requires var g := Graph(map[s := OverriddenSymbol()], Yes); IsSolution(g, a) && IsSolution(SetUser(g, s, YES), b)
    ensures var g := Graph(map[s := OverriddenSymbol()], Yes);
            && Acyclic(g, map[s := 0])
            && WithinRange(a[s], s.ty, TriOf(ValuationOf(g, a), g.modules), YES)
            && b[s].value.tri == NO
  {
    var g := Graph(map[s := OverriddenSymbol()], Yes);
    var v := ValuationOf(g, a);
    OverriddenIsLone(g, s);
    assert Determined(g, a, s);
    var ps := OverriddenSymbol().prompts;
    assert ps[1..] == [] && AnyPrompt(InterpOf(v), ps) == YES;
    assert a[s].visible == YES && a[s].dirDep == NO && a[s].revDep == MOD;
    AcceptedValueSticks(g, map[s := 0], s, YES, a, b);
    ChangedSymbol(g, map[s := 0], s, YES, a, b);
  }

  lemma OverriddenIsLone(g: Graph, s: Sym)
    requires s.User? && g == Graph(map[s := OverriddenSymbol()], Yes)
    ensures Acyclic(g, map[s := 0])
  {
    var d := OverriddenSymbol();
    assert PromptSyms(d.prompts) == {} && DefaultSyms(d.defaults) == {};
    assert RangeCondSyms(d.ranges) == {} && RangeEndSyms(d.ranges) == {};
    assert DependencySyms(d) == {No, Mod};
    assert forall t :: t in Deps(g, s) ==> !t.User?;
  }

  /* ----- setting the value a symbol already has ----- */

  /** The user value `val` stays in force: it does not exceed both what the prompts allow
      and what is selected. */
  predicate Settles(r: Result, val: Tri) {
    r.visible == NO || val <= Max(r.visible, r.revDep)
  }

  /** For a calculated symbol that has the value `val`, recalculating it with that user
      value gives `val` again exactly when it settles. */
  lemma SettlesExact(g: Graph, s: Sym, val: Tri, v: Valuation)
    requires s.User? && s in g.defs && s.Logical() && Step(g, s, v).value.tri == val
    ensures var r := Step(g, s, v);
            Settles(r, val) <==> r.visible == NO || UserTri(r, s.ty, TriOf(v, g.modules), val) == val
  {}

  /** When a symbol is set to the value it has, the old values stay right exactly
      when that value settles. */
  lemma SameValueExact(g: Graph, s: Sym, val: Tri, a: Results)
    requires s in g.defs && s.Logical() && IsSolution(g, a) && a[s].value.tri == val
    ensures IsSolution(SetUser(g, s, val), a) <==> Settles(a[s], val)
  {
    var h, v := SetUser(g, s, val), ValuationOf(g, a);
    assert ValuationOf(h, a) == v;
    assert Determined(g, a, s);
    StepWithUser(g, s, val, v);
    SettlesExact(g, s, val, v);
    assert a[s].value == Value("n", val);
    forall t | t in g.defs && t != s ensures Determined(h, a, t) {
      assert Determined(g, a, t);
      StepOther(g, s, val, t, v);
    }
    if IsSolution(h, a) { assert Determined(h, a, s); }
  }

  /** A tristate with a prompt visible at m and implied at y. */
  function ImpliedSymbol(): SymDef {
    SymDef([Some(Symbol(Mod))], [], [], None, None, Some(Symbol(Yes)), false, false, NO, "")
  }

  /** Such a symbol has the value y, which does not settle: with the user value y it is m. */
  lemma SettingTheSameValueCanGoStale(s: Sym, v: Valuation)
    requires s.User? && s.ty.Tristate? && v.modules == Yes
    ensures var g := Graph(map[s := ImpliedSymbol()], Yes);
            && Step(g, s, v).value.tri == YES
            && !Settles(Step(g, s, v), YES)
            && Step(SetUser(g, s, YES), s, v).value.tri == MOD
  {
    var g := Graph(map[s := ImpliedSymbol()], Yes);
    var i := InterpOf(v);
    assert AnyPrompt(i, []) == NO;
    assert [Some(Symbol(Mod))][..0] == [];
    assert AnyPrompt(i, g.defs[s].prompts) == MOD;
    StepWithUser(g, s, YES, v);
  }
}
