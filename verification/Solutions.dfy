/** An acyclic configuration determines the value of every symbol. */
module Solutions {
  import opened Strings
  import opened Expressions
  import opened Values
  import opened Config

  /* ----- the value of a symbol depends on what it mentions only ----- */

  predicate BoolsAreBinary(v: Valuation, ss: set<Sym>) {
    forall s :: s in ss && s.User? && s.ty.Boolean? ==> v.curr(s).tri != MOD
  }

  /** `v` and `w` cannot be told apart through the symbols of `ss`. */
  predicate Alike(v: Valuation, w: Valuation, ss: set<Sym>) {
    && (forall s :: s in ss && s.User? ==> v.curr(s) == w.curr(s))
    && BoolsAreBinary(v, ss)
    && (HasTristate(ss) ==> TriOf(v, v.modules) == TriOf(w, w.modules))
  }

  lemma StringValueAlike(v: Valuation, w: Valuation, ss: set<Sym>, s: Sym)
    requires Alike(v, w, ss) && s in ss
    ensures StringValue(v, s) == StringValue(w, s) && TriOf(v, s) == TriOf(w, s) && StrOf(v, s) == StrOf(w, s)
  {}

  lemma EvalAlike(v: Valuation, w: Valuation, ss: set<Sym>, e: Expr)
    requires Alike(v, w, ss) && Syms(e) <= ss
    ensures Eval(InterpOf(v), e) == Eval(InterpOf(w), e)
  {
    var i, j := InterpOf(v), InterpOf(w);
    forall s | s in Syms(e) && s.User? ensures i.tri(s) == j.tri(s) {
      StringValueAlike(v, w, ss, s);
    }
    forall s, t | s in Syms(e) && t in Syms(e) ensures i.cmp(s, t) == j.cmp(s, t) {
      StringValueAlike(v, w, ss, s);
      StringValueAlike(v, w, ss, t);
    }
    EvalLocal(i, j, e);
  }

  lemma EvalDepAlike(v: Valuation, w: Valuation, ss: set<Sym>, d: Dep)
    requires Alike(v, w, ss) && DepSyms(d) <= ss
    ensures EvalDep(InterpOf(v), d) == EvalDep(InterpOf(w), d)
    ensures EvalReverse(InterpOf(v), d) == EvalReverse(InterpOf(w), d)
  {
    if d.Some? { EvalAlike(v, w, ss, d.value); }
  }

  lemma {:induction false} AnyPromptAlike(v: Valuation, w: Valuation, ss: set<Sym>, ps: seq<Dep>)
    requires Alike(v, w, ss) && PromptSyms(ps) <= ss
    ensures AnyPrompt(InterpOf(v), ps) == AnyPrompt(InterpOf(w), ps)
  {
    if ps != [] {
      var init, last := ps[..|ps| - 1], ps[|ps| - 1];
      assert last in ps && forall p :: p in init ==> p in ps;
      AnyPromptAlike(v, w, ss, init);
      EvalDepAlike(v, w, ss, last);
    }
  }

  lemma {:induction false} FirstDefaultAlike(v: Valuation, w: Valuation, ss: set<Sym>, ds: seq<Default>)
    requires Alike(v, w, ss) && DefaultSyms(ds) <= ss
    ensures FirstDefault(InterpOf(v), ds) == FirstDefault(InterpOf(w), ds)
    ensures FirstDefault(InterpOf(v), ds).Some? ==> FirstDefault(InterpOf(v), ds).value in ds
  {
    if ds != [] {
      assert ds[0] in ds && forall d :: d in ds[1..] ==> d in ds;
      assert forall s :: s in DepSyms(ds[0].cond) ==> s in Syms(ds[0].value) + DepSyms(ds[0].cond);
      EvalDepAlike(v, w, ss, ds[0].cond);
      FirstDefaultAlike(v, w, ss, ds[1..]);
    }
  }

  lemma {:induction false} FirstRangeAlike(v: Valuation, w: Valuation, ss: set<Sym>, rs: seq<Range>)
    requires Alike(v, w, ss) && RangeCondSyms(rs) <= ss
    ensures FirstRange(InterpOf(v), rs) == FirstRange(InterpOf(w), rs)
    ensures FirstRange(InterpOf(v), rs).Some? ==> FirstRange(InterpOf(v), rs).value in rs
  {
    if rs != [] {
      assert rs[0] in rs && forall r :: r in rs[1..] ==> r in rs;
      EvalDepAlike(v, w, ss, rs[0].cond);
      FirstRangeAlike(v, w, ss, rs[1..]);
    }
  }

  lemma DefaultTriAlike(v: Valuation, w: Valuation, ss: set<Sym>, d: SymDef, dir: Tri, imp: Tri)
    requires Alike(v, w, ss) && DefaultSyms(d.defaults) <= ss
    ensures DefaultTri(InterpOf(v), d, dir, imp) == DefaultTri(InterpOf(w), d, dir, imp)
  {
    FirstDefaultAlike(v, w, ss, d.defaults);
    var p := FirstDefault(InterpOf(v), d.defaults);
    if p.Some? {
      assert forall s :: s in Syms(p.value.value) + DepSyms(p.value.cond) ==> s in DefaultSyms(d.defaults);
      EvalAlike(v, w, ss, p.value.value);
      EvalDepAlike(v, w, ss, p.value.cond);
    }
  }

  lemma ClipAlike(v: Valuation, w: Valuation, ss: set<Sym>, ty: SymType, rs: seq<Range>, str: string)
    requires Alike(v, w, ss) && RangeCondSyms(rs) <= ss && RangeEndSyms(rs) <= ss
    ensures Clip(v, ty, rs, str) == Clip(w, ty, rs, str)
  {
    FirstRangeAlike(v, w, ss, rs);
    var r := FirstRange(InterpOf(v), rs);
    if r.Some? {
      assert r.value.lo in RangeEndSyms(rs) && r.value.hi in RangeEndSyms(rs);
      StringValueAlike(v, w, ss, r.value.lo);
      StringValueAlike(v, w, ss, r.value.hi);
    }
  }

  lemma NewStrAlike(v: Valuation, w: Valuation, ss: set<Sym>, ty: SymType, d: SymDef, vis: Tri)
    requires Alike(v, w, ss) && Mentioned(d) <= ss
    ensures NewStr(v, ty, d, vis) == NewStr(w, ty, d, vis)
  {
    FirstDefaultAlike(v, w, ss, d.defaults);
    var p := FirstDefault(InterpOf(v), d.defaults);
    if DefaultSym(p).Some? {
      assert p.value.value.sym in Syms(p.value.value) + DepSyms(p.value.cond);
      assert p.value.value.sym in DefaultSyms(d.defaults);
      StringValueAlike(v, w, ss, p.value.value.sym);
    }
    ClipAlike(v, w, ss, ty, d.ranges, if vis != NO && d.hasUser then d.userStr else if DefaultSym(p).Some? then StrOf(v, DefaultSym(p).value) else "");
  }

  /** A step looks at nothing but the dependencies of the symbol. */
  lemma StepLocal(g: Graph, s: Sym, v: Valuation, w: Valuation)
    requires s.User? && s in g.defs && v.modules == w.modules == g.modules
    requires forall t :: t in Deps(g, s) && t.User? ==> v.curr(t) == w.curr(t)
    requires BoolsAreBinary(v, Deps(g, s))
    ensures Step(g, s, v) == Step(g, s, w)
  {
    if !s.ty.Unknown? {
      var d := g.defs[s];
      var m := Mentioned(d);
      assert HasTristate(m) || s.ty.Tristate? ==> g.modules in Deps(g, s);
      assert Alike(v, w, m);
      AnyPromptAlike(v, w, m, d.prompts);
      EvalDepAlike(v, w, m, d.dirDep);
      EvalDepAlike(v, w, m, d.revDep);
      EvalDepAlike(v, w, m, d.implied);
      FirstDefaultAlike(v, w, m, d.defaults);
      StepParts(g, s, v, w);
    }
  }

  /** The parts of a step that use the value of the modules symbol only for a
      tristate. */
  lemma StepParts(g: Graph, s: Sym, v: Valuation, w: Valuation)
    requires s.User? && s in g.defs && !s.ty.Unknown? && v.modules == w.modules == g.modules
    requires Alike(v, w, Mentioned(g.defs[s]))
    requires s.ty.Tristate? ==> TriOf(v, g.modules) == TriOf(w, g.modules)
    requires AnyPrompt(InterpOf(v), g.defs[s].prompts) == AnyPrompt(InterpOf(w), g.defs[s].prompts)
    requires EvalDep(InterpOf(v), g.defs[s].dirDep) == EvalDep(InterpOf(w), g.defs[s].dirDep)
    requires EvalReverse(InterpOf(v), g.defs[s].revDep) == EvalReverse(InterpOf(w), g.defs[s].revDep)
    requires EvalReverse(InterpOf(v), g.defs[s].implied) == EvalReverse(InterpOf(w), g.defs[s].implied)
    requires FirstDefault(InterpOf(v), g.defs[s].defaults) == FirstDefault(InterpOf(w), g.defs[s].defaults)
    ensures Step(g, s, v) == Step(g, s, w)
  {
    var d := g.defs[s];
    var r := Step(g, s, v);
    ModulesMatterToTristates(s.ty, TriOf(v, g.modules), TriOf(w, g.modules));
    if s.ty.Boolean? || s.ty.Tristate? {
      DefaultTriAlike(v, w, Mentioned(d), d, r.dirDep, r.implied);
    } else {
      NewStrAlike(v, w, Mentioned(d), s.ty, d, r.visible);
    }
  }

  /** The modules symbol matters to a tristate only. */
  lemma ModulesMatterToTristates(ty: SymType, m: Tri, n: Tri)
    requires ty.Tristate? ==> m == n
    ensures forall t: Tri :: RoundFor(ty, m, t) == RoundFor(ty, n, t)
    ensures forall t: Tri :: VisibilityFor(ty, m, t) == VisibilityFor(ty, n, t)
  {}

  /* ----- values are well-formed ----- */

  lemma StepBinary(g: Graph, s: Sym, v: Valuation)
    requires s.User? && s in g.defs && s.ty.Boolean?
    ensures Step(g, s, v).value.tri != MOD
  {}

  lemma DeterminedBinary(g: Graph, sol: Results, s: Sym)
    requires s in g.defs && Determined(g, sol, s) && s.ty.Boolean?
    ensures sol[s].value.tri != MOD
  {
    StepBinary(g, s, ValuationOf(g, sol));
  }

  /** The values of a solution are what the expression rewrites rely on. */
  lemma SolutionConsistent(g: Graph, sol: Results)
    requires IsSolution(g, sol)
    ensures Consistent(ValuationOf(g, sol))
  {
    var v := ValuationOf(g, sol);
    forall s: Sym | s.User?
      ensures s.ty.Boolean? ==> v.curr(s).tri != MOD
      ensures s.ty.Tristate? && TriOf(v, v.modules) == NO ==> v.curr(s).tri != MOD
      ensures s.ty.Unknown? ==> v.curr(s) == Value(s.name, NO)
    {
      if s in g.defs { assert Determined(g, sol, s); }
    }
  }

  /* ----- existence ----- */

  /** `res` gives the symbols of rank below `n` the values they determine for each
      other. */
  ghost predicate SolvesBelow(g: Graph, rank: map<Sym, nat>, n: nat, res: Results)
    requires Acyclic(g, rank)
  {
    && res.Keys == (set s | s in g.defs && rank[s] < n)
    && (forall s {:trigger Determined(g, res, s)} :: s in res ==> Determined(g, res, s))
  }

  /** `res` continues `prev` with the symbols of rank `n`. */
  ghost predicate Continues(g: Graph, rank: map<Sym, nat>, n: nat, prev: Results, res: Results)
    requires Acyclic(g, rank)
  {
    && res.Keys == (set s | s in g.defs && rank[s] < n + 1)
    && (forall s :: s in prev ==> s in res && res[s] == prev[s])
    && (forall s {:trigger AddedBy(g, prev, res, s)} :: s in res && s !in prev ==> AddedBy(g, prev, res, s))
  }

  ghost predicate AddedBy(g: Graph, prev: Results, res: Results, s: Sym)
    requires s in g.defs
  {
    s.User? && s in res && res[s] == Step(g, s, ValuationOf(g, prev))
  }

  lemma DependencyBefore(g: Graph, rank: map<Sym, nat>, n: nat, prev: Results, res: Results, s: Sym, t: Sym)
    requires Acyclic(g, rank) && SolvesBelow(g, rank, n, prev) && Continues(g, rank, n, prev, res) && s in res
    requires t in Deps(g, s) && t.User?
    ensures ValuationOf(g, prev).curr(t) == ValuationOf(g, res).curr(t)
    ensures t.ty.Boolean? ==> ValuationOf(g, prev).curr(t).tri != MOD
  {
    assert rank[t] < rank[s];
    assert t in prev && t in res;
    if t.ty.Boolean? { DeterminedBinary(g, prev, t); }
  }

  lemma ContinuesAt(g: Graph, rank: map<Sym, nat>, n: nat, prev: Results, res: Results, s: Sym)
    requires Acyclic(g, rank) && SolvesBelow(g, rank, n, prev) && Continues(g, rank, n, prev, res) && s in res
    ensures Determined(g, res, s)
  {
    if s in prev { assert Determined(g, prev, s); } else { assert AddedBy(g, prev, res, s); }
    forall t | t in Deps(g, s) && t.User?
      ensures ValuationOf(g, prev).curr(t) == ValuationOf(g, res).curr(t)
      ensures t.ty.Boolean? ==> ValuationOf(g, prev).curr(t).tri != MOD
    {
      DependencyBefore(g, rank, n, prev, res, s, t);
    }
    StepLocal(g, s, ValuationOf(g, prev), ValuationOf(g, res));
  }

  ghost function SolveBelow(g: Graph, rank: map<Sym, nat>, n: nat): (r: Results)
    requires Acyclic(g, rank)
    ensures SolvesBelow(g, rank, n, r)
  {
    if n == 0 then map[]
    else
      var prev := SolveBelow(g, rank, n - 1);
      var res := map s | s in g.defs && rank[s] < n :: if s in prev then prev[s] else Step(g, s, ValuationOf(g, prev));
      assert Continues(g, rank, n - 1, prev, res);
      assert SolvesBelow(g, rank, n, res) by {
        forall s | s in res ensures Determined(g, res, s) { ContinuesAt(g, rank, n - 1, prev, res, s); }
      }
      res
  }

  ghost function Bound(rank: map<Sym, nat>, ss: set<Sym>): (n: nat)
    requires ss <= rank.Keys
    ensures forall s :: s in ss ==> rank[s] < n
    decreases |ss|
  {
    if ss == {} then 0
    else
      var s :| s in ss;
      var m := Bound(rank, ss - {s});
      if rank[s] < m then m else rank[s] + 1
  }

  /** The values that the configuration determines, without any memory of earlier
      calculations. */
  ghost function Solution(g: Graph, rank: map<Sym, nat>): (sol: Results)
    requires Acyclic(g, rank)
    ensures IsSolution(g, sol)
  {
    var n := Bound(rank, rank.Keys);
    var sol := SolveBelow(g, rank, n);
    assert sol.Keys == g.defs.Keys;
    assert forall s {:trigger Determined(g, sol, s)} :: s in g.defs ==> s in sol;
    sol
  }

  /* ----- uniqueness ----- */

  lemma {:induction false} SolutionsAgreeAt(g: Graph, rank: map<Sym, nat>, a: Results, b: Results, s: Sym)
    requires Acyclic(g, rank) && IsSolution(g, a) && IsSolution(g, b) && s in g.defs
    ensures a[s] == b[s]
    decreases rank[s]
  {
    var v, w := ValuationOf(g, a), ValuationOf(g, b);
    forall t | t in Deps(g, s) && t.User? ensures v.curr(t) == w.curr(t) {
      SolutionsAgreeAt(g, rank, a, b, t);
    }
    SolutionConsistent(g, a);
    assert Determined(g, a, s) && Determined(g, b, s);
    StepLocal(g, s, v, w);
  }

  lemma SolutionUnique(g: Graph, rank: map<Sym, nat>, a: Results, b: Results)
    requires Acyclic(g, rank) && IsSolution(g, a) && IsSolution(g, b)
    ensures a == b
  {
    forall s | s in g.defs ensures a[s] == b[s] { SolutionsAgreeAt(g, rank, a, b, s); }
  }
}
