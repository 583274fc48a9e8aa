/** A configuration: the symbols with their properties, and the values that the
    properties determine. */
module Config {
  import opened Strings
  import opened Expressions
  import opened Values

  datatype Default = Default(value: Expr, cond: Dep)
  datatype Range = Range(lo: Sym, hi: Sym, cond: Dep)

  /** The properties of a symbol, grouped by kind and in the order of their
      definition, its dependencies, and the value the user gave it. */
  datatype SymDef = SymDef(
    prompts: seq<Dep>,
    defaults: seq<Default>,
    ranges: seq<Range>,
    dirDep: Dep,
    revDep: Dep,
    implied: Dep,
    noWrite: bool,
    hasUser: bool,
    userTri: Tri,
    userStr: string)

  datatype Graph = Graph(defs: map<Sym, SymDef>, modules: Sym)

  /** What `sym_calc_value` stores in a symbol. */
  datatype Result = Result(visible: Tri, dirDep: Tri, revDep: Tri, implied: Tri, value: Value, write: bool)

  type Results = map<Sym, Result>

  /** The value of a symbol that has not been calculated. */
  function BlankValue(s: Sym): Value {
    Value(if s.User? && s.ty.Unknown? then s.name else "", NO)
  }

  function ValuationOf(g: Graph, res: Results): Valuation {
    Valuation((s: Sym) => if s in res then res[s].value else BlankValue(s), g.modules)
  }

  /* ----- what a symbol depends on ----- */

  function DepSyms(d: Dep): set<Sym> { if d.None? then {} else Syms(d.value) }

  function PromptSyms(ps: seq<Dep>): set<Sym> {
    set p, s | p in ps && s in DepSyms(p) :: s
  }

  function DefaultSyms(ds: seq<Default>): set<Sym> {
    set d, s | d in ds && s in Syms(d.value) + DepSyms(d.cond) :: s
  }

  function RangeCondSyms(rs: seq<Range>): set<Sym> {
    set r, s | r in rs && s in DepSyms(r.cond) :: s
  }

  function RangeEndSyms(rs: seq<Range>): set<Sym> {
    (set r | r in rs :: r.lo) + (set r | r in rs :: r.hi)
  }

  function DependencySyms(d: SymDef): set<Sym> {
    DepSyms(d.dirDep) + DepSyms(d.revDep) + DepSyms(d.implied)
  }

  /** The symbols whose values the properties mention. */
  function Mentioned(d: SymDef): set<Sym> {
    PromptSyms(d.prompts) + DefaultSyms(d.defaults) + RangeCondSyms(d.ranges) + RangeEndSyms(d.ranges) + DependencySyms(d)
  }

  predicate HasTristate(ss: set<Sym>) { exists s :: s in ss && s.Type().Tristate? }

  /** All symbols that the value of `s` can depend on; where a tristate takes part,
      the modules symbol is among them. */
  function Deps(g: Graph, s: Sym): set<Sym> {
    if !s.User? || s.ty.Unknown? || s !in g.defs then {}
    else
      var m := Mentioned(g.defs[s]);
      m + if s.ty.Tristate? || HasTristate(m) then {g.modules} else {}
  }

  predicate Known(g: Graph, s: Sym) { s.User? ==> s in g.defs }

  /** `rank` orders the symbols so that each comes after what it depends on. */
  ghost predicate Acyclic(g: Graph, rank: map<Sym, nat>) {
    && rank.Keys == g.defs.Keys
    && (forall s :: s in g.defs ==> s.User?)
    && Known(g, g.modules)
    && (forall s {:trigger Deps(g, s)} :: s in g.defs ==> RanksAfter(g, rank, s, Deps(g, s)))
  }

  /** `s` ranks after every user symbol of `ss`. */
  ghost predicate RanksAfter(g: Graph, rank: map<Sym, nat>, s: Sym, ss: set<Sym>)
    requires s in rank
  {
    forall t :: t in ss && t.User? ==> t in g.defs && t in rank && rank[t] < rank[s]
  }

  /* ----- the value of a symbol, given the values of the others ----- */

  /** `sym_get_type` without choices */
  function EffectiveType(ty: SymType, mods: Tri): SymType {
    if ty.Tristate? && mods == NO then Boolean else ty
  }

  /** m counts as y for a bool. */
  function RoundFor(ty: SymType, mods: Tri, t: Tri): Tri {
    if t == MOD && EffectiveType(ty, mods).Boolean? then YES else t
  }

  function AnyPrompt(i: Interp, ps: seq<Dep>): Tri {
    if ps == [] then NO else Max(AnyPrompt(i, ps[..|ps| - 1]), EvalDep(i, ps[|ps| - 1]))
  }

  function VisibilityFor(ty: SymType, mods: Tri, t: Tri): Tri {
    if t == MOD && (!ty.Tristate? || mods == NO) then YES else t
  }

  /** A reverse dependency that is absent is n, unlike other dependencies. */
  function EvalReverse(i: Interp, d: Dep): Tri { if d.None? then NO else Eval(i, d.value) }

  function FirstDefault(i: Interp, ds: seq<Default>): Option<Default> {
    if ds == [] then None
    else if EvalDep(i, ds[0].cond) != NO then Some(ds[0])
    else FirstDefault(i, ds[1..])
  }

  function FirstRange(i: Interp, rs: seq<Range>): Option<Range> {
    if rs == [] then None
    else if EvalDep(i, rs[0].cond) != NO then Some(rs[0])
    else FirstRange(i, rs[1..])
  }

  /** The value a bool or tristate would have by default and by being implied. */
  function DefaultTri(i: Interp, d: SymDef, dir: Tri, implied: Tri): Tri {
    var p := FirstDefault(i, d.defaults);
    var t := if p.Some? then Min(Eval(i, p.value.value), EvalDep(i, p.value.cond)) else NO;
    if implied != NO then Min(Max(t, implied), dir) else t
  }

  /** A select raises the value, unless a dependency is unmet. */
  function Selected(t: Tri, dir: Tri, rev: Tri): Tri {
    if dir == NO && rev != NO then NO else Max(t, rev)
  }

  function NewTri(i: Interp, ty: SymType, mods: Tri, d: SymDef, vis: Tri, dir: Tri, rev: Tri, implied: Tri): Tri {
    var t := if vis != NO && d.hasUser then Min(d.userTri, vis) else DefaultTri(i, d, dir, implied);
    RoundFor(ty, mods, Selected(t, dir, rev))
  }

  function Base(ty: SymType, other: nat): nat {
    if ty.Int? then 10 else if ty.Hex? then 16 else other
  }

  /** `sym_get_range_val` */
  function RangeVal(v: Valuation, s: Sym, base: nat): int {
    Strtoll(StrOf(v, s), Base(s.Type(), base))
  }

  /** `sym_validate_range` */
  function Clip(v: Valuation, ty: SymType, rs: seq<Range>, str: string): string {
    if !ty.Int? && !ty.Hex? then str
    else match FirstRange(InterpOf(v), rs)
      case None => str
      case Some(r) => ClipRange(v, Strtoll(str, Base(ty, 0)), Base(ty, 0), r, str)
  }

  /** The text of the end point that the number `val` lies beyond, or `str`. */
  function ClipRange(v: Valuation, val: int, base: nat, r: Range, str: string): string {
    if val < RangeVal(v, r.lo, base) then StrOf(v, r.lo)
    else if val > RangeVal(v, r.hi, base) then StrOf(v, r.hi)
    else str
  }

  /** The symbol a string default names, if it is a plain symbol. */
  function DefaultSym(p: Option<Default>): Option<Sym> {
    if p.Some? && p.value.value.Symbol? then Some(p.value.value.sym) else None
  }

  function NewStr(v: Valuation, ty: SymType, d: SymDef, vis: Tri): string {
    var p := DefaultSym(FirstDefault(InterpOf(v), d.defaults));
    var str := if vis != NO && d.hasUser then d.userStr else if p.Some? then StrOf(v, p.value) else "";
    Clip(v, ty, d.ranges, str)
  }

  function Writes(i: Interp, ty: SymType, d: SymDef, vis: Tri, rev: Tri, implied: Tri): bool {
    && !d.noWrite
    && (|| vis != NO
        || if ty.Boolean? || ty.Tristate?
           then rev != NO || FirstDefault(i, d.defaults).Some? || implied != NO
           else DefaultSym(FirstDefault(i, d.defaults)).Some?)
  }

  /** Everything `sym_calc_value` computes for `s` when the other symbols have the
      values of `v`. */
  function Step(g: Graph, s: Sym, v: Valuation): Result
    requires s.User? && s in g.defs
  {
    if s.ty.Unknown? then Result(NO, NO, NO, NO, Value(s.name, NO), false)
    else
      var d, i, mods := g.defs[s], InterpOf(v), TriOf(v, g.modules);
      var vis := VisibilityFor(s.ty, mods, AnyPrompt(i, d.prompts));
      var dir := RoundFor(s.ty, mods, EvalDep(i, d.dirDep));
      var rev := RoundFor(s.ty, mods, EvalReverse(i, d.revDep));
      var imp := RoundFor(s.ty, mods, EvalReverse(i, d.implied));
      var value := if s.ty.Boolean? || s.ty.Tristate?
                   then Value("n", NewTri(i, s.ty, mods, d, vis, dir, rev, imp))
                   else Value(NewStr(v, s.ty, d, vis), NO);
      Result(vis, dir, rev, imp, value, Writes(i, s.ty, d, vis, rev, imp))
  }

  /** `s` has the value that its properties determine from the others. */
  ghost predicate Determined(g: Graph, sol: Results, s: Sym)
    requires s in g.defs
  {
    s.User? && s in sol && sol[s] == Step(g, s, ValuationOf(g, sol))
  }

  /** All symbols have the values that their properties determine from each other. */
  ghost predicate IsSolution(g: Graph, sol: Results) {
    && sol.Keys == g.defs.Keys
    && (forall s {:trigger Determined(g, sol, s)} :: s in g.defs ==> Determined(g, sol, s))
  }

  /** What is stored agrees with what is specified; of a symbol without a type only
      the value counts. */
  predicate Agrees(s: Sym, r: Result, spec: Result) {
    if s.Type().Unknown? then r.value == spec.value else r == spec
  }
}
