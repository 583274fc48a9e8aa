/** What the values of a configuration are, in the terms of its properties alone. */
module SolutionLaws {
  import opened Config
  import opened Expressions
  import opened Numerals
  import opened Strings
  import opened Values

  // ----- which property counts -----

  /** `t` is the largest of the prompt conditions, n if there is none. */
  ghost predicate Largest(i: Interp, ps: seq<Dep>, t: Tri) {
    && (forall k :: 0 <= k < |ps| ==> EvalDep(i, ps[k]) <= t)
    && (t == NO || exists k :: 0 <= k < |ps| && EvalDep(i, ps[k]) == t)
  }

  lemma {:induction false} AnyPromptLargest(i: Interp, ps: seq<Dep>)
    ensures Largest(i, ps, AnyPrompt(i, ps))
  {
    if ps != [] {
      var n := |ps| - 1;
      AnyPromptLargest(i, ps[..n]);
      if AnyPrompt(i, ps) == EvalDep(i, ps[n]) {
      } else if AnyPrompt(i, ps) != NO {
        var k :| 0 <= k < n && EvalDep(i, ps[..n][k]) == AnyPrompt(i, ps[..n]);
        assert EvalDep(i, ps[k]) == AnyPrompt(i, ps);
      }
      forall k | 0 <= k < |ps| ensures EvalDep(i, ps[k]) <= AnyPrompt(i, ps) {
        if k < n { assert EvalDep(i, ps[..n][k]) <= AnyPrompt(i, ps[..n]); }
      }
    }
  }

  /** Default `k` is the first one whose condition is not n. */
  predicate LiveDefault(i: Interp, ds: seq<Default>, k: nat) {
    k < |ds| && EvalDep(i, ds[k].cond) != NO && forall j :: 0 <= j < k ==> EvalDep(i, ds[j].cond) == NO
  }

  predicate NoDefault(i: Interp, ds: seq<Default>) {
    forall j :: 0 <= j < |ds| ==> EvalDep(i, ds[j].cond) == NO
  }

  lemma {:induction false} FirstDefaultLive(i: Interp, ds: seq<Default>, k: nat)
    requires LiveDefault(i, ds, k)
    ensures FirstDefault(i, ds) == Some(ds[k])
    decreases k
  {
    if k > 0 {
      assert EvalDep(i, ds[0].cond) == NO;
      forall j | 0 <= j < k - 1 ensures EvalDep(i, ds[1..][j].cond) == NO {
        assert EvalDep(i, ds[j + 1].cond) == NO;
      }
      FirstDefaultLive(i, ds[1..], k - 1);
    }
  }

  lemma {:induction false} FirstDefaultNone(i: Interp, ds: seq<Default>)
    requires NoDefault(i, ds)
    ensures FirstDefault(i, ds).None?
  {
    if ds != [] {
      assert EvalDep(i, ds[0].cond) == NO;
      forall j | 0 <= j < |ds[1..]| ensures EvalDep(i, ds[1..][j].cond) == NO {
        assert EvalDep(i, ds[j + 1].cond) == NO;
      }
      FirstDefaultNone(i, ds[1..]);
    }
  }

  /** One of the two holds. */
  lemma {:induction false} SomeOrNone(i: Interp, ds: seq<Default>) returns (k: nat)
    ensures LiveDefault(i, ds, k) || NoDefault(i, ds)
  {
    k := 0;
    if ds != [] && EvalDep(i, ds[0].cond) == NO {
      var j := SomeOrNone(i, ds[1..]);
      k := j + 1;
      if LiveDefault(i, ds[1..], j) {
        assert ds[k] == ds[1..][j];
        forall l | 0 <= l < k ensures EvalDep(i, ds[l].cond) == NO {
          if l > 0 { assert ds[l] == ds[1..][l - 1]; }
        }
      } else {
        forall l | 0 <= l < |ds| ensures EvalDep(i, ds[l].cond) == NO {
          if l > 0 { assert ds[l] == ds[1..][l - 1]; }
        }
      }
    }
  }

  predicate LiveRange(i: Interp, rs: seq<Range>, k: nat) {
    k < |rs| && EvalDep(i, rs[k].cond) != NO && forall j :: 0 <= j < k ==> EvalDep(i, rs[j].cond) == NO
  }

  predicate NoRange(i: Interp, rs: seq<Range>) {
    forall j :: 0 <= j < |rs| ==> EvalDep(i, rs[j].cond) == NO
  }

  lemma {:induction false} FirstRangeLive(i: Interp, rs: seq<Range>, k: nat)
    requires LiveRange(i, rs, k)
    ensures FirstRange(i, rs) == Some(rs[k])
    decreases k
  {
    if k > 0 {
      assert EvalDep(i, rs[0].cond) == NO;
      forall j | 0 <= j < k - 1 ensures EvalDep(i, rs[1..][j].cond) == NO {
        assert EvalDep(i, rs[j + 1].cond) == NO;
      }
      FirstRangeLive(i, rs[1..], k - 1);
    }
  }

  lemma {:induction false} FirstRangeNone(i: Interp, rs: seq<Range>)
    requires NoRange(i, rs)
    ensures FirstRange(i, rs).None?
  {
    if rs != [] {
      assert EvalDep(i, rs[0].cond) == NO;
      forall j | 0 <= j < |rs[1..]| ensures EvalDep(i, rs[1..][j].cond) == NO {
        assert EvalDep(i, rs[j + 1].cond) == NO;
      }
      FirstRangeNone(i, rs[1..]);
    }
  }

  // ----- laws of every solution -----

  /** m is y for a symbol that cannot be m. */
  function Rounded(s: Sym, mods: Tri, t: Tri): Tri
    requires s.User?
  {
    if t == MOD && !(s.ty.Tristate? && mods != NO) then YES else t
  }

  /** A symbol of a solution, with its properties `d`, its values `r` and those of the others. */
  ghost predicate Solved(g: Graph, sol: Results, s: Sym, d: SymDef, r: Result, v: Valuation, i: Interp, mods: Tri) {
    && IsSolution(g, sol) && s in g.defs && s.User? && !s.ty.Unknown?
    && d == g.defs[s] && s in sol && r == sol[s]
    && v == ValuationOf(g, sol) && i == InterpOf(v) && mods == TriOf(v, g.modules)
  }

  /** Visible as far as the largest of the prompt conditions. */
  lemma VisibilityLaw(g: Graph, sol: Results, s: Sym, d: SymDef, r: Result, v: Valuation, i: Interp, mods: Tri, t: Tri)
    requires Solved(g, sol, s, d, r, v, i, mods) && Largest(i, d.prompts, t)
    ensures r.visible == Rounded(s, mods, t)
  {
    assert Determined(g, sol, s);
    AnyPromptLargest(i, d.prompts);
  }

  /** The dependencies of a bool or tristate symbol, rounded; without a condition only the first is y. */
  lemma DependenciesLaw(g: Graph, sol: Results, s: Sym, d: SymDef, r: Result, v: Valuation, i: Interp, mods: Tri)
    requires Solved(g, sol, s, d, r, v, i, mods) && s.Logical()
    ensures r.dirDep == Rounded(s, mods, if d.dirDep.None? then YES else Eval(i, d.dirDep.value))
    ensures r.revDep == Rounded(s, mods, if d.revDep.None? then NO else Eval(i, d.revDep.value))
    ensures r.implied == Rounded(s, mods, if d.implied.None? then NO else Eval(i, d.implied.value))
  {
    assert Determined(g, sol, s);
  }

  /** `t` is the value of the first live default, limited by its condition; n if none is live. */
  ghost predicate ByDefault(i: Interp, ds: seq<Default>, t: Tri) {
    || (NoDefault(i, ds) && t == NO)
    || (exists k :: 0 <= k < |ds| && LiveDefault(i, ds, k) && t == Min(Eval(i, ds[k].value), EvalDep(i, ds[k].cond)))
  }

  lemma DefaultLimited(i: Interp, d: SymDef, dir: Tri, t: Tri)
    requires ByDefault(i, d.defaults, t)
    ensures DefaultTri(i, d, dir, NO) == t
    ensures forall imp: Tri :: imp != NO ==> DefaultTri(i, d, dir, imp) == Min(Max(t, imp), dir)
  {
    if NoDefault(i, d.defaults) && t == NO {
      FirstDefaultNone(i, d.defaults);
    } else {
      var k :| 0 <= k < |d.defaults| && LiveDefault(i, d.defaults, k)
               && t == Min(Eval(i, d.defaults[k].value), EvalDep(i, d.defaults[k].cond));
      FirstDefaultLive(i, d.defaults, k);
    }
  }

  /** With no user value in force, not selected and not implied: the first live default decides. */
  lemma DefaultLaw(g: Graph, sol: Results, s: Sym, d: SymDef, r: Result, v: Valuation, i: Interp, mods: Tri, t: Tri)
    requires Solved(g, sol, s, d, r, v, i, mods) && s.Logical() && ByDefault(i, d.defaults, t)
    requires (r.visible == NO || !d.hasUser) && r.revDep == NO && r.implied == NO
    ensures r.value == Value("n", Rounded(s, mods, t))
  {
    assert Determined(g, sol, s);
    DefaultLimited(i, d, r.dirDep, t);
  }

  /** Implied and not selected: at least as much as implied, within the direct dependencies. */
  lemma ImplyLaw(g: Graph, sol: Results, s: Sym, d: SymDef, r: Result, v: Valuation, i: Interp, mods: Tri, t: Tri)
    requires Solved(g, sol, s, d, r, v, i, mods) && s.Logical() && ByDefault(i, d.defaults, t)
    requires (r.visible == NO || !d.hasUser) && r.revDep == NO && r.implied != NO
    ensures r.value == Value("n", Rounded(s, mods, Min(Max(t, r.implied), r.dirDep)))
  {
    assert Determined(g, sol, s);
    DefaultLimited(i, d, r.dirDep, t);
  }

  /** A user value in force and not selected: the user value within the visibility, whatever the defaults. */
  lemma UserLaw(g: Graph, sol: Results, s: Sym, d: SymDef, r: Result, v: Valuation, i: Interp, mods: Tri)
    requires Solved(g, sol, s, d, r, v, i, mods) && s.Logical()
    requires r.visible != NO && d.hasUser && r.revDep == NO
    ensures r.value == Value("n", Rounded(s, mods, Min(d.userTri, r.visible)))
  {
    assert Determined(g, sol, s);
  }

  /** Selected with a dependency unmet: n. */
  lemma UnmetLaw(g: Graph, sol: Results, s: Sym, d: SymDef, r: Result, v: Valuation, i: Interp, mods: Tri)
    requires Solved(g, sol, s, d, r, v, i, mods) && s.Logical()
    requires r.dirDep == NO && r.revDep != NO
    ensures r.value == Value("n", NO)
  {
    assert Determined(g, sol, s);
  }

  /** Selected otherwise: the larger of the select and what the value would be without it. */
  lemma SelectLaw(g: Graph, sol: Results, s: Sym, d: SymDef, r: Result, v: Valuation, i: Interp, mods: Tri, t: Tri)
    requires Solved(g, sol, s, d, r, v, i, mods) && s.Logical() && ByDefault(i, d.defaults, t)
    requires r.dirDep != NO && r.revDep != NO
    ensures var without := if r.visible != NO && d.hasUser then Min(d.userTri, r.visible)
                           else if r.implied != NO then Min(Max(t, r.implied), r.dirDep)
                           else t;
      r.value == Value("n", Rounded(s, mods, Max(without, r.revDep)))
  {
    assert Determined(g, sol, s);
    DefaultLimited(i, d, r.dirDep, t);
  }

  /** Some default is live or none is, so a default value there always is. */
  lemma ByDefaultTotal(i: Interp, ds: seq<Default>) returns (t: Tri)
    ensures ByDefault(i, ds, t)
  {
    var k := SomeOrNone(i, ds);
    t := if k < |ds| && LiveDefault(i, ds, k) then Min(Eval(i, ds[k].value), EvalDep(i, ds[k].cond)) else NO;
  }

  // ----- int, hex and string symbols -----

  /** The text before any range is looked at: the user's if in force, else that of the symbol which the
      first live default names, else nothing. */
  ghost predicate Text(v: Valuation, i: Interp, d: SymDef, visible: Tri, str: string) {
    if visible != NO && d.hasUser then str == d.userStr
    else
      || (str == "" && NoDefault(i, d.defaults))
      || (exists k :: 0 <= k < |d.defaults| && LiveDefault(i, d.defaults, k) && str == TextOf(v, d.defaults[k].value))
  }

  function TextOf(v: Valuation, e: Expr): string { if e.Symbol? then StrOf(v, e.sym) else "" }

  lemma TextIsNew(v: Valuation, ty: SymType, d: SymDef, visible: Tri, str: string)
    requires Text(v, InterpOf(v), d, visible, str)
    ensures NewStr(v, ty, d, visible) == Clip(v, ty, d.ranges, str)
  {
    var i := InterpOf(v);
    if !(visible != NO && d.hasUser) {
      if str == "" && NoDefault(i, d.defaults) {
        FirstDefaultNone(i, d.defaults);
      } else {
        var k :| 0 <= k < |d.defaults| && LiveDefault(i, d.defaults, k) && str == TextOf(v, d.defaults[k].value);
        FirstDefaultLive(i, d.defaults, k);
      }
    }
  }

  lemma TextSolved(g: Graph, sol: Results, s: Sym, d: SymDef, r: Result, v: Valuation, i: Interp, mods: Tri,
                   str: string)
    requires Solved(g, sol, s, d, r, v, i, mods) && !s.Logical() && Text(v, i, d, r.visible, str)
    ensures r.value == Value(Clip(v, s.ty, d.ranges, str), NO)
  {
    assert Determined(g, sol, s);
    TextIsNew(v, s.ty, d, r.visible, str);
  }

  /** Without a live range, and always for a string symbol, the text stands. */
  lemma TextLaw(g: Graph, sol: Results, s: Sym, d: SymDef, r: Result, v: Valuation, i: Interp, mods: Tri, str: string)
    requires Solved(g, sol, s, d, r, v, i, mods) && !s.Logical() && Text(v, i, d, r.visible, str)
    requires s.ty.Str? || NoRange(i, d.ranges)
    ensures r.value == Value(str, NO)
  {
    TextSolved(g, sol, s, d, r, v, i, mods, str);
    if !s.ty.Str? { FirstRangeNone(i, d.ranges); }
  }

  /** An end is read in its own base if it has one, else in that of the symbol. */
  function EndNumber(v: Valuation, end: Sym, base: nat): int {
    Strtoll(StrOf(v, end), if end.Type().Int? then 10 else if end.Type().Hex? then 16 else base)
  }

  /** The text, moved to the end of the range that its number lies beyond. */
  function Within(v: Valuation, r: Range, base: nat, str: string): string {
    var n := Strtoll(str, base);
    if n < EndNumber(v, r.lo, base) then StrOf(v, r.lo)
    else if n > EndNumber(v, r.hi, base) then StrOf(v, r.hi)
    else str
  }

  lemma ClipsTo(v: Valuation, ty: SymType, rs: seq<Range>, k: nat, str: string)
    requires (ty.Int? || ty.Hex?) && LiveRange(InterpOf(v), rs, k)
    ensures Clip(v, ty, rs, str) == Within(v, rs[k], if ty.Int? then 10 else 16, str)
  {
    FirstRangeLive(InterpOf(v), rs, k);
  }

  /** A number outside the first live range becomes the nearer end. */
  lemma RangeLaw(g: Graph, sol: Results, s: Sym, d: SymDef, r: Result, v: Valuation, i: Interp, mods: Tri,
                 str: string, k: nat)
    requires Solved(g, sol, s, d, r, v, i, mods) && (s.ty.Int? || s.ty.Hex?) && Text(v, i, d, r.visible, str)
    requires LiveRange(i, d.ranges, k)
    ensures r.value == Value(Within(v, d.ranges[k], if s.ty.Int? then 10 else 16, str), NO)
  {
    TextSolved(g, sol, s, d, r, v, i, mods, str);
    ClipsTo(v, s.ty, d.ranges, k, str);
  }

  lemma DecimalNumber(n: int)
    requires LL_MIN <= n <= LL_MAX
    ensures Strtoll(Decimal(n), 10) == n
  {
    ScanDecimal(n, 10);
  }

  /** With decimal numbers throughout: the value is the number moved into the range. */
  lemma ClampLaw(g: Graph, sol: Results, s: Sym, d: SymDef, r: Result, v: Valuation, i: Interp, mods: Tri, k: nat,
                 n: int, a: int, b: int)
    requires Solved(g, sol, s, d, r, v, i, mods) && s.ty.Int? && Text(v, i, d, r.visible, Decimal(n))
    requires LiveRange(i, d.ranges, k) && !d.ranges[k].lo.Type().Hex? && !d.ranges[k].hi.Type().Hex?
    requires StrOf(v, d.ranges[k].lo) == Decimal(a) && StrOf(v, d.ranges[k].hi) == Decimal(b)
    requires LL_MIN <= n <= LL_MAX && LL_MIN <= a <= b <= LL_MAX
    ensures r.value.str == Decimal(if n < a then a else if n > b then b else n)
  {
    RangeLaw(g, sol, s, d, r, v, i, mods, Decimal(n), k);
    DecimalNumber(n);
    DecimalNumber(a);
    DecimalNumber(b);
  }

  /** A symbol is written out exactly if it may be and is visible, or has a value from elsewhere: a bool or
      tristate selected, implied or with a live default, another one with a live default that names a symbol. */
  lemma WriteLaw(g: Graph, sol: Results, s: Sym, d: SymDef, r: Result, v: Valuation, i: Interp, mods: Tri)
    requires Solved(g, sol, s, d, r, v, i, mods)
    ensures r.write <==>
      && !d.noWrite
      && (|| r.visible != NO
          || (s.Logical() && (r.revDep != NO || r.implied != NO))
          || (exists k :: 0 <= k < |d.defaults| && LiveDefault(i, d.defaults, k) && (s.Logical() || d.defaults[k].value.Symbol?)))
  {
    assert Determined(g, sol, s);
    WriteDefault(i, d.defaults);
  }

  lemma WriteDefault(i: Interp, ds: seq<Default>)
    ensures FirstDefault(i, ds).Some? <==> exists k :: 0 <= k < |ds| && LiveDefault(i, ds, k)
    ensures DefaultSym(FirstDefault(i, ds)).Some? <==>
      exists k :: 0 <= k < |ds| && LiveDefault(i, ds, k) && ds[k].value.Symbol?
  {
    var k := SomeOrNone(i, ds);
    if LiveDefault(i, ds, k) {
      FirstDefaultLive(i, ds, k);
      assert forall j :: 0 <= j < |ds| && LiveDefault(i, ds, j) ==> j == k;
    } else {
      FirstDefaultNone(i, ds);
    }
  }

  /** A symbol without a type stands for its name. */
  lemma UntypedLaw(g: Graph, sol: Results, s: Sym)
    requires IsSolution(g, sol) && s in g.defs && s.User? && s.ty.Unknown?
    ensures s in sol && sol[s].value == Value(s.name, NO) && !sol[s].write
  {
    assert Determined(g, sol, s);
  }
}
