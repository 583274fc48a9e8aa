/** Symbol values, their string form and the comparison of two symbols. */
module Values {
  import opened Strings
  import opened Expressions

  /** The `curr` part of a symbol. */
  datatype Value = Value(str: string, tri: Tri)

  /** The current value of every user symbol, and which symbol enables modules. */
  datatype Valuation = Valuation(curr: Sym -> Value, modules: Sym)

  function TriOf(v: Valuation, s: Sym): Tri {
    match s
    case Yes => YES
    case Mod => MOD
    case No => NO
    case User(_, _, _, _) => v.curr(s).tri
  }

  function StrOf(v: Valuation, s: Sym): string {
    match s
    case Yes => "y"
    case Mod => "m"
    case No => "n"
    case User(_, _, _, _) => v.curr(s).str
  }

  /** `sym_get_string_value` */
  function StringValue(v: Valuation, s: Sym): string {
    if s.Logical() then
      var t := TriOf(v, s);
      if t == NO then "n"
      else if t == YES then "y"
      else if TriOf(v, v.modules) == NO then "n"
      else "m"
    else StrOf(v, s)
  }

  datatype Parsed = AsString | AsSigned(s: int) | AsUnsigned(u: int)
  {
    function Raw(): int { if AsSigned? then s else if AsUnsigned? then u else 0 }
  }

  function TristateOrdinal(str: string): int {
    if str == "n" then 0 else if str == "m" then 1 else if str == "y" then 2 else -1
  }

  /** The whole of `str` was consumed as a number that fits. */
  predicate WholeNumber(str: string, sc: Scan, lo: int, hi: int)
    requires sc.tail <= |str|
  {
    lo <= sc.val <= hi && sc.tail == |str| && sc.tail > 0 && IsXDigit(str[sc.tail - 1])
  }

  /** `expr_parse_string` */
  function ParseString(str: string, ty: SymType): Parsed {
    match ty
    case Boolean => AsSigned(TristateOrdinal(str))
    case Tristate => AsSigned(TristateOrdinal(str))
    case Hex =>
      var sc := ScanNumber(str, 16);
      if WholeNumber(str, sc, -ULL_MAX, ULL_MAX) then AsUnsigned(sc.val % ULL_MODULUS) else AsString
    case Int =>
      var sc := ScanNumber(str, 10);
      if WholeNumber(str, sc, LL_MIN, LL_MAX) then AsSigned(sc.val) else AsString
    case _ =>
      var sc := ScanNumber(str, 0);
      if WholeNumber(str, sc, LL_MIN, LL_MAX) then AsSigned(sc.val) else AsString
  }

  function Sign(a: int, b: int): int {
    if a < b then -1 else if a > b then 1 else 0
  }

  /** The three-way comparison at the heart of `expr_calc_value`. */
  function CompareValues(str1: string, ty1: SymType, str2: string, ty2: SymType): int {
    if ty1.Str? && ty2.Str? then StrCmp(str1, str2)
    else
      var p1 := ParseString(str1, ty1);
      var p2 := ParseString(str2, ty2);
      if p1.AsString? || p2.AsString? then StrCmp(str1, str2)
      else if p1.AsUnsigned? || p2.AsUnsigned? then Sign(p1.Raw() % ULL_MODULUS, p2.Raw() % ULL_MODULUS)
      else Sign(p1.Raw(), p2.Raw())
  }

  function Compare(v: Valuation, a: Sym, b: Sym): int {
    CompareValues(StringValue(v, a), a.Type(), StringValue(v, b), b.Type())
  }

  /** The interpretation of expressions that a valuation gives. */
  function InterpOf(v: Valuation): Interp {
    Interp((s: Sym) => TriOf(v, s), (a: Sym, b: Sym) => Compare(v, a, b))
  }

  /** What the symbol evaluator guarantees of the values it stores: bool symbols
      never hold m, tristate symbols hold m only while modules are enabled, and
      the value of a symbol without a type is its name. */
  ghost predicate Consistent(v: Valuation) {
    forall s: Sym :: s.User? ==>
      && (s.ty.Boolean? ==> v.curr(s).tri != MOD)
      && (s.ty.Tristate? && TriOf(v, v.modules) == NO ==> v.curr(s).tri != MOD)
      && (s.ty.Unknown? ==> v.curr(s) == Value(s.name, NO))
  }

  function Letter(t: Tri): string { if t == NO then "n" else if t == MOD then "m" else "y" }

  /** The constants y, m, n are never numbers. */
  lemma ConstantsAreStrings(t: Tri)
    ensures ParseString(Letter(t), Unknown).AsString?
  {
    var s := Letter(t);
    assert |s| == 1;
    assert SkipSpaces(s, 0) == 0;
    assert Digits(s, 0, 10, 0) == (0, 0);
  }

  /** Comparing a bool or tristate symbol with one of y, m, n compares the
      tristate values, although the code compares strings. */
  lemma CompareWithConstant(v: Valuation, s: Sym, t: Tri)
    requires Consistent(v) && s.Logical()
    ensures Compare(v, s, ConstFor(t)) == 0 <==> TriOf(v, s) == t
  {
    ConstantsAreStrings(t);
    assert StringValue(v, ConstFor(t)) == Letter(t);
    assert StringValue(v, s) == Letter(TriOf(v, s));
    assert "n"[0] != "m"[0] && "n"[0] != "y"[0] && "m"[0] != "y"[0];
  }

  lemma CompareConstants(v: Valuation, t: Tri, u: Tri)
    ensures Compare(v, ConstFor(t), ConstFor(u)) == 0 <==> t == u
  {
    ConstantsAreStrings(t);
    assert StringValue(v, ConstFor(t)) == Letter(t) && StringValue(v, ConstFor(u)) == Letter(u);
    assert "n"[0] != "m"[0] && "n"[0] != "y"[0] && "m"[0] != "y"[0];
  }

  /** Every consistent valuation satisfies what the rewrites rely on. */
  lemma ConsistentIsLawful(v: Valuation)
    requires Consistent(v)
    ensures Lawful(InterpOf(v))
  {
    var i := InterpOf(v);
    forall s: Sym, t: Tri | s.Logical()
      ensures i.cmp(s, ConstFor(t)) == 0 <==> i.tri(s) == t
    {
      CompareWithConstant(v, s, t);
    }
    forall t: Tri, u: Tri
      ensures i.cmp(ConstFor(t), ConstFor(u)) == 0 <==> t == u
    {
      CompareConstants(v, t, u);
    }
  }
}
