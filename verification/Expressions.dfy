/** Dependency expressions and their three-valued meaning, given the value of
    each symbol and the outcome of each comparison. */
module Expressions {

  /** n < m < y are 0 < 1 < 2. */
  type Tri = t: int | 0 <= t <= 2

  const NO: Tri := 0
  const MOD: Tri := 1
  const YES: Tri := 2

  function Min(a: Tri, b: Tri): Tri { if a < b then a else b }
  function Max(a: Tri, b: Tri): Tri { if a > b then a else b }
  function Neg(a: Tri): Tri { 2 - a }
  function OfBool(b: bool): Tri { if b then YES else NO }

  datatype SymType = Unknown | Boolean | Tristate | Int | Hex | Str

  /** A symbol, identified by its value as the source identifies it by address.
      The three constants are separate objects of type unknown. */
  datatype Sym =
    | Yes
    | Mod
    | No
    | User(id: nat, name: string, ty: SymType, const_: bool)
  {
    function Type(): SymType { if User? then ty else Unknown }
    predicate IsConst() { User? ==> const_ }
    /** bool or tristate */
    predicate Logical() { Type().Boolean? || Type().Tristate? }
  }

  datatype Op = And | Or
  {
    function Dual(): Op { if And? then Or else And }
    /** The operand that changes nothing, and the one that decides alone. */
    function Unit(): Sym { if And? then Yes else No }
    function Zero(): Sym { if And? then No else Yes }
    function Apply(a: Tri, b: Tri): Tri { if And? then Min(a, b) else Max(a, b) }
  }

  lemma ApplyAssoc(op: Op, a: Tri, b: Tri, x: Tri)
    ensures op.Apply(a, op.Apply(b, x)) == op.Apply(op.Apply(a, b), x)
  {}

  lemma ApplyCommute(op: Op, a: Tri, b: Tri)
    ensures op.Apply(a, b) == op.Apply(b, a)
  {}

  lemma ApplyExchange(op: Op, a: Tri, x: Tri, b: Tri, y: Tri)
    ensures op.Apply(op.Apply(a, x), op.Apply(b, y)) == op.Apply(op.Apply(a, b), op.Apply(x, y))
  {}

  datatype Rel = Equal | Unequal | Lth | Leq | Gth | Geq
  {
    function Negate(): Rel {
      match this
      case Equal => Unequal
      case Unequal => Equal
      case Lth => Geq
      case Geq => Lth
      case Leq => Gth
      case Gth => Leq
    }

    predicate Holds(cmp: int) {
      match this
      case Equal => cmp == 0
      case Unequal => cmp != 0
      case Lth => cmp < 0
      case Leq => cmp <= 0
      case Gth => cmp > 0
      case Geq => cmp >= 0
    }
  }

  /** An expression without the E_LIST and E_RANGE nodes, which never occur in
      the expressions the rewrites and the evaluator are given. */
  datatype Expr =
    | Symbol(sym: Sym)
    | Not(e: Expr)
    | Bin(op: Op, l: Expr, r: Expr)
    | Comp(rel: Rel, left: Sym, right: Sym)
  {
    predicate IsBin(o: Op) { Bin? && op == o }
  }

  datatype Option<+T> = None | Some(value: T)

  /** A possibly NULL expression; NULL stands for y. */
  type Dep = Option<Expr>

  function Size(e: Expr): (n: nat)
    ensures n >= 1
  {
    match e
    case Symbol(_) => 1
    case Comp(_, _, _) => 1
    case Not(x) => 1 + Size(x)
    case Bin(_, l, r) => 1 + Size(l) + Size(r)
  }

  function Syms(e: Expr): set<Sym> {
    match e
    case Symbol(s) => {s}
    case Comp(_, a, b) => {a, b}
    case Not(x) => Syms(x)
    case Bin(_, l, r) => Syms(l) + Syms(r)
  }

  /* ----- meaning ----- */

  /** What an expression is evaluated against: the tristate value of each user
      symbol, and the three-way comparison of the string values of two symbols. */
  datatype Interp = Interp(tri: Sym -> Tri, cmp: (Sym, Sym) -> int)

  function CurrTri(i: Interp, s: Sym): Tri {
    match s
    case Yes => YES
    case Mod => MOD
    case No => NO
    case User(_, _, _, _) => i.tri(s)
  }

  /** `expr_calc_value` */
  function Eval(i: Interp, e: Expr): Tri {
    match e
    case Symbol(s) => CurrTri(i, s)
    case Not(x) => Neg(Eval(i, x))
    case Bin(op, l, r) => op.Apply(Eval(i, l), Eval(i, r))
    case Comp(rel, a, b) => OfBool(rel.Holds(i.cmp(a, b)))
  }

  function EvalDep(i: Interp, d: Dep): Tri {
    if d.None? then YES else Eval(i, d.value)
  }

  function ConstFor(t: Tri): Sym { if t == NO then No else if t == MOD then Mod else Yes }

  /** What the rewrites rely on: bool symbols never hold m, comparing a bool or
      tristate symbol with y, m or n compares the tristate values, and y, m and n
      differ. */
  ghost predicate Lawful(i: Interp) {
    && (forall s: Sym :: s.Type().Boolean? ==> i.tri(s) != MOD)
    && (forall s: Sym, t: Tri :: s.Logical() ==> (i.cmp(s, ConstFor(t)) == 0 <==> i.tri(s) == t))
    && (forall t: Tri, u: Tri :: i.cmp(ConstFor(t), ConstFor(u)) == 0 <==> t == u)
  }

  /** Two interpretations that agree on the symbols of `e` and on its
      comparisons give it the same value. */
  lemma {:induction false} EvalLocal(i: Interp, j: Interp, e: Expr)
    requires forall s :: s in Syms(e) && s.User? ==> i.tri(s) == j.tri(s)
    requires forall s, t :: s in Syms(e) && t in Syms(e) ==> i.cmp(s, t) == j.cmp(s, t)
    ensures Eval(i, e) == Eval(j, e)
  {
    match e
    case Symbol(s) =>
    case Not(x) => EvalLocal(i, j, x);
    case Bin(op, l, r) => EvalLocal(i, j, l); EvalLocal(i, j, r);
    case Comp(rel, a, b) =>
  }
}
