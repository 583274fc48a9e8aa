/** Printing an expression with as few parentheses as the operator precedences
    allow, and reading it back. */
module PrintParse {
  import opened Expressions

  datatype Token = TSym(sym: Sym) | TRel(rel: Rel) | TOp(op: Op) | TNot | TOpen | TClose

  /* ----- expr_print ----- */

  /** `enum expr_type` */
  datatype Kind = KNone | KOr | KAnd | KNot | KRel(rel: Rel) | KSymbol | KList | KRange

  function KindOf(e: Expr): Kind {
    match e
    case Symbol(_) => KSymbol
    case Not(_) => KNot
    case Bin(op, _, _) => OpKind(op)
    case Comp(rel, _, _) => KRel(rel)
  }

  function OpKind(op: Op): Kind { if op.And? then KAnd else KOr }

  predicate IsOrdering(k: Kind) { k.KRel? && !k.rel.Equal? && !k.rel.Unequal? }
  predicate IsEquality(k: Kind) { k.KRel? && (k.rel.Equal? || k.rel.Unequal?) }

  /** `expr_compare_type`: each case falls through to the ones below it. */
  function CompareType(t1: Kind, t2: Kind): int {
    if t1 == t2 then 0
    else if IsOrdering(t1) && IsEquality(t2) then 1
    else if t1.KRel? && t2.KNot? then 1
    else if (t1.KRel? || t1.KNot?) && t2.KAnd? then 1
    else if (t1.KRel? || t1.KNot? || t1.KAnd?) && t2.KOr? then 1
    else if (t1.KRel? || t1.KNot? || t1.KAnd? || t1.KOr?) && t2.KList? then 1
    else if (t1.KRel? || t1.KNot? || t1.KAnd? || t1.KOr? || t1.KList?) && t2.KNone? then 1
    else -1
  }

  function Print(e: Expr, prev: Kind): seq<Token>
    decreases e, 1
  {
    if CompareType(prev, KindOf(e)) > 0 then [TOpen] + Body(e) + [TClose] else Body(e)
  }

  function Body(e: Expr): seq<Token>
    decreases e, 0
  {
    match e
    case Symbol(s) => [TSym(s)]
    case Not(x) => [TNot] + Print(x, KNot)
    case Bin(op, l, r) => Print(l, OpKind(op)) + [TOp(op)] + Print(r, OpKind(op))
    case Comp(rel, a, b) => [TSym(a), TRel(rel), TSym(b)]
  }

  /* ----- the expression grammar ----- */

  type Parse = Option<(Expr, seq<Token>)>

  /** Or binds least, then And, then Not; And and Or associate to the left, and
      only symbols are compared. */
  function Level(op: Op, ts: seq<Token>): (r: Parse)
    ensures r.Some? ==> |r.value.1| < |ts|
    decreases |ts|, if op.And? then 1 else 3
  {
    match Sub(op, ts)
    case None => None
    case Some((e, rest)) => Tail(op, e, rest)
  }

  function Sub(op: Op, ts: seq<Token>): (r: Parse)
    ensures r.Some? ==> |r.value.1| < |ts|
    decreases |ts|, if op.And? then 0 else 2, 1
  {
    if op.And? then Unary(ts) else Level(And, ts)
  }

  function Tail(op: Op, acc: Expr, ts: seq<Token>): (r: Parse)
    ensures r.Some? ==> |r.value.1| <= |ts|
    decreases |ts|, 4
  {
    if ts == [] || ts[0] != TOp(op) then Some((acc, ts))
    else match Sub(op, ts[1..])
      case None => None
      case Some((e, rest)) => Tail(op, Bin(op, acc, e), rest)
  }

  function Unary(ts: seq<Token>): (r: Parse)
    ensures r.Some? ==> |r.value.1| < |ts|
    decreases |ts|, 0, 0
  {
    if ts == [] then None
    else match ts[0]
      case TSym(a) =>
        if |ts| >= 2 && ts[1].TRel? then
          if |ts| >= 3 && ts[2].TSym? then Some((Comp(ts[1].rel, a, ts[2].sym), ts[3..])) else None
        else Some((Symbol(a), ts[1..]))
      case TNot =>
        (match Unary(ts[1..])
         case None => None
         case Some((e, rest)) => Some((Not(e), rest)))
      case TOpen =>
        (match Level(Or, ts[1..])
         case None => None
         case Some((e, rest)) => if rest != [] && rest[0].TClose? then Some((e, rest[1..])) else None)
      case _ => None
  }

  function ParseAll(ts: seq<Token>): Option<Expr> {
    match Level(Or, ts)
    case None => None
    case Some((e, rest)) => if rest == [] then Some(e) else None
  }

  /* ----- what comes back ----- */

  /** `acc op e`, with the chain of `op` in `e` appended operand by operand. */
  function Graft(op: Op, acc: Expr, e: Expr): Expr
    decreases e, 1
  {
    if e.IsBin(op) then Graft(op, Graft(op, acc, e.l), e.r) else Bin(op, acc, LeftAssoc(e))
  }

  /** `e` with every chain nested to the left. */
  function LeftAssoc(e: Expr): Expr
    decreases e, 0
  {
    match e
    case Not(x) => Not(LeftAssoc(x))
    case Bin(op, l, r) => Graft(op, LeftAssoc(l), r)
    case _ => e
  }

  /** No chain nests to the right. */
  predicate LeftNested(e: Expr) {
    match e
    case Not(x) => LeftNested(x)
    case Bin(op, l, r) => LeftNested(l) && LeftNested(r) && !r.IsBin(op)
    case _ => true
  }

  lemma {:induction false} GraftLeftNested(op: Op, acc: Expr, e: Expr)
    requires LeftNested(acc)
    ensures LeftNested(Graft(op, acc, e)) && Graft(op, acc, e).IsBin(op)
    decreases e, 1
  {
    if e.IsBin(op) {
      GraftLeftNested(op, acc, e.l);
      GraftLeftNested(op, Graft(op, acc, e.l), e.r);
    } else {
      LeftAssocNested(e);
    }
  }

  lemma {:induction false} LeftAssocNested(e: Expr)
    ensures LeftNested(LeftAssoc(e))
    ensures forall op: Op :: LeftAssoc(e).IsBin(op) == e.IsBin(op)
    ensures LeftNested(e) ==> LeftAssoc(e) == e
    decreases e, 0
  {
    match e
    case Not(x) => LeftAssocNested(x);
    case Bin(op, l, r) =>
      LeftAssocNested(l);
      LeftAssocNested(r);
      GraftLeftNested(op, LeftAssoc(l), r);
    case _ =>
  }

  lemma {:induction false} GraftValue(i: Interp, op: Op, acc: Expr, e: Expr)
    ensures Eval(i, Graft(op, acc, e)) == op.Apply(Eval(i, acc), Eval(i, e))
    decreases e, 1
  {
    if e.IsBin(op) {
      GraftValue(i, op, acc, e.l);
      GraftValue(i, op, Graft(op, acc, e.l), e.r);
      ApplyAssoc(op, Eval(i, acc), Eval(i, e.l), Eval(i, e.r));
    } else {
      LeftAssocValue(i, e);
    }
  }

  lemma {:induction false} LeftAssocValue(i: Interp, e: Expr)
    ensures Eval(i, LeftAssoc(e)) == Eval(i, e)
    decreases e, 0
  {
    match e
    case Not(x) => LeftAssocValue(i, x);
    case Bin(op, l, r) => LeftAssocValue(i, l); GraftValue(i, op, LeftAssoc(l), r);
    case _ =>
  }

  /* ----- the round trip ----- */

  /** `rest` cannot continue an operand of `op`. */
  predicate Follows(op: Op, rest: seq<Token>) {
    rest != [] ==> !rest[0].TRel? && (op.Or? ==> rest[0] != TOp(And))
  }

  lemma {:induction false} UnaryReads(e: Expr, rest: seq<Token>)
    requires Follows(And, rest)
    ensures Unary(Print(e, KNot) + rest) == Some((LeftAssoc(e), rest))
    decreases e, if e.Bin? then 4 else 0
  {
    var ts := Print(e, KNot) + rest;
    match e
    case Symbol(s) =>
      assert ts[1..] == rest;
    case Comp(rel, a, b) =>
      assert ts[3..] == rest;
    case Not(x) =>
      assert Print(e, KNot) == [TNot] + Print(x, KNot);
      assert ts[1..] == Print(x, KNot) + rest;
      UnaryReads(x, rest);
    case Bin(op, l, r) =>
      var close := [TClose] + rest;
      assert ts[1..] == Body(e) + close;
      BodyReads(e, close);
      assert close[1..] == rest;
  }

  lemma {:induction false} SubReads(op: Op, e: Expr, rest: seq<Token>)
    requires !e.IsBin(op) && Follows(op, rest)
    ensures Sub(op, Print(e, OpKind(op)) + rest) == Some((LeftAssoc(e), rest))
    decreases e, if op.And? then (if e.Bin? then 5 else 1) else if e.Bin? then 1 else 3
  {
    if op.And? {
      assert Print(e, KAnd) == Print(e, KNot);
      UnaryReads(e, rest);
    } else {
      assert Print(e, KOr) == Print(e, KAnd);
      LevelReads(And, e, rest);
    }
  }

  lemma {:induction false} TailReads(op: Op, acc: Expr, e: Expr, rest: seq<Token>)
    requires Follows(op, rest)
    ensures Tail(op, acc, [TOp(op)] + Print(e, OpKind(op)) + rest) == Tail(op, Graft(op, acc, e), rest)
    decreases e, 7
  {
    var ts := [TOp(op)] + Print(e, OpKind(op)) + rest;
    if e.IsBin(op) {
      var rest1 := [TOp(op)] + Print(e.r, OpKind(op)) + rest;
      assert ts == [TOp(op)] + Print(e.l, OpKind(op)) + rest1;
      TailReads(op, acc, e.l, rest1);
      TailReads(op, Graft(op, acc, e.l), e.r, rest);
    } else {
      assert ts[1..] == Print(e, OpKind(op)) + rest;
      SubReads(op, e, rest);
    }
  }

  lemma {:induction false} LevelReads(op: Op, e: Expr, rest: seq<Token>)
    requires Follows(op, rest)
    ensures Level(op, Print(e, OpKind(op)) + rest) == Tail(op, LeftAssoc(e), rest)
    decreases e, if e.IsBin(op) then 0 else if e.Bin? then (if op.And? then 6 else 2) else if op.And? then 2 else 4
  {
    if e.IsBin(op) {
      var rest1 := [TOp(op)] + Print(e.r, OpKind(op)) + rest;
      assert Print(e, OpKind(op)) + rest == Print(e.l, OpKind(op)) + rest1;
      LevelReads(op, e.l, rest1);
      TailReads(op, LeftAssoc(e.l), e.r, rest);
    } else {
      SubReads(op, e, rest);
    }
  }

  lemma BodyReads(e: Expr, rest: seq<Token>)
    requires rest == [] || rest[0].TClose?
    ensures Level(Or, Body(e) + rest) == Some((LeftAssoc(e), rest))
    decreases e, if e.Bin? then 3 else 5
  {
    assert Print(e, KOr) == Body(e);
    LevelReads(Or, e, rest);
  }

  /** Reading what was printed gives the expression back, with its chains nested to
      the left: the chosen parentheses are sufficient. */
  lemma RoundTrip(e: Expr)
    ensures ParseAll(Print(e, KNone)) == Some(LeftAssoc(e))
    ensures LeftNested(e) ==> ParseAll(Print(e, KNone)) == Some(e)
    ensures forall i: Interp :: Eval(i, LeftAssoc(e)) == Eval(i, e)
  {
    assert Print(e, KNone) == Body(e) + [];
    BodyReads(e, []);
    LeftAssocNested(e);
    forall i: Interp ensures Eval(i, LeftAssoc(e)) == Eval(i, e) { LeftAssocValue(i, e); }
  }
}
