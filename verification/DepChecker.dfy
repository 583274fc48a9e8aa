/** The search for recursive dependencies. */
module DepChecker {
  import opened Expressions
  import opened Config

  /** For each symbol the expressions that the search looks into, in order. */
  type Walks = map<Sym, seq<Dep>>

  function WalkOf(w: Walks, s: Sym): seq<Dep> { if s in w then w[s] else [] }

  /** The symbols that an expression of `s` mentions. */
  function Next(w: Walks, s: Sym): set<Sym> {
    set d, t | d in WalkOf(w, s) && t in DepSyms(d) :: t
  }

  ghost predicate Chain(w: Walks, p: seq<Sym>) {
    forall k :: 0 < k < |p| ==> p[k] in Next(w, p[k - 1])
  }

  /** A chain of dependencies leads from `s` back to `s`. */
  ghost predicate Cycle(w: Walks, p: seq<Sym>, s: Sym) {
    |p| > 1 && p[0] == s && p[|p| - 1] == s && Chain(w, p)
  }

  ghost predicate OnCycle(w: Walks, s: Sym) { exists p: seq<Sym> :: Cycle(w, p, s) }

  /** Each symbol comes after everything it mentions. */
  ghost predicate Ordered(w: Walks, order: seq<Sym>) {
    forall k :: 0 <= k < |order| ==> Next(w, order[k]) <= Elements(order[..k])
  }

  function Elements(q: seq<Sym>): set<Sym> { set s | s in q }

  lemma OrderedAppend(w: Walks, order: seq<Sym>, s: Sym)
    requires Ordered(w, order) && Next(w, s) <= Elements(order)
    ensures Ordered(w, order + [s]) && Elements(order + [s]) == Elements(order) + {s}
  {
    forall k | 0 <= k < |order + [s]|
      ensures Next(w, (order + [s])[k]) <= Elements((order + [s])[..k])
    {
      assert (order + [s])[..k] == order[..k];
      if k == |order| { assert order[..k] == order; }
    }
  }

  /** What has been put in order lies on no cycle. */
  lemma {:induction false} ChainDescends(w: Walks, order: seq<Sym>, p: seq<Sym>, n: nat) returns (j: nat)
    requires Ordered(w, order) && Chain(w, p) && |p| > 0 && n < |order| && p[0] == order[n]
    ensures j <= n && p[|p| - 1] == order[j] && (|p| > 1 ==> j < n)
    decreases |p|
  {
    if |p| == 1 { return n; }
    assert p[1] in Next(w, p[1 - 1]);
    assert p[1] in Elements(order[..n]);
    var m :| 0 <= m < n && order[..n][m] == p[1];
    forall k | 0 < k < |p[1..]| ensures p[1..][k] in Next(w, p[1..][k - 1]) {
      assert p[k + 1] in Next(w, p[k + 1 - 1]);
    }
    j := ChainDescends(w, order, p[1..], m);
  }

  lemma FirstAt(order: seq<Sym>, s: Sym) returns (n: nat)
    requires s in order
    ensures n < |order| && order[n] == s && forall k :: 0 <= k < n ==> order[k] != s
  {
    n := 0;
    while order[n] != s
      invariant n < |order| && s in order[n..] && forall k :: 0 <= k < n ==> order[k] != s
      decreases |order| - n
    {
      n := n + 1;
    }
  }

  lemma OrderedHasNoCycle(w: Walks, order: seq<Sym>, s: Sym)
    requires Ordered(w, order) && s in order
    ensures !OnCycle(w, s)
  {
    if OnCycle(w, s) {
      var p :| Cycle(w, p, s);
      var n := FirstAt(order, s);
      var j := ChainDescends(w, order, p, n);
      assert false;
    }
  }

  lemma NoNextNoCycle(w: Walks, s: Sym)
    requires Next(w, s) == {}
    ensures !OnCycle(w, s)
  {
    forall p: seq<Sym> ensures !Cycle(w, p, s) {
      if |p| > 1 && p[0] == s { assert p[1] !in Next(w, p[1 - 1]); }
    }
  }

  lemma PushChain(w: Walks, q: seq<Sym>, s: Sym)
    requires Chain(w, q) && (q != [] ==> s in Next(w, q[|q| - 1]))
    ensures Chain(w, q + [s]) && Elements(q + [s]) == Elements(q) + {s}
  {
    forall k | 0 < k < |q + [s]| ensures (q + [s])[k] in Next(w, (q + [s])[k - 1]) {
      if k < |q| { assert q[k] in Next(w, q[k - 1]); }
    }
  }

  lemma PopChain(w: Walks, q: seq<Sym>)
    requires Chain(w, q) && q != []
    ensures Chain(w, q[..|q| - 1])
    ensures Elements(q) == Elements(q[..|q| - 1]) + {q[|q| - 1]}
  {
    var init := q[..|q| - 1];
    assert q == init + [q[|q| - 1]];
    forall k | 0 < k < |init| ensures init[k] in Next(w, init[k - 1]) {
      assert q[k] in Next(w, q[k - 1]);
    }
  }

  class Checker {
    const w: Walks
    /** All symbols that can be met. */
    ghost const all: set<Sym>
    const recursiveIsError: bool
    /** The symbols with SYMBOL_CHECK and with SYMBOL_CHECKED set. */
    var check: set<Sym>
    var checked: set<Sym>
    /** `check_top` and what it links to, from the bottom. */
    var stack: seq<Sym>
    /** The symbols left behind without a finding, in the order of leaving. */
    ghost var order: seq<Sym>

    ghost predicate Valid()
      reads this
    {
      && check <= checked <= all
      && (forall s :: s in all ==> Next(w, s) <= all)
      && Elements(stack) == check
      && Chain(w, stack)
    }

    /** Nothing has been found so far. */
    ghost predicate Clean()
      reads this
    {
      Ordered(w, order) && Elements(order) == checked - check
    }

    /** What every step restores and what it can find. */
    twostate predicate Restored(new r: Option<Sym>)
      reads this
    {
      && check == old(check) && stack == old(stack) && old(checked) <= checked
      && (r.Some? ==> r.value in all && OnCycle(w, r.value))
      && (r.Some? && !recursiveIsError ==> r.value in check)
      && (r.None? && recursiveIsError && old(Clean()) ==> Clean())
    }

    ghost predicate Mentions(ss: set<Sym>)
      reads this
    {
      stack != [] && ss <= Next(w, stack[|stack| - 1]) && ss <= all
    }

    constructor (walks: Walks, recursiveIsError: bool, ghost all: set<Sym>)
      requires forall s :: s in all ==> Next(walks, s) <= all
      ensures Valid() && Clean() && check == checked == {} && stack == []
      ensures w == walks && this.recursiveIsError == recursiveIsError && this.all == all
    {
      w := walks;
      this.recursiveIsError := recursiveIsError;
      this.all := all;
      check, checked, stack, order := {}, {}, [], [];
    }

    lemma StackCycle(s: Sym)
      requires Valid() && s in check && stack != [] && s in Next(w, stack[|stack| - 1])
      ensures OnCycle(w, s)
    {
      assert s in stack;
      var k :| 0 <= k < |stack| && stack[k] == s;
      var p := stack[k..] + [s];
      forall j | 0 < j < |p| ensures p[j] in Next(w, p[j - 1]) {
        if j < |p| - 1 { assert stack[k + j] in Next(w, stack[k + j - 1]); }
      }
      assert Cycle(w, p, s);
    }

    /** `sym_check_deps` without choices */
    method CheckDeps(s: Sym) returns (r: Option<Sym>)
      requires Valid() && s in all
      requires stack != [] ==> s in Next(w, stack[|stack| - 1])
      modifies this`check, this`checked, this`stack, this`order
      ensures Valid() && Restored(r)
      ensures r.None? && recursiveIsError && old(Clean()) ==> s in Elements(order)
      decreases all - checked, 1, 0
    {
      if s in check {
        StackCycle(s);
        return Some(s);
      }
      if s in checked { return None; }
      r := CheckSymDeps(s);
      if !recursiveIsError && r == Some(s) { r := None; }
    }

    /** `sym_check_sym_deps` with the flags its caller sets and clears. */
    method CheckSymDeps(s: Sym) returns (r: Option<Sym>)
      requires Valid() && s in all && s !in checked
      requires stack != [] ==> s in Next(w, stack[|stack| - 1])
      modifies this`check, this`checked, this`stack, this`order
      ensures Valid() && check == old(check) && stack == old(stack) && old(checked) + {s} <= checked
      ensures r.Some? ==> r.value in all && OnCycle(w, r.value)
      ensures r.Some? && !recursiveIsError ==> r.value in check + {s}
      ensures r.None? && recursiveIsError && old(Clean()) ==> Clean() && s in Elements(order)
      decreases all - checked, 0, 0
    {
      ghost var clean := Clean();
      Push(s);
      r := WalkExprs(s);
      Pop(s);
      if r.None? && recursiveIsError && clean {
        OrderedAppend(w, order, s);
        order := order + [s];
      }
    }

    /** Both flags are set and the symbol goes on the stack. */
    method Push(s: Sym)
      requires Valid() && s in all && s !in checked
      requires stack != [] ==> s in Next(w, stack[|stack| - 1])
      modifies this`check, this`checked, this`stack
      ensures Valid() && check == old(check) + {s} && checked == old(checked) + {s} && stack == old(stack) + [s]
      ensures checked - check == old(checked - check)
    {
      PushChain(w, stack, s);
      check := check + {s};
      checked := checked + {s};
      stack := stack + [s];
    }

    /** SYMBOL_CHECK is cleared and the symbol leaves the stack. */
    method Pop(s: Sym)
      requires Valid() && stack != [] && stack[|stack| - 1] == s && s !in stack[..|stack| - 1]
      modifies this`check, this`stack
      ensures Valid() && check == old(check) - {s} && stack == old(stack)[..|old(stack)| - 1]
      ensures checked - check == old(checked - check) + {s}
    {
      PopChain(w, stack);
      stack := stack[..|stack| - 1];
      check := check - {s};
    }

    method WalkExprs(s: Sym) returns (r: Option<Sym>)
      requires Valid() && stack != [] && stack[|stack| - 1] == s && s in all
      modifies this`check, this`checked, this`stack, this`order
      ensures Valid() && Restored(r)
      ensures r.None? && recursiveIsError && old(Clean()) ==> Next(w, s) <= Elements(order)
      decreases all - checked, 3, 0
    {
      r := None;
      var ds := WalkOf(w, s);
      var k := 0;
      while k < |ds|
        invariant 0 <= k <= |ds|
        invariant Valid() && Restored(None) && r.None?
        invariant recursiveIsError && old(Clean()) ==>
                    forall j :: 0 <= j < k ==> DepSyms(ds[j]) <= Elements(order)
      {
        assert ds[k] in ds;
        if ds[k].Some? {
          assert DepSyms(ds[k]) <= Next(w, s);
          r := CheckExprDeps(ds[k].value);
          if r.Some? { return; }
        }
        k := k + 1;
      }
    }

    /** `sym_check_expr_deps` */
    method CheckExprDeps(e: Expr) returns (r: Option<Sym>)
      requires Valid() && Mentions(Syms(e))
      modifies this`check, this`checked, this`stack, this`order
      ensures Valid() && Restored(r)
      ensures r.None? && recursiveIsError && old(Clean()) ==> Syms(e) <= Elements(order)
      decreases all - checked, 2, Size(e)
    {
      match e
      case Symbol(s) =>
        r := CheckDeps(s);
      case Not(x) =>
        r := CheckExprDeps(x);
      case Bin(_, a, b) =>
        r := CheckExprDeps(a);
        if r.Some? { return; }
        r := CheckExprDeps(b);
      case Comp(_, a, b) =>
        assert a in Syms(e) && b in Syms(e);
        r := CheckDeps(a);
        if r.Some? { return; }
        r := CheckDeps(b);
    }

    /** The sweep of `conf_parse` over all symbols: with `recursive_is_error` set,
        errors are counted exactly when some symbol lies on a cycle; without it,
        none are. */
    method CheckAll(symbols: seq<Sym>) returns (errors: nat)
      requires Valid() && Clean() && check == {} && stack == []
      requires Elements(symbols) <= all && forall s :: s in all && s !in Elements(symbols) ==> Next(w, s) == {}
      modifies this`check, this`checked, this`stack, this`order
      ensures Valid() && check == {} && stack == []
      ensures recursiveIsError ==> (errors == 0 <==> forall s :: s in all ==> !OnCycle(w, s))
      ensures recursiveIsError && errors == 0 ==> Ordered(w, order) && Elements(symbols) <= Elements(order)
      ensures !recursiveIsError ==> errors == 0
    {
      errors := 0;
      var k := 0;
      while k < |symbols|
        invariant 0 <= k <= |symbols|
        invariant Valid() && check == {} && stack == []
        invariant errors > 0 ==> exists s :: s in all && OnCycle(w, s)
        invariant errors > 0 ==> recursiveIsError
        invariant errors == 0 && recursiveIsError ==> Clean() && forall j :: 0 <= j < k ==> symbols[j] in Elements(order)
      {
        assert symbols[k] in Elements(symbols);
        var r := CheckDeps(symbols[k]);
        if r.Some? {
          errors := errors + 1;
        }
        k := k + 1;
      }
      if errors == 0 && recursiveIsError {
        forall s | s in all ensures !OnCycle(w, s) {
          if s in Elements(symbols) {
            var j :| 0 <= j < |symbols| && symbols[j] == s;
            OrderedHasNoCycle(w, order, s);
          } else {
            NoNextNoCycle(w, s);
          }
        }
      }
    }
  }
}
