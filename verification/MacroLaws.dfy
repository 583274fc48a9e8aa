/** What references in macro text mean, stated on the text itself. */
module MacroLaws {
  import opened Expressions
  import opened Numerals
  import opened Preprocess
  import opened Strings

  // ----- parts of a reference -----

  /** Every parenthesis is closed, counting `nest` open ones before. */
  predicate Balanced(s: string, nest: nat) {
    if s == "" then nest == 0
    else if s[0] == '(' then Balanced(s[1..], nest + 1)
    else if s[0] == ')' then nest > 0 && Balanced(s[1..], nest - 1)
    else Balanced(s[1..], nest)
  }

  lemma {:induction false} BalancedAppend(a: string, b: string, nest: nat)
    requires Balanced(a, nest) && Balanced(b, 0)
    ensures Balanced(a + b, nest)
  {
    if a == "" {
      assert a + b == b;
    } else {
      assert (a + b)[1..] == a[1..] + b;
      BalancedAppend(a[1..], b, if a[0] == '(' then nest + 1 else if a[0] == ')' then nest - 1 else nest);
    }
  }

  /** The parenthesis that closes a reference is the one after balanced text. */
  lemma {:induction false} ClosesAfter(c: string, rest: string, nest: nat)
    requires Balanced(c, nest)
    ensures Closing(c + ")" + rest, nest) == Some(|c|)
  {
    var s := c + ")" + rest;
    if c != "" {
      assert s[1..] == c[1..] + ")" + rest;
      ClosesAfter(c[1..], rest, NestAfter(c[0], nest));
    }
  }

  /** Balanced text has no closing parenthesis of its own. */
  lemma {:induction false} NeverCloses(c: string, nest: nat)
    requires Balanced(c, nest)
    ensures Closing(c, nest).None?
  {
    if c != "" {
      NeverCloses(c[1..], NestAfter(c[0], nest));
    }
  }

  /** One argument: balanced, and without a comma outside parentheses. */
  predicate Part(s: string) { Balanced(s, 0) && Whole(s, 0) }

  lemma {:induction false} SplitPart(s: string, nest: nat, rest: string)
    requires Balanced(s, nest) && Whole(s, nest)
    ensures Split(s + "," + rest, nest) == [s] + Split(rest, 0)
  {
    var t := s + "," + rest;
    if s == "" {
      assert t[1..] == rest;
    } else {
      assert t[1..] == s[1..] + "," + rest;
      SplitPart(s[1..], NestAfter(s[0], nest), rest);
      Regrow(s, Split(rest, 0));
    }
  }

  lemma Regrow(s: string, parts: seq<string>)
    requires s != ""
    ensures Grow([s[0]], [s[1..]] + parts) == [s] + parts
  {
    assert [s[0]] + s[1..] == s;
    assert ([s[1..]] + parts)[1..] == parts;
  }

  lemma {:induction false} SplitLast(s: string, nest: nat)
    requires Whole(s, nest) && Balanced(s, nest)
    ensures Split(s, nest) == [s]
  {
    if s != "" {
      SplitLast(s[1..], NestAfter(s[0], nest));
      Regrow(s, []);
      assert [s[1..]] + [] == [s[1..]] && [s] + [] == [s];
    }
  }

  /** Cutting a joined text at its commas gives the parts back. */
  lemma {:induction false} SplitOfJoin(parts: seq<string>)
    requires parts != [] && forall k :: 0 <= k < |parts| ==> Part(parts[k])
    ensures Split(Join(parts), 0) == parts && Balanced(Join(parts), 0)
  {
    if |parts| == 1 {
      SplitLast(parts[0], 0);
    } else {
      SplitOfJoin(parts[1..]);
      SplitPart(parts[0], 0, Join(parts[1..]));
      assert Balanced(",", 0);
      BalancedAppend(parts[0], ",", 0);
      BalancedAppend(parts[0] + ",", Join(parts[1..]), 0);
      assert parts == [parts[0]] + parts[1..];
    }
  }

  // ----- text and references -----

  /** Text without a reference stands for itself. */
  lemma {:induction false} PlainText(w: World, d: Depth, s: string, argv: seq<string>)
    requires Fits(w, d) && forall k :: 0 <= k < |s| - 1 ==> !(s[k] == '$' && s[k + 1] == '(')
    ensures Expand(w, d, s, argv) == Ok(s)
  {
    if s != "" {
      forall k | 0 <= k < |s[1..]| - 1 ensures !(s[1..][k] == '$' && s[1..][k + 1] == '(') {
        assert !(s[k + 1] == '$' && s[k + 2] == '(');
      }
      PlainText(w, d, s[1..], argv);
      assert |s| > 1 ==> !(s[0] == '$' && s[0 + 1] == '(');
      assert [s[0]] + s[1..] == s;
    }
  }

  function Reference(clause: string): string { "$(" + clause + ")" }

  lemma ReferenceCuts(clause: string, rest: string)
    requires Balanced(clause, 0)
    ensures Cuts(Reference(clause) + rest, clause, rest)
  {
    var s := Reference(clause) + rest;
    assert s[2..] == clause + ")" + rest;
    ClosesAfter(clause, rest, 0);
    assert s[2..2 + |clause|] == clause && s[3 + |clause|..] == rest;
  }

  /** A reference is replaced by the value of its clause, and the text after it goes on. */
  lemma ReferenceMeans(w: World, d: Depth, clause: string, rest: string, argv: seq<string>)
    requires Fits(w, d) && Balanced(clause, 0)
    ensures var first := Evaluate(w, d, clause, argv);
      Expand(w, d, Reference(clause) + rest, argv) ==
      if first.Err? then first else Prepend(first.text, Expand(w, d, rest, argv))
  {
    ReferenceCuts(clause, rest);
    ExpandReference(w, d, Reference(clause) + rest, argv, clause, rest);
  }

  lemma OneReference(w: World, d: Depth, clause: string, argv: seq<string>)
    requires Fits(w, d) && Balanced(clause, 0)
    ensures Expand(w, d, Reference(clause), argv) == Evaluate(w, d, clause, argv)
  {
    ReferenceMeans(w, d, clause, "", argv);
    assert Reference(clause) + "" == Reference(clause);
    var first := Evaluate(w, d, clause, argv);
    if first.Ok? { assert first.text + "" == first.text; }
  }

  /** A reference that is never closed is an error. */
  lemma NeverClosed(w: World, d: Depth, clause: string, argv: seq<string>)
    requires Fits(w, d) && Balanced(clause, 0)
    ensures Expand(w, d, "$(" + clause, argv) == Err(Unterminated)
  {
    assert ("$(" + clause)[2..] == clause;
    NeverCloses(clause, 0);
  }

  // ----- arguments -----

  lemma {:induction false} PlainBalanced(s: string)
    requires forall k :: 0 <= k < |s| ==> s[k] !in "(),"
    ensures Part(s)
  {
    if s != "" {
      PlainBalanced(s[1..]);
      assert s[0] !in "(),";
    }
  }

  lemma NumeralPart(k: nat)
    ensures Part(Numeral(k, 10))
  {
    var s := Numeral(k, 10);
    NumeralDigits(k, 10);
    forall j | 0 <= j < |s| ensures s[j] !in "()," { assert DigitValue(s[j]) < 10; }
    PlainBalanced(s);
  }

  /** The number k names the k-th argument; a number beyond the largest unsigned one counts as that. */
  function Numbered(k: nat): nat { if k <= ULL_MAX then k else ULL_MAX }

  lemma ArgumentNumber(k: nat, argv: seq<string>)
    ensures Argument(Decimal(k), argv) == if 1 <= Numbered(k) <= |argv| then Some(argv[Numbered(k) - 1]) else None
  {
    ScanDecimal(k, 10);
    if k <= ULL_MAX { assert k % ULL_MODULUS == k; }
  }

  lemma NumberedArgument(w: World, d: Depth, k: nat, argv: seq<string>)
    requires Fits(w, d) && 1 <= k <= |argv|
    ensures Evaluate(w, d, Decimal(k), argv) == Ok(argv[Numbered(k) - 1])
    ensures Expand(w, d, Reference(Decimal(k)), argv) == Ok(argv[Numbered(k) - 1])
  {
    ArgumentNumber(k, argv);
    NumeralPart(k);
    OneReference(w, d, Decimal(k), argv);
  }

  // ----- calls -----

  /** A name that is neither a number nor cut up as text. */
  predicate Name(f: string) {
    f != "" && DigitValue(f[0]) >= 10 && !IsSpace(f[0]) && f[0] !in "+-" && forall k :: 0 <= k < |f| ==> f[k] !in "$(),"
  }

  lemma NotANumber(s: string, argv: seq<string>)
    requires s != "" && DigitValue(s[0]) >= 10 && !IsSpace(s[0]) && s[0] !in "+-"
    ensures Argument(s, argv).None?
  {
    assert SkipSpaces(s, 0) == 0;
    assert ScanNumber(s, 10).tail == 0;
  }

  /** `ys` are the expansions of `xs`. */
  predicate Expands(w: World, d: Depth, xs: seq<string>, argv: seq<string>, ys: seq<string>)
    requires Fits(w, d)
  {
    |xs| == |ys| && forall k :: 0 <= k < |xs| ==> Expand(w, d, xs[k], argv) == Ok(ys[k])
  }

  lemma {:induction false} AllExpand(w: World, d: Depth, xs: seq<string>, argv: seq<string>, ys: seq<string>,
                                     bound: nat)
    requires Fits(w, d) && Expands(w, d, xs, argv, ys)
    requires forall k :: 0 <= k < |xs| ==> |xs[k]| <= bound
    ensures ExpandAll(w, d, xs, argv, bound) == Words(ys)
    decreases |xs|
  {
    if xs != [] {
      assert Expand(w, d, xs[0], argv) == Ok(ys[0]);
      AllExpand(w, d, xs[1..], argv, ys[1..], bound);
      assert ys == [ys[0]] + ys[1..];
    }
  }

  function Call(f: string, xs: seq<string>): string { Join([f] + xs) }

  lemma CallSplits(f: string, xs: seq<string>)
    requires Name(f) && forall k :: 0 <= k < |xs| ==> Part(xs[k])
    ensures Split(Call(f, xs), 0) == [f] + xs && Balanced(Call(f, xs), 0)
    ensures Call(f, xs) != "" && Call(f, xs)[0] == f[0]
  {
    PlainBalanced(f);
    assert ([f] + xs)[0] == f;
    assert forall k :: 0 < k < |[f] + xs| ==> ([f] + xs)[k] == xs[k - 1];
    SplitOfJoin([f] + xs);
  }

  lemma NameExpands(w: World, d: Depth, f: string, argv: seq<string>)
    requires Fits(w, d) && Name(f)
    ensures Expand(w, d, f, argv) == Ok(f)
  {
    PlainText(w, d, f, argv);
  }

  /** A call expands its parts in order and applies the first to the others. */
  lemma CallEvaluates(w: World, d: Depth, f: string, xs: seq<string>, argv: seq<string>, parts: seq<string>, c: string)
    requires Fits(w, d) && Name(f) && |xs| < FUNCTION_MAX_ARGS && forall k :: 0 <= k < |xs| ==> Part(xs[k])
    requires parts == [f] + xs && c == Call(f, xs)
    ensures forall k :: 0 <= k < |parts| ==> |parts[k]| <= |c|
    ensures var all := ExpandAll(w, d, parts, argv, |c|);
      Expand(w, d, Reference(c), argv) ==
      if all.Failed? then Err(all.error) else Apply(w, d, all.words[0], all.words[1..])
  {
    CallSplits(f, xs);
    OneReference(w, d, c, argv);
    NotANumber(c, argv);
  }

  /** A call applies the name to the expanded arguments. */
  lemma CallApplies(w: World, d: Depth, f: string, xs: seq<string>, argv: seq<string>, ys: seq<string>)
    requires Fits(w, d) && Name(f) && |xs| < FUNCTION_MAX_ARGS
    requires (forall k :: 0 <= k < |xs| ==> Part(xs[k])) && Expands(w, d, xs, argv, ys)
    ensures Expand(w, d, Reference(Call(f, xs)), argv) == Apply(w, d, f, ys)
  {
    var c := Call(f, xs);
    CallEvaluates(w, d, f, xs, argv, [f] + xs, c);
    NameExpands(w, d, f, argv);
    CallWords(w, d, f, xs, argv, ys);
    AllExpand(w, d, [f] + xs, argv, [f] + ys, |c|);
    assert ([f] + ys)[1..] == ys;
  }

  lemma CallWords(w: World, d: Depth, f: string, xs: seq<string>, argv: seq<string>, ys: seq<string>)
    requires Fits(w, d) && Expand(w, d, f, argv) == Ok(f) && Expands(w, d, xs, argv, ys)
    ensures Expands(w, d, [f] + xs, argv, [f] + ys)
  {
    forall k | 0 <= k < |[f] + xs| ensures Expand(w, d, ([f] + xs)[k], argv) == Ok(([f] + ys)[k]) {
      if k > 0 { assert ([f] + xs)[k] == xs[k - 1] && ([f] + ys)[k] == ys[k - 1]; }
    }
  }

  /** More than 16 parts are refused before anything is expanded. */
  lemma CallTooLong(w: World, d: Depth, f: string, xs: seq<string>, argv: seq<string>)
    requires Fits(w, d) && Name(f) && |xs| >= FUNCTION_MAX_ARGS && forall k :: 0 <= k < |xs| ==> Part(xs[k])
    ensures Expand(w, d, Reference(Call(f, xs)), argv) == Err(TooManyArguments)
  {
    var c := Call(f, xs);
    CallSplits(f, xs);
    OneReference(w, d, c, argv);
    NotANumber(c, argv);
  }

  /** `i` is the first variable of that name. */
  predicate Names(w: World, f: string, i: nat) {
    i < |w.defs| && w.defs[i].name == f && forall k :: 0 <= k < i ==> w.defs[k].name != f
  }

  /** The recursion limit lets variable `i` be expanded once more, with `d'` inside. */
  predicate Enters(w: World, d: Depth, i: nat, argc: nat, d': Depth)
    requires Fits(w, d) && i < |w.defs|
  {
    Enter(w, d, i, argc) == Entered(d')
  }

  /** A simple variable stands for the text it holds, whatever the arguments. */
  lemma SimpleVariable(w: World, d: Depth, d': Depth, f: string, i: nat, xs: seq<string>, argv: seq<string>,
                       ys: seq<string>)
    requires Fits(w, d) && Name(f) && |xs| < FUNCTION_MAX_ARGS
    requires (forall k :: 0 <= k < |xs| ==> Part(xs[k])) && Expands(w, d, xs, argv, ys)
    requires Names(w, f, i) && w.defs[i].flavor.Simple? && Enters(w, d, i, |xs|, d')
    ensures Expand(w, d, Reference(Call(f, xs)), argv) == Ok(w.defs[i].value)
  {
    CallApplies(w, d, f, xs, argv, ys);
    assert Lookup(w.defs, f) == Some(i);
  }

  /** A recursive variable stands for its text expanded with the arguments of the call. */
  lemma RecursiveVariable(w: World, d: Depth, d': Depth, f: string, i: nat, xs: seq<string>, argv: seq<string>,
                          ys: seq<string>)
    requires Fits(w, d) && Name(f) && |xs| < FUNCTION_MAX_ARGS
    requires (forall k :: 0 <= k < |xs| ==> Part(xs[k])) && Expands(w, d, xs, argv, ys)
    requires Names(w, f, i) && w.defs[i].flavor.Recursive? && Enters(w, d, i, |xs|, d')
    ensures Expand(w, d, Reference(Call(f, xs)), argv) == Expand(w, d', w.defs[i].value, ys)
  {
    CallApplies(w, d, f, xs, argv, ys);
    assert Lookup(w.defs, f) == Some(i);
  }

  /** If the text of a variable is $(k), a call gives the expansion of its k-th argument. */
  lemma PicksArgument(w: World, d: Depth, d': Depth, f: string, i: nat, xs: seq<string>, argv: seq<string>,
                      ys: seq<string>, k: nat)
    requires Fits(w, d) && Name(f) && |xs| < FUNCTION_MAX_ARGS
    requires (forall j :: 0 <= j < |xs| ==> Part(xs[j])) && Expands(w, d, xs, argv, ys)
    requires Names(w, f, i) && w.defs[i].flavor.Recursive? && Enters(w, d, i, |xs|, d')
    requires 1 <= k <= |xs| && w.defs[i].value == Reference(Decimal(k))
    ensures Expand(w, d, Reference(Call(f, xs)), argv) == Ok(ys[k - 1])
  {
    RecursiveVariable(w, d, d', f, i, xs, argv, ys);
    NumberedArgument(w, d', k, ys);
  }

  /** Only a name without a variable reaches the built-in functions, and only without arguments the environment. */
  lemma NoVariable(w: World, d: Depth, f: string, xs: seq<string>, argv: seq<string>, ys: seq<string>)
    requires Fits(w, d) && Name(f) && |xs| < FUNCTION_MAX_ARGS
    requires (forall k :: 0 <= k < |xs| ==> Part(xs[k])) && Expands(w, d, xs, argv, ys)
    requires forall k :: 0 <= k < |w.defs| ==> w.defs[k].name != f
    ensures Expand(w, d, Reference(Call(f, xs)), argv) ==
      if w.builtin(f, ys).Some? then w.builtin(f, ys).value
      else if xs == [] && w.env(f).Some? then Ok(w.env(f).value)
      else Ok("")
  {
    CallApplies(w, d, f, xs, argv, ys);
    assert Lookup(w.defs, f).None?;
  }

  /** The first argument that fails is the outcome. */
  lemma {:induction false} FirstFailure(w: World, d: Depth, xs: seq<string>, argv: seq<string>, j: nat, e: Error,
                                        bound: nat)
    requires Fits(w, d) && FailsAt(w, d, xs, argv, j, e) && forall k :: 0 <= k < |xs| ==> |xs[k]| <= bound
    ensures ExpandAll(w, d, xs, argv, bound) == Failed(e)
    decreases j
  {
    if j > 0 {
      assert Expand(w, d, xs[0], argv).Ok?;
      FirstFailure(w, d, xs[1..], argv, j - 1, e, bound);
    }
  }

  /** The parts up to `j` expand and that one does not. */
  predicate FailsAt(w: World, d: Depth, xs: seq<string>, argv: seq<string>, j: nat, e: Error)
    requires Fits(w, d)
  {
    j < |xs| && (forall k :: 0 <= k < j ==> Expand(w, d, xs[k], argv).Ok?) && Expand(w, d, xs[j], argv) == Err(e)
  }

  lemma FailsAfterName(w: World, d: Depth, f: string, xs: seq<string>, argv: seq<string>, j: nat, e: Error)
    requires Fits(w, d) && Expand(w, d, f, argv).Ok? && FailsAt(w, d, xs, argv, j, e)
    ensures FailsAt(w, d, [f] + xs, argv, j + 1, e)
  {
    var all := [f] + xs;
    forall k | 0 <= k < j + 1 ensures Expand(w, d, all[k], argv).Ok? {
      if k > 0 { assert all[k] == xs[k - 1]; }
    }
    assert all[j + 1] == xs[j];
  }

  lemma CallFails(w: World, d: Depth, f: string, xs: seq<string>, argv: seq<string>, j: nat, e: Error)
    requires Fits(w, d) && Name(f) && |xs| < FUNCTION_MAX_ARGS && forall k :: 0 <= k < |xs| ==> Part(xs[k])
    requires FailsAt(w, d, xs, argv, j, e)
    ensures Expand(w, d, Reference(Call(f, xs)), argv) == Err(e)
  {
    var c := Call(f, xs);
    CallEvaluates(w, d, f, xs, argv, [f] + xs, c);
    NameExpands(w, d, f, argv);
    FailsAfterName(w, d, f, xs, argv, j, e);
    FirstFailure(w, d, [f] + xs, argv, j + 1, e, |c|);
  }
}
