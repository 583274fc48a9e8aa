/** Which macro expansions that would end the expansion counters refuse: the exact condition, and one of them. */
module SelfReferences {
  import opened Strings
  import opened Expressions
  import opened Preprocess

  // ----- exactly what the counters refuse -----

  /** The counters let variable `i` be entered with `argc` arguments. */
  predicate Allowed(counts: seq<nat>, i: nat, argc: nat)
    requires i < |counts|
  {
    !(argc == 0 && counts[i] > 0) && counts[i] <= MAX_EXPANSIONS
  }

  /** On the way of the unlimited expansion of `s`, every variable is entered without arguments only
      while it is not being expanded, and never while it is already being expanded 1001 times. */
  predicate Quiet(w: World, fuel: nat, counts: seq<nat>, s: string, argv: seq<string>)
    requires |counts| == |w.defs|
    decreases fuel, |s|, 0, 0
  {
    if s == "" then true
    else if !Referring(s) then Quiet(w, fuel, counts, s[1..], argv)
    else match Closing(s[2..], 0)
         case None => true
         case Some(q) =>
           && QuietClause(w, fuel, counts, s[2..2 + q], argv)
           && (Evaluate(w, Free(fuel), s[2..2 + q], argv).Ok? ==> Quiet(w, fuel, counts, s[3 + q..], argv))
  }

  predicate QuietClause(w: World, fuel: nat, counts: seq<nat>, clause: string, argv: seq<string>)
    requires |counts| == |w.defs|
    decreases fuel, |clause|, 2, 0
  {
    var parts := Split(clause, 0);
    Argument(clause, argv).Some? || |parts| > FUNCTION_MAX_ARGS ||
    (&& QuietAll(w, fuel, counts, parts, argv, |clause|)
     && match ExpandAll(w, Free(fuel), parts, argv, |clause|)
        case Failed(_) => true
        case Words(words) => QuietApply(w, fuel, counts, words[0], words[1..]))
  }

  predicate QuietAll(w: World, fuel: nat, counts: seq<nat>, parts: seq<string>, argv: seq<string>, ghost bound: nat)
    requires |counts| == |w.defs| && forall k :: 0 <= k < |parts| ==> |parts[k]| <= bound
    decreases fuel, bound, 1, |parts|
  {
    parts == [] ||
    (&& Quiet(w, fuel, counts, parts[0], argv)
     && (Expand(w, Free(fuel), parts[0], argv).Ok? ==> QuietAll(w, fuel, counts, parts[1..], argv, bound)))
  }

  predicate QuietApply(w: World, fuel: nat, counts: seq<nat>, name: string, args: seq<string>)
    requires |counts| == |w.defs|
    decreases fuel, 0, 0, 0
  {
    match Lookup(w.defs, name)
    case None => true
    case Some(i) =>
      && Allowed(counts, i, |args|)
      && (fuel > 0 && w.defs[i].flavor.Recursive? ==>
            Quiet(w, fuel - 1, counts[i := counts[i] + 1], w.defs[i].value, args))
  }

  lemma {:induction false} QuietExact(w: World, fuel: nat, counts: seq<nat>, s: string, argv: seq<string>)
    requires |counts| == |w.defs| && !Cut(Expand(w, Free(fuel), s, argv))
    ensures Quiet(w, fuel, counts, s, argv) <==> !Cut(Expand(w, Counted(counts), s, argv))
    ensures Quiet(w, fuel, counts, s, argv) ==>
              Expand(w, Counted(counts), s, argv) == Expand(w, Free(fuel), s, argv)
    decreases fuel, |s|, 0, 0
  {
    if s != "" && !Referring(s) {
      QuietExact(w, fuel, counts, s[1..], argv);
    } else if s != "" && Closing(s[2..], 0).Some? {
      var q := Closing(s[2..], 0).value;
      ExpandReference(w, Free(fuel), s, argv, s[2..2 + q], s[3 + q..]);
      ExpandReference(w, Counted(counts), s, argv, s[2..2 + q], s[3 + q..]);
      QuietClauseExact(w, fuel, counts, s[2..2 + q], argv);
      if Evaluate(w, Free(fuel), s[2..2 + q], argv).Ok? {
        QuietExact(w, fuel, counts, s[3 + q..], argv);
      }
    }
  }

  lemma {:induction false} QuietClauseExact(w: World, fuel: nat, counts: seq<nat>, clause: string, argv: seq<string>)
    requires |counts| == |w.defs| && !Cut(Evaluate(w, Free(fuel), clause, argv))
    ensures QuietClause(w, fuel, counts, clause, argv) <==> !Cut(Evaluate(w, Counted(counts), clause, argv))
    ensures QuietClause(w, fuel, counts, clause, argv) ==>
              Evaluate(w, Counted(counts), clause, argv) == Evaluate(w, Free(fuel), clause, argv)
    decreases fuel, |clause|, 2, 0
  {
    var parts := Split(clause, 0);
    if Argument(clause, argv).None? && |parts| <= FUNCTION_MAX_ARGS {
      QuietAllExact(w, fuel, counts, parts, argv, |clause|);
      var all := ExpandAll(w, Free(fuel), parts, argv, |clause|);
      if all.Words? {
        QuietApplyExact(w, fuel, counts, all.words[0], all.words[1..]);
      }
    }
  }

  lemma {:induction false} QuietAllExact(w: World, fuel: nat, counts: seq<nat>, parts: seq<string>, argv: seq<string>,
                                         bound: nat)
    requires |counts| == |w.defs| && forall k :: 0 <= k < |parts| ==> |parts[k]| <= bound
    requires var r := ExpandAll(w, Free(fuel), parts, argv, bound); r.Failed? ==> !Cut(Err(r.error))
    ensures var r := ExpandAll(w, Counted(counts), parts, argv, bound);
            QuietAll(w, fuel, counts, parts, argv, bound) <==> (r.Failed? ==> !Cut(Err(r.error)))
    ensures QuietAll(w, fuel, counts, parts, argv, bound) ==>
              ExpandAll(w, Counted(counts), parts, argv, bound) == ExpandAll(w, Free(fuel), parts, argv, bound)
    decreases fuel, bound, 1, |parts|
  {
    if parts != [] {
      QuietExact(w, fuel, counts, parts[0], argv);
      if Expand(w, Free(fuel), parts[0], argv).Ok? {
        QuietAllExact(w, fuel, counts, parts[1..], argv, bound);
      }
    }
  }

  lemma {:induction false} QuietApplyExact(w: World, fuel: nat, counts: seq<nat>, name: string, args: seq<string>)
    requires |counts| == |w.defs| && !Cut(Apply(w, Free(fuel), name, args))
    ensures QuietApply(w, fuel, counts, name, args) <==> !Cut(Apply(w, Counted(counts), name, args))
    ensures QuietApply(w, fuel, counts, name, args) ==>
              Apply(w, Counted(counts), name, args) == Apply(w, Free(fuel), name, args)
    decreases fuel, 0, 0, 0
  {
    var found := Lookup(w.defs, name);
    if found.Some? {
      var i := found.value;
      assert fuel > 0;
      if Allowed(counts, i, |args|) && w.defs[i].flavor.Recursive? {
        QuietExact(w, fuel - 1, counts[i := counts[i] + 1], w.defs[i].value, args);
      }
    }
  }

  /** Of the expansions that end, the counters refuse exactly those that are not quiet. */
  lemma RefusedExact(w: World, fuel: nat, counts: seq<nat>, s: string, argv: seq<string>)
    requires |counts| == |w.defs| && !Cut(Expand(w, Free(fuel), s, argv))
    ensures Cut(Expand(w, Counted(counts), s, argv)) <==> !Quiet(w, fuel, counts, s, argv)
  {
    QuietExact(w, fuel, counts, s, argv);
  }

  // ----- one that is refused -----

  const SELF: World := World([Definition("A", "$($(1))", Recursive)], (n, a) => None, n => None)

  lemma ReadsOne(argv: seq<string>)
    ensures Argument("1", argv) == if argv == [] then None else Some(argv[0])
  {
    assert Digits("1", 1, 10, 1) == (1, 1);
    assert Digits("1", 0, 10, 0) == (1, 1);
    assert ScanNumber("1", 10) == Scan(1, 1);
  }

  lemma NotANumber(s: string, argv: seq<string>)
    requires s != "" && !IsSpace(s[0]) && s[0] != '-' && s[0] != '+' && DigitValue(s[0]) >= 10
    ensures Argument(s, argv) == None
  {
    assert ScanNumber(s, 10).tail == 0;
  }

  /** A character that is neither a comma nor a parenthesis. */
  lemma SplitChar(c: char)
    requires c != ',' && c != '(' && c != ')'
    ensures Split([c], 0) == [[c]]
  {
    assert [c][1..] == "";
    assert Split("", 0) == [""];
    assert [c] + "" == [c];
  }

  lemma ExpandChar(w: World, d: Depth, c: char, argv: seq<string>)
    requires Fits(w, d)
    ensures Expand(w, d, [c], argv) == Ok([c])
  {
    assert [c][1..] == "";
    assert Prepend([c], Ok("")) == Ok([c]);
  }

  /** A clause of one part names what it expands to. */
  lemma EvaluateLone(w: World, d: Depth, clause: string, argv: seq<string>, text: string)
    requires Fits(w, d) && Argument(clause, argv).None? && Split(clause, 0) == [clause]
    requires Expand(w, d, clause, argv) == Ok(text)
    ensures Evaluate(w, d, clause, argv) == Apply(w, d, text, [])
  {
    var parts := [clause];
    assert parts[1..] == [];
    assert ExpandAll(w, d, parts[1..], argv, |clause|) == Words([]);
    var all := ExpandAll(w, d, parts, argv, |clause|);
    assert all == Words([text] + []);
    assert all.words[0] == text && all.words[1..] == [];
  }

  /** A string that is one reference. */
  lemma ExpandWhole(w: World, d: Depth, s: string, clause: string, argv: seq<string>)
    requires Fits(w, d) && Cuts(s, clause, "")
    ensures Expand(w, d, s, argv) == Evaluate(w, d, clause, argv)
  {
    ExpandReference(w, d, s, argv, clause, "");
    var o := Evaluate(w, d, clause, argv);
    if o.Ok? { assert o.text + "" == o.text; }
  }

  lemma LookupSelf(name: string)
    ensures Lookup(SELF.defs, name) == if name == "A" then Some(0) else None
  {
    assert SELF.defs[1..] == [];
  }

  lemma ExpandInner(d: Depth, argv: seq<string>)
    requires Fits(SELF, d)
    ensures Expand(SELF, d, "$(1)", argv) == Ok(if argv == [] then "" else argv[0])
  {
    assert "$(1)"[2..] == "1)" && "1)"[1..] == ")";
    assert Closing(")", 0) == Some(0);
    assert Cuts("$(1)", "1", "");
    ExpandWhole(SELF, d, "$(1)", "1", argv);
    ReadsOne(argv);
    if argv == [] {
      SplitChar('1');
      ExpandChar(SELF, d, '1', argv);
      EvaluateLone(SELF, d, "1", argv, "1");
      LookupSelf("1");
    }
  }

  lemma SplitInner()
    ensures Split("$(1)", 0) == ["$(1)"]
  {
    assert "$(1)"[1..] == "(1)" && "(1)"[1..] == "1)" && "1)"[1..] == ")" && ")"[1..] == "";
    assert Split("", 0) == [""];
    assert Split(")", 1) == [")"] by { assert ")" + "" == ")"; }
    assert Split("1)", 1) == ["1)"] by { assert "1" + ")" == "1)"; }
    assert Split("(1)", 0) == ["(1)"] by { assert "(" + "1)" == "(1)"; }
    assert "$" + "(1)" == "$(1)";
  }

  lemma CutsBody()
    ensures Cuts("$($(1))", "$(1)", "")
  {
    assert "$($(1))"[2..] == "$(1))" && "$(1))"[1..] == "(1))" && "(1))"[1..] == "1))" && "1))"[1..] == "))";
    assert "))"[1..] == ")" && Closing(")", 0) == Some(0);
    assert Closing("))", 1) == Some(1);
    assert Closing("1))", 1) == Some(2);
    assert Closing("(1))", 0) == Some(3);
    assert "$($(1))"[2..6] == "$(1)" && "$($(1))"[7..] == "";
  }

  lemma ExpandBody(d: Depth, argv: seq<string>)
    requires Fits(SELF, d)
    ensures Expand(SELF, d, "$($(1))", argv) == Apply(SELF, d, if argv == [] then "" else argv[0], [])
  {
    CutsBody();
    ExpandWhole(SELF, d, "$($(1))", "$(1)", argv);
    NotANumber("$(1)", argv);
    SplitInner();
    ExpandInner(d, argv);
    EvaluateLone(SELF, d, "$(1)", argv, if argv == [] then "" else argv[0]);
  }

  lemma CutsOuter()
    ensures Cuts("$(A,A)", "A,A", "")
  {
    assert "A,A)"[1..] == ",A)" && ",A)"[1..] == "A)" && "A)"[1..] == ")";
    assert Closing(")", 0) == Some(0);
    assert Closing("A)", 0) == Some(1);
    assert Closing(",A)", 0) == Some(2);
    assert "$(A,A)"[2..] == "A,A)";
  }

  lemma SplitOuter()
    ensures Split("A,A", 0) == ["A", "A"]
  {
    assert "A,A"[1..] == ",A" && ",A"[1..] == "A";
    SplitChar('A');
    assert Split(",A", 0) == ["", "A"];
    assert "A" + "" == "A";
  }

  lemma ExpandPair(w: World, d: Depth, argv: seq<string>, bound: nat)
    requires Fits(w, d) && bound >= 1
    ensures ExpandAll(w, d, ["A", "A"], argv, bound) == Words(["A", "A"])
  {
    ExpandChar(w, d, 'A', argv);
    assert ["A", "A"][1..] == ["A"] && ["A"][1..] == [];
    assert ExpandAll(w, d, [], argv, bound) == Words([]);
    assert ExpandAll(w, d, ["A"], argv, bound) == Words(["A"] + []);
    assert ["A"] + [] == ["A"] && ["A"] + ["A"] == ["A", "A"];
  }

  lemma ExpandOuter(d: Depth)
    requires Fits(SELF, d)
    ensures Expand(SELF, d, "$(A,A)", []) == Apply(SELF, d, "A", ["A"])
  {
    CutsOuter();
    ExpandWhole(SELF, d, "$(A,A)", "A,A", []);
    SplitOuter();
    ExpandPair(SELF, d, [], |"A,A"|);
    assert ["A", "A"][1..] == ["A"];
  }

  lemma ApplySelf(d: Depth, args: seq<string>)
    requires Fits(SELF, d)
    ensures var into := Enter(SELF, d, 0, |args|);
            Apply(SELF, d, "A", args) ==
            if into.Refused? then Err(into.error) else Expand(SELF, into.depth, "$($(1))", args)
  {
    LookupSelf("A");
  }

  lemma ApplyNothing(d: Depth)
    requires Fits(SELF, d)
    ensures Apply(SELF, d, "", []) == Ok("")
  {
    LookupSelf("");
  }

  /** `$(A,A)` is A expanded without arguments inside its own expansion. */
  lemma ExpandNested(d: Depth, d': Depth)
    requires Fits(SELF, d) && Enter(SELF, d, 0, 1) == Entered(d')
    ensures Expand(SELF, d, "$(A,A)", []) == Apply(SELF, d', "A", [])
  {
    ExpandOuter(d);
    ApplySelf(d, ["A"]);
    ExpandBody(d', ["A"]);
  }

  /** Inside, the argument is missing, so the name is empty. */
  lemma EnteredTwice(d: Depth, d': Depth, d'': Depth)
    requires Fits(SELF, d) && Fits(SELF, d') && Enter(SELF, d, 0, 1) == Entered(d') &&
             Enter(SELF, d', 0, 0) == Entered(d'')
    ensures Expand(SELF, d, "$(A,A)", []) == Ok("")
  {
    calc {
      Expand(SELF, d, "$(A,A)", []);
      { ExpandNested(d, d'); }
      Apply(SELF, d', "A", []);
      { ApplySelf(d', []); }
      Expand(SELF, d'', "$($(1))", []);
      { ExpandBody(d'', []); }
      Apply(SELF, d'', "", []);
      { ApplyNothing(d''); }
      Ok("");
    }
  }

  /** With A defined as $($(1)), the expansion of $(A,A) ends in the empty string when unlimited. */
  lemma UnlimitedEnds(fuel: nat)
    requires fuel >= 2
    ensures Expand(SELF, Free(fuel), "$(A,A)", []) == Ok("")
  {
    EnteredTwice(Free(fuel), Free(fuel - 1), Free(fuel - 2));
  }

  /** The counters refuse it. */
  lemma EndingIsRefused(counts: seq<nat>)
    requires counts == [0]
    ensures Expand(SELF, Counted(counts), "$(A,A)", []) == Err(SelfReference("A"))
  {
    var counts' := counts[0 := 1];
    ExpandNested(Counted(counts), Counted(counts'));
    ApplySelf(Counted(counts'), []);
  }
}
