/**
 * The macro preprocessor: expansion of $(name) and $(name,arg,...) references.
 *
 * `Expand` is the meaning of a string, with the limit on recursion as a parameter: either the
 * per-variable counters of the program, or plain fuel.  `Covers` relates the two.
 */
module Preprocess {
  import opened Strings
  import opened Expressions

  datatype Flavor = Simple | Recursive
  datatype Definition = Definition(name: string, value: string, flavor: Flavor)

  datatype Error =
    | Unterminated
    | TooManyArguments
    | InFunction(message: string)
    | SelfReference(name: string)
    | TooDeep
    | OutOfFuel

  datatype Outcome = Ok(text: string) | Err(error: Error)

  /** Variables in list order, the built-in functions and the environment. */
  datatype World = World(
    defs: seq<Definition>,
    builtin: (string, seq<string>) -> Option<Outcome>,
    env: string -> Option<string>)

  const FUNCTION_MAX_ARGS: nat := 16
  const MAX_EXPANSIONS: nat := 1000

  /** Stopped by the limit on recursion, rather than by the text itself. */
  predicate Cut(o: Outcome) {
    o.Err? && (o.error.SelfReference? || o.error.TooDeep? || o.error.OutOfFuel?)
  }

  // ----- limits on recursion -----

  datatype Depth = Free(fuel: nat) | Counted(counts: seq<nat>)

  function Budget(counts: seq<nat>): nat {
    if counts == [] then 0 else
    (if counts[0] > MAX_EXPANSIONS then 0 else MAX_EXPANSIONS + 1 - counts[0]) + Budget(counts[1..])
  }

  function Remaining(d: Depth): nat {
    if d.Free? then d.fuel else Budget(d.counts)
  }

  predicate Fits(w: World, d: Depth) { d.Counted? ==> |d.counts| == |w.defs| }

  datatype Entry = Entered(depth: Depth) | Refused(error: Error)

  /** Entering the expansion of variable `i` with `argc` arguments. */
  function Enter(w: World, d: Depth, i: nat, argc: nat): (r: Entry)
    requires Fits(w, d) && i < |w.defs|
    ensures r.Entered? ==> Fits(w, r.depth) && Remaining(r.depth) < Remaining(d)
    ensures r.Refused? ==> Cut(Err(r.error))
  {
    if d.Free? then
      if d.fuel == 0 then Refused(OutOfFuel) else Entered(Free(d.fuel - 1))
    else if argc == 0 && d.counts[i] > 0 then Refused(SelfReference(w.defs[i].name))
    else if d.counts[i] > MAX_EXPANSIONS then Refused(TooDeep)
    else
      BudgetDrops(d.counts, i);
      Entered(Counted(d.counts[i := d.counts[i] + 1]))
  }

  lemma {:induction false} BudgetDrops(counts: seq<nat>, i: nat)
    requires i < |counts| && counts[i] <= MAX_EXPANSIONS
    ensures Budget(counts[i := counts[i] + 1]) == Budget(counts) - 1
  {
    var after := counts[i := counts[i] + 1];
    if i == 0 {
      assert after[1..] == counts[1..];
    } else {
      BudgetDrops(counts[1..], i - 1);
      assert after[1..] == counts[1..][i - 1 := counts[i] + 1];
    }
  }

  // ----- text -----

  function NestAfter(c: char, nest: int): int {
    if c == '(' then nest + 1 else if c == ')' then nest - 1 else nest
  }

  /** The position of the parenthesis closing a reference whose text starts `s`. */
  function Closing(s: string, nest: nat): (r: Option<nat>)
    ensures r.Some? ==> r.value < |s| && s[r.value] == ')'
  {
    if s == "" then None
    else if s[0] == ')' && nest == 0 then Some(0)
    else
      match Closing(s[1..], NestAfter(s[0], nest))
      case None => None
      case Some(q) => Some(q + 1)
  }

  /** The first part grown at its front. */
  function Grow(t: string, parts: seq<string>): seq<string>
    requires parts != []
  {
    [t + parts[0]] + parts[1..]
  }

  /** The text cut at its commas outside parentheses. */
  function Split(s: string, nest: int): (r: seq<string>)
    ensures r != [] && forall k :: 0 <= k < |r| ==> |r[k]| <= |s|
  {
    if s == "" then [""]
    else if nest == 0 && s[0] == ',' then [""] + Split(s[1..], nest)
    else Grow([s[0]], Split(s[1..], NestAfter(s[0], nest)))
  }

  function Join(parts: seq<string>): string
    requires parts != []
  {
    if |parts| == 1 then parts[0] else parts[0] + "," + Join(parts[1..])
  }

  /** No comma outside parentheses. */
  predicate Whole(s: string, nest: int) {
    s != "" ==> !(nest == 0 && s[0] == ',') && Whole(s[1..], NestAfter(s[0], nest))
  }

  /** The parts make up the text again. */
  lemma {:induction false} SplitJoins(s: string, nest: int)
    ensures Join(Split(s, nest)) == s
  {
    if s != "" {
      var cut := nest == 0 && s[0] == ',';
      var rest := Split(s[1..], if cut then nest else NestAfter(s[0], nest));
      SplitJoins(s[1..], if cut then nest else NestAfter(s[0], nest));
      if cut {
        assert ([""] + rest)[1..] == rest;
      } else {
        JoinGrows([s[0]], rest);
      }
    }
  }

  lemma JoinGrows(t: string, parts: seq<string>)
    requires parts != []
    ensures Join(Grow(t, parts)) == t + Join(parts)
  {
    assert Grow(t, parts)[1..] == parts[1..];
  }

  /** No part can be cut further. */
  lemma {:induction false} SplitWhole(s: string, nest: int, k: nat)
    requires k < |Split(s, nest)|
    ensures Whole(Split(s, nest)[k], if k == 0 then nest else 0)
  {
    if s != "" {
      if nest == 0 && s[0] == ',' {
        if k > 0 { SplitWhole(s[1..], nest, k - 1); }
      } else {
        var rest := Split(s[1..], NestAfter(s[0], nest));
        SplitWhole(s[1..], NestAfter(s[0], nest), k);
        assert ([s[0]] + rest[0])[1..] == rest[0];
      }
    }
  }

  /** A number naming one of the arguments, as `strtoul` reads it. */
  function Argument(s: string, argv: seq<string>): Option<string> {
    var scan := ScanNumber(s, 10);
    var n := if scan.val > ULL_MAX || scan.val < -ULL_MAX then ULL_MAX else scan.val % ULL_MODULUS;
    if scan.tail == |s| && 0 < n <= |argv| then Some(argv[n - 1]) else None
  }

  function Lookup(defs: seq<Definition>, name: string): (r: Option<nat>)
    ensures r.Some? ==> r.value < |defs| && defs[r.value].name == name
    ensures r.Some? ==> forall k :: 0 <= k < r.value ==> defs[k].name != name
    ensures r.None? ==> forall k :: 0 <= k < |defs| ==> defs[k].name != name
  {
    if defs == [] then None
    else if defs[0].name == name then Some(0)
    else match Lookup(defs[1..], name)
         case None => None
         case Some(k) => Some(k + 1)
  }

  // ----- meaning -----

  function Prepend(t: string, o: Outcome): Outcome {
    if o.Ok? then Ok(t + o.text) else o
  }

  predicate Referring(s: string) { |s| > 1 && s[0] == '$' && s[1] == '(' }

  function Expand(w: World, d: Depth, s: string, argv: seq<string>): Outcome
    requires Fits(w, d)
    decreases Remaining(d), |s|, 0, 0
  {
    if s == "" then Ok("")
    else if !Referring(s) then Prepend([s[0]], Expand(w, d, s[1..], argv))
    else match Closing(s[2..], 0)
         case None => Err(Unterminated)
         case Some(q) =>
           var first := Evaluate(w, d, s[2..2 + q], argv);
           if first.Err? then first else Prepend(first.text, Expand(w, d, s[3 + q..], argv))
  }

  function Evaluate(w: World, d: Depth, clause: string, argv: seq<string>): Outcome
    requires Fits(w, d)
    decreases Remaining(d), |clause|, 2, 0
  {
    if Argument(clause, argv).Some? then Ok(Argument(clause, argv).value)
    else
      var parts := Split(clause, 0);
      if |parts| > FUNCTION_MAX_ARGS then Err(TooManyArguments)
      else match ExpandAll(w, d, parts, argv, |clause|)
           case Failed(e) => Err(e)
           case Words(words) => Apply(w, d, words[0], words[1..])
  }

  datatype WordList = Words(words: seq<string>) | Failed(error: Error)

  function ExpandAll(w: World, d: Depth, parts: seq<string>, argv: seq<string>, ghost bound: nat): (r: WordList)
    requires Fits(w, d) && forall k :: 0 <= k < |parts| ==> |parts[k]| <= bound
    ensures r.Words? ==> |r.words| == |parts|
    decreases Remaining(d), bound, 1, |parts|
  {
    if parts == [] then Words([]) else
    var first := Expand(w, d, parts[0], argv);
    if first.Err? then Failed(first.error) else
    match ExpandAll(w, d, parts[1..], argv, bound)
    case Failed(e) => Failed(e)
    case Words(words) => Words([first.text] + words)
  }

  /** A variable, else a built-in function, else the environment, else nothing. */
  function Apply(w: World, d: Depth, name: string, args: seq<string>): Outcome
    requires Fits(w, d)
    decreases Remaining(d), 0, 0, 0
  {
    match Lookup(w.defs, name)
    case Some(i) =>
      (match Enter(w, d, i, |args|)
       case Refused(e) => Err(e)
       case Entered(d') => if w.defs[i].flavor.Recursive? then Expand(w, d', w.defs[i].value, args)
                           else Ok(w.defs[i].value))
    case None => Otherwise(w, name, args)
  }

  function Otherwise(w: World, name: string, args: seq<string>): Outcome {
    match w.builtin(name, args)
    case Some(o) => o
    case None => if args == [] && name != "" && w.env(name).Some? then Ok(w.env(name).value) else Ok("")
  }

  /** A string cut into a reference and the rest. */
  predicate Cuts(s: string, clause: string, rest: string) {
    Referring(s) && Closing(s[2..], 0) == Some(|clause|) && s[2..2 + |clause|] == clause && s[3 + |clause|..] == rest
  }

  lemma ExpandReference(w: World, d: Depth, s: string, argv: seq<string>, clause: string, rest: string)
    requires Fits(w, d) && Cuts(s, clause, rest)
    ensures var first := Evaluate(w, d, clause, argv);
      Expand(w, d, s, argv) == if first.Err? then first else Prepend(first.text, Expand(w, d, rest, argv))
  {
  }

  // ----- a limit that is not hit does not matter -----

  /** `d'` lets through at least the expansions that `d` does. */
  predicate Covers(d: Depth, d': Depth) {
    if d'.Free? then Remaining(d) <= d'.fuel
    else d.Counted? && |d.counts| == |d'.counts| && forall i :: 0 <= i < |d.counts| ==> d'.counts[i] <= d.counts[i]
  }

  lemma {:induction false} ExpandAgrees(w: World, d: Depth, d': Depth, s: string, argv: seq<string>)
    requires Fits(w, d) && Fits(w, d') && Covers(d, d')
    requires !Cut(Expand(w, d, s, argv))
    ensures Expand(w, d', s, argv) == Expand(w, d, s, argv)
    decreases Remaining(d), |s|, 0, 0
  {
    if s != "" && !Referring(s) {
      ExpandAgrees(w, d, d', s[1..], argv);
    } else if s != "" && Closing(s[2..], 0).Some? {
      var q := Closing(s[2..], 0).value;
      ExpandReference(w, d, s, argv, s[2..2 + q], s[3 + q..]);
      ExpandReference(w, d', s, argv, s[2..2 + q], s[3 + q..]);
      EvaluateAgrees(w, d, d', s[2..2 + q], argv);
      if Evaluate(w, d, s[2..2 + q], argv).Ok? {
        ExpandAgrees(w, d, d', s[3 + q..], argv);
      }
    }
  }

  lemma {:induction false} EvaluateAgrees(w: World, d: Depth, d': Depth, clause: string, argv: seq<string>)
    requires Fits(w, d) && Fits(w, d') && Covers(d, d')
    requires !Cut(Evaluate(w, d, clause, argv))
    ensures Evaluate(w, d', clause, argv) == Evaluate(w, d, clause, argv)
    decreases Remaining(d), |clause|, 2, 0
  {
    var parts := Split(clause, 0);
    if Argument(clause, argv).None? && |parts| <= FUNCTION_MAX_ARGS {
      AllAgree(w, d, d', parts, argv, |clause|);
      var all := ExpandAll(w, d, parts, argv, |clause|);
      if all.Words? {
        ApplyAgrees(w, d, d', all.words[0], all.words[1..]);
      }
    }
  }

  lemma {:induction false} AllAgree(w: World, d: Depth, d': Depth, parts: seq<string>, argv: seq<string>, bound: nat)
    requires Fits(w, d) && Fits(w, d') && Covers(d, d')
    requires forall k :: 0 <= k < |parts| ==> |parts[k]| <= bound
    requires var r := ExpandAll(w, d, parts, argv, bound); r.Failed? ==> !Cut(Err(r.error))
    ensures ExpandAll(w, d', parts, argv, bound) == ExpandAll(w, d, parts, argv, bound)
    decreases Remaining(d), bound, 1, |parts|
  {
    if parts != [] {
      ExpandAgrees(w, d, d', parts[0], argv);
      if Expand(w, d, parts[0], argv).Ok? {
        AllAgree(w, d, d', parts[1..], argv, bound);
      }
    }
  }

  lemma {:induction false} ApplyAgrees(w: World, d: Depth, d': Depth, name: string, args: seq<string>)
    requires Fits(w, d) && Fits(w, d') && Covers(d, d')
    requires !Cut(Apply(w, d, name, args))
    ensures Apply(w, d', name, args) == Apply(w, d, name, args)
    decreases Remaining(d), 0, 0, 0
  {
    var found := Lookup(w.defs, name);
    if found.Some? {
      var i := found.value;
      var into := Enter(w, d, i, |args|);
      var into' := Enter(w, d', i, |args|);
      assert into.Entered? && into'.Entered? && Covers(into.depth, into'.depth);
      if w.defs[i].flavor.Recursive? {
        ExpandAgrees(w, into.depth, into'.depth, w.defs[i].value, args);
      }
    }
  }

  /**
   * What the counters let through is the unlimited meaning: the same result with any amount of
   * fuel from the budget on.
   */
  lemma CountersKeepMeaning(w: World, counts: seq<nat>, s: string, argv: seq<string>, fuel: nat)
    requires |counts| == |w.defs| && Budget(counts) <= fuel
    requires !Cut(Expand(w, Counted(counts), s, argv))
    ensures Expand(w, Free(fuel), s, argv) == Expand(w, Counted(counts), s, argv)
  {
    ExpandAgrees(w, Counted(counts), Free(fuel), s, argv);
  }

  /** An expansion that needs more than every amount of fuel is stopped by the counters. */
  lemma EndlessIsCut(w: World, counts: seq<nat>, s: string, argv: seq<string>)
    requires |counts| == |w.defs|
    requires forall fuel: nat :: Expand(w, Free(fuel), s, argv) == Err(OutOfFuel)
    ensures Cut(Expand(w, Counted(counts), s, argv))
  {
    if !Cut(Expand(w, Counted(counts), s, argv)) {
      CountersKeepMeaning(w, counts, s, argv, Budget(counts));
    }
  }

  // ----- the program -----

  lemma PrependPrepend(t: string, u: string, o: Outcome)
    ensures Prepend(t, Prepend(u, o)) == Prepend(t + u, o)
  {
    if o.Ok? { assert t + (u + o.text) == t + u + o.text; }
  }

  lemma SplitAt(s: string, t: string, p: nat, nest: int)
    requires p < |s|
    ensures nest == 0 && s[p] == ',' ==>
      Grow(t, Split(s[p..], nest)) == [t] + Grow("", Split(s[p + 1..], nest))
    ensures !(nest == 0 && s[p] == ',') ==>
      Grow(t, Split(s[p..], nest)) == Grow(t + [s[p]], Split(s[p + 1..], NestAfter(s[p], nest)))
  {
    assert s[p..][1..] == s[p + 1..];
    if nest == 0 && s[p] == ',' {
      var rest := Split(s[p + 1..], nest);
      assert Split(s[p..], nest) == [""] + rest;
      assert t + "" == t && "" + rest[0] == rest[0];
      assert [rest[0]] + rest[1..] == rest;
    } else {
      var rest := Split(s[p + 1..], NestAfter(s[p], nest));
      assert Split(s[p..], nest) == Grow([s[p]], rest);
      assert t + ([s[p]] + rest[0]) == t + [s[p]] + rest[0];
    }
  }

  lemma GrowEmpty(parts: seq<string>)
    requires parts != []
    ensures Grow("", parts) == parts
  {
    assert "" + parts[0] == parts[0];
  }

  /** `all` is the finished parts, and the current one from `prev` on with what is left to split. */
  predicate Splitting(all: seq<string>, s: string, parts: seq<string>, prev: nat, p: nat, nest: int)
    requires prev <= p <= |s|
  {
    all == parts + Grow(s[prev..p], Split(s[p..], nest))
  }

  lemma SplittingStart(s: string)
    ensures Splitting(Split(s, 0), s, [], 0, 0, 0)
  {
    GrowEmpty(Split(s, 0));
    assert s[0..] == s && s[0..0] == "";
    assert [] + Split(s, 0) == Split(s, 0);
  }

  lemma SplittingCut(all: seq<string>, s: string, parts: seq<string>, prev: nat, p: nat)
    requires prev <= p < |s| && s[p] == ',' && Splitting(all, s, parts, prev, p, 0)
    ensures Splitting(all, s, parts + [s[prev..p]], p + 1, p + 1, 0) && |all| > |parts| + 1
  {
    var rest := Grow(s[p + 1..p + 1], Split(s[p + 1..], 0));
    SplitAt(s, s[prev..p], p, 0);
    assert s[p + 1..p + 1] == "";
    assert parts + ([s[prev..p]] + rest) == parts + [s[prev..p]] + rest;
    assert |rest| > 0;
  }

  lemma SplittingOn(all: seq<string>, s: string, parts: seq<string>, prev: nat, p: nat, nest: int)
    requires prev <= p < |s| && !(nest == 0 && s[p] == ',') && Splitting(all, s, parts, prev, p, nest)
    ensures Splitting(all, s, parts, prev, p + 1, NestAfter(s[p], nest))
  {
    SplitAt(s, s[prev..p], p, nest);
    assert s[prev..p] + [s[p]] == s[prev..p + 1];
  }

  lemma SplittingEnd(all: seq<string>, s: string, parts: seq<string>, prev: nat, nest: int)
    requires prev <= |s| && Splitting(all, s, parts, prev, |s|, nest)
    ensures all == parts + [s[prev..]]
  {
    assert s[|s|..] == "" && s[prev..|s|] == s[prev..];
    assert s[prev..] + "" == s[prev..];
    assert Split("", nest) == [""];
  }

  /** A reference in the middle of a string, between positions `p` and `q`. */
  lemma CutsAt(s: string, p: nat, q: nat)
    requires 0 < p < q < |s| && s[p - 1] == '$' && s[p] == '('
    requires Closing(s[p + 1..], 0) == Some(q - p - 1)
    ensures Cuts(s[p - 1..], s[p + 1..q], s[q + 1..])
  {
    var t := s[p - 1..];
    assert t[2..] == s[p + 1..];
    assert t[2..2 + (q - p - 1)] == s[p + 1..q];
    assert t[3 + (q - p - 1)..] == s[q + 1..];
  }

  /** Expanding `s` is `r` and then, unless that is an error, expanding `rest`. */
  predicate Continues(w: World, d: Depth, s: string, argv: seq<string>, r: Outcome, rest: string)
    requires Fits(w, d)
  {
    Expand(w, d, s, argv) == if r.Err? then r else Prepend(r.text, Expand(w, d, rest, argv))
  }

  lemma ContinuesReference(w: World, d: Depth, s: string, argv: seq<string>, clause: string, rest: string)
    requires Fits(w, d) && Cuts(s, clause, rest)
    ensures Continues(w, d, s, argv, Evaluate(w, d, clause, argv), rest)
  {
    ExpandReference(w, d, s, argv, clause, rest);
  }

  lemma ReferenceAt(w: World, d: Depth, s: string, argv: seq<string>, p: nat, q: nat)
    requires Fits(w, d) && 0 < p < q < |s| && s[p - 1] == '$' && s[p] == '('
    requires Closing(s[p + 1..], 0) == Some(q - p - 1)
    ensures Continues(w, d, s[p - 1..], argv, Evaluate(w, d, s[p + 1..q], argv), s[q + 1..])
  {
    CutsAt(s, p, q);
    ContinuesReference(w, d, s[p - 1..], argv, s[p + 1..q], s[q + 1..]);
  }

  lemma PlainAt(w: World, d: Depth, s: string, argv: seq<string>, p: nat)
    requires Fits(w, d) && 0 < p <= |s| && s[p - 1] == '$'
    requires p == |s| || s[p] != '('
    ensures Continues(w, d, s[p - 1..], argv, Ok("$"), s[p..])
  {
    assert s[p - 1..][1..] == s[p..];
  }

  lemma OpenAt(w: World, d: Depth, s: string, argv: seq<string>, p: nat)
    requires Fits(w, d) && 0 < p < |s| && s[p - 1] == '$' && s[p] == '('
    requires Closing(s[p + 1..], 0) == None
    ensures Continues(w, d, s[p - 1..], argv, Err(Unterminated), s[|s|..])
  {
    assert s[p - 1..][2..] == s[p + 1..];
  }

  function After(words: seq<string>, rest: WordList): WordList {
    if rest.Words? then Words(words + rest.words) else rest
  }

  lemma ExpandNext(w: World, d: Depth, parts: seq<string>, argv: seq<string>, bound: nat, i: nat, words: seq<string>)
    requires Fits(w, d) && forall k :: 0 <= k < |parts| ==> |parts[k]| <= bound
    requires i < |parts|
    ensures var first := Expand(w, d, parts[i], argv);
      After(words, ExpandAll(w, d, parts[i..], argv, bound)) ==
      if first.Err? then Failed(first.error)
      else After(words + [first.text], ExpandAll(w, d, parts[i + 1..], argv, bound))
  {
    assert parts[i..][1..] == parts[i + 1..];
    var first := Expand(w, d, parts[i], argv);
    var rest := ExpandAll(w, d, parts[i + 1..], argv, bound);
    if first.Ok? && rest.Words? {
      assert words + ([first.text] + rest.words) == words + [first.text] + rest.words;
    }
  }

  /** The closing parenthesis of a reference whose text starts at `start`, or the end. */
  method FindClosing(s: string, start: nat) returns (q: nat)
    requires start <= |s|
    ensures start <= q <= |s|
    ensures Closing(s[start..], 0) == if q == |s| then None else Some(q - start)
  {
    q := start;
    var nest := 0;
    while q < |s| && !(s[q] == ')' && nest == 0)
      invariant start <= q <= |s| && nest >= 0
      invariant Closing(s[start..], 0) ==
                match Closing(s[q..], nest) { case None => None case Some(k) => Some(q - start + k) }
    {
      assert s[q..][1..] == s[q + 1..];
      nest := NestAfter(s[q], nest);
      q := q + 1;
    }
  }

  /** So far `out` has been made, and `rest` is left to expand. */
  predicate Partly(w: World, d: Depth, s: string, argv: seq<string>, out: string, rest: string)
    requires Fits(w, d)
  {
    Expand(w, d, s, argv) == Prepend(out, Expand(w, d, rest, argv))
  }

  lemma PartlyStart(w: World, d: Depth, s: string, argv: seq<string>)
    requires Fits(w, d)
    ensures Partly(w, d, s, argv, "" + s[0..0], s[0..])
  {
    var o := Expand(w, d, s, argv);
    assert s[0..] == s && "" + s[0..0] == "";
    if o.Ok? { assert "" + o.text == o.text; }
  }

  lemma PartlyPlain(w: World, d: Depth, s: string, argv: seq<string>, out: string, from: nat, p: nat)
    requires Fits(w, d) && from <= p < |s| && s[p] != '$' && Partly(w, d, s, argv, out + s[from..p], s[p..])
    ensures Partly(w, d, s, argv, out + s[from..p + 1], s[p + 1..])
  {
    PrependPrepend(out + s[from..p], [s[p]], Expand(w, d, s[p + 1..], argv));
    assert s[p..][1..] == s[p + 1..];
    assert out + s[from..p] + [s[p]] == out + s[from..p + 1];
  }

  lemma PartlyDollar(w: World, d: Depth, s: string, argv: seq<string>, out: string, rest: string, r: Outcome,
                     rest': string)
    requires Fits(w, d) && Partly(w, d, s, argv, out, rest) && Continues(w, d, rest, argv, r, rest')
    ensures r.Err? ==> Expand(w, d, s, argv) == r
    ensures r.Ok? ==> Partly(w, d, s, argv, out + r.text, rest')
  {
    if r.Ok? {
      PrependPrepend(out, r.text, Expand(w, d, rest', argv));
    }
  }

  lemma PartlyEnd(w: World, d: Depth, s: string, argv: seq<string>, out: string)
    requires Fits(w, d) && Partly(w, d, s, argv, out, "")
    ensures Expand(w, d, s, argv) == Ok(out)
  {
    assert out + "" == out;
  }

  class Preprocessor {
    const w: World
    var counts: seq<nat>

    constructor (w: World)
      ensures this.w == w && Valid() && forall i :: 0 <= i < |counts| ==> counts[i] == 0
    {
      this.w := w;
      counts := seq(|w.defs|, _ => 0);
    }

    ghost predicate Valid() reads this { |counts| == |w.defs| }

    method VariableLookup(name: string) returns (r: Option<nat>)
      ensures r == Lookup(w.defs, name)
    {
      var i := 0;
      while i < |w.defs|
        invariant i <= |w.defs|
        invariant forall k :: 0 <= k < i ==> w.defs[k].name != name
      {
        if w.defs[i].name == name { return Some(i); }
        i := i + 1;
      }
      return None;
    }

    method VariableExpand(name: string, argv: seq<string>) returns (r: Option<Outcome>)
      requires Valid()
      modifies this`counts
      ensures Lookup(w.defs, name).None? <==> r.None?
      ensures r.Some? ==> r.value == Apply(w, Counted(old(counts)), name, argv)
      ensures (r.Some? ==> r.value.Ok?) ==> counts == old(counts)
      decreases Budget(counts), 0, 0, 0
    {
      var found := VariableLookup(name);
      if found.None? { return None; }
      var i := found.value;
      if |argv| == 0 && counts[i] > 0 { return Some(Err(SelfReference(name))); }
      if counts[i] > MAX_EXPANSIONS { return Some(Err(TooDeep)); }
      BudgetDrops(counts, i);
      counts := counts[i := counts[i] + 1];
      var res := Ok(w.defs[i].value);
      if w.defs[i].flavor == Recursive {
        res := ExpandString(w.defs[i].value, argv);
        if res.Err? { return Some(res); }
      }
      counts := counts[i := counts[i] - 1];
      return Some(res);
    }

    method ExpandString(s: string, argv: seq<string>) returns (r: Outcome)
      requires Valid()
      modifies this`counts
      ensures r == Expand(w, Counted(old(counts)), s, argv)
      ensures r.Ok? ==> counts == old(counts)
      decreases Budget(counts), |s|, 0, 0
    {
      var out, from, p := "", 0, 0;
      ghost var d := Counted(counts);
      PartlyStart(w, d, s, argv);
      while p < |s|
        invariant from <= p <= |s|
        invariant counts == old(counts)
        invariant Partly(w, d, s, argv, out + s[from..p], s[p..])
      {
        if s[p] == '$' {
          var text, next := ExpandDollar(s, p + 1, argv);
          PartlyDollar(w, d, s, argv, out + s[from..p], s[p..], text, s[next..]);
          if text.Err? { return text; }
          out := out + s[from..p] + text.text;
          p, from := next, next;
          assert out + s[from..p] == out;
        } else {
          PartlyPlain(w, d, s, argv, out, from, p);
          p := p + 1;
        }
      }
      PartlyEnd(w, d, s, argv, out + s[from..p]);
      return Ok(out + s[from..p]);
    }

    /** Expands what follows the dollar sign before `p`, and tells where to go on. */
    method ExpandDollar(s: string, p: nat, argv: seq<string>) returns (r: Outcome, next: nat)
      requires Valid() && 0 < p <= |s| && s[p - 1] == '$'
      modifies this`counts
      ensures p <= next <= |s| && (r.Ok? ==> counts == old(counts))
      ensures Continues(w, Counted(old(counts)), s[p - 1..], argv, r, s[next..])
      decreases Budget(counts), |s| - p, 3, 0
    {
      ghost var d := Counted(counts);
      if p == |s| || s[p] != '(' {
        PlainAt(w, d, s, argv, p);
        return Ok("$"), p;
      }
      r, next := ExpandParenthesis(s, p, argv);
    }

    method ExpandParenthesis(s: string, p: nat, argv: seq<string>) returns (r: Outcome, next: nat)
      requires Valid() && 0 < p < |s| && s[p - 1] == '$' && s[p] == '('
      modifies this`counts
      ensures p <= next <= |s| && (r.Ok? ==> counts == old(counts))
      ensures Continues(w, Counted(old(counts)), s[p - 1..], argv, r, s[next..])
      decreases Budget(counts), |s| - p, 2, 1
    {
      var q := FindClosing(s, p + 1);
      next := if q == |s| then q else q + 1;
      if q == |s| {
        r := Unclosed(s, p, argv);
      } else {
        r := EvalAt(s, p, q, argv);
      }
    }

    method Unclosed(s: string, p: nat, ghost argv: seq<string>) returns (r: Outcome)
      requires Valid() && 0 < p < |s| && s[p - 1] == '$' && s[p] == '(' && Closing(s[p + 1..], 0) == None
      ensures r == Err(Unterminated) && Continues(w, Counted(counts), s[p - 1..], argv, r, s[|s|..])
    {
      OpenAt(w, Counted(counts), s, argv, p);
      r := Err(Unterminated);
    }

    method EvalAt(s: string, p: nat, q: nat, argv: seq<string>) returns (r: Outcome)
      requires Valid() && 0 < p < q < |s| && s[p - 1] == '$' && s[p] == '('
      requires Closing(s[p + 1..], 0) == Some(q - p - 1)
      modifies this`counts
      ensures r.Ok? ==> counts == old(counts)
      ensures Continues(w, Counted(old(counts)), s[p - 1..], argv, r, s[q + 1..])
      decreases Budget(counts), |s| - p, 2, 0
    {
      ReferenceAt(w, Counted(counts), s, argv, p, q);
      r := EvalClause(s[p + 1..q], argv);
    }

    /** One character: a comma outside parentheses ends a part, unless there are too many. */
    method SplitStep(ghost all: seq<string>, s: string, parts: seq<string>, prev: nat, p: nat, nest: int)
      returns (parts': seq<string>, prev': nat, nest': int, full: bool)
      requires prev <= p < |s| && |parts| <= FUNCTION_MAX_ARGS && Splitting(all, s, parts, prev, p, nest)
      ensures full ==> |all| > FUNCTION_MAX_ARGS
      ensures !full ==> prev' <= p + 1 && |parts'| <= FUNCTION_MAX_ARGS && Splitting(all, s, parts', prev', p + 1, nest')
    {
      parts', prev', nest', full := parts, prev, nest, false;
      if nest == 0 && s[p] == ',' {
        SplittingCut(all, s, parts, prev, p);
        if |parts| >= FUNCTION_MAX_ARGS {
          full := true;
        } else {
          parts', prev' := parts + [s[prev..p]], p + 1;
        }
      } else {
        SplittingOn(all, s, parts, prev, p, nest);
        nest' := NestAfter(s[p], nest);
      }
    }

    method SplitLoop(ghost all: seq<string>, s: string) returns (r: Option<seq<string>>)
      requires Splitting(all, s, [], 0, 0, 0)
      ensures r.Some? <==> |all| <= FUNCTION_MAX_ARGS
      ensures r.Some? ==> r.value == all
    {
      var parts: seq<string>, prev: nat, p: nat, nest := [], 0, 0, 0;
      while p < |s|
        invariant prev <= p <= |s| && |parts| <= FUNCTION_MAX_ARGS
        invariant Splitting(all, s, parts, prev, p, nest)
      {
        var full;
        parts, prev, nest, full := SplitStep(all, s, parts, prev, p, nest);
        if full { return None; }
        p := p + 1;
      }
      SplittingEnd(all, s, parts, prev, nest);
      if |parts| >= FUNCTION_MAX_ARGS { return None; }
      return Some(parts + [s[prev..]]);
    }

    method SplitClause(s: string) returns (r: Option<seq<string>>)
      ensures r.Some? <==> |Split(s, 0)| <= FUNCTION_MAX_ARGS
      ensures r.Some? ==> r.value == Split(s, 0)
    {
      SplittingStart(s);
      r := SplitLoop(Split(s, 0), s);
    }

    method EvalClause(clause: string, argv: seq<string>) returns (r: Outcome)
      requires Valid()
      modifies this`counts
      ensures r == Evaluate(w, Counted(old(counts)), clause, argv)
      ensures r.Ok? ==> counts == old(counts)
      decreases Budget(counts), |clause|, 2, 0
    {
      var argument := Argument(clause, argv);
      if argument.Some? { return Ok(argument.value); }
      var split := SplitClause(clause);
      if split.None? { return Err(TooManyArguments); }
      var parts := split.value;
      var all := ExpandParts(parts, argv, |clause|);
      if all.Failed? { return Err(all.error); }
      var name, args := all.words[0], all.words[1..];
      var res := VariableExpand(name, args);
      if res.Some? { return res.value; }
      return Otherwise(w, name, args);
    }

    method ExpandParts(parts: seq<string>, argv: seq<string>, ghost bound: nat) returns (r: WordList)
      requires Valid() && forall k :: 0 <= k < |parts| ==> |parts[k]| <= bound
      modifies this`counts
      ensures r == ExpandAll(w, Counted(old(counts)), parts, argv, bound)
      ensures r.Words? ==> counts == old(counts)
      decreases Budget(counts), bound, 1, 0
    {
      ghost var d := Counted(counts);
      var words := [];
      for i := 0 to |parts|
        invariant counts == old(counts) && |words| == i
        invariant ExpandAll(w, d, parts, argv, bound) == After(words, ExpandAll(w, d, parts[i..], argv, bound))
      {
        ExpandNext(w, d, parts, argv, bound, i, words);
        var text := ExpandString(parts[i], argv);
        if text.Err? { return Failed(text.error); }
        words := words + [text.text];
      }
      return Words(words);
    }
  }
}
