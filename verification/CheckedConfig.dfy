/** What the search for recursive dependencies means for calculating values. */
module CheckedConfig {
  import opened Expressions
  import opened Values
  import opened Config
  import opened DepChecker
  import opened Sets

  function DefaultWalk(ds: seq<Default>): seq<Dep> {
    if ds == [] then [] else [ds[0].cond, Some(ds[0].value)] + DefaultWalk(ds[1..])
  }

  function RangeWalk(rs: seq<Range>): seq<Dep> {
    if rs == [] then [] else [rs[0].cond] + RangeWalk(rs[1..])
  }

  /** What `sym_check_sym_deps` looks into: not the end points of ranges. */
  function WalkFor(d: SymDef): seq<Dep> {
    [d.dirDep, d.revDep, d.implied] + d.prompts + DefaultWalk(d.defaults) + RangeWalk(d.ranges)
  }

  function WalksOf(g: Graph): Walks {
    map s | s in g.defs :: WalkFor(g.defs[s])
  }

  /** The symbols that a list of expressions mentions. */
  function WalkSyms(walk: seq<Dep>): set<Sym> { set d, t | d in walk && t in DepSyms(d) :: t }

  lemma WalkSymsAppend(a: seq<Dep>, b: seq<Dep>)
    ensures WalkSyms(a + b) == WalkSyms(a) + WalkSyms(b)
  {
    assert forall d :: d in a + b <==> d in a || d in b;
  }

  lemma WalkSymsPair(d: Dep, e: Dep)
    ensures WalkSyms([d]) == DepSyms(d) && WalkSyms([d, e]) == DepSyms(d) + DepSyms(e)
  {
    assert d in [d] && d in [d, e] && e in [d, e];
  }

  lemma {:induction false} DefaultWalkSyms(ds: seq<Default>)
    ensures WalkSyms(DefaultWalk(ds)) == DefaultSyms(ds)
  {
    if ds != [] {
      var d, rest := ds[0], ds[1..];
      DefaultWalkSyms(rest);
      WalkSymsAppend([d.cond, Some(d.value)], DefaultWalk(rest));
      WalkSymsPair(d.cond, Some(d.value));
      DefaultSymsCons(d, rest);
      assert ds == [d] + rest;
    }
  }

  lemma DefaultSymsCons(d: Default, rest: seq<Default>)
    ensures DefaultSyms([d] + rest) == Syms(d.value) + DepSyms(d.cond) + DefaultSyms(rest)
  {
    assert forall e :: e in [d] + rest <==> e == d || e in rest;
  }

  lemma {:induction false} RangeWalkSyms(rs: seq<Range>)
    ensures WalkSyms(RangeWalk(rs)) == RangeCondSyms(rs)
    ensures WalkSyms(RangeEndWalk(rs)) == RangeEndSyms(rs)
  {
    if rs != [] {
      var r, rest := rs[0], rs[1..];
      RangeWalkSyms(rest);
      WalkSymsAppend([r.cond], RangeWalk(rest));
      WalkSymsPair(r.cond, r.cond);
      WalkSymsAppend([Some(Symbol(r.lo)), Some(Symbol(r.hi))], RangeEndWalk(rest));
      WalkSymsPair(Some(Symbol(r.lo)), Some(Symbol(r.hi)));
      RangeSymsCons(r, rest);
      assert rs == [r] + rest;
    }
  }

  lemma RangeSymsCons(r: Range, rest: seq<Range>)
    ensures RangeCondSyms([r] + rest) == DepSyms(r.cond) + RangeCondSyms(rest)
    ensures RangeEndSyms([r] + rest) == {r.lo, r.hi} + RangeEndSyms(rest)
  {
    assert forall e :: e in [r] + rest <==> e == r || e in rest;
  }

  lemma WalkForSyms(d: SymDef)
    ensures WalkSyms(WalkFor(d)) + RangeEndSyms(d.ranges) == Mentioned(d)
  {
    var head, ds, rs := [d.dirDep, d.revDep, d.implied], DefaultWalk(d.defaults), RangeWalk(d.ranges);
    DefaultWalkSyms(d.defaults);
    RangeWalkSyms(d.ranges);
    WalkSymsAppend(head + d.prompts + ds, rs);
    WalkSymsAppend(head + d.prompts, ds);
    WalkSymsAppend(head, d.prompts);
    assert WalkSyms(d.prompts) == PromptSyms(d.prompts);
    assert head == [d.dirDep] + [d.revDep, d.implied];
    WalkSymsAppend([d.dirDep], [d.revDep, d.implied]);
    WalkSymsPair(d.dirDep, d.dirDep);
    WalkSymsPair(d.revDep, d.implied);
  }

  /** The search follows exactly the mentioned symbols but the end points of ranges. */
  lemma WalkCovers(g: Graph, s: Sym)
    requires s in g.defs
    ensures Next(WalksOf(g), s) + RangeEndSyms(g.defs[s].ranges) == Mentioned(g.defs[s])
  {
    WalkForSyms(g.defs[s]);
    assert WalkOf(WalksOf(g), s) == WalkFor(g.defs[s]);
  }

  /* ----- the edges that the search does not follow ----- */

  function RangeEndWalk(rs: seq<Range>): seq<Dep> {
    if rs == [] then [] else [Some(Symbol(rs[0].lo)), Some(Symbol(rs[0].hi))] + RangeEndWalk(rs[1..])
  }

  predicate NeedsModules(g: Graph, s: Sym)
    requires s in g.defs
  {
    s.Type().Tristate? || HasTristate(Mentioned(g.defs[s]))
  }

  /** Everything that calculating a value looks into: also the end points of ranges, and
      the modules symbol where a tristate takes part. */
  function FullWalk(g: Graph, s: Sym): seq<Dep>
    requires s in g.defs
  {
    if s.Type().Unknown? then [] else
    WalkFor(g.defs[s]) + RangeEndWalk(g.defs[s].ranges) + if NeedsModules(g, s) then [Some(Symbol(g.modules))] else []
  }

  function FullWalks(g: Graph): Walks {
    map s | s in g.defs :: FullWalk(g, s)
  }

  /** The full walks follow exactly the dependencies of calculation. */
  lemma FullWalksAreDeps(g: Graph, s: Sym)
    requires forall t :: t in g.defs ==> t.User?
    ensures Next(FullWalks(g), s) == Deps(g, s)
  {
    if s in g.defs && !s.ty.Unknown? {
      var d := g.defs[s];
      var tail := if NeedsModules(g, s) then [Some(Symbol(g.modules))] else [];
      assert WalkOf(FullWalks(g), s) == WalkFor(d) + RangeEndWalk(d.ranges) + tail;
      WalkSymsAppend(WalkFor(d) + RangeEndWalk(d.ranges), tail);
      WalkSymsAppend(WalkFor(d), RangeEndWalk(d.ranges));
      WalkForSyms(d);
      RangeWalkSyms(d.ranges);
      WalkSymsPair(Some(Symbol(g.modules)), None);
      assert Next(FullWalks(g), s) == WalkSyms(FullWalk(g, s));
    }
  }

  /* ----- ranks and cycles ----- */

  ghost predicate Leads(w: Walks, p: seq<Sym>, s: Sym, t: Sym) {
    |p| > 1 && p[0] == s && p[|p| - 1] == t && Chain(w, p)
  }

  ghost predicate Reaches(w: Walks, s: Sym, t: Sym) { exists p: seq<Sym> :: Leads(w, p, s, t) }

  lemma ReachesNext(w: Walks, s: Sym, t: Sym)
    requires t in Next(w, s)
    ensures Reaches(w, s, t)
  {
    assert Leads(w, [s, t], s, t);
  }

  lemma ReachesStep(w: Walks, s: Sym, t: Sym, u: Sym)
    requires t in Next(w, s) && Reaches(w, t, u)
    ensures Reaches(w, s, u)
  {
    var p :| Leads(w, p, t, u);
    var q := [s] + p;
    forall k | 0 < k < |q| ensures q[k] in Next(w, q[k - 1]) {
      if k > 1 { assert p[k - 1] in Next(w, p[k - 1 - 1]); }
    }
    assert Leads(w, q, s, u);
  }

  /** What `s` reaches within `all`. */
  ghost function Reached(w: Walks, all: set<Sym>, s: Sym): set<Sym> { set t | t in all && Reaches(w, s, t) }

  lemma ReachedShrinks(w: Walks, all: set<Sym>, s: Sym, t: Sym)
    requires t in Next(w, s) && t in all && !OnCycle(w, t)
    ensures |Reached(w, all, t)| < |Reached(w, all, s)|
  {
    ReachesNext(w, s, t);
    forall u | u in Reached(w, all, t) ensures u in Reached(w, all, s) { ReachesStep(w, s, t, u); }
    assert t !in Reached(w, all, t) by {
      if Reaches(w, t, t) {
        var p :| Leads(w, p, t, t);
        assert Cycle(w, p, t);
      }
    }
    assert t in Reached(w, all, s);
    SubsetSmaller(Reached(w, all, t), Reached(w, all, s));
  }

  ghost predicate NoCycle(w: Walks) { forall s :: s in w ==> !OnCycle(w, s) }

  /** The number of symbols it reaches ranks every symbol of a configuration without cycles. */
  lemma NoCycleGivesRank(g: Graph)
    requires Closed(g) && NoCycle(FullWalks(g))
    ensures exists rank: map<Sym, nat> :: Acyclic(g, rank)
  {
    var w, all := FullWalks(g), g.defs.Keys;
    var rank := map s | s in g.defs :: |Reached(w, all, s)|;
    forall s | s in g.defs ensures RanksAfter(g, rank, s, Deps(g, s)) {
      forall t | t in Deps(g, s) && t.User? ensures t in g.defs && t in rank && rank[t] < rank[s] {
        DependencyReachesLess(g, s, t);
      }
    }
    assert Acyclic(g, rank);
  }

  lemma DependencyReachesLess(g: Graph, s: Sym, t: Sym)
    requires Closed(g) && NoCycle(FullWalks(g)) && s in g.defs && t in Deps(g, s) && t.User?
    ensures t in g.defs
    ensures |Reached(FullWalks(g), g.defs.Keys, t)| < |Reached(FullWalks(g), g.defs.Keys, s)|
  {
    FullWalksAreDeps(g, s);
    assert t in g.defs;
    ReachedShrinks(FullWalks(g), g.defs.Keys, s, t);
  }

  /** Only user symbols have dependencies, so a chain that ends in one has no others. */
  lemma ChainUser(g: Graph, p: seq<Sym>, k: nat)
    requires Chain(FullWalks(g), p) && k < |p| && p[|p| - 1].User? && forall s :: s in g.defs ==> s.User?
    ensures p[k].User?
  {
    if k + 1 < |p| {
      assert p[k + 1] in Next(FullWalks(g), p[k + 1 - 1]);
    }
  }

  lemma {:induction false} RankDescends(g: Graph, rank: map<Sym, nat>, p: seq<Sym>, k: nat)
    requires Acyclic(g, rank) && Chain(FullWalks(g), p) && 0 < k < |p| && p[|p| - 1].User?
    ensures p[k] in rank && p[0] in rank && rank[p[k]] < rank[p[0]]
  {
    FullWalksAreDeps(g, p[k - 1]);
    assert p[k] in Next(FullWalks(g), p[k - 1]);
    assert p[k].User? by { ChainUser(g, p, k); }
    assert RanksAfter(g, rank, p[k - 1], Deps(g, p[k - 1]));
    if k > 1 { RankDescends(g, rank, p, k - 1); }
  }

  lemma RankGivesNoCycle(g: Graph, rank: map<Sym, nat>)
    requires Acyclic(g, rank)
    ensures NoCycle(FullWalks(g))
  {
    var w := FullWalks(g);
    forall s | s in w ensures !OnCycle(w, s) {
      forall p: seq<Sym> ensures !Cycle(w, p, s) {
        if Cycle(w, p, s) { RankDescends(g, rank, p, |p| - 1); }
      }
    }
  }

  /** Values can be calculated in some order exactly when no symbol lies on a cycle of
      what calculation looks into. */
  lemma AcyclicIffNoCycle(g: Graph)
    requires Closed(g)
    ensures (exists rank: map<Sym, nat> :: Acyclic(g, rank)) <==> NoCycle(FullWalks(g))
  {
    if NoCycle(FullWalks(g)) {
      NoCycleGivesRank(g);
    }
    if rank: map<Sym, nat> :| Acyclic(g, rank) {
      RankGivesNoCycle(g, rank);
    }
  }

  /** The step from `s` to `t` is not one that the search follows. */
  predicate Unseen(g: Graph, s: Sym, t: Sym) { t !in Next(WalksOf(g), s) }

  /** A step that is not followed goes to an end point of a range or to the modules symbol. */
  lemma UnseenSteps(g: Graph, s: Sym, t: Sym)
    requires forall u :: u in g.defs ==> u.User?
    requires t in Next(FullWalks(g), s) && Unseen(g, s, t)
    ensures s in g.defs && (t in RangeEndSyms(g.defs[s].ranges) || (t == g.modules && NeedsModules(g, s)))
  {
    FullWalksAreDeps(g, s);
    WalkCovers(g, s);
  }

  /** Some cycle takes a step that the search does not follow. */
  ghost predicate UnseenCycle(g: Graph) {
    exists p: seq<Sym>, s: Sym, k: nat :: Cycle(FullWalks(g), p, s) && 0 < k < |p| && Unseen(g, p[k - 1], p[k])
  }

  /** After a sweep without a finding, values can be calculated in some order if and only if
      no cycle goes through an end point of a range or the modules symbol. */
  lemma CheckedExact(g: Graph, order: seq<Sym>)
    requires Closed(g) && Ordered(WalksOf(g), order) && g.defs.Keys <= Elements(order)
    ensures (exists rank: map<Sym, nat> :: Acyclic(g, rank)) <==> !UnseenCycle(g)
  {
    var w := FullWalks(g);
    AcyclicIffNoCycle(g);
    if UnseenCycle(g) {
      UnseenIsCycle(g);
    } else {
      forall s | s in w ensures !OnCycle(w, s) {
        forall p: seq<Sym> ensures !Cycle(w, p, s) {
          if Cycle(w, p, s) { SeenCycle(g, order, p, s); }
        }
      }
    }
  }

  lemma UnseenIsCycle(g: Graph)
    requires UnseenCycle(g)
    ensures !NoCycle(FullWalks(g))
  {
    var w := FullWalks(g);
    var p: seq<Sym>, s: Sym, k: nat :| Cycle(w, p, s) && 0 < k < |p| && Unseen(g, p[k - 1], p[k]);
    assert p[1] in Next(w, p[1 - 1]);
    assert s in w && OnCycle(w, s);
  }

  lemma SeenCycle(g: Graph, order: seq<Sym>, p: seq<Sym>, s: Sym)
    requires Ordered(WalksOf(g), order) && s in Elements(order) && Cycle(FullWalks(g), p, s)
    ensures UnseenCycle(g)
  {
    if !UnseenCycle(g) {
      forall k | 0 < k < |p| ensures p[k] in Next(WalksOf(g), p[k - 1]) {
        assert !Unseen(g, p[k - 1], p[k]);
      }
      assert Cycle(WalksOf(g), p, s);
      OrderedHasNoCycle(WalksOf(g), order, s);
    }
  }

  /** The end points of all ranges are literals or symbols without a type. */
  ghost predicate PlainRanges(g: Graph) {
    forall s :: s in g.defs ==> PlainEnds(g.defs[s].ranges)
  }

  predicate PlainEnds(rs: seq<Range>) {
    forall t :: t in RangeEndSyms(rs) ==> t.Type().Unknown?
  }

  /** `cone` holds the modules symbol and what it depends on, and no tristate. */
  ghost predicate ModulesCone(g: Graph, cone: set<Sym>) {
    && (g.modules.User? ==> g.modules in cone)
    && (forall s :: s in cone ==> s in g.defs && !s.Type().Tristate?)
    && (forall s, t :: s in cone && t in Mentioned(g.defs[s]) && t.User? && !s.Type().Unknown? ==> t in cone)
  }

  ghost predicate Closed(g: Graph) {
    && (forall s :: s in g.defs ==> s.User?)
    && Known(g, g.modules)
    && (forall s, t :: s in g.defs && t in Mentioned(g.defs[s]) && t.User? ==> t in g.defs)
  }

  function IndexOf(order: seq<Sym>, s: Sym): (k: nat)
    requires s in order
    ensures k < |order| && order[k] == s && forall j :: 0 <= j < k ==> order[j] != s
  {
    if order[0] == s then 0 else 1 + IndexOf(order[1..], s)
  }

  /** The place of `s` in the order of calculation: symbols without a type first,
      then the cone of the modules symbol, then the others. */
  function Place(order: seq<Sym>, cone: set<Sym>, s: Sym): nat
    requires s in order
  {
    if s.Type().Unknown? then 0
    else if s in cone then IndexOf(order, s) + 1
    else IndexOf(order, s) + 1 + |order|
  }

  function PlaceMap(g: Graph, order: seq<Sym>, cone: set<Sym>): map<Sym, nat>
    requires g.defs.Keys <= Elements(order)
  {
    map s | s in g.defs :: assert s in Elements(order); Place(order, cone, s)
  }

  lemma EarlierInOrder(w: Walks, order: seq<Sym>, s: Sym, t: Sym)
    requires Ordered(w, order) && s in order && t in Next(w, s)
    ensures t in order && IndexOf(order, t) < IndexOf(order, s)
  {
    var k := IndexOf(order, s);
    assert t in Elements(order[..k]);
    var j :| 0 <= j < k && order[..k][j] == t;
    assert order[j] == t;
  }

  lemma MentionedEarlier(g: Graph, order: seq<Sym>, s: Sym, t: Sym)
    requires Ordered(WalksOf(g), order) && PlainRanges(g)
    requires s in g.defs && s in order && t in Mentioned(g.defs[s]) && !t.Type().Unknown?
    ensures t in order && IndexOf(order, t) < IndexOf(order, s)
  {
    WalkCovers(g, s);
    assert PlainEnds(g.defs[s].ranges);
    EarlierInOrder(WalksOf(g), order, s, t);
  }

  /** What needs the modules symbol lies outside its cone. */
  lemma NeedsModulesOutsideCone(g: Graph, cone: set<Sym>, s: Sym)
    requires ModulesCone(g, cone) && s in g.defs && s.User? && !s.ty.Unknown?
    requires s.ty.Tristate? || HasTristate(Mentioned(g.defs[s]))
    ensures s !in cone
  {}

  lemma PlacedAfter(g: Graph, order: seq<Sym>, cone: set<Sym>, s: Sym, t: Sym)
    requires Closed(g) && Ordered(WalksOf(g), order) && g.defs.Keys <= Elements(order)
    requires PlainRanges(g) && ModulesCone(g, cone)
    requires s in g.defs && t in Deps(g, s) && t.User?
    ensures t in g.defs && PlaceMap(g, order, cone)[t] < PlaceMap(g, order, cone)[s]
  {
    var m := Mentioned(g.defs[s]);
    assert t in g.defs;
    assert s in Elements(order) && t in Elements(order);
    if t in m {
      if !t.ty.Unknown? { MentionedEarlier(g, order, s, t); }
    } else {
      NeedsModulesOutsideCone(g, cone, s);
    }
  }

  /** A configuration without a finding can be calculated: some order puts every
      symbol after what its value depends on. */
  lemma CheckedIsAcyclic(g: Graph, order: seq<Sym>, cone: set<Sym>)
    requires Closed(g) && Ordered(WalksOf(g), order) && g.defs.Keys <= Elements(order)
    requires PlainRanges(g) && ModulesCone(g, cone)
    ensures Acyclic(g, PlaceMap(g, order, cone))
  {
    var rank := PlaceMap(g, order, cone);
    forall s | s in g.defs ensures RanksAfter(g, rank, s, Deps(g, s)) {
      forall t | t in Deps(g, s) && t.User? ensures t in g.defs && t in rank && rank[t] < rank[s] {
        PlacedAfter(g, order, cone, s, t);
      }
    }
  }

  /* ----- what the search does not see ----- */

  function BoundedBy(t: Sym): SymDef {
    SymDef([], [], [Range(t, t, None)], None, None, None, false, false, NO, "")
  }

  /** Two int symbols, each the range of the other. */
  function RangeLoop(a: Sym, b: Sym): Graph {
    Graph(map[a := BoundedBy(b), b := BoundedBy(a)], No)
  }

  /** The search has no finding although no order of calculation exists. */
  lemma RangeLoopIsNotFound(a: Sym, b: Sym)
    requires a.User? && b.User? && a != b && a.ty.Int? && b.ty.Int?
    ensures Ordered(WalksOf(RangeLoop(a, b)), [a, b])
    ensures forall rank: map<Sym, nat> :: !Acyclic(RangeLoop(a, b), rank)
  {
    var g := RangeLoop(a, b);
    var w := WalksOf(g);
    BoundedMentionsNothing(g, a, b);
    BoundedMentionsNothing(g, b, a);
    forall rank: map<Sym, nat> ensures !Acyclic(g, rank) {
      MentionsRangeEnd(g, a, b);
      MentionsRangeEnd(g, b, a);
    }
  }

  lemma BoundedMentionsNothing(g: Graph, s: Sym, t: Sym)
    requires s in g.defs && g.defs[s] == BoundedBy(t)
    ensures Next(WalksOf(g), s) == {}
  {
    var rs := BoundedBy(t).ranges;
    assert rs[1..] == [] && RangeWalk(rs) == [None] + RangeWalk([]);
    assert WalkFor(BoundedBy(t)) == [None, None, None, None];
    assert WalkOf(WalksOf(g), s) == [None, None, None, None];
  }

  lemma MentionsRangeEnd(g: Graph, s: Sym, t: Sym)
    requires s in g.defs && s.User? && s.ty.Int? && g.defs[s] == BoundedBy(t)
    ensures t in Deps(g, s)
  {
    assert Range(t, t, None) in g.defs[s].ranges;
    assert t in RangeEndSyms(g.defs[s].ranges);
  }
}
