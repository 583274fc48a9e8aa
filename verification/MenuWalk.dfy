/** The walks over the menu entries that write configuration files.  They follow
    the links with one pointer and no stack. */
module MenuWalk {
  import opened MenuTree
  import opened MenuLinks

  /** An entry is reached, or left behind after everything below it. */
  datatype Event = Visit(id: nat) | End(id: nat)

  function Tour(t: Tree): seq<Event> { [Visit(t.id)] + TourAll(t.kids) + [End(t.id)] }

  function TourAll(ts: seq<Tree>): seq<Event> {
    if ts == [] then [] else Tour(ts[0]) + TourAll(ts[1..])
  }

  /** An entry above the current one, and the entries that follow it. */
  datatype Frame = Frame(id: nat, rest: seq<Tree>)

  function Top(fs: seq<Frame>): Ptr { if fs == [] then Null else To(fs[0].id) }

  /** The links hold the entries above the current one. */
  predicate Stacked(l: Links, fs: seq<Frame>) {
    fs == [] ||
    (&& Has(l, fs[0].id)
     && l.parent[fs[0].id] == Top(fs[1..])
     && l.next[fs[0].id] == Head(fs[0].rest, Null)
     && Linked(l, fs[0].rest, Top(fs[1..]), Null)
     && Stacked(l, fs[1..]))
  }

  /** What remains to be done above the current entries. */
  function Unwind(fs: seq<Frame>): seq<Event> {
    if fs == [] then [] else [End(fs[0].id)] + TourAll(fs[0].rest) + Unwind(fs[1..])
  }

  function UnwindPre(fs: seq<Frame>): seq<nat> {
    if fs == [] then [] else PreAll(fs[0].rest) + UnwindPre(fs[1..])
  }

  /** What remains to be done with the current entries and above. */
  function Remaining(todo: seq<Tree>, fs: seq<Frame>): seq<Event> { TourAll(todo) + Unwind(fs) }

  function RemainingPre(todo: seq<Tree>, fs: seq<Frame>): seq<nat> { PreAll(todo) + UnwindPre(fs) }

  /** A visit to the first of the current entries. */
  lemma VisitFirst(x: Tree, rest: seq<Tree>, fs: seq<Frame>)
    ensures Remaining([x] + rest, fs) == [Visit(x.id)] + Remaining(x.kids, [Frame(x.id, rest)] + fs)
  {
    var v, k, e, r, u := [Visit(x.id)], TourAll(x.kids), [End(x.id)], TourAll(rest), Unwind(fs);
    assert ([x] + rest)[1..] == rest && ([Frame(x.id, rest)] + fs)[1..] == fs;
    assert TourAll([x] + rest) == (v + k + e) + r;
    assert Unwind([Frame(x.id, rest)] + fs) == e + r + u;
    assert ((v + k + e) + r) + u == v + (k + (e + r + u));
  }

  lemma VisitFirstPre(x: Tree, rest: seq<Tree>, fs: seq<Frame>)
    ensures RemainingPre([x] + rest, fs) == [x.id] + RemainingPre(x.kids, [Frame(x.id, rest)] + fs)
  {
    var k, r, u := PreAll(x.kids), PreAll(rest), UnwindPre(fs);
    assert ([x] + rest)[1..] == rest && ([Frame(x.id, rest)] + fs)[1..] == fs;
    assert PreAll([x] + rest) == ([x.id] + k) + r;
    assert UnwindPre([Frame(x.id, rest)] + fs) == r + u;
    assert (([x.id] + k) + r) + u == [x.id] + (k + (r + u));
  }

  /** Leaving an entry without children behind. */
  lemma LeaveTop(f: Frame, fs: seq<Frame>)
    ensures Remaining([], [f] + fs) == [End(f.id)] + Remaining(f.rest, fs)
    ensures RemainingPre([], [f] + fs) == RemainingPre(f.rest, fs)
  {
    assert ([f] + fs)[1..] == fs;
    assert [] + ([End(f.id)] + TourAll(f.rest) + Unwind(fs)) == [End(f.id)] + (TourAll(f.rest) + Unwind(fs));
    assert [] + (PreAll(f.rest) + UnwindPre(fs)) == PreAll(f.rest) + UnwindPre(fs);
  }

  /** The current entries and all above them are linked. */
  predicate Position(l: Links, todo: seq<Tree>, fs: seq<Frame>) {
    Linked(l, todo, Top(fs), Null) && Stacked(l, fs)
  }

  lemma StackedTop(l: Links, f: Frame, fs: seq<Frame>)
    requires Stacked(l, [f] + fs)
    ensures Has(l, f.id) && l.parent[f.id] == Top(fs) && l.next[f.id] == Head(f.rest, Null)
    ensures Position(l, f.rest, fs)
  {
    assert ([f] + fs)[1..] == fs;
  }

  lemma Append(log: seq<Event>, e: Event, rest: seq<Event>)
    ensures log + ([e] + rest) == (log + [e]) + rest
  {
  }

  /* ----- conf_write ----- */

  /** The part of the walk from `end_check` on: entries are left behind until one
      with a following entry is found, or the root is left. */
  method Climb(l: Links, start: nat, log0: seq<Event>, ghost f: Frame, ghost fs0: seq<Frame>)
    returns (menu: Ptr, log: seq<Event>, ghost todo: seq<Tree>, ghost fs: seq<Frame>)
    requires start == f.id && Stacked(l, [f] + fs0)
    ensures menu == Head(todo, Null) && (menu == Null ==> fs == [])
    ensures Position(l, todo, fs)
    ensures log + Remaining(todo, fs) == log0 + Remaining([], [f] + fs0)
    ensures |log| > |log0|
  {
    var m := start;
    menu, log := To(m), log0;
    ghost var g := f;
    fs := fs0;
    ghost var goal := log0 + Remaining([], [f] + fs0);
    while true
      invariant m == g.id && Stacked(l, [g] + fs)
      invariant log + Remaining([], [g] + fs) == goal
      invariant |log| >= |log0|
      decreases |fs|
    {
      StackedTop(l, g, fs);
      LeaveTop(g, fs);
      Append(log, End(m), Remaining(g.rest, fs));
      log := log + [End(m)];
      if l.next[m] != Null {
        menu := l.next[m];
        todo := g.rest;
        return;
      }
      menu := l.parent[m];
      if menu == Null {
        todo := [];
        return;
      }
      m := menu.id;
      assert fs == [fs[0]] + fs[1..];
      g, fs := fs[0], fs[1..];
    }
  }

  /** The walk of `conf_write`: the recursive tour of everything below the root, and
      the root's own end if there is anything. */
  method WriteWalk(l: Links, root: nat, ghost t: Tree) returns (log: seq<Event>)
    requires root == t.id && Linked(l, [t], Null, Null)
    ensures log == TourAll(t.kids) + (if t.kids == [] then [] else [End(root)])
  {
    log := [];
    assert [t] + [] == [t];
    LinkedEntry(l, t, [], Null, Null);
    var menu := l.list[root];
    ghost var todo, fs := t.kids, if t.kids == [] then [] else [Frame(root, [])];
    ghost var goal := Remaining(todo, fs);
    RootFrame(root, t.kids);
    while menu != Null
      invariant menu == Head(todo, Null) && (menu == Null ==> fs == [])
      invariant Position(l, todo, fs) && log + Remaining(todo, fs) == goal
      decreases |Remaining(todo, fs)|
    {
      ghost var x, rest := todo[0], todo[1..];
      assert todo == [x] + rest;
      VisitFirst(x, rest, fs);
      LinkedEntry(l, x, rest, Top(fs), Null);
      ghost var up := [Frame(x.id, rest)] + fs;
      assert up[1..] == fs;
      assert log + ([Visit(x.id)] + Remaining(x.kids, up)) == (log + [Visit(x.id)]) + Remaining(x.kids, up);
      log := log + [Visit(menu.id)];
      if l.list[menu.id] != Null {
        menu := l.list[menu.id];
        todo, fs := x.kids, up;
      } else {
        menu, log, todo, fs := Climb(l, menu.id, log, Frame(x.id, rest), fs);
      }
    }
  }

  /* ----- conf_write_defconfig ----- */

  /** The climb of `conf_write_defconfig`, from an entry without children. */
  method ClimbSilently(l: Links, start: nat, ghost f: Frame, ghost fs0: seq<Frame>)
    returns (menu: Ptr, ghost todo: seq<Tree>, ghost fs: seq<Frame>)
    requires start == f.id && Stacked(l, [f] + fs0)
    ensures menu == Head(todo, Null) && (menu == Null ==> fs == [])
    ensures Position(l, todo, fs)
    ensures RemainingPre(todo, fs) == RemainingPre([], [f] + fs0)
  {
    assert ([f] + fs0)[1..] == fs0;
    LeaveTop(f, fs0);
    if l.next[start] != Null { return l.next[start], f.rest, fs0; }
    menu := l.parent[start];
    fs := fs0;
    todo := [];
    while menu != Null
      invariant menu == Top(fs) && Stacked(l, fs)
      invariant RemainingPre([], fs) == RemainingPre([], [f] + fs0)
      decreases |fs|
    {
      assert fs == [fs[0]] + fs[1..];
      LeaveTop(fs[0], fs[1..]);
      if l.next[menu.id] != Null { return l.next[menu.id], fs[0].rest, fs[1..]; }
      menu := l.parent[menu.id];
      fs := fs[1..];
    }
  }

  /** Nothing follows the root. */
  lemma RootFrame(root: nat, kids: seq<Tree>)
    ensures var fs := if kids == [] then [] else [Frame(root, [])];
            && RemainingPre(kids, fs) == PreAll(kids)
            && Remaining(kids, fs) == TourAll(kids) + if kids == [] then [] else [End(root)]
  {
    if kids == [] {
      assert UnwindPre([]) == [] && Unwind([]) == [];
    } else {
      var fs := [Frame(root, [])];
      assert fs[1..] == [] && PreAll([]) == [] && TourAll([]) == [];
      assert UnwindPre(fs) == [] && Unwind(fs) == [End(root)];
    }
  }

  /** The walk of `conf_write_defconfig` visits the same entries in the same order. */
  method DefconfigWalk(l: Links, root: nat, ghost t: Tree) returns (log: seq<nat>)
    requires root == t.id && Linked(l, [t], Null, Null)
    ensures log == PreAll(t.kids)
  {
    log := [];
    assert [t] + [] == [t];
    LinkedEntry(l, t, [], Null, Null);
    var menu := l.list[root];
    ghost var todo, fs := t.kids, if t.kids == [] then [] else [Frame(root, [])];
    ghost var goal := RemainingPre(todo, fs);
    RootFrame(root, t.kids);
    while menu != Null
      invariant menu == Head(todo, Null) && (menu == Null ==> fs == [])
      invariant Position(l, todo, fs) && log + RemainingPre(todo, fs) == goal
      decreases |RemainingPre(todo, fs)|
    {
      ghost var x, rest := todo[0], todo[1..];
      assert todo == [x] + rest;
      VisitFirstPre(x, rest, fs);
      LinkedEntry(l, x, rest, Top(fs), Null);
      ghost var up := [Frame(x.id, rest)] + fs;
      assert up[1..] == fs;
      assert log + ([x.id] + RemainingPre(x.kids, up)) == (log + [x.id]) + RemainingPre(x.kids, up);
      log := log + [menu.id];
      if l.list[menu.id] != Null {
        menu := l.list[menu.id];
        todo, fs := x.kids, up;
      } else {
        menu, todo, fs := ClimbSilently(l, menu.id, Frame(x.id, rest), fs);
      }
    }
  }

  /* ----- what the tour is ----- */

  /** The entries of a tour, in the order of the visits. */
  function Visits(es: seq<Event>): seq<nat> {
    if es == [] then [] else (if es[0].Visit? then [es[0].id] else []) + Visits(es[1..])
  }

  /** The entries of a tour, in the order of the ends. */
  function Ends(es: seq<Event>): seq<nat> {
    if es == [] then [] else (if es[0].End? then [es[0].id] else []) + Ends(es[1..])
  }

  lemma {:induction false} VisitsAppend(a: seq<Event>, b: seq<Event>)
    ensures Visits(a + b) == Visits(a) + Visits(b)
  {
    if a == [] { assert a + b == b; }
    else {
      var h := if a[0].Visit? then [a[0].id] else [];
      assert (a + b)[0] == a[0] && (a + b)[1..] == a[1..] + b;
      VisitsAppend(a[1..], b);
      assert Visits(a + b) == h + (Visits(a[1..]) + Visits(b));
    }
  }

  lemma {:induction false} EndsAppend(a: seq<Event>, b: seq<Event>)
    ensures Ends(a + b) == Ends(a) + Ends(b)
  {
    if a == [] { assert a + b == b; }
    else {
      var h := if a[0].End? then [a[0].id] else [];
      assert (a + b)[0] == a[0] && (a + b)[1..] == a[1..] + b;
      EndsAppend(a[1..], b);
      assert Ends(a + b) == h + (Ends(a[1..]) + Ends(b));
    }
  }

  /** A tour visits the entries in the displayed order. */
  lemma {:induction false} TourVisits(ts: seq<Tree>)
    ensures Visits(TourAll(ts)) == PreAll(ts)
    decreases CountAll(ts)
  {
    if ts != [] {
      var x := ts[0];
      assert Count(x) == 1 + CountAll(x.kids);
      TourVisits(x.kids);
      TourVisits(ts[1..]);
      VisitsAppend(Tour(x), TourAll(ts[1..]));
      VisitsAppend([Visit(x.id)] + TourAll(x.kids), [End(x.id)]);
      VisitsAppend([Visit(x.id)], TourAll(x.kids));
      assert Visits(Tour(x)) == [x.id] + PreAll(x.kids);
    }
  }

  /** The entries, each after everything below it. */
  function PostAll(ts: seq<Tree>): seq<nat>
    decreases CountAll(ts)
  {
    if ts == [] then []
    else assert Count(ts[0]) == 1 + CountAll(ts[0].kids); PostAll(ts[0].kids) + [ts[0].id] + PostAll(ts[1..])
  }

  /** A tour ends each entry after everything below it. */
  lemma {:induction false} TourEnds(ts: seq<Tree>)
    ensures Ends(TourAll(ts)) == PostAll(ts)
    decreases CountAll(ts)
  {
    if ts != [] {
      var x := ts[0];
      assert Count(x) == 1 + CountAll(x.kids);
      TourEnds(x.kids);
      TourEnds(ts[1..]);
      EndsAppend(Tour(x), TourAll(ts[1..]));
      EndsAppend([Visit(x.id)] + TourAll(x.kids), [End(x.id)]);
      EndsAppend([Visit(x.id)], TourAll(x.kids));
      assert Ends(Tour(x)) == PostAll(x.kids) + [x.id];
    }
  }
}
