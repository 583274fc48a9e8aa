/**
 * Where each menu entry ends up, read off the original tree in one pass: a stack holds the earlier
 * siblings that may still take in what follows.
 */
module MenuPlaces {
  import opened MenuTree

  /** An entry, the entry that takes it in, and the parent it has in the end. */
  datatype Place = Place(id: nat, owner: nat, parent: nat)

  /** A sibling that may take in what follows, and the parent its children get in the end. */
  datatype Open = Open(id: nat, shows: nat)

  /** The siblings left open when `y` comes: those that do not take it in are closed. */
  function Reach(d: Rules, stack: seq<Open>, y: nat): (r: seq<Open>)
    ensures r != [] ==> d.absorbs(r[0].id, y)
    ensures forall o :: o in r ==> o in stack
  {
    if stack == [] || d.absorbs(stack[0].id, y) then stack else Reach(d, stack[1..], y)
  }

  /** Only those are closed that come before the first one that takes it in. */
  lemma {:induction false} ReachFirst(d: Rules, stack: seq<Open>, y: nat) returns (n: nat)
    ensures n <= |stack| && Reach(d, stack, y) == stack[n..]
    ensures forall k :: 0 <= k < n ==> !d.absorbs(stack[k].id, y)
  {
    if stack == [] || d.absorbs(stack[0].id, y) {
      n := 0;
    } else {
      var m := ReachFirst(d, stack[1..], y);
      n := m + 1;
      assert stack[1..][m..] == stack[n..];
      forall k | 0 <= k < n ensures !d.absorbs(stack[k].id, y) {
        if k > 0 { assert stack[k] == stack[1..][k - 1]; }
      }
    }
  }

  /** Only an entry with a symbol and without children of its own takes in others. */
  predicate Eligible(d: Rules, x: Tree) { x.kids == [] && d.hasSym(x.id) }

  function Owner(open: seq<Open>, p: nat): nat { if open == [] then p else open[0].id }
  function Parent(open: seq<Open>, vp: nat): nat { if open == [] then vp else open[0].shows }

  /** What the children of `x` get as parent: `x` itself, or the parent of `x` if it has no prompt. */
  function Shows(d: Rules, x: nat, parent: nat): nat { if d.hasPrompt(x) then x else parent }

  function Opened(d: Rules, x: Tree, open: seq<Open>, vp: nat): seq<Open> {
    if Eligible(d, x) then [Open(x.id, Shows(d, x.id, Parent(open, vp)))] + open else open
  }

  /** The places of the siblings `ts` and all below them; `p` is their parent in the original tree,
      and `vp` what its children get as parent. */
  function Places(d: Rules, ts: seq<Tree>, stack: seq<Open>, p: nat, vp: nat): (r: seq<Place>)
    decreases CountAll(ts)
  {
    if ts == [] then [] else
    var x := ts[0];
    assert Count(x) == 1 + CountAll(x.kids);
    var open := Reach(d, stack, x.id);
    [Place(x.id, Owner(open, p), Parent(open, vp))]
    + Places(d, x.kids, [], x.id, Shows(d, x.id, Parent(open, vp)))
    + Places(d, ts[1..], Opened(d, x, open, vp), p, vp)
  }

  // ----- the reshaped tree has these parents -----

  datatype Edge = Edge(id: nat, parent: nat)

  /** The entries below `p` in displayed order, with their parents. */
  function Edges(ts: seq<Tree>, p: nat): seq<Edge>
    decreases CountAll(ts)
  {
    if ts == [] then [] else
    assert Count(ts[0]) == 1 + CountAll(ts[0].kids);
    [Edge(ts[0].id, p)] + Edges(ts[0].kids, ts[0].id) + Edges(ts[1..], p)
  }

  function EdgesOf(ps: seq<Place>): (r: seq<Edge>)
    ensures |r| == |ps|
    ensures forall k :: 0 <= k < |ps| ==> r[k] == Edge(ps[k].id, ps[k].parent)
  {
    if ps == [] then [] else [Edge(ps[0].id, ps[0].parent)] + EdgesOf(ps[1..])
  }

  lemma EdgesOfAppend(a: Place, b: seq<Place>, c: seq<Place>)
    ensures EdgesOf([a] + b + c) == [Edge(a.id, a.parent)] + EdgesOf(b) + EdgesOf(c)
  {
    var left, right := EdgesOf([a] + b + c), [Edge(a.id, a.parent)] + EdgesOf(b) + EdgesOf(c);
    assert forall k :: 0 <= k < |left| ==> left[k] == right[k];
  }

  lemma {:induction false} EdgesAppend(a: seq<Tree>, b: seq<Tree>, p: nat)
    ensures Edges(a + b, p) == Edges(a, p) + Edges(b, p)
    decreases CountAll(a)
  {
    if a == [] {
      assert a + b == b;
    } else {
      assert (a + b)[1..] == a[1..] + b;
      EdgesAppend(a[1..], b, p);
      var head := [Edge(a[0].id, p)] + Edges(a[0].kids, a[0].id);
      assert head + (Edges(a[1..], p) + Edges(b, p)) == (head + Edges(a[1..], p)) + Edges(b, p);
    }
  }

  /** What a finished entry and its children become when its siblings are flattened. */
  function Lay(d: Rules, y: Tree, par: nat): seq<Edge> { [Edge(y.id, par)] + Edges(y.kids, Shows(d, y.id, par)) }

  function LayAll(d: Rules, ys: seq<Tree>, par: nat): seq<Edge> {
    if ys == [] then [] else Lay(d, ys[0], par) + LayAll(d, ys[1..], par)
  }

  lemma {:induction false} FlattenShown(d: Rules, ts: seq<Tree>, rest: seq<Tree>)
    requires Shown(d, ts)
    ensures Flatten(d, ts + rest) == ts + Flatten(d, rest)
    decreases CountAll(ts)
  {
    if ts == [] {
      assert ts + rest == rest;
    } else {
      assert (ts + rest)[1..] == ts[1..] + rest;
      FlattenShown(d, ts[1..], rest);
      assert [ts[0]] + (ts[1..] + Flatten(d, rest)) == ts + Flatten(d, rest);
    }
  }

  lemma {:induction false} FlattenLays(d: Rules, ys: seq<Tree>, par: nat)
    requires ShownBelow(d, ys)
    ensures Edges(Flatten(d, ys), par) == LayAll(d, ys, par)
  {
    if ys != [] {
      var x, rest := ys[0], ys[1..];
      assert Shown(d, x.kids);
      assert forall k :: 0 <= k < |rest| ==> rest[k] == ys[k + 1];
      FlattenLays(d, rest, par);
      if x.kids != [] && !d.hasPrompt(x.id) {
        FlattenShown(d, x.kids, rest);
        EdgesCons(Node(x.id, []), x.kids + Flatten(d, rest), par);
        EdgesAppend(x.kids, Flatten(d, rest), par);
        assert [Edge(x.id, par)] + (Edges(x.kids, par) + Edges(Flatten(d, rest), par)) == Lay(d, x, par) + LayAll(d, rest, par);
      } else {
        EdgesCons(x, Flatten(d, rest), par);
      }
    }
  }

  lemma EdgesCons(x: Tree, rest: seq<Tree>, p: nat)
    ensures Edges([x] + rest, p) == [Edge(x.id, p)] + Edges(x.kids, x.id) + Edges(rest, p)
  {
    assert ([x] + rest)[1..] == rest;
  }

  lemma PlacesStep(d: Rules, x: Tree, rest: seq<Tree>, stack: seq<Open>, p: nat, vp: nat)
    ensures var open := Reach(d, stack, x.id);
      Places(d, [x] + rest, stack, p, vp) ==
      [Place(x.id, Owner(open, p), Parent(open, vp))]
      + Places(d, x.kids, [], x.id, Shows(d, x.id, Parent(open, vp)))
      + Places(d, rest, Opened(d, x, open, vp), p, vp)
  {
    assert ([x] + rest)[1..] == rest;
  }

  lemma PlacesCons(d: Rules, x: Tree, rest: seq<Tree>, stack: seq<Open>, p: nat, vp: nat)
    ensures var open := Reach(d, stack, x.id);
      EdgesOf(Places(d, [x] + rest, stack, p, vp)) ==
      [Edge(x.id, Parent(open, vp))]
      + EdgesOf(Places(d, x.kids, [], x.id, Shows(d, x.id, Parent(open, vp))))
      + EdgesOf(Places(d, rest, Opened(d, x, open, vp), p, vp))
  {
    PlacesStep(d, x, rest, stack, p, vp);
    var open := Reach(d, stack, x.id);
    EdgesOfAppend(Place(x.id, Owner(open, p), Parent(open, vp)),
                  Places(d, x.kids, [], x.id, Shows(d, x.id, Parent(open, vp))),
                  Places(d, rest, Opened(d, x, open, vp), p, vp));
  }

  /** Closing the top of the stack first changes nothing if it does not take in the next entry. */
  lemma PlacesClose(d: Rules, ts: seq<Tree>, top: Open, stack: seq<Open>, p: nat, vp: nat)
    requires ts == [] || !d.absorbs(top.id, ts[0].id)
    ensures Places(d, ts, [top] + stack, p, vp) == Places(d, ts, stack, p, vp)
  {
    assert ([top] + stack)[1..] == stack;
  }

  lemma Assoc(a: seq<Edge>, b: seq<Edge>, c: seq<Edge>)
    ensures (a + b) + c == a + (b + c)
  {}

  lemma {:induction false} FinalizePlaces(d: Rules, x: Tree, rest: seq<Tree>, stack: seq<Open>, p: nat, vp: nat)
    requires stack == [] || d.absorbs(stack[0].id, x.id)
    ensures var (y, left) := Finalize(d, x, rest);
      EdgesOf(Places(d, [x] + rest, stack, p, vp)) ==
      Lay(d, y, Parent(stack, vp)) + EdgesOf(Places(d, left, stack, p, vp))
    decreases Count(x) + CountAll(rest), 0
  {
    var par := Parent(stack, vp);
    var self := Shows(d, x.id, par);
    assert Reach(d, stack, x.id) == stack;
    PlacesCons(d, x, rest, stack, p, vp);
    if x.kids != [] {
      assert Count(x) == 1 + CountAll(x.kids);
      FinalizeAllPlaces(d, x.kids, x.id, self);
      FinalizeAllShows(d, x.kids);
      FlattenLays(d, FinalizeAll(d, x.kids), self);
    } else if d.hasSym(x.id) {
      var (ks, left) := Absorb(d, x.id, rest);
      AbsorbPlaces(d, Open(x.id, self), rest, stack, p, vp);
      AbsorbShows(d, x.id, rest);
      FlattenLays(d, ks, self);
      Assoc([Edge(x.id, par)], LayAll(d, ks, self), EdgesOf(Places(d, left, stack, p, vp)));
      assert EdgesOf(Places(d, [], [], x.id, self)) == [];
    } else {
      assert EdgesOf(Places(d, [], [], x.id, self)) == [];
    }
  }

  lemma {:induction false} AbsorbPlaces(d: Rules, m: Open, rest: seq<Tree>, stack: seq<Open>, p: nat, vp: nat)
    ensures var (ks, left) := Absorb(d, m.id, rest);
      EdgesOf(Places(d, rest, [m] + stack, p, vp)) == LayAll(d, ks, m.shows) + EdgesOf(Places(d, left, stack, p, vp))
    decreases CountAll(rest), 1
  {
    if rest == [] || !d.absorbs(m.id, rest[0].id) {
      PlacesClose(d, rest, m, stack, p, vp);
    } else {
      var (y, left1) := Finalize(d, rest[0], rest[1..]);
      var (ks, left) := Absorb(d, m.id, left1);
      assert rest == [rest[0]] + rest[1..];
      FinalizePlaces(d, rest[0], rest[1..], [m] + stack, p, vp);
      AbsorbPlaces(d, m, left1, stack, p, vp);
      assert ([y] + ks)[1..] == ks;
      Assoc(Lay(d, y, m.shows), LayAll(d, ks, m.shows), EdgesOf(Places(d, left, stack, p, vp)));
    }
  }

  lemma {:induction false} FinalizeAllPlaces(d: Rules, ts: seq<Tree>, p: nat, vp: nat)
    ensures EdgesOf(Places(d, ts, [], p, vp)) == LayAll(d, FinalizeAll(d, ts), vp)
    decreases CountAll(ts), 1
  {
    if ts != [] {
      var (y, left) := Finalize(d, ts[0], ts[1..]);
      assert ts == [ts[0]] + ts[1..];
      FinalizePlaces(d, ts[0], ts[1..], [], p, vp);
      FinalizeAllPlaces(d, left, p, vp);
      assert ([y] + FinalizeAll(d, left))[1..] == FinalizeAll(d, left);
    }
  }

  /** The finished root has exactly the entries and parents of the one-pass reading. */
  lemma RootPlaces(d: Rules, t: Tree)
    ensures Edges(Finalize(d, t, []).0.kids, t.id) == EdgesOf(Places(d, t.kids, [], t.id, t.id))
  {
    if t.kids != [] {
      FinalizeAllPlaces(d, t.kids, t.id, t.id);
      FinalizeAllShows(d, t.kids);
      FlattenLays(d, FinalizeAll(d, t.kids), t.id);
    }
  }

  // ----- what the places mean -----

  /** An entry of the original tree with its parent there. */
  datatype Entry = Entry(tree: Tree, parent: nat)

  function Entries(ts: seq<Tree>, p: nat): (r: seq<Entry>)
    ensures |r| == CountAll(ts)
    decreases CountAll(ts)
  {
    if ts == [] then [] else
    assert Count(ts[0]) == 1 + CountAll(ts[0].kids);
    [Entry(ts[0], p)] + Entries(ts[0].kids, ts[0].id) + Entries(ts[1..], p)
  }

  /** `pl` has a right owner for the entry `e`: its parent in the original tree, or an earlier sibling
      with a symbol and without children that takes it in. */
  ghost predicate RightOwner(d: Rules, before: seq<Entry>, e: Entry, pl: Place) {
    && pl.id == e.tree.id
    && (pl.owner == e.parent || (d.absorbs(pl.owner, pl.id) && Waits(d, before, pl.owner, e.parent)))
  }

  /** An earlier sibling below `p` with a symbol and without children. */
  ghost predicate Waits(d: Rules, before: seq<Entry>, id: nat, p: nat) {
    exists e :: e in before && e.tree.id == id && e.parent == p && Eligible(d, e.tree)
  }

  /** What comes below `owner` gets `owner` as its parent, or the parent of `owner` if that has no prompt. */
  ghost predicate RightParent(d: Rules, root: nat, placed: seq<Place>, owner: nat, parent: nat) {
    || (parent == owner && (d.hasPrompt(owner) || owner == root))
    || (!d.hasPrompt(owner) && exists pl :: pl in placed && pl.id == owner && pl.parent == parent)
  }

  /** Every entry has a right owner and a right parent, given those before it. */
  ghost predicate AllRight(d: Rules, root: nat, before: seq<Entry>, placed: seq<Place>, es: seq<Entry>, ps: seq<Place>)
    decreases |es|
  {
    && |es| == |ps|
    && (es == []
        || (&& RightOwner(d, before, es[0], ps[0])
            && RightParent(d, root, placed, ps[0].owner, ps[0].parent)
            && AllRight(d, root, before + [es[0]], placed + [ps[0]], es[1..], ps[1..])))
  }

  lemma {:induction false} AllRightAppend(d: Rules, root: nat, before: seq<Entry>, placed: seq<Place>,
                                          es: seq<Entry>, ps: seq<Place>, es': seq<Entry>, ps': seq<Place>)
    requires AllRight(d, root, before, placed, es, ps)
    requires AllRight(d, root, before + es, placed + ps, es', ps')
    ensures AllRight(d, root, before, placed, es + es', ps + ps')
    decreases |es|
  {
    if es == [] {
      assert before + es == before && placed + ps == placed && es + es' == es' && ps + ps' == ps';
    } else {
      assert before + [es[0]] + es[1..] == before + es && placed + [ps[0]] + ps[1..] == placed + ps;
      AllRightAppend(d, root, before + [es[0]], placed + [ps[0]], es[1..], ps[1..], es', ps');
      assert (es + es')[1..] == es[1..] + es' && (ps + ps')[1..] == ps[1..] + ps';
    }
  }

  lemma {:induction false} AllRightAt(d: Rules, root: nat, before: seq<Entry>, placed: seq<Place>,
                                      es: seq<Entry>, ps: seq<Place>, k: nat)
    requires AllRight(d, root, before, placed, es, ps) && k < |es|
    ensures RightOwner(d, before + es[..k], es[k], ps[k])
    ensures RightParent(d, root, placed + ps[..k], ps[k].owner, ps[k].parent)
    decreases k
  {
    if k == 0 {
      assert before + es[..0] == before && placed + ps[..0] == placed;
    } else {
      AllRightAt(d, root, before + [es[0]], placed + [ps[0]], es[1..], ps[1..], k - 1);
      assert before + [es[0]] + es[1..][..k - 1] == before + es[..k];
      assert placed + [ps[0]] + ps[1..][..k - 1] == placed + ps[..k];
    }
  }

  /** What is known of the open siblings. */
  ghost predicate Ready(d: Rules, root: nat, before: seq<Entry>, placed: seq<Place>, stack: seq<Open>, p: nat) {
    forall o :: o in stack ==> Waits(d, before, o.id, p) && RightParent(d, root, placed, o.id, o.shows)
  }

  lemma ReadyMore(d: Rules, root: nat, before: seq<Entry>, placed: seq<Place>, es: seq<Entry>, ps: seq<Place>,
                  stack: seq<Open>, p: nat)
    requires Ready(d, root, before, placed, stack, p)
    ensures Ready(d, root, before + es, placed + ps, stack, p)
  {
    forall o | o in stack ensures Waits(d, before + es, o.id, p) && RightParent(d, root, placed + ps, o.id, o.shows) {
      ParentMore(d, root, placed, ps, o.id, o.shows);
      var e :| e in before && e.tree.id == o.id && e.parent == p && Eligible(d, e.tree);
      assert e in before + es;
    }
  }

  lemma ParentMore(d: Rules, root: nat, placed: seq<Place>, ps: seq<Place>, owner: nat, parent: nat)
    requires RightParent(d, root, placed, owner, parent)
    ensures RightParent(d, root, placed + ps, owner, parent)
  {
    if !(parent == owner && (d.hasPrompt(owner) || owner == root)) {
      var pl :| pl in placed && pl.id == owner && pl.parent == parent;
      assert pl in placed + ps;
    }
  }

  lemma FirstRight(d: Rules, root: nat, before: seq<Entry>, placed: seq<Place>, x: Tree, stack: seq<Open>, p: nat,
                   vp: nat)
    requires Ready(d, root, before, placed, stack, p) && RightParent(d, root, placed, p, vp)
    ensures var open := Reach(d, stack, x.id);
      && Ready(d, root, before, placed, open, p)
      && RightOwner(d, before, Entry(x, p), Place(x.id, Owner(open, p), Parent(open, vp)))
      && RightParent(d, root, placed, Owner(open, p), Parent(open, vp))
  {
    var open := Reach(d, stack, x.id);
    assert forall o :: o in open ==> o in stack;
    if open != [] {
      assert open[0] in stack;
    }
  }

  lemma SelfRight(d: Rules, root: nat, placed: seq<Place>, pl: Place)
    ensures RightParent(d, root, placed + [pl], pl.id, Shows(d, pl.id, pl.parent))
  {
    assert pl in placed + [pl];
  }

  lemma OpenedReady(d: Rules, root: nat, before: seq<Entry>, placed: seq<Place>, x: Tree, open: seq<Open>, p: nat,
                    vp: nat)
    requires Ready(d, root, before, placed, open, p)
    ensures var pl := Place(x.id, Owner(open, p), Parent(open, vp));
      Ready(d, root, before + [Entry(x, p)], placed + [pl], Opened(d, x, open, vp), p)
  {
    var pl := Place(x.id, Owner(open, p), Parent(open, vp));
    ReadyMore(d, root, before, placed, [Entry(x, p)], [pl], open, p);
    SelfRight(d, root, placed, pl);
    assert Entry(x, p) in before + [Entry(x, p)];
  }

  /** Every entry below `p` gets a right owner and a right parent, in the old order. */
  lemma {:induction false} PlacesRight(d: Rules, root: nat, before: seq<Entry>, placed: seq<Place>,
                                       ts: seq<Tree>, stack: seq<Open>, p: nat, vp: nat)
    requires Ready(d, root, before, placed, stack, p) && RightParent(d, root, placed, p, vp)
    ensures AllRight(d, root, before, placed, Entries(ts, p), Places(d, ts, stack, p, vp))
    decreases CountAll(ts)
  {
    if ts != [] {
      var x, open := ts[0], Reach(d, stack, ts[0].id);
      var e, pl := Entry(x, p), Place(x.id, Owner(open, p), Parent(open, vp));
      var self := Shows(d, x.id, pl.parent);
      var es, ps := Entries(x.kids, x.id), Places(d, x.kids, [], x.id, self);
      assert Count(x) == 1 + CountAll(x.kids);
      FirstRight(d, root, before, placed, x, stack, p, vp);
      SelfRight(d, root, placed, pl);
      PlacesRight(d, root, before + [e], placed + [pl], x.kids, [], x.id, self);
      OpenedReady(d, root, before, placed, x, open, p, vp);
      ReadyMore(d, root, before + [e], placed + [pl], es, ps, Opened(d, x, open, vp), p);
      ParentMore(d, root, placed, [pl], p, vp);
      ParentMore(d, root, placed + [pl], ps, p, vp);
      PlacesRight(d, root, before + [e] + es, placed + [pl] + ps, ts[1..], Opened(d, x, open, vp), p, vp);
      FirstAppend(d, root, before, placed, e, pl, es, ps, Entries(ts[1..], p), Places(d, ts[1..], Opened(d, x, open, vp), p, vp));
    }
  }

  lemma FirstAppend(d: Rules, root: nat, before: seq<Entry>, placed: seq<Place>, e: Entry, pl: Place,
                    es: seq<Entry>, ps: seq<Place>, es': seq<Entry>, ps': seq<Place>)
    requires RightOwner(d, before, e, pl) && RightParent(d, root, placed, pl.owner, pl.parent)
    requires AllRight(d, root, before + [e], placed + [pl], es, ps)
    requires AllRight(d, root, before + [e] + es, placed + [pl] + ps, es', ps')
    ensures AllRight(d, root, before, placed, [e] + es + es', [pl] + ps + ps')
  {
    AllRightAppend(d, root, before + [e], placed + [pl], es, ps, es', ps');
    assert ([e] + es + es')[1..] == es + es' && ([pl] + ps + ps')[1..] == ps + ps';
  }

  lemma AllRightFromStart(d: Rules, root: nat, es: seq<Entry>, ps: seq<Place>, k: nat)
    requires AllRight(d, root, [], [], es, ps) && k < |es|
    ensures |ps| == |es|
    ensures RightOwner(d, es[..k], es[k], ps[k])
    ensures RightParent(d, root, ps[..k], ps[k].owner, ps[k].parent)
  {
    AllRightAt(d, root, [], [], es, ps, k);
    assert [] + es[..k] == es[..k] && [] + ps[..k] == ps[..k];
  }

  /** In the finished tree every entry has a right owner and a right parent: nothing is taken in by an
      entry without a symbol, with children, or that does not absorb it. */
  lemma RootRight(d: Rules, t: Tree, es: seq<Entry>, ps: seq<Place>, k: nat)
    requires es == Entries(t.kids, t.id) && ps == Places(d, t.kids, [], t.id, t.id)
    requires k < |es|
    ensures |ps| == |es|
    ensures RightOwner(d, es[..k], es[k], ps[k])
    ensures RightParent(d, t.id, ps[..k], ps[k].owner, ps[k].parent)
  {
    PlacesRight(d, t.id, [], [], t.kids, [], t.id, t.id);
    AllRightFromStart(d, t.id, es, ps, k);
  }

  // ----- an entry takes in all it can -----

  /** The owners of the siblings `ts`. */
  function Owners(d: Rules, ts: seq<Tree>, stack: seq<Open>, p: nat, vp: nat): (r: seq<nat>)
    ensures |r| == |ts|
  {
    if ts == [] then [] else
    var open := Reach(d, stack, ts[0].id);
    [Owner(open, p)] + Owners(d, ts[1..], Opened(d, ts[0], open, vp), p, vp)
  }

  /** The owner of sibling `j` is that of its place. */
  lemma {:induction false} OwnersPlaced(d: Rules, ts: seq<Tree>, stack: seq<Open>, p: nat, vp: nat, j: nat,
                                        ps: seq<Place>)
    requires j < |ts| && ps == Places(d, ts, stack, p, vp)
    ensures CountAll(ts[..j]) < |ps|
    ensures ps[CountAll(ts[..j])].id == ts[j].id && ps[CountAll(ts[..j])].owner == Owners(d, ts, stack, p, vp)[j]
    decreases j
  {
    if j > 0 {
      var x, rest, open := ts[0], ts[1..], Reach(d, stack, ts[0].id);
      var stack', self := Opened(d, x, open, vp), Shows(d, x.id, Parent(open, vp));
      var kids, after := Places(d, x.kids, [], x.id, self), Places(d, rest, stack', p, vp);
      OwnersPlaced(d, rest, stack', p, vp, j - 1, after);
      PlacesCount(d, x.kids, [], x.id, self);
      assert ts[..j] == [x] + rest[..j - 1];
      CountCons(x, rest[..j - 1]);
      Shifted(Place(x.id, Owner(open, p), Parent(open, vp)), kids, after, CountAll(rest[..j - 1]));
    }
  }

  lemma Shifted(a: Place, b: seq<Place>, c: seq<Place>, k: nat)
    requires k < |c|
    ensures ([a] + b + c)[1 + |b| + k] == c[k]
  {}

  lemma {:induction false} PlacesCount(d: Rules, ts: seq<Tree>, stack: seq<Open>, p: nat, vp: nat)
    ensures |Places(d, ts, stack, p, vp)| == CountAll(ts)
    decreases CountAll(ts)
  {
    if ts != [] {
      var open := Reach(d, stack, ts[0].id);
      assert Count(ts[0]) == 1 + CountAll(ts[0].kids);
      PlacesCount(d, ts[0].kids, [], ts[0].id, Shows(d, ts[0].id, Parent(open, vp)));
      PlacesCount(d, ts[1..], Opened(d, ts[0], open, vp), p, vp);
    }
  }

  function Ids(ts: seq<Tree>): set<nat> { set t | t in ts :: t.id }
  function OpenIds(stack: seq<Open>): set<nat> { set o | o in stack :: o.id }

  /** The first `j` of the siblings `ts` all go to `block` or to a sibling before them. */
  predicate Under(block: set<nat>, ts: seq<Tree>, os: seq<nat>, j: nat)
    requires j <= |ts| == |os|
    decreases j
  {
    j == 0 || (os[0] in block && Under(block + {ts[0].id}, ts[1..], os[1..], j - 1))
  }

  lemma IdsCons(ts: seq<Tree>, j: nat)
    requires 0 < j <= |ts|
    ensures Ids(ts[..j]) == {ts[0].id} + Ids(ts[1..][..j - 1])
  {
    assert ts[..j] == [ts[0]] + ts[1..][..j - 1];
  }

  /** None of the block and the siblings is the parent or open below it. */
  predicate Apart(block: set<nat>, ts: seq<Tree>, rest: seq<Open>, p: nat) {
    block + Ids(ts) !! OpenIds(rest) + {p}
  }

  lemma ApartRest(block: set<nat>, ts: seq<Tree>, rest: seq<Open>, p: nat)
    requires ts != [] && Apart(block, ts, rest, p)
    ensures Apart(block + {ts[0].id}, ts[1..], rest, p) && block !! OpenIds(rest) + {p}
  {
    forall t | t in ts[1..] ensures t.id in Ids(ts) { assert t in ts; }
    assert ts[0] in ts;
    assert block + {ts[0].id} + Ids(ts[1..]) <= block + Ids(ts);
  }

  lemma UnderRest(block: set<nat>, ts: seq<Tree>, os: seq<nat>, j: nat)
    requires 0 < j < |ts| == |os| && Under(block, ts, os, j)
    ensures os[0] in block && Under(block + {ts[0].id}, ts[1..], os[1..], j - 1)
    ensures ts[j] == ts[1..][j - 1] && os[j] == os[1..][j - 1]
  {}

  lemma GrownBlock(block: set<nat>, ts: seq<Tree>, j: nat, owner: nat)
    requires 0 < j <= |ts| && owner in block + {ts[0].id} + Ids(ts[1..][..j - 1])
    ensures owner in block + Ids(ts[..j])
  {
    IdsCons(ts, j);
  }

  /** `m` is still open, `rest` is open below it, and what is open down to it is in the block. */
  predicate Keeps(stack: seq<Open>, m: Open, rest: seq<Open>, block: set<nat>) {
    && stack != [] && stack[0].id in block
    && ((stack[0] == m && stack[1..] == rest) || Keeps(stack[1..], m, rest, block))
  }

  lemma {:induction false} KeepsTakes(d: Rules, stack: seq<Open>, m: Open, rest: seq<Open>, block: set<nat>, y: nat,
                                      p: nat)
    requires Keeps(stack, m, rest, block) && d.absorbs(m.id, y)
    ensures Owner(Reach(d, stack, y), p) in block
  {
    if !d.absorbs(stack[0].id, y) { KeepsTakes(d, stack[1..], m, rest, block, y, p); }
  }

  lemma ReachOwner(d: Rules, stack: seq<Open>, y: nat, p: nat)
    ensures Owner(Reach(d, stack, y), p) in OpenIds(stack) + {p}
  {
    var r := Reach(d, stack, y);
    if r != [] { assert r[0] in stack; }
  }

  lemma {:induction false} KeepsReached(d: Rules, stack: seq<Open>, m: Open, rest: seq<Open>, block: set<nat>, y: nat,
                                        p: nat)
    requires Keeps(stack, m, rest, block) && block !! OpenIds(rest) + {p} && Owner(Reach(d, stack, y), p) in block
    ensures Keeps(Reach(d, stack, y), m, rest, block)
  {
    if !d.absorbs(stack[0].id, y) {
      if Keeps(stack[1..], m, rest, block) {
        KeepsReached(d, stack[1..], m, rest, block, y, p);
      } else {
        ReachOwner(d, rest, y, p);
        assert false;
      }
    }
  }

  lemma {:induction false} KeepsMore(stack: seq<Open>, m: Open, rest: seq<Open>, block: set<nat>, more: set<nat>)
    requires Keeps(stack, m, rest, block)
    ensures Keeps(stack, m, rest, block + more)
  {
    if !(stack[0] == m && stack[1..] == rest) { KeepsMore(stack[1..], m, rest, block, more); }
  }

  lemma KeepsOpened(d: Rules, y: Tree, open: seq<Open>, m: Open, rest: seq<Open>, block: set<nat>, vp: nat)
    requires Keeps(open, m, rest, block)
    ensures Keeps(Opened(d, y, open, vp), m, rest, block + {y.id})
  {
    KeepsMore(open, m, rest, block, {y.id});
    if Eligible(d, y) { assert Opened(d, y, open, vp)[1..] == open; }
  }

  /** As long as all siblings since `m` have gone below `m`, the next one does so too if `m` absorbs it. */
  lemma {:induction false} RunTaken(d: Rules, ts: seq<Tree>, stack: seq<Open>, m: Open, rest: seq<Open>, p: nat,
                                    vp: nat,
                                    block: set<nat>, j: nat, os: seq<nat>)
    requires os == Owners(d, ts, stack, p, vp)
    requires j < |ts| && d.absorbs(m.id, ts[j].id)
    requires Keeps(stack, m, rest, block) && Apart(block, ts, rest, p) && Under(block, ts, os, j)
    ensures os[j] in block + Ids(ts[..j])
    decreases j
  {
    if j == 0 {
      KeepsTakes(d, stack, m, rest, block, ts[0].id, p);
    } else {
      UnderRest(block, ts, os, j);
      ApartRest(block, ts, rest, p);
      OwnersRest(d, ts, stack, p, vp);
      var open := Reach(d, stack, ts[0].id);
      KeepsReached(d, stack, m, rest, block, ts[0].id, p);
      KeepsOpened(d, ts[0], open, m, rest, block, vp);
      RunTaken(d, ts[1..], Opened(d, ts[0], open, vp), m, rest, p, vp, block + {ts[0].id}, j - 1, os[1..]);
      GrownBlock(block, ts, j, os[j]);
    }
  }

  /** No two of the siblings, the open entries and the parent are the same. */
  predicate Distinct(ts: seq<Tree>, stack: seq<Open>, p: nat) {
    ts == [] || (ts[0].id !in Ids(ts[1..]) + OpenIds(stack) + {p} && Distinct(ts[1..], stack, p))
  }

  lemma {:induction false} DistinctFewer(ts: seq<Tree>, stack: seq<Open>, fewer: seq<Open>, p: nat)
    requires Distinct(ts, stack, p) && OpenIds(fewer) <= OpenIds(stack)
    ensures Distinct(ts, fewer, p)
  {
    if ts != [] {
      DistinctFewer(ts[1..], stack, fewer, p);
    }
  }

  lemma {:induction false} DistinctMore(ts: seq<Tree>, stack: seq<Open>, more: Open, p: nat)
    requires Distinct(ts, stack, p) && more.id !in Ids(ts)
    ensures Distinct(ts, [more] + stack, p)
  {
    if ts != [] {
      assert ts[0].id in Ids(ts) by { assert ts[0] in ts; }
      assert Ids(ts[1..]) <= Ids(ts) by { assert forall t :: t in ts[1..] ==> t in ts; }
      DistinctMore(ts[1..], stack, more, p);
      assert OpenIds([more] + stack) <= OpenIds(stack) + {more.id};
    }
  }

  lemma {:induction false} DistinctApart(ts: seq<Tree>, stack: seq<Open>, p: nat)
    requires Distinct(ts, stack, p)
    ensures Ids(ts) !! OpenIds(stack) + {p}
  {
    if ts != [] {
      DistinctApart(ts[1..], stack, p);
      assert ts == [ts[0]] + ts[1..];
      assert Ids(ts) == {ts[0].id} + Ids(ts[1..]);
    }
  }

  lemma DistinctRest(d: Rules, ts: seq<Tree>, stack: seq<Open>, p: nat, vp: nat)
    requires ts != [] && Distinct(ts, stack, p)
    ensures var open := Reach(d, stack, ts[0].id);
      Distinct(ts, open, p) && Distinct(ts[1..], Opened(d, ts[0], open, vp), p)
  {
    var open := Reach(d, stack, ts[0].id);
    assert OpenIds(open) <= OpenIds(stack) by { assert forall o :: o in open ==> o in stack; }
    DistinctFewer(ts, stack, open, p);
    if Eligible(d, ts[0]) {
      DistinctMore(ts[1..], open, Open(ts[0].id, Shows(d, ts[0].id, Parent(open, vp))), p);
    }
  }

  lemma FirstApart(ts: seq<Tree>, open: seq<Open>, p: nat)
    requires ts != [] && Distinct(ts, open, p)
    ensures Apart({ts[0].id}, ts[1..], open, p)
  {
    DistinctApart(ts[1..], open, p);
  }

  lemma OwnersRest(d: Rules, ts: seq<Tree>, stack: seq<Open>, p: nat, vp: nat)
    requires ts != []
    ensures Owners(d, ts, stack, p, vp)[1..] ==
      Owners(d, ts[1..], Opened(d, ts[0], Reach(d, stack, ts[0].id), vp), p, vp)
  {}

  lemma TakesFromFirst(d: Rules, ts: seq<Tree>, stack: seq<Open>, p: nat, vp: nat, n: nat)
    requires n + 1 < |ts| && Eligible(d, ts[0]) && d.absorbs(ts[0].id, ts[1..][n].id)
    requires Distinct(ts, stack, p)
    requires Under({ts[0].id}, ts[1..], Owners(d, ts, stack, p, vp)[1..], n)
    ensures Owners(d, ts, stack, p, vp)[1..][n] in {ts[0].id} + Ids(ts[1..][..n])
  {
    var x, open := ts[0].id, Reach(d, stack, ts[0].id);
    var m := Open(x, Shows(d, x, Parent(open, vp)));
    OwnersRest(d, ts, stack, p, vp);
    DistinctRest(d, ts, stack, p, vp);
    FirstApart(ts, open, p);
    JustOpened(m, open);
    RunTaken(d, ts[1..], [m] + open, m, open, p, vp, {x}, n, Owners(d, ts, stack, p, vp)[1..]);
  }

  lemma JustOpened(m: Open, open: seq<Open>)
    ensures Keeps([m] + open, m, open, {m.id})
  {
    assert ([m] + open)[1..] == open;
  }

  lemma {:induction false} OwnersTail(d: Rules, ts: seq<Tree>, stack: seq<Open>, p: nat, vp: nat,
                                      i: nat) returns (stack': seq<Open>)
    requires i <= |ts| && Distinct(ts, stack, p)
    ensures Owners(d, ts, stack, p, vp)[i..] == Owners(d, ts[i..], stack', p, vp)
    ensures Distinct(ts[i..], stack', p)
    decreases i
  {
    if i == 0 {
      stack' := stack;
      assert ts[0..] == ts && Owners(d, ts, stack, p, vp)[0..] == Owners(d, ts, stack, p, vp);
    } else {
      OwnersRest(d, ts, stack, p, vp);
      DistinctRest(d, ts, stack, p, vp);
      Tails(ts, i);
      Tails(Owners(d, ts, stack, p, vp), i);
      stack' := OwnersTail(d, ts[1..], Opened(d, ts[0], Reach(d, stack, ts[0].id), vp), p, vp, i - 1);
    }
  }

  lemma Tails<T>(s: seq<T>, i: nat)
    requires 0 < i <= |s|
    ensures s[i..] == s[1..][i - 1..]
  {}

  /** Siblings that go below an entry `i` form an unbroken run, which ends only at one that `i` does not
      absorb: if the first `n` after `i` have gone below `i` and `i` absorbs the next, that goes below `i` too. */
  lemma TakesAll(d: Rules, ts: seq<Tree>, stack: seq<Open>, p: nat, vp: nat, i: nat, n: nat, after: seq<Tree>,
                 owners: seq<nat>)
    requires i < |ts| && Distinct(ts, stack, p)
    requires after == ts[i..][1..] && owners == Owners(d, ts, stack, p, vp)[i..][1..]
    requires n < |after| && Eligible(d, ts[i]) && d.absorbs(ts[i].id, after[n].id)
    requires Under({ts[i].id}, after, owners, n)
    ensures owners[n] in {ts[i].id} + Ids(after[..n])
  {
    var stack' := OwnersTail(d, ts, stack, p, vp, i);
    TakesFromFirst(d, ts[i..], stack', p, vp, n);
  }

  /** At `k` there is an entry followed by `kids`. */
  predicate Inside(all: seq<Place>, k: nat, kids: seq<Place>) {
    k + |kids| < |all| && forall i :: 0 <= i < |kids| ==> kids[i] == all[k + 1 + i]
  }

  lemma InsideFirst(a: Place, b: seq<Place>, c: seq<Place>)
    ensures Inside([a] + b + c, 0, b)
  {}

  lemma InsideMiddle(a: Place, b: seq<Place>, c: seq<Place>, k: nat, kids: seq<Place>)
    requires Inside(b, k, kids)
    ensures Inside([a] + b + c, 1 + k, kids)
  {}

  lemma InsideLast(a: Place, b: seq<Place>, c: seq<Place>, k: nat, kids: seq<Place>)
    requires Inside(c, k, kids)
    ensures Inside([a] + b + c, 1 + |b| + k, kids)
  {}

  /** The entry at `k` in the order of display. */
  function TreeAt(ts: seq<Tree>, k: nat): Tree
    requires k < CountAll(ts)
    decreases CountAll(ts)
  {
    assert Count(ts[0]) == 1 + CountAll(ts[0].kids);
    if k == 0 then ts[0]
    else if k < Count(ts[0]) then TreeAt(ts[0].kids, k - 1)
    else TreeAt(ts[1..], k - Count(ts[0]))
  }

  lemma {:induction false} EntriesTree(ts: seq<Tree>, p: nat, k: nat)
    requires k < CountAll(ts)
    ensures Entries(ts, p)[k].tree == TreeAt(ts, k)
    decreases CountAll(ts)
  {
    var x := ts[0];
    assert Count(x) == 1 + CountAll(x.kids);
    if 0 < k < Count(x) {
      EntriesTree(x.kids, x.id, k - 1);
    } else if k > 0 {
      EntriesTree(ts[1..], p, k - Count(x));
    }
  }

  /** The children of every entry, however deep, are placed as siblings of their own. */
  lemma {:induction false} PlacesInside(d: Rules, ts: seq<Tree>, stack: seq<Open>, p: nat, vp: nat, k: nat, x: Tree)
      returns (vp': nat)
    requires k < CountAll(ts) && x == TreeAt(ts, k)
    ensures Inside(Places(d, ts, stack, p, vp), k, Places(d, x.kids, [], x.id, vp'))
    decreases CountAll(ts), 1
  {
    var first, open := ts[0], Reach(d, stack, ts[0].id);
    var self, stack' := Shows(d, first.id, Parent(open, vp)), Opened(d, first, open, vp);
    vp' := PartInside(d, first, ts[1..], stack', p, vp, self, Place(first.id, Owner(open, p), Parent(open, vp)), k, x);
  }

  lemma PartInside(d: Rules, first: Tree, rest: seq<Tree>, stack: seq<Open>, p: nat, vp: nat, self: nat, pl: Place,
                   k: nat, x: Tree)
      returns (vp': nat)
    requires k < Count(first) + CountAll(rest) && Count(first) == 1 + CountAll(first.kids)
    requires x == if k == 0 then first else if k < Count(first) then TreeAt(first.kids, k - 1) else TreeAt(rest, k - Count(first))
    ensures Inside([pl] + Places(d, first.kids, [], first.id, self) + Places(d, rest, stack, p, vp), k,
                   Places(d, x.kids, [], x.id, vp'))
    decreases Count(first) + CountAll(rest), 0
  {
    var ps, ps' := Places(d, first.kids, [], first.id, self), Places(d, rest, stack, p, vp);
    PlacesCount(d, first.kids, [], first.id, self);
    if k == 0 {
      vp' := self;
      InsideFirst(pl, ps, ps');
    } else if k < Count(first) {
      vp' := PlacesInside(d, first.kids, [], first.id, self, k - 1, x);
      InsideMiddle(pl, ps, ps', k - 1, Places(d, x.kids, [], x.id, vp'));
    } else {
      vp' := PlacesInside(d, rest, stack, p, vp, k - Count(first), x);
      InsideLast(pl, ps, ps', k - Count(first), Places(d, x.kids, [], x.id, vp'));
    }
  }
}
