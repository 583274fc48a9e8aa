/** What `menu_finalize` does to the tree of menu entries. */
module MenuTree {

  /** A menu entry with the entries below it. */
  datatype Tree = Node(id: nat, kids: seq<Tree>)

  /** What decides the reshaping: which entries have a symbol, which following
      entry belongs under which symbol, and which entries have a prompt text. */
  datatype Rules = Rules(hasSym: nat -> bool, absorbs: (nat, nat) -> bool, hasPrompt: nat -> bool)

  function Count(t: Tree): (n: nat)
    ensures n >= 1
  {
    1 + CountAll(t.kids)
  }

  function CountAll(ts: seq<Tree>): nat {
    if ts == [] then 0 else Count(ts[0]) + CountAll(ts[1..])
  }

  /** The entries in the order in which they are displayed. */
  function Pre(t: Tree): seq<nat> { [t.id] + PreAll(t.kids) }

  function PreAll(ts: seq<Tree>): seq<nat> {
    if ts == [] then [] else Pre(ts[0]) + PreAll(ts[1..])
  }

  lemma {:induction false} CountAppend(a: seq<Tree>, b: seq<Tree>)
    ensures CountAll(a + b) == CountAll(a) + CountAll(b)
    ensures PreAll(a + b) == PreAll(a) + PreAll(b)
  {
    if a == [] {
      assert a + b == b;
    } else {
      assert (a + b)[1..] == a[1..] + b;
      CountAppend(a[1..], b);
    }
  }

  lemma CountCons(t: Tree, ts: seq<Tree>)
    ensures CountAll([t] + ts) == Count(t) + CountAll(ts)
    ensures PreAll([t] + ts) == Pre(t) + PreAll(ts)
  {
    assert ([t] + ts)[1..] == ts;
  }

  /* ----- the reshaping ----- */

  /** Entries without a prompt text hand their children to their parent. */
  function Flatten(d: Rules, ts: seq<Tree>): seq<Tree>
    decreases CountAll(ts)
  {
    if ts == [] then []
    else
      var x := ts[0];
      if x.kids != [] && !d.hasPrompt(x.id) then
        assert Count(x) == 1 + CountAll(x.kids);
        CountAppend(x.kids, ts[1..]);
        [Node(x.id, [])] + Flatten(d, x.kids + ts[1..])
      else [x] + Flatten(d, ts[1..])
  }

  /** `menu_finalize`: the finished entry, and what is left of the entries that
      follow it. */
  function Finalize(d: Rules, t: Tree, rest: seq<Tree>): (r: (Tree, seq<Tree>))
    ensures CountAll(r.1) <= CountAll(rest)
    ensures r.0.id == t.id
    decreases Count(t) + CountAll(rest), 0
  {
    if t.kids != [] then (Node(t.id, Flatten(d, FinalizeAll(d, t.kids))), rest)
    else if d.hasSym(t.id) then
      var (kids, left) := Absorb(d, t.id, rest);
      (Node(t.id, Flatten(d, kids)), left)
    else (t, rest)
  }

  /** Consecutive entries that belong under `p`, each finished in its turn. */
  function Absorb(d: Rules, p: nat, rest: seq<Tree>): (r: (seq<Tree>, seq<Tree>))
    ensures CountAll(r.1) <= CountAll(rest)
    decreases CountAll(rest), 1
  {
    if rest == [] || !d.absorbs(p, rest[0].id) then ([], rest)
    else
      var (m, rest1) := Finalize(d, rest[0], rest[1..]);
      var (ks, left) := Absorb(d, p, rest1);
      ([m] + ks, left)
  }

  /** The loop over the children. */
  function FinalizeAll(d: Rules, ts: seq<Tree>): seq<Tree>
    decreases CountAll(ts), 1
  {
    if ts == [] then []
    else
      var (m, rest) := Finalize(d, ts[0], ts[1..]);
      [m] + FinalizeAll(d, rest)
  }

  /* ----- what it keeps ----- */

  lemma {:induction false} FlattenKeepsOrder(d: Rules, ts: seq<Tree>)
    ensures PreAll(Flatten(d, ts)) == PreAll(ts)
    decreases CountAll(ts)
  {
    if ts != [] {
      var x := ts[0];
      if x.kids != [] && !d.hasPrompt(x.id) {
        assert Count(x) == 1 + CountAll(x.kids);
        CountAppend(x.kids, ts[1..]);
        FlattenKeepsOrder(d, x.kids + ts[1..]);
        CountCons(Node(x.id, []), Flatten(d, x.kids + ts[1..]));
        assert Pre(Node(x.id, [])) == [x.id];
        assert Pre(x) + PreAll(ts[1..]) == [x.id] + (PreAll(x.kids) + PreAll(ts[1..]));
      } else {
        FlattenKeepsOrder(d, ts[1..]);
        CountCons(x, Flatten(d, ts[1..]));
      }
    }
  }

  /** The order of the entries is kept: what is absorbed was next in line. */
  lemma {:induction false} FinalizeKeepsOrder(d: Rules, t: Tree, rest: seq<Tree>)
    ensures var (t', rest') := Finalize(d, t, rest);
            Pre(t') + PreAll(rest') == Pre(t) + PreAll(rest)
    decreases Count(t) + CountAll(rest), 0
  {
    if t.kids != [] {
      FinalizeAllKeepsOrder(d, t.kids);
      FlattenKeepsOrder(d, FinalizeAll(d, t.kids));
    } else if d.hasSym(t.id) {
      var (kids, left) := Absorb(d, t.id, rest);
      AbsorbKeepsOrder(d, t.id, rest);
      FlattenKeepsOrder(d, kids);
      assert [t.id] + PreAll(kids) + PreAll(left) == [t.id] + (PreAll(kids) + PreAll(left));
      assert Pre(t) == [t.id];
    }
  }

  lemma {:induction false} AbsorbKeepsOrder(d: Rules, p: nat, rest: seq<Tree>)
    ensures var (ks, left) := Absorb(d, p, rest);
            PreAll(ks) + PreAll(left) == PreAll(rest)
    decreases CountAll(rest), 1
  {
    if rest == [] || !d.absorbs(p, rest[0].id) {
    } else {
      var (m, rest1) := Finalize(d, rest[0], rest[1..]);
      FinalizeKeepsOrder(d, rest[0], rest[1..]);
      AbsorbKeepsOrder(d, p, rest1);
      var (ks, left) := Absorb(d, p, rest1);
      AbsorbedOrder(m, ks, left);
      CountCons(rest[0], rest[1..]);
      assert rest == [rest[0]] + rest[1..];
      assert Absorb(d, p, rest) == ([m] + ks, left);
    }
  }

  lemma AbsorbedOrder(m: Tree, ks: seq<Tree>, left: seq<Tree>)
    ensures PreAll([m] + ks) + PreAll(left) == Pre(m) + (PreAll(ks) + PreAll(left))
  {
    CountCons(m, ks);
  }

  lemma {:induction false} FinalizeAllKeepsOrder(d: Rules, ts: seq<Tree>)
    ensures PreAll(FinalizeAll(d, ts)) == PreAll(ts)
    decreases CountAll(ts), 1
  {
    if ts != [] {
      var (m, rest) := Finalize(d, ts[0], ts[1..]);
      FinalizeKeepsOrder(d, ts[0], ts[1..]);
      FinalizeAllKeepsOrder(d, rest);
      CountCons(m, FinalizeAll(d, rest));
    }
  }

  /* ----- what it achieves ----- */

  /** No entry without a prompt text has children. */
  predicate Shown(d: Rules, ts: seq<Tree>)
    decreases CountAll(ts)
  {
    ts == [] ||
    (assert Count(ts[0]) == 1 + CountAll(ts[0].kids);
     && (ts[0].kids == [] || d.hasPrompt(ts[0].id))
     && Shown(d, ts[0].kids)
     && Shown(d, ts[1..]))
  }

  /** The same of everything below the entries of `ts`. */
  predicate ShownBelow(d: Rules, ts: seq<Tree>) {
    forall k :: 0 <= k < |ts| ==> Shown(d, ts[k].kids)
  }

  lemma {:induction false} ShownAppend(d: Rules, a: seq<Tree>, b: seq<Tree>)
    ensures Shown(d, a + b) <==> Shown(d, a) && Shown(d, b)
    decreases CountAll(a)
  {
    if a == [] {
      assert a + b == b;
    } else {
      assert (a + b)[1..] == a[1..] + b;
      ShownAppend(d, a[1..], b);
    }
  }

  lemma {:induction false} ShownIsBelow(d: Rules, ts: seq<Tree>)
    requires Shown(d, ts)
    ensures ShownBelow(d, ts)
    decreases CountAll(ts)
  {
    if ts != [] {
      ShownIsBelow(d, ts[1..]);
      forall k | 0 <= k < |ts| ensures Shown(d, ts[k].kids) {
        if k > 0 { assert ts[k] == ts[1..][k - 1]; }
      }
    }
  }

  lemma {:induction false} FlattenShows(d: Rules, ts: seq<Tree>)
    requires ShownBelow(d, ts)
    ensures Shown(d, Flatten(d, ts))
    decreases CountAll(ts)
  {
    if ts != [] {
      var x := ts[0];
      assert Shown(d, x.kids);
      assert forall k :: 0 <= k < |ts[1..]| ==> ts[1..][k] == ts[k + 1];
      if x.kids != [] && !d.hasPrompt(x.id) {
        assert Count(x) == 1 + CountAll(x.kids);
        CountAppend(x.kids, ts[1..]);
        ShownIsBelow(d, x.kids);
        FlattenShows(d, x.kids + ts[1..]);
        ShownAppend(d, [Node(x.id, [])], Flatten(d, x.kids + ts[1..]));
      } else {
        FlattenShows(d, ts[1..]);
        ShownAppend(d, [x], Flatten(d, ts[1..]));
      }
    }
  }

  /** Below a finished entry all children belong to entries that are shown. */
  lemma {:induction false} FinalizeShows(d: Rules, t: Tree, rest: seq<Tree>)
    ensures Shown(d, Finalize(d, t, rest).0.kids)
    decreases Count(t) + CountAll(rest), 0
  {
    if t.kids != [] {
      FinalizeAllShows(d, t.kids);
      FlattenShows(d, FinalizeAll(d, t.kids));
    } else if d.hasSym(t.id) {
      AbsorbShows(d, t.id, rest);
      FlattenShows(d, Absorb(d, t.id, rest).0);
    }
  }

  lemma {:induction false} AbsorbShows(d: Rules, p: nat, rest: seq<Tree>)
    ensures ShownBelow(d, Absorb(d, p, rest).0)
    decreases CountAll(rest), 1
  {
    if rest == [] || !d.absorbs(p, rest[0].id) {
    } else {
      FinalizeShows(d, rest[0], rest[1..]);
      AbsorbShows(d, p, Finalize(d, rest[0], rest[1..]).1);
    }
  }

  lemma {:induction false} FinalizeAllShows(d: Rules, ts: seq<Tree>)
    ensures ShownBelow(d, FinalizeAll(d, ts))
    decreases CountAll(ts), 1
  {
    if ts != [] {
      FinalizeShows(d, ts[0], ts[1..]);
      FinalizeAllShows(d, Finalize(d, ts[0], ts[1..]).1);
    }
  }
}
