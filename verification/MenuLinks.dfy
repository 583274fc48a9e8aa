/** The links between menu entries, and `menu_finalize` as it relinks them. */
module MenuLinks {
  import opened MenuTree
  import MenuPlaces

  datatype Ptr = Null | To(id: nat)

  /** The pointer fields of all entries. */
  datatype Links = Links(next: map<nat, Ptr>, parent: map<nat, Ptr>, list: map<nat, Ptr>)

  predicate Has(l: Links, id: nat) { id in l.next && id in l.parent && id in l.list }

  /** The pointer to the first of `ts`, followed by `tail`. */
  function Head(ts: seq<Tree>, tail: Ptr): Ptr { if ts == [] then tail else To(ts[0].id) }

  /** The links hold the entries `ts` as consecutive children of `p`, after which the
      chain goes on with `tail`; everything below them is linked likewise. */
  predicate Linked(l: Links, ts: seq<Tree>, p: Ptr, tail: Ptr)
    decreases CountAll(ts)
  {
    ts == [] ||
    (var x := ts[0];
     assert Count(x) == 1 + CountAll(x.kids);
     && Has(l, x.id)
     && l.parent[x.id] == p
     && l.next[x.id] == Head(ts[1..], tail)
     && l.list[x.id] == Head(x.kids, Null)
     && Linked(l, x.kids, To(x.id), Null)
     && Linked(l, ts[1..], p, tail))
  }

  predicate SameAt(l: Links, m: Links, id: nat) {
    Has(l, id) && Has(m, id) && l.next[id] == m.next[id] && l.parent[id] == m.parent[id] && l.list[id] == m.list[id]
  }

  /** Only the entries `ids` have changed. */
  ghost predicate Only(l: Links, m: Links, ids: seq<nat>) {
    && l.next.Keys == m.next.Keys && l.parent.Keys == m.parent.Keys && l.list.Keys == m.list.Keys
    && (forall id :: id !in ids && Has(l, id) ==> SameAt(l, m, id))
  }

  predicate NoDup(s: seq<nat>) {
    forall i, j :: 0 <= i < j < |s| ==> s[i] != s[j]
  }

  lemma NoDupAppend(a: seq<nat>, b: seq<nat>)
    ensures NoDup(a + b) <==> NoDup(a) && NoDup(b) && forall x :: x in a ==> x !in b
  {
    var c := a + b;
    if NoDup(c) {
      forall i, j | 0 <= i < j < |b| ensures b[i] != b[j] {
        assert c[|a| + i] == b[i] && c[|a| + j] == b[j];
      }
      forall i, j | 0 <= i < j < |a| ensures a[i] != a[j] {
        assert c[i] == a[i] && c[j] == a[j];
      }
      forall x | x in a ensures x !in b {
        var i :| 0 <= i < |a| && a[i] == x;
        forall j | 0 <= j < |b| ensures b[j] != x { assert c[i] != c[|a| + j]; }
      }
    }
    if NoDup(a) && NoDup(b) && forall x :: x in a ==> x !in b {
      forall i, j | 0 <= i < j < |c| ensures c[i] != c[j] {
        if i < |a| <= j { assert a[i] in a && b[j - |a|] in b; }
      }
    }
  }

  lemma {:induction false} LinkedFrame(l: Links, m: Links, ts: seq<Tree>, p: Ptr, tail: Ptr)
    requires Linked(l, ts, p, tail) && forall id :: id in PreAll(ts) ==> SameAt(l, m, id)
    ensures Linked(m, ts, p, tail)
    decreases CountAll(ts)
  {
    if ts != [] {
      var x := ts[0];
      assert Count(x) == 1 + CountAll(x.kids);
      assert PreAll(ts) == [x.id] + PreAll(x.kids) + PreAll(ts[1..]);
      assert x.id in PreAll(ts);
      LinkedFrame(l, m, x.kids, To(x.id), Null);
      LinkedFrame(l, m, ts[1..], p, tail);
    }
  }

  lemma {:induction false} LinkedAppend(l: Links, a: seq<Tree>, b: seq<Tree>, p: Ptr, tail: Ptr)
    ensures Linked(l, a + b, p, tail) <==> Linked(l, a, p, Head(b, tail)) && Linked(l, b, p, tail)
    decreases CountAll(a)
  {
    if a == [] {
      assert a + b == b;
    } else {
      assert (a + b)[1..] == a[1..] + b;
      LinkedAppend(l, a[1..], b, p, tail);
    }
  }

  /** An entry linked with its children and what follows. */
  lemma LinkedEntry(l: Links, x: Tree, rest: seq<Tree>, p: Ptr, tail: Ptr)
    ensures Linked(l, [x] + rest, p, tail) <==>
            && Has(l, x.id) && l.parent[x.id] == p && l.next[x.id] == Head(rest, tail)
            && l.list[x.id] == Head(x.kids, Null)
            && Linked(l, x.kids, To(x.id), Null) && Linked(l, rest, p, tail)
  {
    assert ([x] + rest)[1..] == rest;
  }

  lemma {:induction false} LinkedHas(l: Links, ts: seq<Tree>, p: Ptr, tail: Ptr)
    requires Linked(l, ts, p, tail)
    ensures forall id :: id in PreAll(ts) ==> Has(l, id)
    decreases CountAll(ts)
  {
    if ts != [] {
      var x := ts[0];
      assert Count(x) == 1 + CountAll(x.kids);
      LinkedHas(l, x.kids, To(x.id), Null);
      LinkedHas(l, ts[1..], p, tail);
    }
  }

  lemma {:induction false} LinkedParents(l: Links, ts: seq<Tree>, p: nat, tail: Ptr)
    requires Linked(l, ts, To(p), tail)
    ensures forall e :: e in MenuPlaces.Edges(ts, p) ==> Has(l, e.id) && l.parent[e.id] == To(e.parent)
    decreases CountAll(ts)
  {
    if ts != [] {
      var x := ts[0];
      assert Count(x) == 1 + CountAll(x.kids);
      LinkedParents(l, x.kids, x.id, Null);
      LinkedParents(l, ts[1..], p, tail);
    }
  }

  /** The parent links of a finished root are those of the one-pass reading of the original tree. */
  lemma RootParents(l: Links, d: Rules, t: Tree, t': Tree)
    requires t' == Finalize(d, t, []).0 && t'.id == t.id && Linked(l, [t'], Null, Null)
    ensures forall pl :: pl in MenuPlaces.Places(d, t.kids, [], t.id, t.id) ==> Has(l, pl.id) && l.parent[pl.id] == To(pl.parent)
  {
    var ps := MenuPlaces.Places(d, t.kids, [], t.id, t.id);
    assert [t'] + [] == [t'];
    LinkedEntry(l, t', [], Null, Null);
    LinkedParents(l, t'.kids, t.id, Null);
    MenuPlaces.RootPlaces(d, t);
    forall pl | pl in ps ensures Has(l, pl.id) && l.parent[pl.id] == To(pl.parent) {
      var k :| 0 <= k < |ps| && ps[k] == pl;
      assert MenuPlaces.EdgesOf(ps)[k] in MenuPlaces.Edges(t'.kids, t.id);
    }
  }

  /** The last entry is none of the earlier ones and none of its own children. */
  lemma LastApart(init: seq<Tree>, x: Tree)
    requires NoDup(PreAll(init + [x]))
    ensures x.id !in PreAll(init) && x.id !in PreAll(x.kids)
  {
    PreSnoc(init, x);
    NoDupAppend(PreAll(init), Pre(x));
    NoDupAppend([x.id], PreAll(x.kids));
    assert x.id in [x.id] && x.id in Pre(x);
  }

  /** Writing the next pointer of an entry leaves the chains without it alone. */
  lemma NextFrame(l: Links, id: nat, q: Ptr, ts: seq<Tree>, p: Ptr, tail: Ptr)
    requires Linked(l, ts, p, tail) && id !in PreAll(ts)
    ensures Linked(l.(next := l.next[id := q]), ts, p, tail)
  {
    LinkedHas(l, ts, p, tail);
    LinkedFrame(l, l.(next := l.next[id := q]), ts, p, tail);
  }

  /** A chain of entries can be given another continuation. */
  lemma Retail(l: Links, init: seq<Tree>, x: Tree, p: Ptr, tail: Ptr, tail': Ptr)
    requires Linked(l, init + [x], p, tail) && NoDup(PreAll(init + [x]))
    ensures Has(l, x.id)
    ensures Linked(l.(next := l.next[x.id := tail']), init + [x], p, tail')
  {
    var m := l.(next := l.next[x.id := tail']);
    LastApart(init, x);
    LinkedAppend(l, init, [x], p, tail);
    LinkedEntry(l, x, [], p, tail);
    assert [x] + [] == [x];
    NextFrame(l, x.id, tail', init, p, To(x.id));
    NextFrame(l, x.id, tail', x.kids, To(x.id), Null);
    LinkedEntry(m, x, [], p, tail');
    LinkedAppend(m, init, [x], p, tail');
  }

  /** An entry can be given another parent. */
  lemma Reparent(l: Links, x: Tree, p: Ptr, q: Ptr, tail: Ptr)
    requires Linked(l, [x], p, tail) && NoDup(Pre(x))
    ensures Has(l, x.id)
    ensures Linked(l.(parent := l.parent[x.id := q]), [x], q, tail)
  {
    var m := l.(parent := l.parent[x.id := q]);
    assert [x] + [] == [x];
    LinkedEntry(l, x, [], p, tail);
    NoDupAppend([x.id], PreAll(x.kids));
    assert x.id in [x.id];
    LinkedHas(l, x.kids, To(x.id), Null);
    LinkedFrame(l, m, x.kids, To(x.id), Null);
    LinkedEntry(m, x, [], q, tail);
  }

  lemma OnlyTrans(l: Links, m: Links, n: Links, a: seq<nat>, b: seq<nat>, c: seq<nat>)
    requires Only(l, m, a) && Only(m, n, b)
    requires forall id :: id in a ==> id in c
    requires forall id :: id in b ==> id in c
    ensures Only(l, n, c)
  {}

  lemma AdoptOne(l: Links, done: seq<Tree>, y: Tree, rest: seq<Tree>, m: nat, x: nat, kids: seq<Tree>)
    requires kids == done + [y] + rest && NoDup(PreAll(kids))
    requires Linked(l, done, To(m), Head([y] + rest, Null)) && Linked(l, [y] + rest, To(x), Null)
    ensures Has(l, y.id) && l.next[y.id] == Head(rest, Null) && y.id in PreAll(kids)
    ensures var l' := l.(parent := l.parent[y.id := To(m)]);
            && Linked(l', done + [y], To(m), Head(rest, Null))
            && Linked(l', rest, To(x), Null)
            && Only(l, l', PreAll(kids))
  {
    assert kids == done + ([y] + rest);
    OrderAround(done, y, rest, [y] + rest);
    LinkedAppend(l, [y], rest, To(x), Null);
    MoveOne(l, done, y, rest, To(x), m);
  }

  lemma HeadFromOrder(a: seq<Tree>, b: seq<Tree>, tail: Ptr)
    requires PreAll(a) == PreAll(b)
    ensures Head(a, tail) == Head(b, tail)
  {
    if a != [] { assert PreAll(a)[0] == a[0].id; }
    if b != [] { assert PreAll(b)[0] == b[0].id; }
  }

  /** The links after the children of `x` were put between `x` and what follows. */
  function Spliced(l: Links, x: nat, last: nat): Links
    requires Has(l, x) && last in l.next
  {
    var next := l.next[last := l.next[x]];
    l.(next := next[x := l.list[x]], list := l.list[x := Null])
  }

  lemma SplicedKeeps(l: Links, x: nat, last: nat, id: nat)
    requires Has(l, x) && Has(l, last) && Has(l, id) && id != x
    ensures SameAt(l.(next := l.next[last := l.next[x]]), Spliced(l, x, last), id)
    ensures id != last ==> SameAt(l, Spliced(l, x, last), id)
  {
  }

  /** The identities in `x`, its last child `z` and what follows are apart. */
  lemma KidsApart(x: Tree, rest: seq<Tree>)
    requires x.kids != [] && NoDup(Pre(x) + PreAll(rest))
    ensures x.id in Pre(x) && x.id !in PreAll(x.kids) && x.id !in PreAll(rest) && NoDup(PreAll(x.kids))
    ensures var z := x.kids[|x.kids| - 1].id; z in PreAll(x.kids) && z in Pre(x) && z !in PreAll(rest)
  {
    var init, z := x.kids[..|x.kids| - 1], x.kids[|x.kids| - 1];
    NoDupAppend(Pre(x), PreAll(rest));
    NoDupAppend([x.id], PreAll(x.kids));
    assert x.id in [x.id] && x.id in Pre(x);
    LastInOrder(init, z);
    assert x.kids == init + [z];
  }

  /** A chain without `x` is kept by the splicing, apart from the continuation of `last`. */
  lemma SplicedFrame(l: Links, x: nat, last: nat, ts: seq<Tree>, p: Ptr, tail: Ptr)
    requires Has(l, x) && Has(l, last) && x !in PreAll(ts)
    ensures last !in PreAll(ts) && Linked(l, ts, p, tail) ==> Linked(Spliced(l, x, last), ts, p, tail)
    ensures Linked(l.(next := l.next[last := l.next[x]]), ts, p, tail) ==> Linked(Spliced(l, x, last), ts, p, tail)
  {
    var l1, l2 := l.(next := l.next[last := l.next[x]]), Spliced(l, x, last);
    if last !in PreAll(ts) && Linked(l, ts, p, tail) {
      LinkedHas(l, ts, p, tail);
      forall id | id in PreAll(ts) ensures SameAt(l, l2, id) { SplicedKeeps(l, x, last, id); }
      LinkedFrame(l, l2, ts, p, tail);
    }
    if Linked(l1, ts, p, tail) {
      LinkedHas(l1, ts, p, tail);
      forall id | id in PreAll(ts) ensures SameAt(l1, l2, id) { SplicedKeeps(l, x, last, id); }
      LinkedFrame(l1, l2, ts, p, tail);
    }
  }

  lemma SplicedOnly(l: Links, x: nat, last: nat, ids: seq<nat>)
    requires Has(l, x) && Has(l, last) && x in ids && last in ids
    ensures Only(l, Spliced(l, x, last), ids)
  {
    forall id | id !in ids && Has(l, id) ensures SameAt(l, Spliced(l, x, last), id) { SplicedKeeps(l, x, last, id); }
  }

  lemma SpliceKids(l: Links, x: Tree, rest: seq<Tree>, p: Ptr)
    requires x.kids != [] && NoDup(Pre(x) + PreAll(rest))
    requires Has(l, x.id) && l.next[x.id] == Head(rest, Null) && Linked(l, x.kids, p, Null) && Linked(l, rest, p, Null)
    ensures var z := x.kids[|x.kids| - 1];
            && Has(l, z.id) && z.id in Pre(x)
            && Linked(Spliced(l, x.id, z.id), x.kids + rest, p, Null)
            && Only(l, Spliced(l, x.id, z.id), Pre(x))
  {
    var init, z := x.kids[..|x.kids| - 1], x.kids[|x.kids| - 1];
    KidsApart(x, rest);
    assert x.kids == init + [z];
    Retail(l, init, z, p, Null, Head(rest, Null));
    SplicedFrame(l, x.id, z.id, x.kids, p, Head(rest, Null));
    SplicedFrame(l, x.id, z.id, rest, p, Null);
    LinkedAppend(Spliced(l, x.id, z.id), x.kids, rest, p, Null);
    SplicedOnly(l, x.id, z.id, Pre(x));
  }

  lemma LastInOrder(init: seq<Tree>, z: Tree)
    ensures z.id in PreAll(init + [z])
  {
    CountAppend(init, [z]);
    CountCons(z, []);
    assert Pre(z)[0] == z.id;
    assert z.id in Pre(z);
  }

  /** The entries before `x`, and `x` itself, after its children were put behind it. */
  lemma SpliceBefore(l: Links, done: seq<Tree>, x: Tree, z: nat, rest: seq<Tree>, p: Ptr)
    requires x.kids != [] && x.id !in PreAll(done) && z !in PreAll(done) && z != x.id
    requires Has(l, x.id) && Has(l, z) && l.parent[x.id] == p && l.list[x.id] == Head(x.kids, Null)
    requires Linked(l, done, p, To(x.id))
    ensures Linked(Spliced(l, x.id, z), done + [Node(x.id, [])], p, Head(x.kids + rest, Null))
  {
    var l2 := Spliced(l, x.id, z);
    SplicedFrame(l, x.id, z, done, p, To(x.id));
    LinkedEntry(l2, Node(x.id, []), [], p, Head(x.kids + rest, Null));
    assert [Node(x.id, [])] + [] == [Node(x.id, [])];
    LinkedAppend(l2, done, [Node(x.id, [])], p, Head(x.kids + rest, Null));
  }

  lemma SpliceOrder(done: seq<Tree>, x: Tree, rest: seq<Tree>)
    requires x.kids != [] && NoDup(PreAll(done) + (Pre(x) + PreAll(rest)))
    ensures NoDup(Pre(x) + PreAll(rest))
    ensures var z := x.kids[|x.kids| - 1].id; x.id !in PreAll(done) && z !in PreAll(done) && z != x.id
  {
    NoDupAppend(PreAll(done), Pre(x) + PreAll(rest));
    KidsApart(x, rest);
  }

  /** One step of the flattening, on the links. */
  lemma SpliceStep(l: Links, done: seq<Tree>, x: Tree, rest: seq<Tree>, p: Ptr)
    requires x.kids != [] && NoDup(PreAll(done) + (Pre(x) + PreAll(rest)))
    requires Has(l, x.id) && l.next[x.id] == Head(rest, Null) && l.parent[x.id] == p &&
             l.list[x.id] == Head(x.kids, Null)
    requires Linked(l, done, p, To(x.id)) && Linked(l, x.kids, p, Null) && Linked(l, rest, p, Null)
    ensures var z := x.kids[|x.kids| - 1];
            && Has(l, z.id) && z.id in Pre(x)
            && Linked(Spliced(l, x.id, z.id), done + [Node(x.id, [])], p, Head(x.kids + rest, Null))
            && Linked(Spliced(l, x.id, z.id), x.kids + rest, p, Null)
            && Only(l, Spliced(l, x.id, z.id), Pre(x))
  {
    SpliceOrder(done, x, rest);
    SpliceKids(l, x, rest, p);
    SpliceBefore(l, done, x, x.kids[|x.kids| - 1].id, rest, p);
  }

  lemma OrderParts(done: seq<Tree>, t: Tree, rest: seq<Tree>)
    requires NoDup(PreAll(done) + (Pre(t) + PreAll(rest)))
    ensures NoDup(PreAll(t.kids)) && t.id !in PreAll(t.kids)
    ensures forall id :: id in PreAll(done) || id in PreAll(rest) ==> id !in Pre(t) && id !in PreAll(t.kids)
    ensures forall id :: id in PreAll(t.kids) ==> id in Pre(t)
    ensures t.id in Pre(t)
  {
    NoDupAppend(PreAll(done), Pre(t) + PreAll(rest));
    NoDupAppend(Pre(t), PreAll(rest));
    NoDupAppend([t.id], PreAll(t.kids));
    assert t.id in [t.id];
  }

  lemma AdoptKeepsOthers(l: Links, l': Links, done: seq<Tree>, t: Tree, rest: seq<Tree>, m: nat)
    requires NoDup(PreAll(done) + (Pre(t) + PreAll(rest))) && Only(l, l', PreAll(t.kids))
    requires Linked(l, done, To(m), To(t.id)) && Linked(l, [t] + rest, To(m), Null)
    ensures Linked(l', done, To(m), To(t.id)) && Linked(l', rest, To(m), Null) && SameAt(l, l', t.id)
  {
    OrderParts(done, t, rest);
    LinkedEntry(l, t, rest, To(m), Null);
    LinkedHas(l, done, To(m), To(t.id));
    LinkedHas(l, rest, To(m), Null);
    LinkedFrame(l, l', done, To(m), To(t.id));
    LinkedFrame(l, l', rest, To(m), Null);
  }

  lemma OrderAround(done: seq<Tree>, x: Tree, rest: seq<Tree>, todo: seq<Tree>)
    requires todo == [x] + rest
    ensures PreAll(done + todo) == PreAll(done) + (Pre(x) + PreAll(rest))
    ensures PreAll((done + [x]) + rest) == PreAll(done + todo)
    ensures CountAll(rest) < CountAll(todo)
  {
    CountAppend(done, todo);
    CountCons(x, rest);
    SameList(done, x, rest);
  }

  lemma SameList(done: seq<Tree>, x: Tree, rest: seq<Tree>)
    ensures (done + [x]) + rest == done + ([x] + rest)
  {}

  /** Handing over the children of `x` changes neither order nor number. */
  lemma HollowOrder(x: Tree, rest: seq<Tree>)
    ensures Pre(Node(x.id, [])) + PreAll(x.kids + rest) == Pre(x) + PreAll(rest)
    ensures CountAll(x.kids + rest) < CountAll([x] + rest)
  {
    CountAppend(x.kids, rest);
    CountCons(x, rest);
    assert Count(x) == 1 + CountAll(x.kids);
    assert Pre(Node(x.id, [])) == [x.id];
    assert [x.id] + (PreAll(x.kids) + PreAll(rest)) == ([x.id] + PreAll(x.kids)) + PreAll(rest);
  }

  lemma FlattenUnfolds(d: Rules, done: seq<Tree>, x: Tree, rest: seq<Tree>)
    requires x.kids != [] && !d.hasPrompt(x.id)
    ensures done + Flatten(d, [x] + rest) == (done + [Node(x.id, [])]) + Flatten(d, x.kids + rest)
  {
    assert ([x] + rest)[1..] == rest;
    assert Flatten(d, [x] + rest) == [Node(x.id, [])] + Flatten(d, x.kids + rest);
  }

  /** One step of the flattening, on the trees. */
  lemma FlattenStep(d: Rules, kids: seq<Tree>, done: seq<Tree>, x: Tree, rest: seq<Tree>)
    requires Flatten(d, kids) == done + Flatten(d, [x] + rest) && PreAll(done + ([x] + rest)) == PreAll(kids)
    requires x.kids != [] && !d.hasPrompt(x.id)
    ensures Flatten(d, kids) == (done + [Node(x.id, [])]) + Flatten(d, x.kids + rest)
    ensures PreAll((done + [Node(x.id, [])]) + (x.kids + rest)) == PreAll(kids)
    ensures CountAll(x.kids + rest) < CountAll([x] + rest)
  {
    var y := Node(x.id, []);
    FlattenUnfolds(d, done, x, rest);
    HollowOrder(x, rest);
    OrderAround(done, x, rest, [x] + rest);
    OrderAround(done, y, x.kids + rest, [y] + (x.kids + rest));
  }

  lemma FlattenSkip(d: Rules, kids: seq<Tree>, done: seq<Tree>, x: Tree, rest: seq<Tree>)
    requires Flatten(d, kids) == done + Flatten(d, [x] + rest)
    requires !(x.kids != [] && !d.hasPrompt(x.id))
    ensures Flatten(d, kids) == (done + [x]) + Flatten(d, rest)
  {
    assert ([x] + rest)[1..] == rest;
    assert done + ([x] + Flatten(d, rest)) == (done + [x]) + Flatten(d, rest);
  }

  /** Changes within a part of `c` after changes within `c`. */
  lemma OnlyPart(l: Links, m: Links, n: Links, c: seq<nat>, a: seq<nat>, b: seq<nat>)
    requires c == a + b && Only(l, m, c) && Only(m, n, b)
    ensures Only(l, n, c)
  {
    OnlyTrans(l, m, n, c, b, c);
  }

  /* ----- finishing a run of siblings ----- */

  /** The entry `x` of `done + [x] + rest` was finished into `y`, leaving `left`. */
  lemma FinishOne(l: Links, l': Links, done: seq<Tree>, x: Tree, rest: seq<Tree>, y: Tree, left: seq<Tree>, p: Ptr,
                  q: Ptr)
    requires x.id == y.id && Pre(y) + PreAll(left) == Pre(x) + PreAll(rest)
    requires NoDup(PreAll(done) + (Pre(x) + PreAll(rest)))
    requires Linked(l, done, q, To(x.id)) && Only(l, l', Pre(x) + PreAll(rest)) && Linked(l', [y] + left, p, Null)
    ensures Linked(l', done, q, To(y.id)) && Linked(l', [y], p, Head(left, Null)) && Linked(l', left, p, Null)
    ensures PreAll((done + [y]) + left) == PreAll(done) + (Pre(x) + PreAll(rest))
    ensures NoDup(PreAll(done) + (Pre(y) + PreAll(left)))
  {
    NoDupAppend(PreAll(done), Pre(x) + PreAll(rest));
    LinkedHas(l, done, q, To(x.id));
    LinkedFrame(l, l', done, q, To(x.id));
    LinkedAppend(l', [y], left, p, Null);
    OrderAround(done, y, left, [y] + left);
  }

  lemma FinalizeAllStep(d: Rules, done: seq<Tree>, x: Tree, rest: seq<Tree>)
    ensures var (y, left) := Finalize(d, x, rest);
            done + FinalizeAll(d, [x] + rest) == (done + [y]) + FinalizeAll(d, left)
  {
    var (y, left) := Finalize(d, x, rest);
    assert ([x] + rest)[1..] == rest;
    assert FinalizeAll(d, [x] + rest) == [y] + FinalizeAll(d, left);
  }

  lemma AbsorbStep(d: Rules, p: nat, done: seq<Tree>, x: Tree, rest: seq<Tree>)
    requires d.absorbs(p, x.id)
    ensures var (y, left) := Finalize(d, x, rest);
            && done + Absorb(d, p, [x] + rest).0 == (done + [y]) + Absorb(d, p, left).0
            && Absorb(d, p, [x] + rest).1 == Absorb(d, p, left).1
  {
    var (y, left) := Finalize(d, x, rest);
    assert ([x] + rest)[1..] == rest;
    assert Absorb(d, p, [x] + rest).0 == [y] + Absorb(d, p, left).0;
  }

  /** Of the entries `rest` that follow `p`, `ks` have been absorbed and `rs` are left
      to look at. */
  predicate Absorbing(d: Rules, p: nat, rest: seq<Tree>, ks: seq<Tree>, rs: seq<Tree>) {
    && Absorb(d, p, rest).0 == ks + Absorb(d, p, rs).0 && Absorb(d, p, rest).1 == Absorb(d, p, rs).1
    && PreAll(ks + rs) == PreAll(rest) && CountAll(rs) <= CountAll(rest)
  }

  lemma AbsorbingOne(d: Rules, p: nat, rest: seq<Tree>, ks: seq<Tree>, x: Tree, tail: seq<Tree>)
    requires Absorbing(d, p, rest, ks, [x] + tail) && d.absorbs(p, x.id)
    ensures var (y, left) := Finalize(d, x, tail);
            Absorbing(d, p, rest, ks + [y], left) && CountAll(left) < CountAll([x] + tail)
    ensures PreAll(rest) == PreAll(ks) + (Pre(x) + PreAll(tail))
  {
    var (y, left) := Finalize(d, x, tail);
    AbsorbStep(d, p, ks, x, tail);
    FinalizeKeepsOrder(d, x, tail);
    OrderAround(ks, x, tail, [x] + tail);
    OrderAround(ks, y, left, [y] + left);
    CountCons(x, tail);
  }

  /** A finished entry `y` moves from parent `p` to the end of the children of `m`. */
  lemma MoveOne(l: Links, done: seq<Tree>, y: Tree, left: seq<Tree>, p: Ptr, m: nat)
    requires NoDup(PreAll(done) + (Pre(y) + PreAll(left)))
    requires Linked(l, done, To(m), To(y.id)) && Linked(l, [y], p, Head(left, Null)) && Linked(l, left, p, Null)
    ensures Has(l, y.id) && l.next[y.id] == Head(left, Null) && y.id in Pre(y)
    ensures var l' := l.(parent := l.parent[y.id := To(m)]);
            && Linked(l', done + [y], To(m), Head(left, Null)) && Linked(l', left, p, Null)
            && Only(l, l', Pre(y))
  {
    var l' := l.(parent := l.parent[y.id := To(m)]);
    OrderParts(done, y, left);
    NoDupAppend([y.id], PreAll(y.kids));
    Reparent(l, y, p, To(m), Head(left, Null));
    LinkedHas(l, done, To(m), To(y.id));
    LinkedHas(l, left, p, Null);
    LinkedFrame(l, l', done, To(m), To(y.id));
    LinkedFrame(l, l', left, p, Null);
    LinkedAppend(l', done, [y], To(m), Head(left, Null));
    assert [y] + [] == [y];
    LinkedEntry(l, y, [], p, Head(left, Null));
  }

  /** The links after the entries from the one after `m` up to `last` became the
      children of `m`. */
  function Submenu(l: Links, m: nat, last: nat): Links
    requires Has(l, m) && Has(l, last)
  {
    var list := l.list[m := l.next[m]];
    var next := l.next[m := l.next[last]];
    l.(next := next[last := Null], list := list)
  }

  lemma SubmenuLinked(l: Links, m: nat, init: seq<Tree>, z: Tree, left: seq<Tree>, p: Ptr)
    requires NoDup([m] + PreAll((init + [z]) + left))
    requires Has(l, m) && l.parent[m] == p && l.next[m] == Head(init + [z], Null)
    requires Linked(l, init + [z], To(m), Head(left, Null)) && Linked(l, left, p, Null)
    ensures Has(l, z.id) && z.id in PreAll(init + [z])
    ensures Linked(Submenu(l, m, z.id), [Node(m, init + [z])] + left, p, Null)
    ensures Only(l, Submenu(l, m, z.id), [m] + PreAll((init + [z]) + left))
  {
    var ks := init + [z];
    SubmenuApart(m, init, z, left);
    Retail(l, init, z, To(m), Head(left, Null), Null);
    LastNext(l, init, z, To(m), Head(left, Null));
    var l2 := Submenu(l, m, z.id);
    SubmenuFrame(l, m, z.id, ks, To(m), Null);
    SubmenuFrame(l, m, z.id, left, p, Null);
    LinkedEntry(l2, Node(m, ks), left, p, Null);
  }

  lemma SubmenuApart(m: nat, init: seq<Tree>, z: Tree, left: seq<Tree>)
    requires NoDup([m] + PreAll((init + [z]) + left))
    ensures z.id in PreAll(init + [z]) && z.id in [m] + PreAll((init + [z]) + left) && z.id != m
    ensures m !in PreAll(init + [z]) && m !in PreAll(left) && z.id !in PreAll(left) && NoDup(PreAll(init + [z]))
  {
    var ks := init + [z];
    NoDupAppend([m], PreAll(ks + left));
    assert m in [m];
    CountAppend(ks, left);
    NoDupAppend(PreAll(ks), PreAll(left));
    LastInOrder(init, z);
  }

  lemma LastNext(l: Links, init: seq<Tree>, z: Tree, p: Ptr, tail: Ptr)
    requires Linked(l, init + [z], p, tail)
    ensures Has(l, z.id) && l.next[z.id] == tail
  {
    LinkedAppend(l, init, [z], p, tail);
    assert [z] + [] == [z];
    LinkedEntry(l, z, [], p, tail);
  }

  /** A chain without `m` is kept, apart from the continuation of `last`. */
  lemma SubmenuFrame(l: Links, m: nat, last: nat, ts: seq<Tree>, p: Ptr, tail: Ptr)
    requires Has(l, m) && Has(l, last) && m !in PreAll(ts) && m != last
    ensures last !in PreAll(ts) && Linked(l, ts, p, tail) ==> Linked(Submenu(l, m, last), ts, p, tail)
    ensures Linked(l.(next := l.next[last := Null]), ts, p, tail) ==> Linked(Submenu(l, m, last), ts, p, tail)
  {
    var l1, l2 := l.(next := l.next[last := Null]), Submenu(l, m, last);
    if last !in PreAll(ts) && Linked(l, ts, p, tail) {
      LinkedHas(l, ts, p, tail);
      LinkedFrame(l, l2, ts, p, tail);
    }
    if Linked(l1, ts, p, tail) {
      LinkedHas(l1, ts, p, tail);
      LinkedFrame(l1, l2, ts, p, tail);
    }
  }

  /** An entry keeps its place while what is below it changes from `a` to `b`. */
  lemma KeptEntry(l: Links, l': Links, m: nat, a: seq<Tree>, b: seq<Tree>, rest: seq<Tree>, p: Ptr)
    requires NoDup(Pre(Node(m, a)) + PreAll(rest)) && Linked(l, [Node(m, a)] + rest, p, Null)
    requires Only(l, l', PreAll(a)) && Has(l', m) && l'.list[m] == Head(b, Null) && Linked(l', b, To(m), Null)
    ensures Linked(l', [Node(m, b)] + rest, p, Null)
  {
    LinkedEntry(l, Node(m, a), rest, p, Null);
    NoDupAppend(Pre(Node(m, a)), PreAll(rest));
    NoDupAppend([m], PreAll(a));
    assert m in [m];
    LinkedHas(l, rest, p, Null);
    LinkedFrame(l, l', rest, p, Null);
    LinkedEntry(l', Node(m, b), rest, p, Null);
  }

  lemma OrderUnder(m: nat, ks: seq<Tree>, left: seq<Tree>, rest: seq<Tree>)
    requires PreAll(ks) + PreAll(left) == PreAll(rest)
    ensures Pre(Node(m, ks)) + PreAll(left) == [m] + PreAll(rest)
    ensures forall id :: id in PreAll(ks) ==> id in [m] + PreAll(rest)
  {
    assert [m] + (PreAll(ks) + PreAll(left)) == ([m] + PreAll(ks)) + PreAll(left);
  }

  lemma LogPre(log0: seq<nat>, log: seq<nat>, m: nat, kids: seq<Tree>)
    requires multiset(log) == multiset(log0 + [m]) + multiset(PreAll(kids))
    ensures multiset(log) == multiset(log0) + multiset(Pre(Node(m, kids)))
  {}

  /** The calls logged so far are those of the finished entries `done`. */
  predicate Logged(log0: seq<nat>, log: seq<nat>, done: seq<Tree>) {
    multiset(log) == multiset(log0) + multiset(PreAll(done))
  }

  lemma LoggedOne(log0: seq<nat>, log1: seq<nat>, log: seq<nat>, done: seq<Tree>, y: Tree)
    requires Logged(log0, log1, done) && multiset(log) == multiset(log1) + multiset(Pre(y))
    ensures Logged(log0, log, done + [y])
  {
    PreSnoc(done, y);
  }

  lemma PreSnoc(done: seq<Tree>, y: Tree)
    ensures PreAll(done + [y]) == PreAll(done) + Pre(y)
  {
    CountAppend(done, [y]);
    assert PreAll([y]) == Pre(y) + [];
  }

  /** Of the children `kids` of `m`, `done` have been finished and `todo` are left. */
  ghost predicate Finishing(d: Rules, l0: Links, l: Links, m: nat, kids: seq<Tree>, done: seq<Tree>, todo: seq<Tree>,
                            log0: seq<nat>, log: seq<nat>) {
    && Linked(l, done, To(m), Head(todo, Null)) && Linked(l, todo, To(m), Null)
    && FinalizeAll(d, kids) == done + FinalizeAll(d, todo) && PreAll(done + todo) == PreAll(kids)
    && CountAll(todo) <= CountAll(kids)
    && Only(l0, l, PreAll(kids)) && Logged(log0, log, done)
  }

  lemma FinishingStep(d: Rules, l0: Links, l1: Links, l2: Links, m: nat, kids: seq<Tree>, done: seq<Tree>,
                      x: Tree, rest: seq<Tree>, log0: seq<nat>, log1: seq<nat>, log2: seq<nat>)
    requires Finishing(d, l0, l1, m, kids, done, [x] + rest, log0, log1)
    requires var (y, left) := Finalize(d, x, rest);
             && Linked(l2, done + [y], To(m), Head(left, Null)) && Linked(l2, left, To(m), Null)
             && PreAll((done + [y]) + left) == PreAll(done) + (Pre(x) + PreAll(rest))
             && multiset(log2) == multiset(log1) + multiset(Pre(y))
    requires Only(l1, l2, Pre(x) + PreAll(rest))
    ensures var (y, left) := Finalize(d, x, rest);
            Finishing(d, l0, l2, m, kids, done + [y], left, log0, log2) && CountAll(left) < CountAll([x] + rest)
  {
    var y, left := Finalize(d, x, rest).0, Finalize(d, x, rest).1;
    OrderAround(done, x, rest, [x] + rest);
    CountCons(x, rest);
    LoggedOne(log0, log1, log2, done, y);
    FinalizeAllStep(d, done, x, rest);
    OnlyPart(l0, l1, l2, PreAll(kids), PreAll(done), Pre(x) + PreAll(rest));
  }

  /** Of the entries `rest` after `m`, `ks` have become its children and `rs` are left. */
  ghost predicate Gathering(d: Rules, l0: Links, l: Links, m: nat, p: Ptr, rest: seq<Tree>, ks: seq<Tree>,
                            rs: seq<Tree>,
                            log0: seq<nat>, log: seq<nat>) {
    && Linked(l, ks, To(m), Head(rs, Null)) && Linked(l, rs, p, Null)
    && Absorbing(d, m, rest, ks, rs)
    && Only(l0, l, PreAll(rest)) && Logged(log0, log, ks)
  }

  lemma GatheringStart(d: Rules, l: Links, m: nat, p: Ptr, rest: seq<Tree>, log: seq<nat>)
    requires Linked(l, rest, p, Null)
    ensures Gathering(d, l, l, m, p, rest, [], rest, log, log)
  {
    assert [] + rest == rest && [] + Absorb(d, m, rest).0 == Absorb(d, m, rest).0;
  }

  lemma AbsorbStops(d: Rules, p: nat, rs: seq<Tree>)
    requires rs == [] || !d.absorbs(p, rs[0].id)
    ensures Absorb(d, p, rs) == ([], rs)
  {
  }

  /** The last of the entries gathered so far. */
  function LastOf(ks: seq<Tree>): Ptr { if ks == [] then Null else To(ks[|ks| - 1].id) }

  lemma GatheringStep(d: Rules, l0: Links, l1: Links, l2: Links, m: nat, p: Ptr, rest: seq<Tree>, ks: seq<Tree>,
                      x: Tree, tail: seq<Tree>, log0: seq<nat>, log1: seq<nat>, log2: seq<nat>)
    requires Gathering(d, l0, l1, m, p, rest, ks, [x] + tail, log0, log1) && d.absorbs(m, x.id)
    requires var (y, left) := Finalize(d, x, tail);
             && Linked(l2, ks + [y], To(m), Head(left, Null)) && Linked(l2, left, p, Null)
             && multiset(log2) == multiset(log1) + multiset(Pre(y))
    requires Only(l1, l2, Pre(x) + PreAll(tail))
    ensures var (y, left) := Finalize(d, x, tail);
            Gathering(d, l0, l2, m, p, rest, ks + [y], left, log0, log2) && CountAll(left) < CountAll([x] + tail)
  {
    AbsorbingOne(d, m, rest, ks, x, tail);
    LoggedOne(log0, log1, log2, ks, Finalize(d, x, tail).0);
    OnlyPart(l0, l1, l2, PreAll(rest), PreAll(ks), Pre(x) + PreAll(tail));
  }

  class Menus {
    var next: map<nat, Ptr>
    var parent: map<nat, Ptr>
    var list: map<nat, Ptr>
    const d: Rules
    /** The entries for which `menu_finalize` was called, in the order of the calls. */
    ghost var log: seq<nat>

    function L(): Links
      reads this
    {
      Links(next, parent, list)
    }

    /** Moves the children of `x`, in place, to be children of `m`: the inner loop of
        the flattening. */
    method AdoptChildren(m: nat, x: nat, ghost kids: seq<Tree>) returns (last: nat)
      requires kids != [] && Linked(L(), kids, To(x), Null) && NoDup(PreAll(kids))
      requires x in list && list[x] == Head(kids, Null)
      modifies this`parent
      ensures Linked(L(), kids, To(m), Null) && Only(old(L()), L(), PreAll(kids))
      ensures last == kids[|kids| - 1].id
    {
      last := list[x].id;
      ghost var k := 0;
      ghost var l0 := L();
      while true
        invariant 0 <= k < |kids| && last == kids[k].id
        invariant Linked(L(), kids[..k], To(m), Head(kids[k..], Null))
        invariant Linked(L(), kids[k..], To(x), Null)
        invariant Only(l0, L(), PreAll(kids)) && next == old(next) && list == old(list)
        decreases |kids| - k
      {
        ghost var done, y, rest := kids[..k], kids[k], kids[k + 1..];
        AdoptOne(L(), done, y, rest, m, x, kids);
        parent := parent[last := To(m)];
        assert kids[..k + 1] == done + [y];
        if next[last] == Null {
          assert kids[..k + 1] == kids;
          return;
        }
        last := next[last].id;
        k := k + 1;
      }
    }

    /** Hands the children of one entry to `m`. */
    method FlattenOne(m: nat, x: nat, ghost done: seq<Tree>, ghost t: Tree, ghost rest: seq<Tree>)
      requires x == t.id && t.kids != [] && NoDup(PreAll(done) + (Pre(t) + PreAll(rest)))
      requires Linked(L(), done, To(m), To(x)) && Linked(L(), [t] + rest, To(m), Null)
      modifies this`next, this`parent, this`list
      ensures Linked(L(), done + [Node(x, [])], To(m), Head(t.kids + rest, Null))
      ensures Linked(L(), t.kids + rest, To(m), Null)
      ensures Only(old(L()), L(), Pre(t)) && x in next && next[x] == Head(t.kids + rest, Null)
    {
      ghost var l0 := L();
      LinkedEntry(l0, t, rest, To(m), Null);
      OrderParts(done, t, rest);
      var last := AdoptChildren(m, x, t.kids);
      AdoptKeepsOthers(l0, L(), done, t, rest, m);
      SpliceStep(L(), done, t, rest, To(m));
      ghost var l1 := L();
      next := next[last := next[x]];
      next := next[x := list[x]];
      list := list[x := Null];
      assert L() == Spliced(l1, x, last);
      OnlyTrans(l0, l1, L(), PreAll(t.kids), Pre(t), Pre(t));
    }

    /** The loop that hands the children of entries without a prompt text to `m`. */
    method FlattenChildren(m: nat, ghost kids: seq<Tree>)
      requires Has(L(), m) && list[m] == Head(kids, Null) && Linked(L(), kids, To(m), Null) && NoDup(Pre(Node(m, kids)))
      modifies this`next, this`parent, this`list
      ensures Has(L(), m) && list[m] == Head(Flatten(d, kids), Null) && Linked(L(), Flatten(d, kids), To(m), Null)
      ensures Only(old(L()), L(), PreAll(kids))
    {
      var menu := list[m];
      ghost var done: seq<Tree>, todo: seq<Tree> := [], kids;
      ghost var l0 := L();
      assert done + todo == kids;
      NoDupAppend([m], PreAll(kids));
      assert m in [m];
      while menu != Null
        invariant menu == Head(todo, Null)
        invariant Linked(L(), done, To(m), Head(todo, Null)) && Linked(L(), todo, To(m), Null)
        invariant Flatten(d, kids) == done + Flatten(d, todo) && PreAll(done + todo) == PreAll(kids)
        invariant Only(l0, L(), PreAll(kids))
        decreases CountAll(todo)
      {
        ghost var x, rest := todo[0], todo[1..];
        assert todo == [x] + rest;
        OrderAround(done, x, rest, todo);
        LinkedEntry(L(), x, rest, To(m), Null);
        if list[menu.id] != Null && !d.hasPrompt(menu.id) {
          FlattenStep(d, kids, done, x, rest);
          FlattenOne(m, menu.id, done, x, rest);
          done, todo := done + [Node(x.id, [])], x.kids + rest;
        } else {
          FlattenSkip(d, kids, done, x, rest);
          LinkedAppend(L(), done, [x], To(m), Head(rest, Null));
          LinkedAppend(L(), [x], rest, To(m), Null);
          done, todo := done + [x], rest;
        }
        menu := next[menu.id];
      }
      assert done + [] == done;
      HeadFromOrder(done, kids, Null);
    }

    /** One child of `m` is finished. */
    method FinalizeChild(m: nat, c: nat, ghost done: seq<Tree>, ghost x: Tree, ghost rest: seq<Tree>)
      requires c == x.id && NoDup(PreAll(done) + (Pre(x) + PreAll(rest)))
      requires Linked(L(), done, To(m), To(c)) && Linked(L(), [x] + rest, To(m), Null)
      modifies this`next, this`parent, this`list, this`log
      ensures var (y, left) := Finalize(d, x, rest);
              && Linked(L(), done + [y], To(m), Head(left, Null)) && Linked(L(), left, To(m), Null)
              && PreAll((done + [y]) + left) == PreAll(done) + (Pre(x) + PreAll(rest))
              && c in next && next[c] == Head(left, Null)
              && multiset(log) == multiset(old(log)) + multiset(Pre(y))
      ensures Only(old(L()), L(), Pre(x) + PreAll(rest))
      decreases Count(x) + CountAll(rest), 1, 0
    {
      ghost var l1 := L();
      NoDupAppend(PreAll(done), Pre(x) + PreAll(rest));
      FinalizeMenu(c, x, rest, To(m));
      ghost var y, left := Finalize(d, x, rest).0, Finalize(d, x, rest).1;
      FinalizeKeepsOrder(d, x, rest);
      FinishOne(l1, L(), done, x, rest, y, left, To(m), To(m));
      LinkedAppend(L(), done, [y], To(m), Head(left, Null));
      LinkedEntry(L(), y, left, To(m), Null);
    }

    /** The body of the loop over the children of `m`. */
    method FinalizeNext(m: nat, c: nat, ghost l0: Links, ghost kids: seq<Tree>, ghost done: seq<Tree>,
                        ghost todo: seq<Tree>,
                        ghost log0: seq<nat>)
      requires todo != [] && c == todo[0].id && NoDup(PreAll(kids))
      requires Finishing(d, l0, L(), m, kids, done, todo, log0, log)
      modifies this`next, this`parent, this`list, this`log
      ensures var (y, left) := Finalize(d, todo[0], todo[1..]);
              && Finishing(d, l0, L(), m, kids, done + [y], left, log0, log)
              && CountAll(left) < CountAll(todo)
              && c in next && next[c] == Head(left, Null)
      decreases CountAll(todo), 1
    {
      ghost var l1, log1 := L(), log;
      ghost var x, rest := todo[0], todo[1..];
      assert todo == [x] + rest;
      OrderAround(done, x, rest, todo);
      CountCons(x, rest);
      FinalizeChild(m, c, done, x, rest);
      FinishingStep(d, l0, l1, L(), m, kids, done, x, rest, log0, log1, log);
    }

    /** One following entry is finished and becomes a child of `m`. */
    method AbsorbOne(m: nat, c: nat, ghost ks: seq<Tree>, ghost x: Tree, ghost rest: seq<Tree>, ghost p: Ptr)
      requires c == x.id && NoDup(PreAll(ks) + (Pre(x) + PreAll(rest)))
      requires Linked(L(), ks, To(m), To(c)) && Linked(L(), [x] + rest, p, Null)
      modifies this`next, this`parent, this`list, this`log
      ensures var (y, left) := Finalize(d, x, rest);
              && Linked(L(), ks + [y], To(m), Head(left, Null)) && Linked(L(), left, p, Null)
              && c in next && next[c] == Head(left, Null)
              && multiset(log) == multiset(old(log)) + multiset(Pre(y))
      ensures Only(old(L()), L(), Pre(x) + PreAll(rest))
      decreases Count(x) + CountAll(rest), 1, 0
    {
      ghost var l1 := L();
      NoDupAppend(PreAll(ks), Pre(x) + PreAll(rest));
      FinalizeMenu(c, x, rest, p);
      ghost var y, left := Finalize(d, x, rest).0, Finalize(d, x, rest).1;
      FinalizeKeepsOrder(d, x, rest);
      FinishOne(l1, L(), ks, x, rest, y, left, p, To(m));
      MoveOne(L(), ks, y, left, p, m);
      ghost var l2 := L();
      parent := parent[c := To(m)];
      assert forall id :: id in Pre(y) ==> id in Pre(y) + PreAll(left);
      OnlyTrans(l1, l2, L(), Pre(x) + PreAll(rest), Pre(y), Pre(x) + PreAll(rest));
    }

    /** The body of the loop over the entries that follow `m`. */
    method GatherOne(m: nat, c: nat, ghost l0: Links, ghost rest: seq<Tree>, ghost ks: seq<Tree>, ghost rs: seq<Tree>,
                     ghost p: Ptr, ghost log0: seq<nat>)
      requires rs != [] && c == rs[0].id && d.absorbs(m, c) && NoDup(PreAll(rest))
      requires Gathering(d, l0, L(), m, p, rest, ks, rs, log0, log)
      modifies this`next, this`parent, this`list, this`log
      ensures var (y, left) := Finalize(d, rs[0], rs[1..]);
              && Gathering(d, l0, L(), m, p, rest, ks + [y], left, log0, log)
              && CountAll(left) < CountAll(rs)
              && y.id == c && c in next && next[c] == Head(left, Null)
      decreases CountAll(rs), 1
    {
      ghost var l1, log1 := L(), log;
      ghost var x, tail := rs[0], rs[1..];
      assert rs == [x] + tail;
      CountCons(x, tail);
      AbsorbingOne(d, m, rest, ks, x, tail);
      AbsorbOne(m, c, ks, x, tail, p);
      GatheringStep(d, l0, l1, L(), m, p, rest, ks, x, tail, log0, log1, log);
      FinalizeKeepsOrder(d, x, tail);
    }

    /** The loop that finishes the children of `m`. */
    method FinalizeChildren(m: nat, ghost kids: seq<Tree>)
      requires Has(L(), m) && list[m] == Head(kids, Null) && Linked(L(), kids, To(m), Null) && NoDup(Pre(Node(m, kids)))
      modifies this`next, this`parent, this`list, this`log
      ensures Has(L(), m) && list[m] == Head(FinalizeAll(d, kids), Null) &&
              Linked(L(), FinalizeAll(d, kids), To(m), Null)
      ensures Only(old(L()), L(), PreAll(kids))
      ensures multiset(log) == multiset(old(log)) + multiset(PreAll(FinalizeAll(d, kids)))
      decreases CountAll(kids), 2
    {
      var menu := list[m];
      ghost var done: seq<Tree>, todo: seq<Tree> := [], kids;
      ghost var l0 := L();
      assert done + todo == kids;
      NoDupAppend([m], PreAll(kids));
      assert m in [m];
      while menu != Null
        invariant menu == Head(todo, Null)
        invariant Finishing(d, l0, L(), m, kids, done, todo, old(log), log)
        decreases CountAll(todo)
      {
        FinalizeNext(m, menu.id, l0, kids, done, todo, old(log));
        ghost var finished := Finalize(d, todo[0], todo[1..]);
        done, todo := done + [finished.0], finished.1;
        menu := next[menu.id];
      }
      assert done + [] == done;
      HeadFromOrder(done, kids, Null);
    }

    /** The automatic submenu of `m`. */
    method AbsorbFollowing(m: nat, ghost rest: seq<Tree>, ghost p: Ptr)
      requires Linked(L(), [Node(m, [])] + rest, p, Null) && NoDup([m] + PreAll(rest))
      modifies this`next, this`parent, this`list, this`log
      ensures var (ks, left) := Absorb(d, m, rest);
              && Linked(L(), [Node(m, ks)] + left, p, Null)
              && Logged(old(log), log, ks)
      ensures Only(old(L()), L(), [m] + PreAll(rest))
      decreases CountAll(rest), 3
    {
      ghost var l0 := L();
      LinkedEntry(L(), Node(m, []), rest, p, Null);
      NoDupAppend([m], PreAll(rest));
      assert m in [m];
      ghost var ks;
      ghost var rs;
      var last;
      last, ks, rs := AbsorbLoop(m, rest, p);
      ghost var l1 := L();
      AbsorbRelink(m, last, rest, ks, rs, p);
      OnlyTrans(l0, l1, L(), PreAll(rest), [m] + PreAll(rest), [m] + PreAll(rest));
      assert ks + [] == ks;
    }

    /** The loop over the entries that follow `m`. */
    method AbsorbLoop(m: nat, ghost rest: seq<Tree>, ghost p: Ptr) returns (last: Ptr, ghost ks: seq<Tree>,
                      ghost rs: seq<Tree>)
      requires m in next && next[m] == Head(rest, Null) && Linked(L(), rest, p, Null) && NoDup(PreAll(rest)) &&
               m !in PreAll(rest)
      modifies this`next, this`parent, this`list, this`log
      ensures last == LastOf(ks)
      ensures Gathering(d, old(L()), L(), m, p, rest, ks, rs, old(log), log) && Absorb(d, m, rs) == ([], rs)
      decreases CountAll(rest), 2
    {
      var menu := next[m];
      last, ks, rs := Null, [], rest;
      ghost var l0 := L();
      GatheringStart(d, l0, m, p, rest, log);
      while menu != Null
        invariant menu == Head(rs, Null)
        invariant last == LastOf(ks)
        invariant Gathering(d, l0, L(), m, p, rest, ks, rs, old(log), log)
        decreases CountAll(rs)
      {
        if !d.absorbs(m, menu.id) {
          AbsorbStops(d, m, rs);
          return;
        }
        GatherOne(m, menu.id, l0, rest, ks, rs, p, old(log));
        last := menu;
        ghost var done := Finalize(d, rs[0], rs[1..]);
        ks, rs := ks + [done.0], done.1;
        menu := next[menu.id];
      }
      AbsorbStops(d, m, rs);
    }

    /** The relinking at the end of the automatic submenu creation. */
    method AbsorbRelink(m: nat, last: Ptr, ghost rest: seq<Tree>, ghost ks: seq<Tree>, ghost rs: seq<Tree>,
                        ghost p: Ptr)
      requires NoDup([m] + PreAll(ks + rs)) && PreAll(ks + rs) == PreAll(rest)
      requires Has(L(), m) && parent[m] == p && next[m] == Head(rest, Null) && list[m] == Null
      requires last == LastOf(ks)
      requires Linked(L(), ks, To(m), Head(rs, Null)) && Linked(L(), rs, p, Null)
      modifies this`next, this`list
      ensures Linked(L(), [Node(m, ks)] + rs, p, Null)
      ensures Only(old(L()), L(), [m] + PreAll(rest))
    {
      HeadFromOrder(ks + rs, rest, Null);
      if last != Null {
        ghost var init, z := ks[..|ks| - 1], ks[|ks| - 1];
        assert ks == init + [z];
        SubmenuLinked(L(), m, init, z, rs, p);
        list := list[m := next[m]];
        next := next[m := next[last.id]];
        next := next[last.id := Null];
        assert L() == Submenu(old(L()), m, z.id);
      } else {
        assert ks + rs == rs;
        LinkedEntry(L(), Node(m, []), rs, p, Null);
      }
    }

    /** The flattening at the end of `menu_finalize`, among the following entries. */
    method FlattenEntry(m: nat, ghost kids: seq<Tree>, ghost rest: seq<Tree>, ghost p: Ptr)
      requires Linked(L(), [Node(m, kids)] + rest, p, Null) && NoDup(Pre(Node(m, kids)) + PreAll(rest))
      modifies this`next, this`parent, this`list
      ensures Linked(L(), [Node(m, Flatten(d, kids))] + rest, p, Null)
      ensures Only(old(L()), L(), PreAll(kids))
    {
      ghost var l0 := L();
      LinkedEntry(L(), Node(m, kids), rest, p, Null);
      NoDupAppend(Pre(Node(m, kids)), PreAll(rest));
      NoDupAppend([m], PreAll(kids));
      assert m in [m];
      FlattenChildren(m, kids);
      KeptEntry(l0, L(), m, kids, Flatten(d, kids), rest, p);
    }

    method FinalizeParent(m: nat, ghost t: Tree, ghost rest: seq<Tree>, ghost p: Ptr)
      requires m == t.id && t.kids != [] && Linked(L(), [t] + rest, p, Null) && NoDup(Pre(t) + PreAll(rest))
      modifies this`next, this`parent, this`list, this`log
      ensures var kids := Flatten(d, FinalizeAll(d, t.kids));
              && Linked(L(), [Node(m, kids)] + rest, p, Null)
              && multiset(log) == multiset(old(log)) + multiset(PreAll(kids))
      ensures Only(old(L()), L(), PreAll(t.kids))
      decreases CountAll(t.kids), 3
    {
      ghost var l0 := L();
      LinkedEntry(L(), t, rest, p, Null);
      NoDupAppend(Pre(t), PreAll(rest));
      assert Count(t) == 1 + CountAll(t.kids);
      FinalizeChildren(m, t.kids);
      ghost var kids := FinalizeAll(d, t.kids);
      FinalizeAllKeepsOrder(d, t.kids);
      KeptEntry(l0, L(), m, t.kids, kids, rest, p);
      FlattenKeepsOrder(d, kids);
      ghost var l1 := L();
      FlattenEntry(m, kids, rest, p);
      OnlyTrans(l0, l1, L(), PreAll(t.kids), PreAll(kids), PreAll(t.kids));
    }

    method FinalizeSymbol(m: nat, ghost rest: seq<Tree>, ghost p: Ptr)
      requires Linked(L(), [Node(m, [])] + rest, p, Null) && NoDup([m] + PreAll(rest))
      modifies this`next, this`parent, this`list, this`log
      ensures var (ks, left) := Absorb(d, m, rest);
              && Linked(L(), [Node(m, Flatten(d, ks))] + left, p, Null)
              && multiset(log) == multiset(old(log)) + multiset(PreAll(Flatten(d, ks)))
      ensures Only(old(L()), L(), [m] + PreAll(rest))
      decreases CountAll(rest), 4
    {
      ghost var l0 := L();
      AbsorbFollowing(m, rest, p);
      ghost var ks, left := Absorb(d, m, rest).0, Absorb(d, m, rest).1;
      AbsorbKeepsOrder(d, m, rest);
      FlattenKeepsOrder(d, ks);
      OrderUnder(m, ks, left, rest);
      ghost var l1 := L();
      FlattenEntry(m, ks, left, p);
      OnlyTrans(l0, l1, L(), [m] + PreAll(rest), PreAll(ks), [m] + PreAll(rest));
    }

    /** `menu_finalize` as it relinks the entries. */
    method FinalizeMenu(m: nat, ghost t: Tree, ghost rest: seq<Tree>, ghost p: Ptr)
      requires m == t.id && Linked(L(), [t] + rest, p, Null) && NoDup(Pre(t) + PreAll(rest))
      modifies this`next, this`parent, this`list, this`log
      ensures var (t', rest') := Finalize(d, t, rest);
              && Linked(L(), [t'] + rest', p, Null)
              && multiset(log) == multiset(old(log)) + multiset(Pre(t'))
      ensures Only(old(L()), L(), Pre(t) + PreAll(rest))
      decreases Count(t) + CountAll(rest), 0
    {
      ghost var log0 := log;
      log := log + [m];
      LinkedEntry(L(), t, rest, p, Null);
      NoDupAppend(Pre(t), PreAll(rest));
      if list[m] != Null {
        FinalizeParent(m, t, rest, p);
        LogPre(log0, log, m, Flatten(d, FinalizeAll(d, t.kids)));
      } else if d.hasSym(m) {
        assert t == Node(m, []) && Pre(t) == [m];
        FinalizeSymbol(m, rest, p);
        LogPre(log0, log, m, Flatten(d, Absorb(d, m, rest).0));
      } else {
        assert t == Node(m, []) && Pre(t) == [m];
      }
    }

    /** `menu_finalize(&rootmenu)`: all entries stay, in the same order and correctly
        linked, each was finished exactly once, and below the root only entries with
        a prompt text have children. */
    method FinalizeRoot(root: nat, ghost t: Tree)
      requires root == t.id && Linked(L(), [t], Null, Null) && NoDup(Pre(t)) && log == []
      modifies this`next, this`parent, this`list, this`log
      ensures var t' := Finalize(d, t, []).0;
              && Linked(L(), [t'], Null, Null)
              && Pre(t') == Pre(t)
              && multiset(log) == multiset(Pre(t))
              && Shown(d, t'.kids)
              && MenuPlaces.Edges(t'.kids, root) == MenuPlaces.EdgesOf(MenuPlaces.Places(d, t.kids, [], root, root))
      ensures forall pl :: pl in MenuPlaces.Places(d, t.kids, [], root, root) ==> pl.id in parent && parent[pl.id] == To(pl.parent)
      ensures Only(old(L()), L(), Pre(t))
    {
      assert [t] + [] == [t] && Pre(t) + PreAll([]) == Pre(t);
      FinalizeMenu(root, t, [], Null);
      ghost var (t', rest) := Finalize(d, t, []);
      FinalizeKeepsOrder(d, t, []);
      FinalizeShows(d, t, []);
      assert rest == [];
      assert [t'] + [] == [t'] && Pre(t') + [] == Pre(t');
      MenuPlaces.RootPlaces(d, t);
      assert Pre(t')[0] == t'.id && Pre(t)[0] == t.id;
      RootParents(L(), d, t, t');
    }
  }
}
