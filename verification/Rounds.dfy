/**
 * The round structure of SHA-256, for any word type and any elementary operations: eight registers
 * that shift down by one every round (section 6.2.2 of FIPS 180-4), and the program's registers,
 * which stay in place while their indices rotate.
 */
module Rounds {

  datatype Ops<!W> = Ops(
    plus: (W, W) -> W,
    sum0: W -> W, sum1: W -> W, sigma0: W -> W, sigma1: W -> W,
    ch: (W, W, W) -> W, maj: (W, W, W) -> W,
    chMacro: (W, W, W) -> W, majMacro: (W, W, W) -> W)

  datatype State<W> = State(a: W, b: W, c: W, d: W, e: W, f: W, g: W, h: W)

  // ----- the standard -----

  /** One round: two sums of the old registers enter, the others shift down. */
  function Round<W>(o: Ops<W>, s: State<W>, k: W, w: W): State<W> {
    var t1 := o.plus(o.plus(o.plus(o.plus(s.h, o.sum1(s.e)), o.ch(s.e, s.f, s.g)), k), w);
    var t2 := o.plus(o.sum0(s.a), o.maj(s.a, s.b, s.c));
    State(o.plus(t1, t2), s.a, s.b, s.c, o.plus(s.d, t1), s.e, s.f, s.g)
  }

  /** Word `t` of the message schedule that starts with the sixteen words of a block. */
  function Schedule<W>(o: Ops<W>, block: seq<W>, t: nat): W
    requires |block| == 16
  {
    if t < 16 then block[t]
    else o.plus(o.plus(o.plus(o.sigma1(Schedule(o, block, t - 2)), Schedule(o, block, t - 7)),
                       o.sigma0(Schedule(o, block, t - 15))), Schedule(o, block, t - 16))
  }

  function AfterRounds<W>(o: Ops<W>, ks: seq<W>, s: State<W>, block: seq<W>, n: nat): State<W>
    requires |block| == 16 && n <= |ks|
  {
    if n == 0 then s else
    Round(o, AfterRounds(o, ks, s, block, n - 1), ks[n - 1], Schedule(o, block, n - 1))
  }

  function Add<W>(o: Ops<W>, s: State<W>, t: State<W>): State<W> {
    State(o.plus(s.a, t.a), o.plus(s.b, t.b), o.plus(s.c, t.c), o.plus(s.d, t.d),
          o.plus(s.e, t.e), o.plus(s.f, t.f), o.plus(s.g, t.g), o.plus(s.h, t.h))
  }

  /** The state after a block. */
  function Compressed<W>(o: Ops<W>, ks: seq<W>, s: State<W>, block: seq<W>): State<W>
    requires |block| == 16 && |ks| == 64
  {
    Add(o, s, AfterRounds(o, ks, s, block, 64))
  }

  // ----- what the elementary operations must satisfy -----

  ghost predicate RegroupAt<W>(o: Ops<W>, x: W, y: W, z: W) {
    && o.plus(x, o.plus(y, z)) == o.plus(o.plus(x, y), z)
    && o.plus(o.plus(x, y), z) == o.plus(o.plus(x, z), y)
  }

  ghost predicate FormsAt<W>(o: Ops<W>, x: W, y: W, z: W) {
    o.chMacro(x, y, z) == o.ch(x, y, z) && o.majMacro(x, y, z) == o.maj(x, y, z)
  }

  ghost predicate Sound<W(!new)>(o: Ops<W>) {
    && (forall x, y, z {:trigger RegroupAt(o, x, y, z)} :: RegroupAt(o, x, y, z))
    && (forall x, y, z {:trigger FormsAt(o, x, y, z)} :: FormsAt(o, x, y, z))
  }

  /** The two updates of the round macro are the new first and fifth registers. */
  lemma RoundMacro<W(!new)>(o: Ops<W>, s: State<W>, k: W, w: W)
    requires Sound(o)
    ensures var h := o.plus(s.h, o.plus(o.plus(o.plus(o.sum1(s.e), o.chMacro(s.e, s.f, s.g)), w), k));
      Round(o, s, k, w) == State(o.plus(h, o.plus(o.sum0(s.a), o.majMacro(s.a, s.b, s.c))),
                                 s.a, s.b, s.c, o.plus(s.d, h), s.e, s.f, s.g)
  {
    assert FormsAt(o, s.e, s.f, s.g);
    assert FormsAt(o, s.a, s.b, s.c);
    var sc := o.plus(o.sum1(s.e), o.ch(s.e, s.f, s.g));
    assert RegroupAt(o, s.h, o.plus(sc, w), k);
    assert RegroupAt(o, s.h, sc, w);
    assert RegroupAt(o, s.h, o.sum1(s.e), o.ch(s.e, s.f, s.g));
    assert RegroupAt(o, o.plus(s.h, sc), w, k);
  }

  // ----- rotating indices -----

  /** The registers found in `s` when the first one is at index `r`. */
  function View<W>(s: seq<W>, r: nat): State<W>
    requires |s| == 8
  {
    State(s[r % 8], s[(r + 1) % 8], s[(r + 2) % 8], s[(r + 3) % 8],
          s[(r + 4) % 8], s[(r + 5) % 8], s[(r + 6) % 8], s[(r + 7) % 8])
  }

  /** Sixteen rounds turn the indices twice. */
  lemma ViewTurns<W>(s: seq<W>)
    requires |s| == 8
    ensures View(s, 48) == View(s, 64)
  {
  }

  lemma Apart(r: nat, i: nat, j: nat)
    requires i < j < i + 8
    ensures (r + i) % 8 != (r + j) % 8
  {
  }

  /** The two registers that a round writes are not any of the others. */
  lemma SlotsApart(r: nat)
    ensures var d, h := (r + 3) % 8, (r + 7) % 8;
      && d != h && r % 8 != d && r % 8 != h
      && (r + 1) % 8 != d && (r + 2) % 8 != d && (r + 4) % 8 != d && (r + 5) % 8 != d && (r + 6) % 8 != d
      && (r + 1) % 8 != h && (r + 2) % 8 != h && (r + 4) % 8 != h && (r + 5) % 8 != h && (r + 6) % 8 != h
  {
    Apart(r, 0, 3); Apart(r, 1, 3); Apart(r, 2, 3); Apart(r, 3, 4); Apart(r, 3, 5); Apart(r, 3, 6);
    Apart(r, 0, 7); Apart(r, 1, 7); Apart(r, 2, 7); Apart(r, 3, 7); Apart(r, 4, 7); Apart(r, 5, 7); Apart(r, 6, 7);
  }

  lemma BackOne(r: nat)
    requires r >= 1
    ensures (r - 1) % 8 == (r + 7) % 8
  {
  }

  lemma OthersKept<W>(s: seq<W>, d: nat, h: nat, x: W, y: W, i: nat)
    requires |s| == 8 && d < 8 && h < 8 && d != h && i < 8 && i != d && i != h
    ensures var t := s[h := x][d := y]; t[h] == x && t[d] == y && t[i] == s[i]
  {
  }

  /** Writing the eighth and the fourth register in place shifts the view by one. */
  lemma ViewShifts<W>(s: seq<W>, r: nat, h: W, d: W)
    requires |s| == 8 && r >= 1
    ensures var v := View(s, r);
      View(s[(r + 7) % 8 := h][(r + 3) % 8 := d], r - 1) == State(h, v.a, v.b, v.c, d, v.e, v.f, v.g)
  {
    SlotsApart(r);
    BackOne(r);
    OthersKept(s, (r + 3) % 8, (r + 7) % 8, h, d, r % 8);
    OthersKept(s, (r + 3) % 8, (r + 7) % 8, h, d, (r + 1) % 8);
    OthersKept(s, (r + 3) % 8, (r + 7) % 8, h, d, (r + 2) % 8);
    OthersKept(s, (r + 3) % 8, (r + 7) % 8, h, d, (r + 4) % 8);
    OthersKept(s, (r + 3) % 8, (r + 7) % 8, h, d, (r + 5) % 8);
    OthersKept(s, (r + 3) % 8, (r + 7) % 8, h, d, (r + 6) % 8);
  }

  /** The round macro, its registers given by their indices. */
  method RndAt<W>(o: Ops<W>, s: array<W>, a: nat, b: nat, c: nat, d: nat, e: nat, f: nat, g: nat, h: nat, w: W, k: W)
    requires s.Length == 8 && a < 8 && b < 8 && c < 8 && d < 8 && e < 8 && f < 8 && g < 8 && h < 8
    requires d != h && a != d && b != d && c != d && a != h && b != h && c != h
    modifies s
    ensures var was := old(s[..]);
      var t := o.plus(was[h], o.plus(o.plus(o.plus(o.sum1(was[e]), o.chMacro(was[e], was[f], was[g])), w), k));
      s[..] == was[h := o.plus(t, o.plus(o.sum0(was[a]), o.majMacro(was[a], was[b], was[c])))][d := o.plus(was[d], t)]
  {
    s[h] := o.plus(s[h], o.plus(o.plus(o.plus(o.sum1(s[e]), o.chMacro(s[e], s[f], s[g])), w), k));
    s[d] := o.plus(s[d], s[h]);
    s[h] := o.plus(s[h], o.plus(o.sum0(s[a]), o.majMacro(s[a], s[b], s[c])));
  }

  /** A round on registers in place, the first one at index `r`. */
  method Rnd<W(!new)>(o: Ops<W>, s: array<W>, r: nat, w: W, k: W)
    requires Sound(o) && s.Length == 8 && r >= 1
    modifies s
    ensures View(s[..], r - 1) == Round(o, old(View(s[..], r)), k, w)
  {
    ghost var was := s[..];
    SlotsApart(r);
    RndAt(o, s, r % 8, (r + 1) % 8, (r + 2) % 8, (r + 3) % 8,
          (r + 4) % 8, (r + 5) % 8, (r + 6) % 8, (r + 7) % 8, w, k);
    ViewShifts(was, r, s[(r + 7) % 8], s[(r + 3) % 8]);
    RoundMacro(o, View(was, r), k, w);
  }

  // ----- sixteen rounds and sixteen words at a time -----

  /** The states and schedule words of one run of the rounds. */
  datatype Run<!W> = Run(state: nat -> State<W>, word: nat -> W)

  ghost predicate RoundAt<W>(o: Ops<W>, ks: seq<W>, run: Run<W>, t: nat)
    requires t < |ks|
  {
    run.state(t + 1) == Round(o, run.state(t), ks[t], run.word(t))
  }

  ghost predicate WordAt<W>(o: Ops<W>, run: Run<W>, t: nat) {
    run.word(t + 16) ==
    o.plus(o.plus(o.plus(o.sigma1(run.word(t + 14)), run.word(t + 9)), o.sigma0(run.word(t + 1))), run.word(t))
  }

  ghost predicate Follows<W>(o: Ops<W>, ks: seq<W>, run: Run<W>) {
    && (forall t: nat {:trigger RoundAt(o, ks, run, t)} :: t < |ks| ==> RoundAt(o, ks, run, t))
    && (forall t: nat {:trigger WordAt(o, run, t)} :: WordAt(o, run, t))
  }

  ghost function RunOf<W>(o: Ops<W>, ks: seq<W>, s: State<W>, block: seq<W>): Run<W>
    requires |block| == 16 && |ks| == 64
  {
    Run((n: nat) => if n <= 64 then AfterRounds(o, ks, s, block, n) else s,
        (t: nat) => Schedule(o, block, t))
  }

  lemma RunFollows<W>(o: Ops<W>, ks: seq<W>, s: State<W>, block: seq<W>)
    requires |block| == 16 && |ks| == 64
    ensures Follows(o, ks, RunOf(o, ks, s, block))
    ensures RunOf(o, ks, s, block).state(0) == s
  {
    var run := RunOf(o, ks, s, block);
    forall t: nat | t < |ks| ensures RoundAt(o, ks, run, t) { }
    forall t: nat ensures WordAt(o, run, t) {
      assert run.word(t + 16) == Schedule(o, block, t + 16);
    }
  }

  /** The first `n` words of the schedule are in place. */
  ghost predicate Filled<W>(run: Run<W>, ws: seq<W>, n: nat) {
    n <= |ws| && forall j :: 0 <= j < n ==> ws[j] == run.word(j)
  }

  method Msch<W>(o: Ops<W>, ghost run: Run<W>, ws: array<W>, t: nat)
    requires t + 16 < ws.Length && WordAt(o, run, t) && Filled(run, ws[..], t + 16)
    modifies ws
    ensures Filled(run, ws[..], t + 17)
  {
    ws[t + 16] := o.plus(o.plus(o.plus(o.sigma1(ws[t + 14]), ws[t + 9]), o.sigma0(ws[t + 1])), ws[t]);
  }

  method RndR<W(!new)>(o: Ops<W>, ks: seq<W>, ghost run: Run<W>, s: array<W>, w: W, i: nat, ii: nat)
    requires Sound(o) && Follows(o, ks, run) && s.Length == 8 && |ks| == 64
    requires i < 16 && ii + i < 64 && w == run.word(ii + i)
    requires View(s[..], 64 - i) == run.state(ii + i)
    modifies s
    ensures View(s[..], 63 - i) == run.state(ii + i + 1)
  {
    assert RoundAt(o, ks, run, ii + i);
    Rnd(o, s, 64 - i, w, ks[ii + i]);
  }

  method SixteenRounds<W(!new)>(o: Ops<W>, ks: seq<W>, ghost run: Run<W>, s: array<W>, ws: array<W>, ii: nat)
    requires Sound(o) && Follows(o, ks, run) && s.Length == 8 && ws.Length == 64 && |ks| == 64 && s != ws
    requires ii + 16 <= 64 && Filled(run, ws[..], ii + 16)
    requires View(s[..], 64) == run.state(ii)
    modifies s
    ensures View(s[..], 64) == run.state(ii + 16)
  {
    RndR(o, ks, run, s, ws[0 + ii], 0, ii);
    RndR(o, ks, run, s, ws[1 + ii], 1, ii);
    RndR(o, ks, run, s, ws[2 + ii], 2, ii);
    RndR(o, ks, run, s, ws[3 + ii], 3, ii);
    RndR(o, ks, run, s, ws[4 + ii], 4, ii);
    RndR(o, ks, run, s, ws[5 + ii], 5, ii);
    RndR(o, ks, run, s, ws[6 + ii], 6, ii);
    RndR(o, ks, run, s, ws[7 + ii], 7, ii);
    RndR(o, ks, run, s, ws[8 + ii], 8, ii);
    RndR(o, ks, run, s, ws[9 + ii], 9, ii);
    RndR(o, ks, run, s, ws[10 + ii], 10, ii);
    RndR(o, ks, run, s, ws[11 + ii], 11, ii);
    RndR(o, ks, run, s, ws[12 + ii], 12, ii);
    RndR(o, ks, run, s, ws[13 + ii], 13, ii);
    RndR(o, ks, run, s, ws[14 + ii], 14, ii);
    RndR(o, ks, run, s, ws[15 + ii], 15, ii);
    ViewTurns(s[..]);
  }

  method SixteenWords<W>(o: Ops<W>, ks: seq<W>, ghost run: Run<W>, ws: array<W>, i: nat)
    requires Follows(o, ks, run) && i + 32 <= ws.Length && Filled(run, ws[..], i + 16)
    modifies ws
    ensures Filled(run, ws[..], i + 32)
  {
    Msch(o, run, ws, 0 + i);
    Msch(o, run, ws, 1 + i);
    Msch(o, run, ws, 2 + i);
    Msch(o, run, ws, 3 + i);
    Msch(o, run, ws, 4 + i);
    Msch(o, run, ws, 5 + i);
    Msch(o, run, ws, 6 + i);
    Msch(o, run, ws, 7 + i);
    Msch(o, run, ws, 8 + i);
    Msch(o, run, ws, 9 + i);
    Msch(o, run, ws, 10 + i);
    Msch(o, run, ws, 11 + i);
    Msch(o, run, ws, 12 + i);
    Msch(o, run, ws, 13 + i);
    Msch(o, run, ws, 14 + i);
    Msch(o, run, ws, 15 + i);
  }

  method Mix<W(!new)>(o: Ops<W>, ks: seq<W>, ghost run: Run<W>, s: array<W>, ws: array<W>)
    requires Sound(o) && Follows(o, ks, run) && s.Length == 8 && ws.Length == 64 && |ks| == 64 && s != ws
    requires Filled(run, ws[..], 16) && View(s[..], 64) == run.state(0)
    modifies s, ws
    ensures View(s[..], 64) == run.state(64)
  {
    var i := 0;
    while i < 64
      invariant i == 0 || i == 16 || i == 32 || i == 48
      invariant Filled(run, ws[..], i + 16)
      invariant View(s[..], 64) == run.state(i)
    {
      SixteenRounds(o, ks, run, s, ws, i);
      if i == 48 { break; }
      SixteenWords(o, ks, run, ws, i);
      i := i + 16;
    }
  }

  /** The whole block function, in place on the eight state words. */
  method Transform<W(0, !new)>(o: Ops<W>, ks: seq<W>, state: array<W>, block: seq<W>)
    requires Sound(o) && state.Length == 8 && |ks| == 64 && |block| == 16
    modifies state
    ensures View(state[..], 0) == Compressed(o, ks, old(View(state[..], 0)), block)
  {
    ghost var s0 := View(state[..], 0);
    ghost var run := RunOf(o, ks, s0, block);
    RunFollows(o, ks, s0, block);
    var ws := new W[64];
    FirstWords(o, ks, s0, block, ws);
    var s := new W[8](i requires 0 <= i < 8 reads state => state[i]);
    assert s[..] == state[..];
    Mix(o, ks, run, s, ws);
    AddInto(o, state, s);
  }

  method FirstWords<W>(o: Ops<W>, ghost ks: seq<W>, ghost s0: State<W>, block: seq<W>, ws: array<W>)
    requires |block| == 16 && |ks| == 64 && ws.Length == 64
    modifies ws
    ensures Filled(RunOf(o, ks, s0, block), ws[..], 16)
  {
    for i := 0 to 16
      invariant forall j :: 0 <= j < i ==> ws[j] == block[j]
    {
      ws[i] := block[i];
    }
  }

  method AddInto<W>(o: Ops<W>, state: array<W>, s: array<W>)
    requires state.Length == 8 && s.Length == 8 && s != state
    modifies state
    ensures View(state[..], 0) == Add(o, old(View(state[..], 0)), View(s[..], 64))
  {
    ghost var was := state[..];
    for i := 0 to 8
      invariant forall j :: 0 <= j < i ==> state[j] == o.plus(was[j], s[j])
      invariant forall j :: i <= j < 8 ==> state[j] == was[j]
    {
      state[i] := o.plus(state[i], s[i]);
    }
    AddView(o, was, s[..], state[..]);
  }

  lemma AddView<W>(o: Ops<W>, s: seq<W>, t: seq<W>, sum: seq<W>)
    requires |s| == |t| == |sum| == 8 && forall j :: 0 <= j < 8 ==> sum[j] == o.plus(s[j], t[j])
    ensures View(sum, 0) == Add(o, View(s, 0), View(t, 64))
  {
  }
}
