/**
 * The MD5 block function: the four unrolled rounds of the program, which write one register per step
 * and rename them, against the step-by-step definition in section 3.4 of RFC 1321.
 */
module Md5 {
  import opened Blocks
  import opened WordBits

  datatype Fn = F | G | H | H2 | I

  /**
   * One step for a register `a`: as the program's macro computes it, and as the standard does.
   * Arguments: function, a, b, c, d, message word, constant, rotation.
   */
  datatype Steps = Steps(
    macro: (Fn, bv32, bv32, bv32, bv32, bv32, bv32, Shift) -> bv32,
    rfc: (Fn, bv32, bv32, bv32, bv32, bv32, bv32, Shift) -> bv32)

  datatype Quad = Quad(a: bv32, b: bv32, c: bv32, d: bv32)

  // ----- section 3.4 of RFC 1321 -----

  function RoundFn(k: nat): Fn {
    if k < 16 then F else if k < 32 then G else if k < 48 then H else I
  }

  function WordIndex(k: nat): nat {
    if k < 16 then k % 16 else if k < 32 then (5 * k + 1) % 16 else if k < 48 then (3 * k + 5) % 16 else (7 * k) % 16
  }

  function Pick<X>(k: nat, p: X, q: X, r: X, s: X): X {
    if k % 4 == 0 then p else if k % 4 == 1 then q else if k % 4 == 2 then r else s
  }

  function Rotation(k: nat): Shift {
    if k < 16 then Pick(k, 7, 12, 17, 22)
    else if k < 32 then Pick(k, 5, 9, 14, 20)
    else if k < 48 then Pick(k, 4, 11, 16, 23)
    else Pick(k, 6, 10, 15, 21)
  }

  function T1(k: nat): bv32 {
    if k < 4 then Pick(k, 0xd76aa478, 0xe8c7b756, 0x242070db, 0xc1bdceee)
    else if k < 8 then Pick(k, 0xf57c0faf, 0x4787c62a, 0xa8304613, 0xfd469501)
    else if k < 12 then Pick(k, 0x698098d8, 0x8b44f7af, 0xffff5bb1, 0x895cd7be)
    else Pick(k, 0x6b901122, 0xfd987193, 0xa679438e, 0x49b40821)
  }

  function T2(k: nat): bv32 {
    if k < 20 then Pick(k, 0xf61e2562, 0xc040b340, 0x265e5a51, 0xe9b6c7aa)
    else if k < 24 then Pick(k, 0xd62f105d, 0x02441453, 0xd8a1e681, 0xe7d3fbc8)
    else if k < 28 then Pick(k, 0x21e1cde6, 0xc33707d6, 0xf4d50d87, 0x455a14ed)
    else Pick(k, 0xa9e3e905, 0xfcefa3f8, 0x676f02d9, 0x8d2a4c8a)
  }

  function T3(k: nat): bv32 {
    if k < 36 then Pick(k, 0xfffa3942, 0x8771f681, 0x6d9d6122, 0xfde5380c)
    else if k < 40 then Pick(k, 0xa4beea44, 0x4bdecfa9, 0xf6bb4b60, 0xbebfbc70)
    else if k < 44 then Pick(k, 0x289b7ec6, 0xeaa127fa, 0xd4ef3085, 0x04881d05)
    else Pick(k, 0xd9d4d039, 0xe6db99e5, 0x1fa27cf8, 0xc4ac5665)
  }

  function T4(k: nat): bv32 {
    if k < 52 then Pick(k, 0xf4292244, 0x432aff97, 0xab9423a7, 0xfc93a039)
    else if k < 56 then Pick(k, 0x655b59c3, 0x8f0ccc92, 0xffeff47d, 0x85845dd1)
    else if k < 60 then Pick(k, 0x6fa87e4f, 0xfe2ce6e0, 0xa3014314, 0x4e0811a1)
    else Pick(k, 0xf7537e82, 0xbd3af235, 0x2ad7d2bb, 0xeb86d391)
  }

  function Constant(k: nat): bv32
    requires k < 64
  {
    if k < 16 then T1(k) else if k < 32 then T2(k) else if k < 48 then T3(k) else T4(k)
  }

  /** Step `k`: one register is replaced and the four turn by one place. */
  function StepOf(o: Steps, x: seq<bv32>, q: Quad, k: nat): Quad
    requires |x| == 16 && k < 64
  {
    Quad(q.d, o.rfc(RoundFn(k), q.a, q.b, q.c, q.d, x[WordIndex(k)], Constant(k), Rotation(k)), q.b, q.c)
  }

  function AfterSteps(o: Steps, x: seq<bv32>, q: Quad, n: nat): Quad
    requires |x| == 16 && n <= 64
  {
    if n == 0 then q else StepOf(o, x, AfterSteps(o, x, q, n - 1), n - 1)
  }

  // ----- the unrolled rounds -----

  function StandardFn(f: Fn): Fn { if f == H2 then H else f }

  ghost predicate SameAt(o: Steps, f: Fn, a: bv32, b: bv32, c: bv32, d: bv32, x: bv32, t: bv32, s: Shift) {
    o.macro(f, a, b, c, d, x, t, s) == o.rfc(StandardFn(f), a, b, c, d, x, t, s)
  }

  /** The macro computes the standard's step. */
  ghost predicate Sound(o: Steps) {
    forall f, a, b, c, d, x, t, s {:trigger SameAt(o, f, a, b, c, d, x, t, s)} :: SameAt(o, f, a, b, c, d, x, t, s)
  }

  ghost predicate StepAt(o: Steps, x: seq<bv32>, run: nat -> Quad, k: nat)
    requires |x| == 16 && k < 64
  {
    run(k + 1) == StepOf(o, x, run(k), k)
  }

  ghost predicate Follows(o: Steps, x: seq<bv32>, run: nat -> Quad)
    requires |x| == 16
  {
    forall k: nat {:trigger StepAt(o, x, run, k)} :: k < 64 ==> StepAt(o, x, run, k)
  }

  /** The step macro; `k` is its place among the sixty-four steps. */
  method Step(o: Steps, ghost run: nat -> Quad, x: seq<bv32>, ghost k: nat,
              f: Fn, a: bv32, b: bv32, c: bv32, d: bv32, n: nat, t: bv32, s: Shift) returns (r: bv32)
    requires |x| == 16 && Sound(o) && Follows(o, x, run) && run(k) == Quad(a, b, c, d)
    requires k < 64 && StandardFn(f) == RoundFn(k) && n == WordIndex(k) && t == Constant(k) && s == Rotation(k)
    ensures run(k + 1) == Quad(d, r, b, c)
  {
    r := o.macro(f, a, b, c, d, x[n], t, s);
    assert SameAt(o, f, a, b, c, d, x[n], t, s);
    assert StepAt(o, x, run, k);
  }

  method Steps0to7(o: Steps, ghost run: nat -> Quad, x: seq<bv32>, a0: bv32, b0: bv32, c0: bv32, d0: bv32)
    returns (a: bv32, b: bv32, c: bv32, d: bv32)
    requires |x| == 16 && Sound(o) && Follows(o, x, run) && run(0) == Quad(a0, b0, c0, d0)
    ensures Quad(a, b, c, d) == run(8)
  {
    a, b, c, d := a0, b0, c0, d0;
    a := Step(o, run, x, 0, F, a, b, c, d, 0, 0xd76aa478, 7);
    d := Step(o, run, x, 1, F, d, a, b, c, 1, 0xe8c7b756, 12);
    c := Step(o, run, x, 2, F, c, d, a, b, 2, 0x242070db, 17);
    b := Step(o, run, x, 3, F, b, c, d, a, 3, 0xc1bdceee, 22);
    a := Step(o, run, x, 4, F, a, b, c, d, 4, 0xf57c0faf, 7);
    d := Step(o, run, x, 5, F, d, a, b, c, 5, 0x4787c62a, 12);
    c := Step(o, run, x, 6, F, c, d, a, b, 6, 0xa8304613, 17);
    b := Step(o, run, x, 7, F, b, c, d, a, 7, 0xfd469501, 22);
  }

  method Steps8to15(o: Steps, ghost run: nat -> Quad, x: seq<bv32>, a0: bv32, b0: bv32, c0: bv32, d0: bv32)
    returns (a: bv32, b: bv32, c: bv32, d: bv32)
    requires |x| == 16 && Sound(o) && Follows(o, x, run) && run(8) == Quad(a0, b0, c0, d0)
    ensures Quad(a, b, c, d) == run(16)
  {
    a, b, c, d := a0, b0, c0, d0;
    a := Step(o, run, x, 8, F, a, b, c, d, 8, 0x698098d8, 7);
    d := Step(o, run, x, 9, F, d, a, b, c, 9, 0x8b44f7af, 12);
    c := Step(o, run, x, 10, F, c, d, a, b, 10, 0xffff5bb1, 17);
    b := Step(o, run, x, 11, F, b, c, d, a, 11, 0x895cd7be, 22);
    a := Step(o, run, x, 12, F, a, b, c, d, 12, 0x6b901122, 7);
    d := Step(o, run, x, 13, F, d, a, b, c, 13, 0xfd987193, 12);
    c := Step(o, run, x, 14, F, c, d, a, b, 14, 0xa679438e, 17);
    b := Step(o, run, x, 15, F, b, c, d, a, 15, 0x49b40821, 22);
  }

  method Steps16to23(o: Steps, ghost run: nat -> Quad, x: seq<bv32>, a0: bv32, b0: bv32, c0: bv32, d0: bv32)
    returns (a: bv32, b: bv32, c: bv32, d: bv32)
    requires |x| == 16 && Sound(o) && Follows(o, x, run) && run(16) == Quad(a0, b0, c0, d0)
    ensures Quad(a, b, c, d) == run(24)
  {
    a, b, c, d := a0, b0, c0, d0;
    a := Step(o, run, x, 16, G, a, b, c, d, 1, 0xf61e2562, 5);
    d := Step(o, run, x, 17, G, d, a, b, c, 6, 0xc040b340, 9);
    c := Step(o, run, x, 18, G, c, d, a, b, 11, 0x265e5a51, 14);
    b := Step(o, run, x, 19, G, b, c, d, a, 0, 0xe9b6c7aa, 20);
    a := Step(o, run, x, 20, G, a, b, c, d, 5, 0xd62f105d, 5);
    d := Step(o, run, x, 21, G, d, a, b, c, 10, 0x02441453, 9);
    c := Step(o, run, x, 22, G, c, d, a, b, 15, 0xd8a1e681, 14);
    b := Step(o, run, x, 23, G, b, c, d, a, 4, 0xe7d3fbc8, 20);
  }

  method Steps24to31(o: Steps, ghost run: nat -> Quad, x: seq<bv32>, a0: bv32, b0: bv32, c0: bv32, d0: bv32)
    returns (a: bv32, b: bv32, c: bv32, d: bv32)
    requires |x| == 16 && Sound(o) && Follows(o, x, run) && run(24) == Quad(a0, b0, c0, d0)
    ensures Quad(a, b, c, d) == run(32)
  {
    a, b, c, d := a0, b0, c0, d0;
    a := Step(o, run, x, 24, G, a, b, c, d, 9, 0x21e1cde6, 5);
    d := Step(o, run, x, 25, G, d, a, b, c, 14, 0xc33707d6, 9);
    c := Step(o, run, x, 26, G, c, d, a, b, 3, 0xf4d50d87, 14);
    b := Step(o, run, x, 27, G, b, c, d, a, 8, 0x455a14ed, 20);
    a := Step(o, run, x, 28, G, a, b, c, d, 13, 0xa9e3e905, 5);
    d := Step(o, run, x, 29, G, d, a, b, c, 2, 0xfcefa3f8, 9);
    c := Step(o, run, x, 30, G, c, d, a, b, 7, 0x676f02d9, 14);
    b := Step(o, run, x, 31, G, b, c, d, a, 12, 0x8d2a4c8a, 20);
  }

  method Steps32to39(o: Steps, ghost run: nat -> Quad, x: seq<bv32>, a0: bv32, b0: bv32, c0: bv32, d0: bv32)
    returns (a: bv32, b: bv32, c: bv32, d: bv32)
    requires |x| == 16 && Sound(o) && Follows(o, x, run) && run(32) == Quad(a0, b0, c0, d0)
    ensures Quad(a, b, c, d) == run(40)
  {
    a, b, c, d := a0, b0, c0, d0;
    a := Step(o, run, x, 32, H, a, b, c, d, 5, 0xfffa3942, 4);
    d := Step(o, run, x, 33, H2, d, a, b, c, 8, 0x8771f681, 11);
    c := Step(o, run, x, 34, H, c, d, a, b, 11, 0x6d9d6122, 16);
    b := Step(o, run, x, 35, H2, b, c, d, a, 14, 0xfde5380c, 23);
    a := Step(o, run, x, 36, H, a, b, c, d, 1, 0xa4beea44, 4);
    d := Step(o, run, x, 37, H2, d, a, b, c, 4, 0x4bdecfa9, 11);
    c := Step(o, run, x, 38, H, c, d, a, b, 7, 0xf6bb4b60, 16);
    b := Step(o, run, x, 39, H2, b, c, d, a, 10, 0xbebfbc70, 23);
  }

  method Steps40to47(o: Steps, ghost run: nat -> Quad, x: seq<bv32>, a0: bv32, b0: bv32, c0: bv32, d0: bv32)
    returns (a: bv32, b: bv32, c: bv32, d: bv32)
    requires |x| == 16 && Sound(o) && Follows(o, x, run) && run(40) == Quad(a0, b0, c0, d0)
    ensures Quad(a, b, c, d) == run(48)
  {
    a, b, c, d := a0, b0, c0, d0;
    a := Step(o, run, x, 40, H, a, b, c, d, 13, 0x289b7ec6, 4);
    d := Step(o, run, x, 41, H2, d, a, b, c, 0, 0xeaa127fa, 11);
    c := Step(o, run, x, 42, H, c, d, a, b, 3, 0xd4ef3085, 16);
    b := Step(o, run, x, 43, H2, b, c, d, a, 6, 0x04881d05, 23);
    a := Step(o, run, x, 44, H, a, b, c, d, 9, 0xd9d4d039, 4);
    d := Step(o, run, x, 45, H2, d, a, b, c, 12, 0xe6db99e5, 11);
    c := Step(o, run, x, 46, H, c, d, a, b, 15, 0x1fa27cf8, 16);
    b := Step(o, run, x, 47, H2, b, c, d, a, 2, 0xc4ac5665, 23);
  }

  method Steps48to55(o: Steps, ghost run: nat -> Quad, x: seq<bv32>, a0: bv32, b0: bv32, c0: bv32, d0: bv32)
    returns (a: bv32, b: bv32, c: bv32, d: bv32)
    requires |x| == 16 && Sound(o) && Follows(o, x, run) && run(48) == Quad(a0, b0, c0, d0)
    ensures Quad(a, b, c, d) == run(56)
  {
    a, b, c, d := a0, b0, c0, d0;
    a := Step(o, run, x, 48, I, a, b, c, d, 0, 0xf4292244, 6);
    d := Step(o, run, x, 49, I, d, a, b, c, 7, 0x432aff97, 10);
    c := Step(o, run, x, 50, I, c, d, a, b, 14, 0xab9423a7, 15);
    b := Step(o, run, x, 51, I, b, c, d, a, 5, 0xfc93a039, 21);
    a := Step(o, run, x, 52, I, a, b, c, d, 12, 0x655b59c3, 6);
    d := Step(o, run, x, 53, I, d, a, b, c, 3, 0x8f0ccc92, 10);
    c := Step(o, run, x, 54, I, c, d, a, b, 10, 0xffeff47d, 15);
    b := Step(o, run, x, 55, I, b, c, d, a, 1, 0x85845dd1, 21);
  }

  method Steps56to63(o: Steps, ghost run: nat -> Quad, x: seq<bv32>, a0: bv32, b0: bv32, c0: bv32, d0: bv32)
    returns (a: bv32, b: bv32, c: bv32, d: bv32)
    requires |x| == 16 && Sound(o) && Follows(o, x, run) && run(56) == Quad(a0, b0, c0, d0)
    ensures Quad(a, b, c, d) == run(64)
  {
    a, b, c, d := a0, b0, c0, d0;
    a := Step(o, run, x, 56, I, a, b, c, d, 8, 0x6fa87e4f, 6);
    d := Step(o, run, x, 57, I, d, a, b, c, 15, 0xfe2ce6e0, 10);
    c := Step(o, run, x, 58, I, c, d, a, b, 6, 0xa3014314, 15);
    b := Step(o, run, x, 59, I, b, c, d, a, 13, 0x4e0811a1, 21);
    a := Step(o, run, x, 60, I, a, b, c, d, 4, 0xf7537e82, 6);
    d := Step(o, run, x, 61, I, d, a, b, c, 11, 0xbd3af235, 10);
    c := Step(o, run, x, 62, I, c, d, a, b, 2, 0x2ad7d2bb, 15);
    b := Step(o, run, x, 63, I, b, c, d, a, 9, 0xeb86d391, 21);
  }

  ghost function RunOf(o: Steps, x: seq<bv32>, q: Quad): nat -> Quad
    requires |x| == 16
  {
    (n: nat) => if n <= 64 then AfterSteps(o, x, q, n) else q
  }

  lemma RunFollows(o: Steps, x: seq<bv32>, q: Quad)
    requires |x| == 16
    ensures Follows(o, x, RunOf(o, x, q)) && RunOf(o, x, q)(0) == q
  {
    forall k: nat | k < 64 ensures StepAt(o, x, RunOf(o, x, q), k) { }
  }

  method AllSteps(o: Steps, x: seq<bv32>, q: Quad) returns (r: Quad)
    requires |x| == 16 && Sound(o)
    ensures r == AfterSteps(o, x, q, 64)
  {
    ghost var run := RunOf(o, x, q);
    RunFollows(o, x, q);
    var a, b, c, d := q.a, q.b, q.c, q.d;
    a, b, c, d := Steps0to7(o, run, x, a, b, c, d);
    a, b, c, d := Steps8to15(o, run, x, a, b, c, d);
    a, b, c, d := Steps16to23(o, run, x, a, b, c, d);
    a, b, c, d := Steps24to31(o, run, x, a, b, c, d);
    a, b, c, d := Steps32to39(o, run, x, a, b, c, d);
    a, b, c, d := Steps40to47(o, run, x, a, b, c, d);
    a, b, c, d := Steps48to55(o, run, x, a, b, c, d);
    a, b, c, d := Steps56to63(o, run, x, a, b, c, d);
    return Quad(a, b, c, d);
  }

  // ----- the operations on 32-bit words -----

  // section 3.4 of RFC 1321
  function StandardF(x: bv32, y: bv32, z: bv32): bv32 { (x & y) | (!x & z) }
  function StandardG(x: bv32, y: bv32, z: bv32): bv32 { (x & z) | (y & !z) }
  function StandardH(x: bv32, y: bv32, z: bv32): bv32 { x ^ y ^ z }
  function StandardI(x: bv32, y: bv32, z: bv32): bv32 { y ^ (x | !z) }

  // the forms the program computes
  function MacroF(x: bv32, y: bv32, z: bv32): bv32 { z ^ (x & (y ^ z)) }
  function MacroG(x: bv32, y: bv32, z: bv32): bv32 { y ^ (z & (x ^ y)) }
  function MacroH2(x: bv32, y: bv32, z: bv32): bv32 { x ^ (y ^ z) }

  function StandardForm(f: Fn, x: bv32, y: bv32, z: bv32): bv32 {
    match f
    case F => StandardF(x, y, z)
    case G => StandardG(x, y, z)
    case H => StandardH(x, y, z)
    case H2 => StandardH(x, y, z)
    case I => StandardI(x, y, z)
  }

  function MacroForm(f: Fn, x: bv32, y: bv32, z: bv32): bv32 {
    match f
    case F => MacroF(x, y, z)
    case G => MacroG(x, y, z)
    case H => StandardH(x, y, z)
    case H2 => MacroH2(x, y, z)
    case I => StandardI(x, y, z)
  }

  function StandardTurn(v: bv32, b: bv32, s: Shift): bv32 { b + Rotl(v, s) }
  function MacroTurn(v: bv32, b: bv32, s: Shift): bv32 { Rotl(v, s) + b }

  function StandardSum(a: bv32, f: bv32, x: bv32, t: bv32): bv32 { a + f + x + t }
  function MacroSum(a: bv32, f: bv32, x: bv32, t: bv32): bv32 { a + (f + x + t) }

  function StandardStep(f: Fn, a: bv32, b: bv32, c: bv32, d: bv32, x: bv32, t: bv32, s: Shift): bv32 {
    StandardTurn(StandardSum(a, StandardForm(f, b, c, d), x, t), b, s)
  }

  function MacroStep(f: Fn, a: bv32, b: bv32, c: bv32, d: bv32, x: bv32, t: bv32, s: Shift): bv32 {
    MacroTurn(MacroSum(a, MacroForm(f, b, c, d), x, t), b, s)
  }

  const OPS: Steps := Steps(MacroStep, StandardStep)

  lemma FForm(x: bv32, y: bv32, z: bv32)
    ensures z ^ (x & (y ^ z)) == (x & y) | (!x & z)
  {
  }

  lemma GForm(x: bv32, y: bv32, z: bv32)
    ensures y ^ (z & (x ^ y)) == (x & z) | (y & !z)
  {
  }

  lemma HForm(x: bv32, y: bv32, z: bv32)
    ensures x ^ (y ^ z) == x ^ y ^ z
  {
  }

  lemma FAgrees(x: bv32, y: bv32, z: bv32)
    ensures MacroF(x, y, z) == StandardF(x, y, z)
  {
    FForm(x, y, z);
  }

  lemma GAgrees(x: bv32, y: bv32, z: bv32)
    ensures MacroG(x, y, z) == StandardG(x, y, z)
  {
    GForm(x, y, z);
  }

  lemma HAgrees(x: bv32, y: bv32, z: bv32)
    ensures MacroH2(x, y, z) == StandardH(x, y, z)
  {
    HForm(x, y, z);
  }

  lemma FormsAgree(f: Fn, x: bv32, y: bv32, z: bv32)
    ensures MacroForm(f, x, y, z) == StandardForm(StandardFn(f), x, y, z)
  {
    match f
    case F => FAgrees(x, y, z);
    case G => GAgrees(x, y, z);
    case H2 => HAgrees(x, y, z);
    case _ =>
  }

  lemma SumsRegroup(a: bv32, f: bv32, x: bv32, t: bv32)
    ensures a + (f + x + t) == a + f + x + t
  {
  }

  lemma SumCommutes(a: bv32, b: bv32)
    ensures a + b == b + a
  {
  }

  lemma SumsAgree(a: bv32, f: bv32, x: bv32, t: bv32)
    ensures MacroSum(a, f, x, t) == StandardSum(a, f, x, t)
  {
    SumsRegroup(a, f, x, t);
  }

  lemma TurnsAgree(v: bv32, b: bv32, s: Shift)
    ensures MacroTurn(v, b, s) == StandardTurn(v, b, s)
  {
    SumCommutes(Rotl(v, s), b);
  }

  lemma StepsAgree(f: Fn, a: bv32, b: bv32, c: bv32, d: bv32, x: bv32, t: bv32, s: Shift)
    ensures MacroStep(f, a, b, c, d, x, t, s) == StandardStep(StandardFn(f), a, b, c, d, x, t, s)
  {
    FormsAgree(f, b, c, d);
    SumsAgree(a, MacroForm(f, b, c, d), x, t);
    TurnsAgree(MacroSum(a, MacroForm(f, b, c, d), x, t), b, s);
  }

  lemma OpsSound()
    ensures Sound(OPS)
  {
    forall f, a, b, c, d, x, t, s ensures SameAt(OPS, f, a, b, c, d, x, t, s) {
      StepsAgree(f, a, b, c, d, x, t, s);
    }
  }

  /** Four bytes, least significant first. */
  function Le32(b: seq<bv8>, i: nat): bv32
    requires i + 4 <= |b|
  {
    (b[i] as bv32) | (b[i + 1] as bv32 << 8) | (b[i + 2] as bv32 << 16) | (b[i + 3] as bv32 << 24)
  }

  function Words(block: seq<bv8>): (r: seq<bv32>)
    requires |block| == 64
    ensures |r| == 16
  {
    seq(16, i requires 0 <= i < 16 => Le32(block, 4 * i))
  }

  function Add(p: Quad, q: Quad): Quad { Quad(p.a + q.a, p.b + q.b, p.c + q.c, p.d + q.d) }

  /** Section 3.4 of RFC 1321. */
  function Compress(q: Quad, block: Block): Quad {
    Add(AfterSteps(OPS, Words(block), q, 64), q)
  }

  method TransformBlock(q: Quad, block: Block) returns (r: Quad)
    ensures r == Compress(q, block)
  {
    OpsSound();
    var t := AllSteps(OPS, Words(block), q);
    return Add(t, q);
  }
}
