/** A known answer: the digest of "abc" in appendix A.5 of RFC 1321. */
module Md5Answer {
  import opened Blocks
  import opened Md5
  import opened Md5Stream

  const ABC: seq<bv8> := [0x61, 0x62, 0x63]

  /** The words of the only block of the padded message. */
  predicate IsBlock(x: seq<bv32>) {
    |x| == 16 && x[0] == 0x80636261 && x[14] == 24 && forall i :: 1 <= i < 16 && i != 14 ==> x[i] == 0
  }

  /** The registers after `n` steps. */
  predicate Reaches(x: seq<bv32>, n: nat, q: Quad)
    requires |x| == 16
  {
    n <= 64 && AfterSteps(OPS, x, INIT, n) == q
  }

  lemma OneStep(x: seq<bv32>, n: nat, k: nat, q: Quad, r: bv32)
    requires |x| == 16 && n == k < 64 && Reaches(x, n, q)
    requires StandardStep(RoundFn(k), q.a, q.b, q.c, q.d, x[WordIndex(k)], Constant(k), Rotation(k)) == r
    ensures Reaches(x, n + 1, Quad(q.d, r, q.b, q.c))
  {}

  lemma From0(x: seq<bv32>, n: nat)
    requires IsBlock(x) && n == 0 && Reaches(x, n, Quad(0x67452301, 0xefcdab89, 0x98badcfe, 0x10325476))
    ensures Reaches(x, n + 2, Quad(0x98badcfe, 0x344a8432, 0xd6d117b4, 0xefcdab89))
  {
    OneStep(x, n, 0, Quad(0x67452301, 0xefcdab89, 0x98badcfe, 0x10325476), 0xd6d117b4);
    OneStep(x, n + 1, 1, Quad(0x10325476, 0xd6d117b4, 0xefcdab89, 0x98badcfe), 0x344a8432);
  }

  lemma From2(x: seq<bv32>, n: nat)
    requires IsBlock(x) && n == 2 && Reaches(x, n, Quad(0x98badcfe, 0x344a8432, 0xd6d117b4, 0xefcdab89))
    ensures Reaches(x, n + 2, Quad(0xd6d117b4, 0x7ad956f2, 0x2f6fbd72, 0x344a8432))
  {
    OneStep(x, n, 2, Quad(0x98badcfe, 0x344a8432, 0xd6d117b4, 0xefcdab89), 0x2f6fbd72);
    OneStep(x, n + 1, 3, Quad(0xefcdab89, 0x2f6fbd72, 0x344a8432, 0xd6d117b4), 0x7ad956f2);
  }

  lemma From4(x: seq<bv32>, n: nat)
    requires IsBlock(x) && n == 4 && Reaches(x, n, Quad(0xd6d117b4, 0x7ad956f2, 0x2f6fbd72, 0x344a8432))
    ensures Reaches(x, n + 2, Quad(0x2f6fbd72, 0x8bac3051, 0xc73741ef, 0x7ad956f2))
  {
    OneStep(x, n, 4, Quad(0xd6d117b4, 0x7ad956f2, 0x2f6fbd72, 0x344a8432), 0xc73741ef);
    OneStep(x, n + 1, 5, Quad(0x344a8432, 0xc73741ef, 0x7ad956f2, 0x2f6fbd72), 0x8bac3051);
  }

  lemma From6(x: seq<bv32>, n: nat)
    requires IsBlock(x) && n == 6 && Reaches(x, n, Quad(0x2f6fbd72, 0x8bac3051, 0xc73741ef, 0x7ad956f2))
    ensures Reaches(x, n + 2, Quad(0xc73741ef, 0x928d99f6, 0x207dc67b, 0x8bac3051))
  {
    OneStep(x, n, 6, Quad(0x2f6fbd72, 0x8bac3051, 0xc73741ef, 0x7ad956f2), 0x207dc67b);
    OneStep(x, n + 1, 7, Quad(0x7ad956f2, 0x207dc67b, 0x8bac3051, 0xc73741ef), 0x928d99f6);
  }

  lemma From8(x: seq<bv32>, n: nat)
    requires IsBlock(x) && n == 8 && Reaches(x, n, Quad(0xc73741ef, 0x928d99f6, 0x207dc67b, 0x8bac3051))
    ensures Reaches(x, n + 2, Quad(0x207dc67b, 0x74e2f284, 0x854b3712, 0x928d99f6))
  {
    OneStep(x, n, 8, Quad(0xc73741ef, 0x928d99f6, 0x207dc67b, 0x8bac3051), 0x854b3712);
    OneStep(x, n + 1, 9, Quad(0x8bac3051, 0x854b3712, 0x928d99f6, 0x207dc67b), 0x74e2f284);
  }

  lemma From10(x: seq<bv32>, n: nat)
    requires IsBlock(x) && n == 10 && Reaches(x, n, Quad(0x207dc67b, 0x74e2f284, 0x854b3712, 0x928d99f6))
    ensures Reaches(x, n + 2, Quad(0x854b3712, 0x5ed49596, 0x3020401c, 0x74e2f284))
  {
    OneStep(x, n, 10, Quad(0x207dc67b, 0x74e2f284, 0x854b3712, 0x928d99f6), 0x3020401c);
    OneStep(x, n + 1, 11, Quad(0x928d99f6, 0x3020401c, 0x74e2f284, 0x854b3712), 0x5ed49596);
  }

  lemma From12(x: seq<bv32>, n: nat)
    requires IsBlock(x) && n == 12 && Reaches(x, n, Quad(0x854b3712, 0x5ed49596, 0x3020401c, 0x74e2f284))
    ensures Reaches(x, n + 2, Quad(0x3020401c, 0xa1051895, 0xdda9b9a6, 0x5ed49596))
  {
    OneStep(x, n, 12, Quad(0x854b3712, 0x5ed49596, 0x3020401c, 0x74e2f284), 0xdda9b9a6);
    OneStep(x, n + 1, 13, Quad(0x74e2f284, 0xdda9b9a6, 0x5ed49596, 0x3020401c), 0xa1051895);
  }

  lemma From14(x: seq<bv32>, n: nat)
    requires IsBlock(x) && n == 14 && Reaches(x, n, Quad(0x3020401c, 0xa1051895, 0xdda9b9a6, 0x5ed49596))
    ensures Reaches(x, n + 2, Quad(0xdda9b9a6, 0x72aff2e0, 0xe396856b, 0xa1051895))
  {
    OneStep(x, n, 14, Quad(0x3020401c, 0xa1051895, 0xdda9b9a6, 0x5ed49596), 0xe396856b);
    OneStep(x, n + 1, 15, Quad(0x5ed49596, 0xe396856b, 0xa1051895, 0xdda9b9a6), 0x72aff2e0);
  }

  lemma From16(x: seq<bv32>, n: nat)
    requires IsBlock(x) && n == 16 && Reaches(x, n, Quad(0xdda9b9a6, 0x72aff2e0, 0xe396856b, 0xa1051895))
    ensures Reaches(x, n + 2, Quad(0xe396856b, 0x4a1d804e, 0x3e9e9126, 0x72aff2e0))
  {
    OneStep(x, n, 16, Quad(0xdda9b9a6, 0x72aff2e0, 0xe396856b, 0xa1051895), 0x3e9e9126);
    OneStep(x, n + 1, 17, Quad(0xa1051895, 0x3e9e9126, 0x72aff2e0, 0xe396856b), 0x4a1d804e);
  }

  lemma From18(x: seq<bv32>, n: nat)
    requires IsBlock(x) && n == 18 && Reaches(x, n, Quad(0xe396856b, 0x4a1d804e, 0x3e9e9126, 0x72aff2e0))
    ensures Reaches(x, n + 2, Quad(0x3e9e9126, 0xb5b204e4, 0xe25e1652, 0x4a1d804e))
  {
    OneStep(x, n, 18, Quad(0xe396856b, 0x4a1d804e, 0x3e9e9126, 0x72aff2e0), 0xe25e1652);
    OneStep(x, n + 1, 19, Quad(0x72aff2e0, 0xe25e1652, 0x4a1d804e, 0x3e9e9126), 0xb5b204e4);
  }

  lemma From20(x: seq<bv32>, n: nat)
    requires IsBlock(x) && n == 20 && Reaches(x, n, Quad(0x3e9e9126, 0xb5b204e4, 0xe25e1652, 0x4a1d804e))
    ensures Reaches(x, n + 2, Quad(0xe25e1652, 0x6d002f1e, 0x59a8ffda, 0xb5b204e4))
  {
    OneStep(x, n, 20, Quad(0x3e9e9126, 0xb5b204e4, 0xe25e1652, 0x4a1d804e), 0x59a8ffda);
    OneStep(x, n + 1, 21, Quad(0x4a1d804e, 0x59a8ffda, 0xb5b204e4, 0xe25e1652), 0x6d002f1e);
  }

  lemma From22(x: seq<bv32>, n: nat)
    requires IsBlock(x) && n == 22 && Reaches(x, n, Quad(0xe25e1652, 0x6d002f1e, 0x59a8ffda, 0xb5b204e4))
    ensures Reaches(x, n + 2, Quad(0x59a8ffda, 0x47092c07, 0xabfc7920, 0x6d002f1e))
  {
    OneStep(x, n, 22, Quad(0xe25e1652, 0x6d002f1e, 0x59a8ffda, 0xb5b204e4), 0xabfc7920);
    OneStep(x, n + 1, 23, Quad(0xb5b204e4, 0xabfc7920, 0x6d002f1e, 0x59a8ffda), 0x47092c07);
  }

  lemma From24(x: seq<bv32>, n: nat)
    requires IsBlock(x) && n == 24 && Reaches(x, n, Quad(0x59a8ffda, 0x47092c07, 0xabfc7920, 0x6d002f1e))
    ensures Reaches(x, n + 2, Quad(0xabfc7920, 0x09388eff, 0xb7f268cf, 0x47092c07))
  {
    OneStep(x, n, 24, Quad(0x59a8ffda, 0x47092c07, 0xabfc7920, 0x6d002f1e), 0xb7f268cf);
    OneStep(x, n + 1, 25, Quad(0x6d002f1e, 0xb7f268cf, 0x47092c07, 0xabfc7920), 0x09388eff);
  }

  lemma From26(x: seq<bv32>, n: nat)
    requires IsBlock(x) && n == 26 && Reaches(x, n, Quad(0xabfc7920, 0x09388eff, 0xb7f268cf, 0x47092c07))
    ensures Reaches(x, n + 2, Quad(0xb7f268cf, 0x786acb8f, 0xfe1623b1, 0x09388eff))
  {
    OneStep(x, n, 26, Quad(0xabfc7920, 0x09388eff, 0xb7f268cf, 0x47092c07), 0xfe1623b1);
    OneStep(x, n + 1, 27, Quad(0x47092c07, 0xfe1623b1, 0x09388eff, 0xb7f268cf), 0x786acb8f);
  }

  lemma From28(x: seq<bv32>, n: nat)
    requires IsBlock(x) && n == 28 && Reaches(x, n, Quad(0xb7f268cf, 0x786acb8f, 0xfe1623b1, 0x09388eff))
    ensures Reaches(x, n + 2, Quad(0xfe1623b1, 0x9f47e4f8, 0x790a77fb, 0x786acb8f))
  {
    OneStep(x, n, 28, Quad(0xb7f268cf, 0x786acb8f, 0xfe1623b1, 0x09388eff), 0x790a77fb);
    OneStep(x, n + 1, 29, Quad(0x09388eff, 0x790a77fb, 0x786acb8f, 0xfe1623b1), 0x9f47e4f8);
  }

  lemma From30(x: seq<bv32>, n: nat)
    requires IsBlock(x) && n == 30 && Reaches(x, n, Quad(0xfe1623b1, 0x9f47e4f8, 0x790a77fb, 0x786acb8f))
    ensures Reaches(x, n + 2, Quad(0x790a77fb, 0x726342d3, 0xa62884aa, 0x9f47e4f8))
  {
    OneStep(x, n, 30, Quad(0xfe1623b1, 0x9f47e4f8, 0x790a77fb, 0x786acb8f), 0xa62884aa);
    OneStep(x, n + 1, 31, Quad(0x786acb8f, 0xa62884aa, 0x9f47e4f8, 0x790a77fb), 0x726342d3);
  }

  lemma From32(x: seq<bv32>, n: nat)
    requires IsBlock(x) && n == 32 && Reaches(x, n, Quad(0x790a77fb, 0x726342d3, 0xa62884aa, 0x9f47e4f8))
    ensures Reaches(x, n + 2, Quad(0xa62884aa, 0x60127b2e, 0xb3707ebf, 0x726342d3))
  {
    OneStep(x, n, 32, Quad(0x790a77fb, 0x726342d3, 0xa62884aa, 0x9f47e4f8), 0xb3707ebf);
    OneStep(x, n + 1, 33, Quad(0x9f47e4f8, 0xb3707ebf, 0x726342d3, 0xa62884aa), 0x60127b2e);
  }

  lemma From34(x: seq<bv32>, n: nat)
    requires IsBlock(x) && n == 34 && Reaches(x, n, Quad(0xa62884aa, 0x60127b2e, 0xb3707ebf, 0x726342d3))
    ensures Reaches(x, n + 2, Quad(0xb3707ebf, 0x3b0875c7, 0x8d212ff5, 0x60127b2e))
  {
    OneStep(x, n, 34, Quad(0xa62884aa, 0x60127b2e, 0xb3707ebf, 0x726342d3), 0x8d212ff5);
    OneStep(x, n + 1, 35, Quad(0x726342d3, 0x8d212ff5, 0x60127b2e, 0xb3707ebf), 0x3b0875c7);
  }

  lemma From36(x: seq<bv32>, n: nat)
    requires IsBlock(x) && n == 36 && Reaches(x, n, Quad(0xb3707ebf, 0x3b0875c7, 0x8d212ff5, 0x60127b2e))
    ensures Reaches(x, n + 2, Quad(0x8d212ff5, 0x6e7429d5, 0x21b117b9, 0x3b0875c7))
  {
    OneStep(x, n, 36, Quad(0xb3707ebf, 0x3b0875c7, 0x8d212ff5, 0x60127b2e), 0x21b117b9);
    OneStep(x, n + 1, 37, Quad(0x60127b2e, 0x21b117b9, 0x3b0875c7, 0x8d212ff5), 0x6e7429d5);
  }

  lemma From38(x: seq<bv32>, n: nat)
    requires IsBlock(x) && n == 38 && Reaches(x, n, Quad(0x8d212ff5, 0x6e7429d5, 0x21b117b9, 0x3b0875c7))
    ensures Reaches(x, n + 2, Quad(0x21b117b9, 0x5a2f5ea5, 0x3575227e, 0x6e7429d5))
  {
    OneStep(x, n, 38, Quad(0x8d212ff5, 0x6e7429d5, 0x21b117b9, 0x3b0875c7), 0x3575227e);
    OneStep(x, n + 1, 39, Quad(0x3b0875c7, 0x3575227e, 0x6e7429d5, 0x21b117b9), 0x5a2f5ea5);
  }

  lemma From40(x: seq<bv32>, n: nat)
    requires IsBlock(x) && n == 40 && Reaches(x, n, Quad(0x21b117b9, 0x5a2f5ea5, 0x3575227e, 0x6e7429d5))
    ensures Reaches(x, n + 2, Quad(0x3575227e, 0xfadcaa38, 0x11de1779, 0x5a2f5ea5))
  {
    OneStep(x, n, 40, Quad(0x21b117b9, 0x5a2f5ea5, 0x3575227e, 0x6e7429d5), 0x11de1779);
    OneStep(x, n + 1, 41, Quad(0x6e7429d5, 0x11de1779, 0x5a2f5ea5, 0x3575227e), 0xfadcaa38);
  }

  lemma From42(x: seq<bv32>, n: nat)
    requires IsBlock(x) && n == 42 && Reaches(x, n, Quad(0x3575227e, 0xfadcaa38, 0x11de1779, 0x5a2f5ea5))
    ensures Reaches(x, n + 2, Quad(0x11de1779, 0x4c6124f4, 0x31c465ca, 0xfadcaa38))
  {
    OneStep(x, n, 42, Quad(0x3575227e, 0xfadcaa38, 0x11de1779, 0x5a2f5ea5), 0x31c465ca);
    OneStep(x, n + 1, 43, Quad(0x5a2f5ea5, 0x31c465ca, 0xfadcaa38, 0x11de1779), 0x4c6124f4);
  }

  lemma From44(x: seq<bv32>, n: nat)
    requires IsBlock(x) && n == 44 && Reaches(x, n, Quad(0x11de1779, 0x4c6124f4, 0x31c465ca, 0xfadcaa38))
    ensures Reaches(x, n + 2, Quad(0x31c465ca, 0x99d9679d, 0x7f2e507b, 0x4c6124f4))
  {
    OneStep(x, n, 44, Quad(0x11de1779, 0x4c6124f4, 0x31c465ca, 0xfadcaa38), 0x7f2e507b);
    OneStep(x, n + 1, 45, Quad(0xfadcaa38, 0x7f2e507b, 0x4c6124f4, 0x31c465ca), 0x99d9679d);
  }

  lemma From46(x: seq<bv32>, n: nat)
    requires IsBlock(x) && n == 46 && Reaches(x, n, Quad(0x31c465ca, 0x99d9679d, 0x7f2e507b, 0x4c6124f4))
    ensures Reaches(x, n + 2, Quad(0x7f2e507b, 0x7beb9700, 0x8fae6399, 0x99d9679d))
  {
    OneStep(x, n, 46, Quad(0x31c465ca, 0x99d9679d, 0x7f2e507b, 0x4c6124f4), 0x8fae6399);
    OneStep(x, n + 1, 47, Quad(0x4c6124f4, 0x8fae6399, 0x99d9679d, 0x7f2e507b), 0x7beb9700);
  }

  lemma From48(x: seq<bv32>, n: nat)
    requires IsBlock(x) && n == 48 && Reaches(x, n, Quad(0x7f2e507b, 0x7beb9700, 0x8fae6399, 0x99d9679d))
    ensures Reaches(x, n + 2, Quad(0x8fae6399, 0xf4e8e96e, 0x7b201df8, 0x7beb9700))
  {
    OneStep(x, n, 48, Quad(0x7f2e507b, 0x7beb9700, 0x8fae6399, 0x99d9679d), 0x7b201df8);
    OneStep(x, n + 1, 49, Quad(0x99d9679d, 0x7b201df8, 0x7beb9700, 0x8fae6399), 0xf4e8e96e);
  }

  lemma From50(x: seq<bv32>, n: nat)
    requires IsBlock(x) && n == 50 && Reaches(x, n, Quad(0x8fae6399, 0xf4e8e96e, 0x7b201df8, 0x7beb9700))
    ensures Reaches(x, n + 2, Quad(0x7b201df8, 0x8bf025c4, 0xb298cefd, 0xf4e8e96e))
  {
    OneStep(x, n, 50, Quad(0x8fae6399, 0xf4e8e96e, 0x7b201df8, 0x7beb9700), 0xb298cefd);
    OneStep(x, n + 1, 51, Quad(0x7beb9700, 0xb298cefd, 0xf4e8e96e, 0x7b201df8), 0x8bf025c4);
  }

  lemma From52(x: seq<bv32>, n: nat)
    requires IsBlock(x) && n == 52 && Reaches(x, n, Quad(0x7b201df8, 0x8bf025c4, 0xb298cefd, 0xf4e8e96e))
    ensures Reaches(x, n + 2, Quad(0xb298cefd, 0x5b0d97aa, 0x06cc5e8a, 0x8bf025c4))
  {
    OneStep(x, n, 52, Quad(0x7b201df8, 0x8bf025c4, 0xb298cefd, 0xf4e8e96e), 0x06cc5e8a);
    OneStep(x, n + 1, 53, Quad(0xf4e8e96e, 0x06cc5e8a, 0x8bf025c4, 0xb298cefd), 0x5b0d97aa);
  }

  lemma From54(x: seq<bv32>, n: nat)
    requires IsBlock(x) && n == 54 && Reaches(x, n, Quad(0xb298cefd, 0x5b0d97aa, 0x06cc5e8a, 0x8bf025c4))
    ensures Reaches(x, n + 2, Quad(0x06cc5e8a, 0x3bfa2c27, 0x7d632dd0, 0x5b0d97aa))
  {
    OneStep(x, n, 54, Quad(0xb298cefd, 0x5b0d97aa, 0x06cc5e8a, 0x8bf025c4), 0x7d632dd0);
    OneStep(x, n + 1, 55, Quad(0x8bf025c4, 0x7d632dd0, 0x5b0d97aa, 0x06cc5e8a), 0x3bfa2c27);
  }

  lemma From56(x: seq<bv32>, n: nat)
    requires IsBlock(x) && n == 56 && Reaches(x, n, Quad(0x06cc5e8a, 0x3bfa2c27, 0x7d632dd0, 0x5b0d97aa))
    ensures Reaches(x, n + 2, Quad(0x7d632dd0, 0x094454ab, 0x7f81cc35, 0x3bfa2c27))
  {
    OneStep(x, n, 56, Quad(0x06cc5e8a, 0x3bfa2c27, 0x7d632dd0, 0x5b0d97aa), 0x7f81cc35);
    OneStep(x, n + 1, 57, Quad(0x5b0d97aa, 0x7f81cc35, 0x3bfa2c27, 0x7d632dd0), 0x094454ab);
  }

  lemma From58(x: seq<bv32>, n: nat)
    requires IsBlock(x) && n == 58 && Reaches(x, n, Quad(0x7d632dd0, 0x094454ab, 0x7f81cc35, 0x3bfa2c27))
    ensures Reaches(x, n + 2, Quad(0x7f81cc35, 0x7327d604, 0x4f9dbe3f, 0x094454ab))
  {
    OneStep(x, n, 58, Quad(0x7d632dd0, 0x094454ab, 0x7f81cc35, 0x3bfa2c27), 0x4f9dbe3f);
    OneStep(x, n + 1, 59, Quad(0x3bfa2c27, 0x4f9dbe3f, 0x094454ab, 0x7f81cc35), 0x7327d604);
  }

  lemma From60(x: seq<bv32>, n: nat)
    requires IsBlock(x) && n == 60 && Reaches(x, n, Quad(0x7f81cc35, 0x7327d604, 0x4f9dbe3f, 0x094454ab))
    ensures Reaches(x, n + 2, Quad(0x4f9dbe3f, 0x624d8cb2, 0x310ade8f, 0x7327d604))
  {
    OneStep(x, n, 60, Quad(0x7f81cc35, 0x7327d604, 0x4f9dbe3f, 0x094454ab), 0x310ade8f);
    OneStep(x, n + 1, 61, Quad(0x094454ab, 0x310ade8f, 0x7327d604, 0x4f9dbe3f), 0x624d8cb2);
  }

  lemma From62(x: seq<bv32>, n: nat)
    requires IsBlock(x) && n == 62 && Reaches(x, n, Quad(0x4f9dbe3f, 0x624d8cb2, 0x310ade8f, 0x7327d604))
    ensures Reaches(x, n + 2, Quad(0x310ade8f, 0xc08226b3, 0xe484b9d8, 0x624d8cb2))
  {
    OneStep(x, n, 62, Quad(0x4f9dbe3f, 0x624d8cb2, 0x310ade8f, 0x7327d604), 0xe484b9d8);
    OneStep(x, n + 1, 63, Quad(0x7327d604, 0xe484b9d8, 0x624d8cb2, 0x310ade8f), 0xc08226b3);
  }

  lemma Half(x: seq<bv32>, n: nat)
    requires IsBlock(x) && n == 0
    ensures Reaches(x, n + 32, Quad(0x790a77fb, 0x726342d3, 0xa62884aa, 0x9f47e4f8))
  {
    From0(x, n); From2(x, n + 2); From4(x, n + 4); From6(x, n + 6);
    From8(x, n + 8); From10(x, n + 10); From12(x, n + 12); From14(x, n + 14);
    From16(x, n + 16); From18(x, n + 18); From20(x, n + 20); From22(x, n + 22);
    From24(x, n + 24); From26(x, n + 26); From28(x, n + 28); From30(x, n + 30);
  }

  lemma Whole(x: seq<bv32>, n: nat)
    requires IsBlock(x) && n == 0
    ensures Reaches(x, n + 64, Quad(0x310ade8f, 0xc08226b3, 0xe484b9d8, 0x624d8cb2))
  {
    Half(x, n);
    From32(x, n + 32); From34(x, n + 34); From36(x, n + 36); From38(x, n + 38);
    From40(x, n + 40); From42(x, n + 42); From44(x, n + 44); From46(x, n + 46);
    From48(x, n + 48); From50(x, n + 50); From52(x, n + 52); From54(x, n + 54);
    From56(x, n + 56); From58(x, n + 58); From60(x, n + 60); From62(x, n + 62);
  }

  lemma {:induction false} NothingLeft(k: nat)
    ensures LeBytes(0, k) == Zeros(k)
  {
    if k > 0 {
      NothingLeft(k - 1);
      assert [0] + Zeros(k - 1) == Zeros(k);
    }
  }

  lemma LengthBytes24(n: nat, k: nat)
    requires n == 24
    ensures LeBytes(n, k + 1) == [24] + Zeros(k)
  {
    NothingLeft(k);
    assert n / 256 == 0 && n % 256 == 24;
  }

  lemma Pieces(p: seq<bv8>)
    requires p == ABC + ([0x80] + Zeros(52) + ([24] + Zeros(7)))
    ensures |p| == 64 && p[0] == 0x61 && p[1] == 0x62 && p[2] == 0x63 && p[3] == 0x80 && p[56] == 24
    ensures forall i :: 4 <= i < 64 && i != 56 ==> p[i] == 0
  {}

  lemma PaddedShort(msg: seq<bv8>, length: seq<bv8>)
    requires |msg| == 3 && |length| == 8
    ensures PadWith(msg, length) == msg + ([0x80] + Zeros(52) + length)
  {
    PadShort(msg, 3, length);
  }

  lemma PaddedThree(msg: seq<bv8>, n: nat, k: nat)
    requires |msg| == 3 && n == 8 * |msg| && k + 1 == LENGTH_SIZE
    ensures Padded(msg) == msg + ([0x80] + Zeros(52) + ([24] + Zeros(k)))
  {
    LengthBytes24(n, k);
    PaddedShort(msg, LeBytes(n, k + 1));
  }

  lemma NoBytes(p: seq<bv8>, i: nat)
    requires i + 4 <= |p| && p[i] == 0 && p[i + 1] == 0 && p[i + 2] == 0 && p[i + 3] == 0
    ensures Le32(p, i) == 0
  {}

  lemma OnlyBlock(p: seq<bv8>)
    requires p == Padded(ABC)
    ensures |p| == 64 && IsBlock(Words(p))
  {
    PaddedThree(ABC, 24, 7);
    Pieces(p);
    assert Le32(p, 0) == 0x80636261 && Le32(p, 56) == 24;
    forall i | 1 <= i < 16 && i != 14 ensures Le32(p, 4 * i) == 0 { NoBytes(p, 4 * i); }
  }

  /** MD5 of "abc" is 900150983cd24fb0d6963f7d28e17f72. */
  lemma DigestOfAbc()
    ensures Digest(Fold(Compress, INIT, Padded(ABC))) ==
      [0x90, 0x01, 0x50, 0x98, 0x3c, 0xd2, 0x4f, 0xb0,
       0xd6, 0x96, 0x3f, 0x7d, 0x28, 0xe1, 0x7f, 0x72]
  {
    var p := Padded(ABC);
    OnlyBlock(p);
    assert p[..64] == p && p[64..] == [];
    assert Fold(Compress, INIT, p) == Compress(INIT, p);
    Whole(Words(p), 0);
    assert Compress(INIT, p) == Quad(0x98500190, 0xb04fd23c, 0x7d3f96d6, 0x727fe128);
  }
}
