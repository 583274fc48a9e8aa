/** Where the constants of SHA-256 come from: sections 4.2.2 and 5.3.3 of FIPS 180-4. */
module Sha256Constants {
  import opened Sha256
  import opened Sha256Stream

  type Word = n: nat | n < TWO32

  const TWO32: nat := 0x1_0000_0000

  /** `k` is the first 32 bits of the fractional part of the cube root of `p`, whose integral part is `q`. */
  predicate CubeRoot(p: nat, q: nat, k: Word) {
    var x := q * TWO32 + k;
    x * x * x <= p * TWO32 * TWO32 * TWO32 < (x + 1) * (x + 1) * (x + 1)
  }

  predicate SquareRoot(p: nat, q: nat, k: Word) {
    var x := q * TWO32 + k;
    x * x <= p * TWO32 * TWO32 < (x + 1) * (x + 1)
  }

  ghost predicate FromCubeRoot(w: bv32, p: nat) { exists q: nat, k: Word :: w == k as bv32 && CubeRoot(p, q, k) }

  ghost predicate FromSquareRoot(w: bv32, p: nat) { exists q: nat, k: Word :: w == k as bv32 && SquareRoot(p, q, k) }

  const P0: seq<nat> := [2, 3, 5, 7, 11, 13, 17, 19, 23, 29, 31, 37, 41, 43, 47, 53]
  const P1: seq<nat> := [59, 61, 67, 71, 73, 79, 83, 89, 97, 101, 103, 107, 109, 113, 127, 131]
  const P2: seq<nat> := [137, 139, 149, 151, 157, 163, 167, 173, 179, 181, 191, 193, 197, 199, 211, 223]
  const P3: seq<nat> := [227, 229, 233, 239, 241, 251, 257, 263, 269, 271, 277, 281, 283, 293, 307, 311]

  /** The first sixty-four prime numbers. */
  const PRIMES: seq<nat> := P0 + P1 + P2 + P3

  ghost predicate Row(k: seq<bv32>, p: seq<nat>, from: nat) {
    from + 8 <= |k| && from + 8 <= |p| && forall j :: from <= j < from + 8 ==> FromCubeRoot(k[j], p[j])
  }

  lemma Row0()
    ensures Row(K0, P0, 0)
  {
    assert K0[0] == (0x428a2f98 as Word) as bv32 && P0[0] == 2 && CubeRoot(2, 1, 0x428a2f98);
    assert K0[1] == (0x71374491 as Word) as bv32 && P0[1] == 3 && CubeRoot(3, 1, 0x71374491);
    assert K0[2] == (0xb5c0fbcf as Word) as bv32 && P0[2] == 5 && CubeRoot(5, 1, 0xb5c0fbcf);
    assert K0[3] == (0xe9b5dba5 as Word) as bv32 && P0[3] == 7 && CubeRoot(7, 1, 0xe9b5dba5);
    assert K0[4] == (0x3956c25b as Word) as bv32 && P0[4] == 11 && CubeRoot(11, 2, 0x3956c25b);
    assert K0[5] == (0x59f111f1 as Word) as bv32 && P0[5] == 13 && CubeRoot(13, 2, 0x59f111f1);
    assert K0[6] == (0x923f82a4 as Word) as bv32 && P0[6] == 17 && CubeRoot(17, 2, 0x923f82a4);
    assert K0[7] == (0xab1c5ed5 as Word) as bv32 && P0[7] == 19 && CubeRoot(19, 2, 0xab1c5ed5);
  }

  lemma Row1()
    ensures Row(K0, P0, 8)
  {
    assert K0[8] == (0xd807aa98 as Word) as bv32 && P0[8] == 23 && CubeRoot(23, 2, 0xd807aa98);
    assert K0[9] == (0x12835b01 as Word) as bv32 && P0[9] == 29 && CubeRoot(29, 3, 0x12835b01);
    assert K0[10] == (0x243185be as Word) as bv32 && P0[10] == 31 && CubeRoot(31, 3, 0x243185be);
    assert K0[11] == (0x550c7dc3 as Word) as bv32 && P0[11] == 37 && CubeRoot(37, 3, 0x550c7dc3);
    assert K0[12] == (0x72be5d74 as Word) as bv32 && P0[12] == 41 && CubeRoot(41, 3, 0x72be5d74);
    assert K0[13] == (0x80deb1fe as Word) as bv32 && P0[13] == 43 && CubeRoot(43, 3, 0x80deb1fe);
    assert K0[14] == (0x9bdc06a7 as Word) as bv32 && P0[14] == 47 && CubeRoot(47, 3, 0x9bdc06a7);
    assert K0[15] == (0xc19bf174 as Word) as bv32 && P0[15] == 53 && CubeRoot(53, 3, 0xc19bf174);
  }

  lemma Row2()
    ensures Row(K1, P1, 0)
  {
    assert K1[0] == (0xe49b69c1 as Word) as bv32 && P1[0] == 59 && CubeRoot(59, 3, 0xe49b69c1);
    assert K1[1] == (0xefbe4786 as Word) as bv32 && P1[1] == 61 && CubeRoot(61, 3, 0xefbe4786);
    assert K1[2] == (0x0fc19dc6 as Word) as bv32 && P1[2] == 67 && CubeRoot(67, 4, 0x0fc19dc6);
    assert K1[3] == (0x240ca1cc as Word) as bv32 && P1[3] == 71 && CubeRoot(71, 4, 0x240ca1cc);
    assert K1[4] == (0x2de92c6f as Word) as bv32 && P1[4] == 73 && CubeRoot(73, 4, 0x2de92c6f);
    assert K1[5] == (0x4a7484aa as Word) as bv32 && P1[5] == 79 && CubeRoot(79, 4, 0x4a7484aa);
    assert K1[6] == (0x5cb0a9dc as Word) as bv32 && P1[6] == 83 && CubeRoot(83, 4, 0x5cb0a9dc);
    assert K1[7] == (0x76f988da as Word) as bv32 && P1[7] == 89 && CubeRoot(89, 4, 0x76f988da);
  }

  lemma Row3()
    ensures Row(K1, P1, 8)
  {
    assert K1[8] == (0x983e5152 as Word) as bv32 && P1[8] == 97 && CubeRoot(97, 4, 0x983e5152);
    assert K1[9] == (0xa831c66d as Word) as bv32 && P1[9] == 101 && CubeRoot(101, 4, 0xa831c66d);
    assert K1[10] == (0xb00327c8 as Word) as bv32 && P1[10] == 103 && CubeRoot(103, 4, 0xb00327c8);
    assert K1[11] == (0xbf597fc7 as Word) as bv32 && P1[11] == 107 && CubeRoot(107, 4, 0xbf597fc7);
    assert K1[12] == (0xc6e00bf3 as Word) as bv32 && P1[12] == 109 && CubeRoot(109, 4, 0xc6e00bf3);
    assert K1[13] == (0xd5a79147 as Word) as bv32 && P1[13] == 113 && CubeRoot(113, 4, 0xd5a79147);
    assert K1[14] == (0x06ca6351 as Word) as bv32 && P1[14] == 127 && CubeRoot(127, 5, 0x06ca6351);
    assert K1[15] == (0x14292967 as Word) as bv32 && P1[15] == 131 && CubeRoot(131, 5, 0x14292967);
  }

  lemma Row4()
    ensures Row(K2, P2, 0)
  {
    assert K2[0] == (0x27b70a85 as Word) as bv32 && P2[0] == 137 && CubeRoot(137, 5, 0x27b70a85);
    assert K2[1] == (0x2e1b2138 as Word) as bv32 && P2[1] == 139 && CubeRoot(139, 5, 0x2e1b2138);
    assert K2[2] == (0x4d2c6dfc as Word) as bv32 && P2[2] == 149 && CubeRoot(149, 5, 0x4d2c6dfc);
    assert K2[3] == (0x53380d13 as Word) as bv32 && P2[3] == 151 && CubeRoot(151, 5, 0x53380d13);
    assert K2[4] == (0x650a7354 as Word) as bv32 && P2[4] == 157 && CubeRoot(157, 5, 0x650a7354);
    assert K2[5] == (0x766a0abb as Word) as bv32 && P2[5] == 163 && CubeRoot(163, 5, 0x766a0abb);
    assert K2[6] == (0x81c2c92e as Word) as bv32 && P2[6] == 167 && CubeRoot(167, 5, 0x81c2c92e);
    assert K2[7] == (0x92722c85 as Word) as bv32 && P2[7] == 173 && CubeRoot(173, 5, 0x92722c85);
  }

  lemma Row5()
    ensures Row(K2, P2, 8)
  {
    assert K2[8] == (0xa2bfe8a1 as Word) as bv32 && P2[8] == 179 && CubeRoot(179, 5, 0xa2bfe8a1);
    assert K2[9] == (0xa81a664b as Word) as bv32 && P2[9] == 181 && CubeRoot(181, 5, 0xa81a664b);
    assert K2[10] == (0xc24b8b70 as Word) as bv32 && P2[10] == 191 && CubeRoot(191, 5, 0xc24b8b70);
    assert K2[11] == (0xc76c51a3 as Word) as bv32 && P2[11] == 193 && CubeRoot(193, 5, 0xc76c51a3);
    assert K2[12] == (0xd192e819 as Word) as bv32 && P2[12] == 197 && CubeRoot(197, 5, 0xd192e819);
    assert K2[13] == (0xd6990624 as Word) as bv32 && P2[13] == 199 && CubeRoot(199, 5, 0xd6990624);
    assert K2[14] == (0xf40e3585 as Word) as bv32 && P2[14] == 211 && CubeRoot(211, 5, 0xf40e3585);
    assert K2[15] == (0x106aa070 as Word) as bv32 && P2[15] == 223 && CubeRoot(223, 6, 0x106aa070);
  }

  lemma Row6()
    ensures Row(K3, P3, 0)
  {
    assert K3[0] == (0x19a4c116 as Word) as bv32 && P3[0] == 227 && CubeRoot(227, 6, 0x19a4c116);
    assert K3[1] == (0x1e376c08 as Word) as bv32 && P3[1] == 229 && CubeRoot(229, 6, 0x1e376c08);
    assert K3[2] == (0x2748774c as Word) as bv32 && P3[2] == 233 && CubeRoot(233, 6, 0x2748774c);
    assert K3[3] == (0x34b0bcb5 as Word) as bv32 && P3[3] == 239 && CubeRoot(239, 6, 0x34b0bcb5);
    assert K3[4] == (0x391c0cb3 as Word) as bv32 && P3[4] == 241 && CubeRoot(241, 6, 0x391c0cb3);
    assert K3[5] == (0x4ed8aa4a as Word) as bv32 && P3[5] == 251 && CubeRoot(251, 6, 0x4ed8aa4a);
    assert K3[6] == (0x5b9cca4f as Word) as bv32 && P3[6] == 257 && CubeRoot(257, 6, 0x5b9cca4f);
    assert K3[7] == (0x682e6ff3 as Word) as bv32 && P3[7] == 263 && CubeRoot(263, 6, 0x682e6ff3);
  }

  lemma Row7()
    ensures Row(K3, P3, 8)
  {
    assert K3[8] == (0x748f82ee as Word) as bv32 && P3[8] == 269 && CubeRoot(269, 6, 0x748f82ee);
    assert K3[9] == (0x78a5636f as Word) as bv32 && P3[9] == 271 && CubeRoot(271, 6, 0x78a5636f);
    assert K3[10] == (0x84c87814 as Word) as bv32 && P3[10] == 277 && CubeRoot(277, 6, 0x84c87814);
    assert K3[11] == (0x8cc70208 as Word) as bv32 && P3[11] == 281 && CubeRoot(281, 6, 0x8cc70208);
    assert K3[12] == (0x90befffa as Word) as bv32 && P3[12] == 283 && CubeRoot(283, 6, 0x90befffa);
    assert K3[13] == (0xa4506ceb as Word) as bv32 && P3[13] == 293 && CubeRoot(293, 6, 0xa4506ceb);
    assert K3[14] == (0xbef9a3f7 as Word) as bv32 && P3[14] == 307 && CubeRoot(307, 6, 0xbef9a3f7);
    assert K3[15] == (0xc67178f2 as Word) as bv32 && P3[15] == 311 && CubeRoot(311, 6, 0xc67178f2);
  }

  /** Every round constant is the first 32 bits of the fractional part of the cube root of its prime. */
  lemma ConstantsAreCubeRoots(t: nat)
    requires t < 64
    ensures |K| == |PRIMES| == 64 && FromCubeRoot(K[t], PRIMES[t])
  {
    if t < 16 {
      Row0(); Row1();
      assert K[t] == K0[t] && PRIMES[t] == P0[t];
    } else if t < 32 {
      Row2(); Row3();
      assert K[t] == K1[t - 16] && PRIMES[t] == P1[t - 16];
    } else if t < 48 {
      Row4(); Row5();
      assert K[t] == K2[t - 32] && PRIMES[t] == P2[t - 32];
    } else {
      Row6(); Row7();
      assert K[t] == K3[t - 48] && PRIMES[t] == P3[t - 48];
    }
  }

  /** The initial state: the square roots of the first eight primes. */
  lemma InitialState()
    ensures FromSquareRoot(INIT.a, 2)
    ensures FromSquareRoot(INIT.b, 3)
    ensures FromSquareRoot(INIT.c, 5)
    ensures FromSquareRoot(INIT.d, 7)
    ensures FromSquareRoot(INIT.e, 11)
    ensures FromSquareRoot(INIT.f, 13)
    ensures FromSquareRoot(INIT.g, 17)
    ensures FromSquareRoot(INIT.h, 19)
  {
    assert INIT.a == (0x6A09E667 as Word) as bv32 && SquareRoot(2, 1, 0x6A09E667);
    assert INIT.b == (0xBB67AE85 as Word) as bv32 && SquareRoot(3, 1, 0xBB67AE85);
    assert INIT.c == (0x3C6EF372 as Word) as bv32 && SquareRoot(5, 2, 0x3C6EF372);
    assert INIT.d == (0xA54FF53A as Word) as bv32 && SquareRoot(7, 2, 0xA54FF53A);
    assert INIT.e == (0x510E527F as Word) as bv32 && SquareRoot(11, 3, 0x510E527F);
    assert INIT.f == (0x9B05688C as Word) as bv32 && SquareRoot(13, 3, 0x9B05688C);
    assert INIT.g == (0x1F83D9AB as Word) as bv32 && SquareRoot(17, 4, 0x1F83D9AB);
    assert INIT.h == (0x5BE0CD19 as Word) as bv32 && SquareRoot(19, 4, 0x5BE0CD19);
  }
}
