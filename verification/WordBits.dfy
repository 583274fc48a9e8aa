/** Words of 32 bits: the rotations and mixing functions of the two digests, and what they do to each bit. */
module WordBits {

  /** How far a word is rotated, and the number of a bit. */
  type Shift = n: bv6 | 0 < n < 32 witness 1
  type Index = j: bv6 | j < 32

  function Rotr(x: bv32, n: Shift): bv32 { (x >> n) | (x << (32 - n)) }
  function Rotl(x: bv32, n: Shift): bv32 { (x << n) | (x >> (32 - n)) }

  // Section 4.1.2 of FIPS 180-4
  function Sum0(x: bv32): bv32 { Rotr(x, 2) ^ Rotr(x, 13) ^ Rotr(x, 22) }
  function Sum1(x: bv32): bv32 { Rotr(x, 6) ^ Rotr(x, 11) ^ Rotr(x, 25) }
  function Sigma0(x: bv32): bv32 { Rotr(x, 7) ^ Rotr(x, 18) ^ (x >> 3) }
  function Sigma1(x: bv32): bv32 { Rotr(x, 17) ^ Rotr(x, 19) ^ (x >> 10) }
  function Ch(x: bv32, y: bv32, z: bv32): bv32 { (x & y) ^ (!x & z) }
  function Maj(x: bv32, y: bv32, z: bv32): bv32 { (x & y) ^ (x & z) ^ (y & z) }

  // ----- bit by bit -----

  /** Bit `j`, 0 or 1; bit 0 is the least significant. */
  function Bit(x: bv32, j: Index): bv32 { (x >> j) & 1 }

  function Turned(j: Index, n: Shift): Index { (j + n) % 32 }

  lemma TurnRight(x: bv32, n: bv6, j: bv6)
    requires 0 < n < 32 && j < 32
    ensures (((x >> n) | (x << (32 - n))) >> j) & 1 == (x >> ((j + n) % 32)) & 1
  {}

  lemma TurnLeft(x: bv32, n: bv6, j: bv6)
    requires 0 < n < 32 && j < 32
    ensures (((x << n) | (x >> (32 - n))) >> ((j + n) % 32)) & 1 == (x >> j) & 1
  {}

  /** Rotating right by `n` brings bit j + n, counted modulo 32, to bit `j`. */
  lemma RotrBits(x: bv32, n: Shift, j: Index)
    ensures Bit(Rotr(x, n), j) == Bit(x, Turned(j, n))
  {
    calc {
      Bit(Rotr(x, n), j);
      (Rotr(x, n) >> j) & 1;
      (((x >> n) | (x << (32 - n))) >> j) & 1;
      { TurnRight(x, n, j); }
      (x >> ((j + n) % 32)) & 1;
      (x >> Turned(j, n)) & 1;
      Bit(x, Turned(j, n));
    }
  }

  /** Rotating left by `n` brings bit `j` to bit j + n, counted modulo 32. */
  lemma RotlBits(x: bv32, n: Shift, j: Index)
    ensures Bit(Rotl(x, n), Turned(j, n)) == Bit(x, j)
  {
    calc {
      Bit(Rotl(x, n), Turned(j, n));
      (Rotl(x, n) >> Turned(j, n)) & 1;
      (((x << n) | (x >> (32 - n))) >> ((j + n) % 32)) & 1;
      { TurnLeft(x, n, j); }
      (x >> j) & 1;
      Bit(x, j);
    }
  }

  /** The bit that a shift by `n` brings to bit `j`: zeros come in. */
  function ShiftedIn(x: bv32, n: Shift, j: Index): bv32 { if j + n < 32 then Bit(x, j + n) else 0 }

  lemma Sum0At(x: bv32, j: bv6)
    requires j < 32
    ensures ((((x >> 2) | (x << 30)) ^ ((x >> 13) | (x << 19)) ^ ((x >> 22) | (x << 10))) >> j) & 1 ==
            ((x >> ((j + 2) % 32)) & 1) ^ ((x >> ((j + 13) % 32)) & 1) ^ ((x >> ((j + 22) % 32)) & 1)
  {}

  /** Each bit of a sum is the exclusive or of three bits of the word. */
  lemma Sum0Bits(x: bv32, j: Index)
    ensures Bit(Sum0(x), j) == Bit(x, Turned(j, 2)) ^ Bit(x, Turned(j, 13)) ^ Bit(x, Turned(j, 22))
  {
    calc {
      Bit(Sum0(x), j);
      (Sum0(x) >> j) & 1;
      ((Rotr(x, 2) ^ Rotr(x, 13) ^ Rotr(x, 22)) >> j) & 1;
      ((((x >> 2) | (x << 30)) ^ ((x >> 13) | (x << 19)) ^ ((x >> 22) | (x << 10))) >> j) & 1;
      { Sum0At(x, j); }
      ((x >> ((j + 2) % 32)) & 1) ^ ((x >> ((j + 13) % 32)) & 1) ^ ((x >> ((j + 22) % 32)) & 1);
      Bit(x, Turned(j, 2)) ^ Bit(x, Turned(j, 13)) ^ Bit(x, Turned(j, 22));
    }
  }

  lemma Sum1At(x: bv32, j: bv6)
    requires j < 32
    ensures ((((x >> 6) | (x << 26)) ^ ((x >> 11) | (x << 21)) ^ ((x >> 25) | (x << 7))) >> j) & 1 ==
            ((x >> ((j + 6) % 32)) & 1) ^ ((x >> ((j + 11) % 32)) & 1) ^ ((x >> ((j + 25) % 32)) & 1)
  {}

  lemma Sum1Bits(x: bv32, j: Index)
    ensures Bit(Sum1(x), j) == Bit(x, Turned(j, 6)) ^ Bit(x, Turned(j, 11)) ^ Bit(x, Turned(j, 25))
  {
    calc {
      Bit(Sum1(x), j);
      (Sum1(x) >> j) & 1;
      ((Rotr(x, 6) ^ Rotr(x, 11) ^ Rotr(x, 25)) >> j) & 1;
      ((((x >> 6) | (x << 26)) ^ ((x >> 11) | (x << 21)) ^ ((x >> 25) | (x << 7))) >> j) & 1;
      { Sum1At(x, j); }
      ((x >> ((j + 6) % 32)) & 1) ^ ((x >> ((j + 11) % 32)) & 1) ^ ((x >> ((j + 25) % 32)) & 1);
      Bit(x, Turned(j, 6)) ^ Bit(x, Turned(j, 11)) ^ Bit(x, Turned(j, 25));
    }
  }

  lemma Sigma0At(x: bv32, j: bv6)
    requires j < 32
    ensures ((((x >> 7) | (x << 25)) ^ ((x >> 18) | (x << 14)) ^ (x >> 3)) >> j) & 1 ==
            ((x >> ((j + 7) % 32)) & 1) ^ ((x >> ((j + 18) % 32)) & 1) ^ (if j + 3 < 32 then (x >> (j + 3)) & 1 else 0)
  {}

  /** In the other two, zeros come in for the third. */
  lemma Sigma0Bits(x: bv32, j: Index)
    ensures Bit(Sigma0(x), j) == Bit(x, Turned(j, 7)) ^ Bit(x, Turned(j, 18)) ^ ShiftedIn(x, 3, j)
  {
    calc {
      Bit(Sigma0(x), j);
      (Sigma0(x) >> j) & 1;
      ((Rotr(x, 7) ^ Rotr(x, 18) ^ (x >> 3)) >> j) & 1;
      ((((x >> 7) | (x << 25)) ^ ((x >> 18) | (x << 14)) ^ (x >> 3)) >> j) & 1;
      { Sigma0At(x, j); }
      ((x >> ((j + 7) % 32)) & 1) ^ ((x >> ((j + 18) % 32)) & 1) ^ (if j + 3 < 32 then (x >> (j + 3)) & 1 else 0);
      Bit(x, Turned(j, 7)) ^ Bit(x, Turned(j, 18)) ^ ShiftedIn(x, 3, j);
    }
  }

  lemma Sigma1At(x: bv32, j: bv6)
    requires j < 32
    ensures ((((x >> 17) | (x << 15)) ^ ((x >> 19) | (x << 13)) ^ (x >> 10)) >> j) & 1 ==
            ((x >> ((j + 17) % 32)) & 1) ^ ((x >> ((j + 19) % 32)) & 1) ^ (if j + 10 < 32 then (x >> (j + 10)) & 1 else 0)
  {}

  lemma Sigma1Bits(x: bv32, j: Index)
    ensures Bit(Sigma1(x), j) == Bit(x, Turned(j, 17)) ^ Bit(x, Turned(j, 19)) ^ ShiftedIn(x, 10, j)
  {
    calc {
      Bit(Sigma1(x), j);
      (Sigma1(x) >> j) & 1;
      ((Rotr(x, 17) ^ Rotr(x, 19) ^ (x >> 10)) >> j) & 1;
      ((((x >> 17) | (x << 15)) ^ ((x >> 19) | (x << 13)) ^ (x >> 10)) >> j) & 1;
      { Sigma1At(x, j); }
      ((x >> ((j + 17) % 32)) & 1) ^ ((x >> ((j + 19) % 32)) & 1) ^ (if j + 10 < 32 then (x >> (j + 10)) & 1 else 0);
      Bit(x, Turned(j, 17)) ^ Bit(x, Turned(j, 19)) ^ ShiftedIn(x, 10, j);
    }
  }

  // ----- whole words -----

  lemma ChooseForms(x: bv32, y: bv32, z: bv32)
    ensures ((x & y) ^ (!x & z)) & x == y & x && ((x & y) ^ (!x & z)) & !x == z & !x
  {}

  /** Ch has the bits of `y` where `x` has ones, and those of `z` where it has zeros. */
  lemma ChChooses(x: bv32, y: bv32, z: bv32)
    ensures Ch(x, y, z) & x == y & x && Ch(x, y, z) & !x == z & !x
  {
    ChooseForms(x, y, z);
  }

  lemma MajorityForms(x: bv32, y: bv32, z: bv32)
    ensures ((x & y) ^ (x & z) ^ (y & z)) & !(x ^ y) == x & !(x ^ y)
    ensures ((x & y) ^ (x & z) ^ (y & z)) & (x ^ y) == z & (x ^ y)
  {}

  /** Maj has the bits on which `x` and `y` agree, and those of `z` elsewhere. */
  lemma MajIsMajority(x: bv32, y: bv32, z: bv32)
    ensures Maj(x, y, z) & !(x ^ y) == x & !(x ^ y) && Maj(x, y, z) & (x ^ y) == z & (x ^ y)
  {
    MajorityForms(x, y, z);
  }

  // ----- as numbers -----

  /** The quotient by `p`, and `q` times the remainder. */
  predicate Split(x: bv32, r: bv32, p: bv32, q: bv32)
    requires p != 0
  {
    r == x / p + (x % p) * q
  }

  lemma Rotr2(x: bv32)
    ensures Split(x, Rotr(x, 2), 0x4, 0x40000000)
  {}

  lemma Rotr6(x: bv32)
    ensures Split(x, Rotr(x, 6), 0x40, 0x4000000)
  {}

  lemma Rotr7(x: bv32)
    ensures Split(x, Rotr(x, 7), 0x80, 0x2000000)
  {}

  lemma Rotr11(x: bv32)
    ensures Split(x, Rotr(x, 11), 0x800, 0x200000)
  {}

  lemma Rotr13(x: bv32)
    ensures Split(x, Rotr(x, 13), 0x2000, 0x80000)
  {}

  lemma Rotr17(x: bv32)
    ensures Split(x, Rotr(x, 17), 0x20000, 0x8000)
  {}

  lemma Rotr18(x: bv32)
    ensures Split(x, Rotr(x, 18), 0x40000, 0x4000)
  {}

  lemma Rotr19(x: bv32)
    ensures Split(x, Rotr(x, 19), 0x80000, 0x2000)
  {}

  lemma Rotr22(x: bv32)
    ensures Split(x, Rotr(x, 22), 0x400000, 0x400)
  {}

  lemma Rotr25(x: bv32)
    ensures Split(x, Rotr(x, 25), 0x2000000, 0x80)
  {}

  /** Rotating by n moves the remainder by 2^n to the top, for every distance that SHA-256 rotates by. */
  lemma RotrNumbers(x: bv32)
    ensures Split(x, Rotr(x, 2), 0x4, 0x40000000)
    ensures Split(x, Rotr(x, 6), 0x40, 0x4000000)
    ensures Split(x, Rotr(x, 7), 0x80, 0x2000000)
    ensures Split(x, Rotr(x, 11), 0x800, 0x200000)
    ensures Split(x, Rotr(x, 13), 0x2000, 0x80000)
    ensures Split(x, Rotr(x, 17), 0x20000, 0x8000)
    ensures Split(x, Rotr(x, 18), 0x40000, 0x4000)
    ensures Split(x, Rotr(x, 19), 0x80000, 0x2000)
    ensures Split(x, Rotr(x, 22), 0x400000, 0x400)
    ensures Split(x, Rotr(x, 25), 0x2000000, 0x80)
  {
    Rotr2(x); Rotr6(x); Rotr7(x); Rotr11(x); Rotr13(x); Rotr17(x); Rotr18(x); Rotr19(x); Rotr22(x); Rotr25(x);
  }
}
