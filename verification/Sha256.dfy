/** The SHA-256 compression function on bytes, with the functions and constants of FIPS 180-4. */
module Sha256 {
  import opened Blocks
  import opened Rounds
  import opened WordBits

  function Plus(x: bv32, y: bv32): bv32 { x + y }

  // the forms the program computes
  function ChMacro(x: bv32, y: bv32, z: bv32): bv32 { (x & (y ^ z)) ^ z }
  function MajMacro(x: bv32, y: bv32, z: bv32): bv32 { (x & (y | z)) | (y & z) }

  const OPS: Ops<bv32> := Ops(Plus, Sum0, Sum1, Sigma0, Sigma1, Ch, Maj, ChMacro, MajMacro)

  // Section 4.2.2 of FIPS 180-4
  const K0: seq<bv32> := [
    0x428a2f98, 0x71374491, 0xb5c0fbcf, 0xe9b5dba5, 0x3956c25b, 0x59f111f1, 0x923f82a4, 0xab1c5ed5,
    0xd807aa98, 0x12835b01, 0x243185be, 0x550c7dc3, 0x72be5d74, 0x80deb1fe, 0x9bdc06a7, 0xc19bf174
  ]

  const K1: seq<bv32> := [
    0xe49b69c1, 0xefbe4786, 0x0fc19dc6, 0x240ca1cc, 0x2de92c6f, 0x4a7484aa, 0x5cb0a9dc, 0x76f988da,
    0x983e5152, 0xa831c66d, 0xb00327c8, 0xbf597fc7, 0xc6e00bf3, 0xd5a79147, 0x06ca6351, 0x14292967
  ]

  const K2: seq<bv32> := [
    0x27b70a85, 0x2e1b2138, 0x4d2c6dfc, 0x53380d13, 0x650a7354, 0x766a0abb, 0x81c2c92e, 0x92722c85,
    0xa2bfe8a1, 0xa81a664b, 0xc24b8b70, 0xc76c51a3, 0xd192e819, 0xd6990624, 0xf40e3585, 0x106aa070
  ]

  const K3: seq<bv32> := [
    0x19a4c116, 0x1e376c08, 0x2748774c, 0x34b0bcb5, 0x391c0cb3, 0x4ed8aa4a, 0x5b9cca4f, 0x682e6ff3,
    0x748f82ee, 0x78a5636f, 0x84c87814, 0x8cc70208, 0x90befffa, 0xa4506ceb, 0xbef9a3f7, 0xc67178f2
  ]

  const K: seq<bv32> := K0 + K1 + K2 + K3

  lemma ChForms(x: bv32, y: bv32, z: bv32)
    ensures (x & (y ^ z)) ^ z == (x & y) ^ (!x & z)
  {
  }

  lemma MajForms(x: bv32, y: bv32, z: bv32)
    ensures (x & (y | z)) | (y & z) == (x & y) ^ (x & z) ^ (y & z)
  {
  }

  lemma MacrosAgree(x: bv32, y: bv32, z: bv32)
    ensures ChMacro(x, y, z) == Ch(x, y, z) && MajMacro(x, y, z) == Maj(x, y, z)
  {
    ChForms(x, y, z);
    MajForms(x, y, z);
  }

  lemma SumsRegroup(x: bv32, y: bv32, z: bv32)
    ensures x + (y + z) == (x + y) + z && (x + y) + z == (x + z) + y
  {
  }

  lemma PlusAssociates(x: bv32, y: bv32, z: bv32)
    ensures Plus(x, Plus(y, z)) == Plus(Plus(x, y), z)
  {
    calc {
      Plus(x, Plus(y, z));
      x + Plus(y, z);
      x + (y + z);
      { SumsRegroup(x, y, z); }
      (x + y) + z;
      Plus(x, y) + z;
      Plus(Plus(x, y), z);
    }
  }

  lemma PlusCommutes(x: bv32, y: bv32, z: bv32)
    ensures Plus(Plus(x, y), z) == Plus(Plus(x, z), y)
  {
    calc {
      Plus(Plus(x, y), z);
      Plus(x, y) + z;
      (x + y) + z;
      { SumsRegroup(x, y, z); }
      (x + z) + y;
      Plus(x, z) + y;
      Plus(Plus(x, z), y);
    }
  }

  /** The macros compute the functions of the standard, and sums may be regrouped. */
  lemma OpsSound()
    ensures Sound(OPS)
  {
    forall x, y, z ensures RegroupAt(OPS, x, y, z) {
      PlusAssociates(x, y, z);
      PlusCommutes(x, y, z);
    }
    forall x, y, z ensures FormsAt(OPS, x, y, z) { MacrosAgree(x, y, z); }
  }

  /** Four bytes, most significant first. */
  function Be32(b: seq<bv8>, i: nat): bv32
    requires i + 4 <= |b|
  {
    (b[i] as bv32 << 24) | (b[i + 1] as bv32 << 16) | (b[i + 2] as bv32 << 8) | (b[i + 3] as bv32)
  }

  function Words(block: seq<bv8>): (r: seq<bv32>)
    requires |block| == 64
    ensures |r| == 16
  {
    seq(16, i requires 0 <= i < 16 => Be32(block, 4 * i))
  }

  /** Section 6.2.2 of FIPS 180-4. */
  function Compress(s: State<bv32>, block: Block): State<bv32> {
    Compressed(OPS, K, s, Words(block))
  }

  function Be16Dec(x: bv8, y: bv8): bv16 { (x as bv16 << 8) | (y as bv16) }

  lemma HalvesJoin(x: bv8, y: bv8, z: bv8, w: bv8)
    ensures (((x as bv16 << 8) | (y as bv16)) as bv32 << 16) | (((z as bv16 << 8) | (w as bv16)) as bv32) ==
            (x as bv32 << 24) | (y as bv32 << 16) | (z as bv32 << 8) | (w as bv32)
  {
  }

  method Decode(block: Block) returns (r: seq<bv32>)
    ensures r == Words(block)
  {
    r := [];
    for i := 0 to 16
      invariant r == Words(block)[..i]
    {
      var x, y, z, w := block[4 * i], block[4 * i + 1], block[4 * i + 2], block[4 * i + 3];
      HalvesJoin(x, y, z, w);
      r := r + [(Be16Dec(x, y) as bv32 << 16) | (Be16Dec(z, w) as bv32)];
    }
  }

  method TransformBlock(state: array<bv32>, block: Block)
    requires state.Length == 8
    modifies state
    ensures View(state[..], 0) == Compress(old(View(state[..], 0)), block)
  {
    OpsSound();
    var words := Decode(block);
    Transform(OPS, K, state, words);
  }
}
