/** SHA-256 over a stream: any way of cutting the message gives the digest of FIPS 180-4. */
module Sha256Stream {
  import opened Blocks
  import opened Rounds
  import opened Sha256

  /** Section 5.3.3 of FIPS 180-4. */
  const INIT: State<bv32> := State(0x6A09E667, 0xBB67AE85, 0x3C6EF372, 0xA54FF53A,
                                   0x510E527F, 0x9B05688C, 0x1F83D9AB, 0x5BE0CD19)

  const COUNT_MODULUS: nat := 0x1_0000_0000_0000_0000
  const BYTE_MODULUS: nat := 0x2000_0000_0000_0000
  const WORD_MODULUS: nat := 0x1_0000_0000
  const WORD_SIZE: nat := 4
  const LENGTH_SIZE: nat := 8

  lemma CountUsed(count: nat, n: nat)
    requires count == (8 * n) % COUNT_MODULUS
    ensures (count / 8) % 64 == n % 64
  {
    BitsToBytes(n);
    assert count / 8 == n % BYTE_MODULUS;
    BytesModBlock(n);
  }

  lemma BitsToBytes(n: nat)
    ensures (8 * n) % COUNT_MODULUS == 8 * (n % BYTE_MODULUS)
  {
    assert 8 * n == COUNT_MODULUS * (n / BYTE_MODULUS) + 8 * (n % BYTE_MODULUS);
  }

  lemma BytesModBlock(n: nat)
    ensures (n % BYTE_MODULUS) % 64 == n % 64
  {
  }

  lemma CountAdd(count: nat, n: nat, len: nat)
    requires count == (8 * n) % COUNT_MODULUS
    ensures (count + (len * 8) % COUNT_MODULUS) % COUNT_MODULUS == (8 * (n + len)) % COUNT_MODULUS
  {
    assert 8 * (n + len) == 8 * n + len * 8;
    ModularSum(8 * n, len * 8);
  }

  lemma ModularSum(x: nat, y: nat)
    ensures (x % COUNT_MODULUS + y % COUNT_MODULUS) % COUNT_MODULUS == (x + y) % COUNT_MODULUS
  {
    var q, r := x / COUNT_MODULUS, y / COUNT_MODULUS;
    assert x + y == COUNT_MODULUS * (q + r) + (x % COUNT_MODULUS + y % COUNT_MODULUS);
    ModularShift(x % COUNT_MODULUS + y % COUNT_MODULUS, q + r);
  }

  lemma ModularShift(x: nat, q: nat)
    ensures (COUNT_MODULUS * q + x) % COUNT_MODULUS == x % COUNT_MODULUS
  {
  }

  /** Section 5.1.1 of FIPS 180-4. */
  function Padded(msg: seq<bv8>): (r: seq<bv8>)
    ensures |r| % 64 == 0
  {
    PadWith(msg, BeBytes(8 * |msg|, LENGTH_SIZE))
  }

  lemma Powers(k: nat)
    requires k == WORD_SIZE
    ensures Pow256(k) == WORD_MODULUS && Pow256(k + k) == COUNT_MODULUS
  {
    assert Pow256(2) == 65536;
    assert Pow256(4) == 65536 * Pow256(2);
    assert Pow256(6) == 65536 * Pow256(4);
    assert Pow256(8) == 65536 * Pow256(6);
  }

  /** The count written as two words is the length in bits modulo 2^64. */
  lemma LengthBytes(count: nat, n: nat)
    requires count == (8 * n) % COUNT_MODULUS
    ensures BeBytes(count / WORD_MODULUS, WORD_SIZE) + BeBytes(count % WORD_MODULUS, WORD_SIZE) ==
            BeBytes(8 * n, LENGTH_SIZE)
  {
    var k := WORD_SIZE;
    Powers(k);
    LengthBytesOf(count, n, k);
  }

  lemma LengthBytesOf(count: nat, n: nat, k: nat)
    requires count == (8 * n) % COUNT_MODULUS && Pow256(k) == WORD_MODULUS && Pow256(k + k) == COUNT_MODULUS
    ensures BeBytes(count / WORD_MODULUS, k) + BeBytes(count % WORD_MODULUS, k) == BeBytes(8 * n, k + k)
  {
    BeSplits(count % WORD_MODULUS, count / WORD_MODULUS, k, k);
    BeSplits(count, 8 * n / COUNT_MODULUS, k + k, 0);
  }

  ghost predicate CompressAt(f: (State<bv32>, Block) -> State<bv32>, s: State<bv32>, b: Block) {
    f(s, b) == Compress(s, b)
  }

  /** `f` is the block function of SHA-256. */
  ghost predicate IsCompress(f: (State<bv32>, Block) -> State<bv32>) {
    forall s: State<bv32>, b: Block {:trigger CompressAt(f, s, b)} :: CompressAt(f, s, b)
  }

  lemma CompressIsCompress()
    ensures IsCompress(Compress)
  {
    forall s: State<bv32>, b: Block ensures CompressAt(Compress, s, b) { }
  }

  /** A word written most significant byte first. */
  function WordBytes(x: bv32): (r: seq<bv8>)
    ensures |r| == 4
  {
    [((x >> 24) & 0xff) as bv8, ((x >> 16) & 0xff) as bv8, ((x >> 8) & 0xff) as bv8, (x & 0xff) as bv8]
  }

  function Written(s: seq<bv32>): (r: seq<bv8>)
    ensures |r| == 4 * |s|
  {
    if s == [] then [] else Written(s[..|s| - 1]) + WordBytes(s[|s| - 1])
  }

  /** The eight words written one after the other. */
  function Digest(s: State<bv32>): (r: seq<bv8>)
    ensures |r| == 32
  {
    Written([s.a, s.b, s.c, s.d, s.e, s.f, s.g, s.h])
  }

  lemma BytesJoin(x: bv32)
    ensures x == (((x >> 24) & 0xff) as bv8 as bv32 << 24) | (((x >> 16) & 0xff) as bv8 as bv32 << 16) |
                 (((x >> 8) & 0xff) as bv8 as bv32 << 8) | ((x & 0xff) as bv8 as bv32)
  {
  }

  /** A word reads back from its bytes. */
  lemma WordReads(x: bv32)
    ensures Be32(WordBytes(x), 0) == x
  {
    BytesJoin(x);
  }

  lemma InitView(s: seq<bv32>)
    requires s == [0x6A09E667, 0xBB67AE85, 0x3C6EF372, 0xA54FF53A, 0x510E527F, 0x9B05688C, 0x1F83D9AB, 0x5BE0CD19]
    ensures View(s, 0) == INIT
  {
  }

  lemma Regroup(msg: seq<bv8>, d: seq<bv8>, k: nat)
    requires k <= |d|
    ensures (msg + d[..k]) + d[k..] == msg + d
  {
    assert d == d[..k] + d[k..];
  }

  class Sha256Context {
    var count: nat
    const state: array<bv32>
    const buf: array<bv8>
    ghost var msg: seq<bv8>
    ghost const f: (State<bv32>, Block) -> State<bv32>

    /** The state and the buffer, apart from the count. */
    ghost predicate Loaded()
      reads this, state, buf
    {
      && buf.Length == 64 && state.Length == 8 && IsCompress(f)
      && Holds(f, INIT, View(state[..], 0), buf[..], msg)
    }

    /** The context has taken in `msg`. */
    ghost predicate Valid()
      reads this, state, buf
    {
      Loaded() && count == (8 * |msg|) % COUNT_MODULUS
    }

    constructor (ghost f: (State<bv32>, Block) -> State<bv32>)
      requires IsCompress(f)
      ensures Valid() && msg == [] && this.f == f && fresh(state) && fresh(buf)
    {
      count := 0;
      state := new bv32[8][0x6A09E667, 0xBB67AE85, 0x3C6EF372, 0xA54FF53A,
                           0x510E527F, 0x9B05688C, 0x1F83D9AB, 0x5BE0CD19];
      buf := new bv8[64];
      msg := [];
      this.f := f;
      new;
      InitView(state[..]);
      HoldsNothing(f, INIT, buf[..]);
    }

    /** Puts bytes in the buffer, after the `r` ones, that do not complete a block. */
    method Keep(r: nat, d: seq<bv8>)
      requires Loaded() && r == |msg| % 64 && r + |d| < 64
      modifies this`msg, buf
      ensures Loaded() && msg == old(msg) + d
    {
      ghost var was := buf[..];
      CopyInto(buf, r, d);
      assert buf[..r + |d|] == was[..r] + d;
      HoldsPart(f, INIT, View(state[..], 0), was, msg, d, buf[..]);
      msg := msg + d;
    }

    /** Completes the block in the buffer and compresses it. */
    method Complete(r: nat, d: seq<bv8>)
      requires Loaded() && r == |msg| % 64 && r + |d| == 64
      modifies this`msg, state, buf
      ensures Loaded() && msg == old(msg) + d && |msg| % 64 == 0
    {
      ghost var was, s := buf[..], View(state[..], 0);
      CopyInto(buf, r, d);
      assert buf[..] == was[..r] + d;
      HoldsFull(f, INIT, s, was, msg, d, buf[..]);
      assert CompressAt(f, s, buf[..]);
      TransformBlock(state, buf[..]);
      msg := msg + d;
    }

    /** Compresses one block of the caller's data. */
    method TakeBlock(d: Block)
      requires Loaded() && |msg| % 64 == 0
      modifies this`msg, state
      ensures Loaded() && msg == old(msg) + d && |msg| % 64 == 0
    {
      ghost var s := View(state[..], 0);
      HoldsFull(f, INIT, s, buf[..], msg, d, buf[..]);
      assert buf[..][..0] + d == d;
      assert CompressAt(f, s, d);
      TransformBlock(state, d);
      msg := msg + d;
    }

    method Take(r: nat, data: seq<bv8>)
      requires Loaded() && r == |msg| % 64
      modifies this`msg, state, buf
      ensures Loaded() && msg == old(msg) + data
    {
      if |data| < 64 - r {
        Keep(r, data);
        return;
      }
      Complete(r, data[..64 - r]);
      Regroup(old(msg), data, 64 - r);
      TakeAligned(data[64 - r..]);
    }

    /** Data that starts a block: whole blocks are compressed, what is left is kept. */
    method TakeAligned(data: seq<bv8>)
      requires Loaded() && |msg| % 64 == 0
      modifies this`msg, state, buf
      ensures Loaded() && msg == old(msg) + data
    {
      var src := data;
      while |src| >= 64
        invariant Loaded() && |msg| % 64 == 0 && msg + src == old(msg) + data
      {
        Regroup(msg, src, 64);
        TakeBlock(src[..64]);
        src := src[64..];
      }
      Keep(0, src);
    }

    method AddCount(len: nat)
      requires count == (8 * |msg|) % COUNT_MODULUS
      modifies this`count
      ensures count == (8 * (|msg| + len)) % COUNT_MODULUS
    {
      CountAdd(count, |msg|, len);
      var bitlen := (len * 8) % COUNT_MODULUS;
      count := (count + bitlen) % COUNT_MODULUS;
    }

    /** Takes in more data: whatever was taken in before, the message grows by it. */
    method Update(data: seq<bv8>)
      requires Valid()
      modifies this, state, buf
      ensures Valid() && msg == old(msg) + data
    {
      var r := (count / 8) % 64;
      CountUsed(count, |msg|);
      AddCount(|data|);
      Take(r, data);
    }

    /** Pads the message and compresses the last block or two. */
    method Pad()
      requires Valid()
      modifies this, state, buf
      ensures View(state[..], 0) == Fold(f, INIT, Padded(old(msg)))
    {
      var r := (count / 8) % 64;
      CountUsed(count, |msg|);
      LengthBytes(count, |msg|);
      var length := BeBytes(count / WORD_MODULUS, WORD_SIZE) + BeBytes(count % WORD_MODULUS, WORD_SIZE);
      PadLong(msg, r, length);
      PadShort(msg, r, length);
      if r < 56 {
        Complete(r, [0x80] + Zeros(55 - r) + length);
      } else {
        Complete(r, [0x80] + Zeros(63 - r));
        Complete(0, Zeros(56) + length);
      }
      AllWhole(msg);
    }

    method Final() returns (digest: seq<bv8>)
      requires Valid()
      modifies this, state, buf
      ensures digest == Digest(Fold(f, INIT, Padded(old(msg))))
    {
      Pad();
      digest := Encode(state);
    }
  }

  /** A fresh context takes in the pieces. */
  method TakeAll(ctx: Sha256Context, chunks: seq<seq<bv8>>)
    requires ctx.Valid() && ctx.msg == []
    modifies ctx, ctx.state, ctx.buf
    ensures ctx.Valid() && ctx.msg == Concat(chunks)
  {
    for i := 0 to |chunks|
      invariant ctx.Valid() && ctx.msg == Concat(chunks[..i])
    {
      ctx.Update(chunks[i]);
      assert chunks[..i + 1][..i] == chunks[..i];
    }
    assert chunks[..|chunks|] == chunks;
  }

  /** The digest of a file read in pieces, whatever the pieces. */
  method Sha256Sum(chunks: seq<seq<bv8>>) returns (r: seq<bv8>)
    ensures r == Digest(Fold(Compress, INIT, Padded(Concat(chunks))))
  {
    CompressIsCompress();
    var ctx := new Sha256Context(Compress);
    TakeAll(ctx, chunks);
    r := ctx.Final();
  }

  /** The state words written out in order. */
  method Encode(state: array<bv32>) returns (r: seq<bv8>)
    requires state.Length == 8
    ensures r == Digest(View(state[..], 0))
  {
    r := [];
    for i := 0 to 8
      invariant r == Written(state[..i])
    {
      r := r + WordBytes(state[i]);
      assert state[..i + 1][..i] == state[..i];
    }
    assert state[..8] == state[..];
    ViewAll(state[..]);
  }

  lemma ViewAll(s: seq<bv32>)
    requires |s| == 8
    ensures var v := View(s, 0); s == [v.a, v.b, v.c, v.d, v.e, v.f, v.g, v.h]
  {
  }
}
