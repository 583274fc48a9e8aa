/** MD5 over a stream: any way of cutting the message gives the digest of RFC 1321. */
module Md5Stream {
  import opened Blocks
  import opened Md5

  const INIT: Quad := Quad(0x67452301, 0xefcdab89, 0x98badcfe, 0x10325476)

  const LO_MODULUS: nat := 0x2000_0000
  const HI_MODULUS: nat := 0x1_0000_0000
  const COUNT_MODULUS: nat := 0x2000_0000_0000_0000

  const COUNTER_SIZE: nat := 4
  const LENGTH_SIZE: nat := 8

  /** The two counters give the number of bytes modulo 2^61. */
  predicate Counts(lo: nat, hi: nat, n: nat) {
    lo < LO_MODULUS && hi < HI_MODULUS && hi * LO_MODULUS + lo == n % COUNT_MODULUS
  }

  lemma CountsUsed(lo: nat, hi: nat, n: nat)
    requires Counts(lo, hi, n)
    ensures lo % 64 == n % 64
  {
    assert (hi * LO_MODULUS + lo) % 64 == lo % 64;
    WrappedModBlock(n);
  }

  lemma WrappedModBlock(n: nat)
    ensures (n % COUNT_MODULUS) % 64 == n % 64
  {
  }

  lemma Carry(lo: nat, size: nat, lo': nat)
    requires lo < LO_MODULUS && lo' == (lo + size) % LO_MODULUS
    ensures lo + size == (size / LO_MODULUS + if lo' < lo then 1 else 0) * LO_MODULUS + lo'
  {
  }

  lemma CarryWraps(hi: nat, carry: nat, more: nat)
    ensures ((hi + carry) % HI_MODULUS + more) % HI_MODULUS == (hi + carry + more) % HI_MODULUS
  {
  }

  lemma ModularSum(n: nat, size: nat)
    ensures (n % COUNT_MODULUS + size) % COUNT_MODULUS == (n + size) % COUNT_MODULUS
  {
  }

  /** The carry out of the low counter, found by comparing, is the right one. */
  lemma CountsAdd(lo: nat, hi: nat, n: nat, size: nat, lo': nat, hi': nat)
    requires Counts(lo, hi, n)
    requires lo' == (lo + size) % LO_MODULUS
    requires hi' == ((if lo' < lo then (hi + 1) % HI_MODULUS else hi) + size / LO_MODULUS) % HI_MODULUS
    ensures Counts(lo', hi', n + size)
  {
    var carry := if lo' < lo then 1 else 0;
    Carry(lo, size, lo');
    CarryWraps(hi, carry, size / LO_MODULUS);
    var h := hi + carry + size / LO_MODULUS;
    assert h * LO_MODULUS + lo' == hi * LO_MODULUS + lo + size;
    ModularSum(n, size);
    HighPart(h, lo');
  }

  lemma HighPart(h: nat, lo: nat)
    requires lo < LO_MODULUS
    ensures (h * LO_MODULUS + lo) % COUNT_MODULUS == (h % HI_MODULUS) * LO_MODULUS + lo
  {
  }

  ghost predicate CompressAt(f: (Quad, Block) -> Quad, q: Quad, b: Block) { f(q, b) == Compress(q, b) }

  /** `f` is the block function of MD5. */
  ghost predicate IsCompress(f: (Quad, Block) -> Quad) {
    forall q: Quad, b: Block {:trigger CompressAt(f, q, b)} :: CompressAt(f, q, b)
  }

  lemma CompressIsCompress()
    ensures IsCompress(Compress)
  {
    forall q: Quad, b: Block ensures CompressAt(Compress, q, b) { }
  }

  /** A word written least significant byte first. */
  function WordBytes(x: bv32): (r: seq<bv8>)
    ensures |r| == 4
  {
    [(x & 0xff) as bv8, ((x >> 8) & 0xff) as bv8, ((x >> 16) & 0xff) as bv8, ((x >> 24) & 0xff) as bv8]
  }

  /** Section 3.5 of RFC 1321. */
  function Digest(q: Quad): (r: seq<bv8>)
    ensures |r| == 16
  {
    WordBytes(q.a) + WordBytes(q.b) + WordBytes(q.c) + WordBytes(q.d)
  }

  lemma BytesJoin(x: bv32)
    ensures x == ((x & 0xff) as bv8 as bv32) | (((x >> 8) & 0xff) as bv8 as bv32 << 8) |
                 (((x >> 16) & 0xff) as bv8 as bv32 << 16) | (((x >> 24) & 0xff) as bv8 as bv32 << 24)
  {
  }

  /** The digest determines the four words. */
  lemma DigestReads(q: Quad)
    ensures var r := Digest(q); q == Quad(Le32(r, 0), Le32(r, 4), Le32(r, 8), Le32(r, 12))
  {
    BytesJoin(q.a);
    BytesJoin(q.b);
    BytesJoin(q.c);
    BytesJoin(q.d);
  }

  class Md5Context {
    var lo: nat
    var hi: nat
    var q: Quad
    const buffer: array<bv8>
    ghost var msg: seq<bv8>
    ghost const f: (Quad, Block) -> Quad

    /** The context has taken in `msg`. */
    ghost predicate Valid()
      reads this, buffer
    {
      && buffer.Length == 64 && IsCompress(f)
      && Counts(lo, hi, |msg|) && Holds(f, INIT, q, buffer[..], msg)
    }

    constructor (ghost f: (Quad, Block) -> Quad)
      requires IsCompress(f)
      ensures Valid() && msg == [] && this.f == f && fresh(buffer)
    {
      lo, hi, q := 0, 0, INIT;
      buffer := new bv8[64];
      msg := [];
      this.f := f;
    }

    method BodyBlock(block: Block)
      requires IsCompress(f)
      modifies this`q
      ensures q == f(old(q), block)
    {
      assert CompressAt(f, q, block);
      q := TransformBlock(q, block);
    }

    /** Compresses one or more whole blocks. */
    method Body(data: seq<bv8>)
      requires IsCompress(f) && data != [] && |data| % 64 == 0
      modifies this`q
      ensures q == Fold(f, old(q), data)
    {
      var i := 0;
      while i < |data|
        invariant 0 <= i <= |data| && i % 64 == 0
        invariant Fold(f, old(q), data) == Fold(f, q, data[i..])
      {
        FoldNext(f, q, data, i);
        BodyBlock(data[i..i + 64]);
        i := i + 64;
      }
    }

    method Count(size: nat)
      requires Counts(lo, hi, |msg|)
      modifies this`lo, this`hi
      ensures Counts(lo, hi, |msg| + size)
    {
      var savedLo, savedHi := lo, hi;
      lo := (savedLo + size) % LO_MODULUS;
      if lo < savedLo {
        hi := (hi + 1) % HI_MODULUS;
      }
      hi := (hi + size / LO_MODULUS) % HI_MODULUS;
      CountsAdd(savedLo, savedHi, |msg|, size, lo, hi);
    }

    /** The state and the buffer, apart from the counters. */
    ghost predicate Loaded()
      reads this, buffer
    {
      buffer.Length == 64 && IsCompress(f) && Holds(f, INIT, q, buffer[..], msg)
    }

    /** Puts bytes in the buffer, after the `used` ones, that do not complete a block. */
    method Keep(used: nat, d: seq<bv8>)
      requires Loaded() && used == |msg| % 64 && used + |d| < 64
      modifies this`msg, buffer
      ensures Loaded() && msg == old(msg) + d
    {
      ghost var was := buffer[..];
      CopyInto(buffer, used, d);
      assert buffer[..used + |d|] == was[..used] + d;
      HoldsPart(f, INIT, q, was, msg, d, buffer[..]);
      msg := msg + d;
    }

    /** Completes the block in the buffer and compresses it. */
    method Complete(used: nat, d: seq<bv8>)
      requires Loaded() && used == |msg| % 64 && used + |d| == 64
      modifies this`q, this`msg, buffer
      ensures Loaded() && msg == old(msg) + d && |msg| % 64 == 0
    {
      ghost var was := buffer[..];
      CopyInto(buffer, used, d);
      assert buffer[..] == was[..used] + d;
      HoldsFull(f, INIT, q, was, msg, d, buffer[..]);
      FoldOne(f, q, buffer[..]);
      Body(buffer[..]);
      msg := msg + d;
    }

    /** Compresses whole blocks of the caller's data. */
    method TakeBlocks(d: seq<bv8>)
      requires Loaded() && |msg| % 64 == 0 && d != [] && |d| % 64 == 0
      modifies this`q, this`msg
      ensures Loaded() && msg == old(msg) + d && |msg| % 64 == 0
    {
      ghost var was := q;
      Body(d);
      HoldsBlocks(f, INIT, was, buffer[..], msg, d, q);
      msg := msg + d;
    }

    /** Data that starts a block: whole blocks are compressed, what is left is kept. */
    method TakeAligned(data: seq<bv8>)
      requires Loaded() && |msg| % 64 == 0
      modifies this`q, this`msg, buffer
      ensures Loaded() && msg == old(msg) + data
    {
      var n := |data| - |data| % 64;
      assert data == data[..n] + data[n..];
      if |data| >= 64 {
        TakeBlocks(data[..n]);
        assert msg + data[n..] == old(msg) + data;
      }
      Keep(0, data[n..]);
    }

    method Take(used: nat, data: seq<bv8>)
      requires Loaded() && used == |msg| % 64
      modifies this`q, this`msg, buffer
      ensures Loaded() && msg == old(msg) + data
    {
      var rest := data;
      if used > 0 {
        var available := 64 - used;
        if |data| < available {
          Keep(used, data);
          return;
        }
        Complete(used, data[..available]);
        rest := data[available..];
        assert data == data[..available] + rest;
        assert msg + rest == old(msg) + data;
      }
      TakeAligned(rest);
    }

    /** Takes in more data: whatever was taken in before, the message grows by it. */
    method Hash(data: seq<bv8>)
      requires Valid()
      modifies this, buffer
      ensures Valid() && msg == old(msg) + data
    {
      var used := lo % 64;
      CountsUsed(lo, hi, |msg|);
      Count(|data|);
      Take(used, data);
    }

    /** Pads the message, compresses the last block or two and writes the digest. */
    method End() returns (result: seq<bv8>)
      requires Valid()
      modifies this, buffer
      ensures result == Digest(Fold(f, INIT, Padded(old(msg))))
    {
      var used := lo % 64;
      CountsUsed(lo, hi, |msg|);
      LengthBytes(lo, hi, |msg|);
      var bits := (lo * 8) % HI_MODULUS;
      var length := LeBytes(bits, COUNTER_SIZE) + LeBytes(hi, COUNTER_SIZE);
      var available := 63 - used;
      PadLong(msg, used, length);
      PadShort(msg, used, length);
      if available < 8 {
        Complete(used, [0x80] + Zeros(available));
        Complete(0, Zeros(56) + length);
      } else {
        Complete(used, [0x80] + Zeros(available - 8) + length);
      }
      AllWhole(msg);
      result := Digest(q);
    }
  }

  /** Sections 3.1 and 3.2 of RFC 1321. */
  function Padded(msg: seq<bv8>): (r: seq<bv8>)
    ensures |r| % 64 == 0
  {
    PadWith(msg, LeBytes(8 * |msg|, LENGTH_SIZE))
  }

  lemma Powers(k: nat)
    requires k == COUNTER_SIZE
    ensures Pow256(k) == HI_MODULUS && Pow256(k + k) == 8 * COUNT_MODULUS
  {
    assert Pow256(2) == 65536;
    assert Pow256(4) == 65536 * Pow256(2);
    assert Pow256(6) == 65536 * Pow256(4);
    assert Pow256(8) == 65536 * Pow256(6);
  }

  /** The two counters written out are the length in bits modulo 2^64. */
  lemma LengthBytes(lo: nat, hi: nat, n: nat)
    requires Counts(lo, hi, n)
    ensures LeBytes((lo * 8) % HI_MODULUS, COUNTER_SIZE) + LeBytes(hi, COUNTER_SIZE) == LeBytes(8 * n, LENGTH_SIZE)
  {
    var k := COUNTER_SIZE;
    Powers(k);
    LengthBytesOf(lo, hi, n, k);
  }

  lemma LengthBytesOf(lo: nat, hi: nat, n: nat, k: nat)
    requires Counts(lo, hi, n) && Pow256(k) == HI_MODULUS && Pow256(k + k) == 8 * COUNT_MODULUS
    ensures LeBytes((lo * 8) % HI_MODULUS, k) + LeBytes(hi, k) == LeBytes(8 * n, k + k)
  {
    var low := 8 * lo + hi * HI_MODULUS;
    LengthParts(lo, hi, n);
    assert LeBytes(low, k + k) == LeBytes(8 * lo, k) + LeBytes(hi, k) by { LeSplits(8 * lo, hi, k, k); }
    LeSplits(low, n / COUNT_MODULUS, k + k, 0);
  }

  lemma LengthParts(lo: nat, hi: nat, n: nat)
    requires Counts(lo, hi, n)
    ensures (lo * 8) % HI_MODULUS == 8 * lo < HI_MODULUS
    ensures 8 * lo + hi * HI_MODULUS < 8 * COUNT_MODULUS
    ensures 8 * n == 8 * lo + hi * HI_MODULUS + (n / COUNT_MODULUS) * (8 * COUNT_MODULUS)
  {
  }

  /** A fresh context takes in the pieces. */
  method TakeAll(ctx: Md5Context, chunks: seq<seq<bv8>>)
    requires ctx.Valid() && ctx.msg == []
    modifies ctx, ctx.buffer
    ensures ctx.Valid() && ctx.msg == Concat(chunks)
  {
    for i := 0 to |chunks|
      invariant ctx.Valid() && ctx.msg == Concat(chunks[..i])
    {
      ctx.Hash(chunks[i]);
      assert chunks[..i + 1][..i] == chunks[..i];
    }
    assert chunks[..|chunks|] == chunks;
  }

  /** The digest of a file read in pieces, whatever the pieces. */
  method Md5Sum(chunks: seq<seq<bv8>>) returns (r: seq<bv8>)
    ensures r == Digest(Fold(Compress, INIT, Padded(Concat(chunks))))
  {
    CompressIsCompress();
    var ctx := new Md5Context(Compress);
    TakeAll(ctx, chunks);
    r := ctx.End();
  }
}
