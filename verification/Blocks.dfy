/**
 * Hashing by 64-byte blocks, for any compression function: what a context holds when it has taken in
 * a message, and how that grows.
 */
module Blocks {

  type Block = b: seq<bv8> | |b| == 64 witness seq(64, _ => 0)

  /** The blocks of `m` compressed one after the other. */
  function Fold<S>(f: (S, Block) -> S, s: S, m: seq<bv8>): S
    requires |m| % 64 == 0
    decreases |m|
  {
    if m == [] then s else Fold(f, f(s, m[..64]), m[64..])
  }

  lemma {:induction false} FoldAppend<S>(f: (S, Block) -> S, s: S, a: seq<bv8>, b: seq<bv8>)
    requires |a| % 64 == 0 && |b| % 64 == 0
    ensures Fold(f, s, a + b) == Fold(f, Fold(f, s, a), b)
    decreases |a|
  {
    if a == [] {
      assert a + b == b;
    } else {
      assert (a + b)[..64] == a[..64] && (a + b)[64..] == a[64..] + b;
      FoldAppend(f, f(s, a[..64]), a[64..], b);
    }
  }

  lemma FoldOne<S>(f: (S, Block) -> S, s: S, b: Block)
    ensures Fold(f, s, b) == f(s, b)
  {
    assert b[..64] == b && b[64..] == [];
    assert Fold(f, f(s, b), []) == f(s, b);
  }

  lemma FoldNext<S>(f: (S, Block) -> S, s: S, m: seq<bv8>, i: nat)
    requires |m| % 64 == 0 && i % 64 == 0 && i + 64 <= |m|
    ensures Fold(f, s, m[i..]) == Fold(f, f(s, m[i..i + 64]), m[i + 64..])
  {
    assert m[i..][..64] == m[i..i + 64] && m[i..][64..] == m[i + 64..];
  }

  /** The whole blocks of a message, and what is left over. */
  function Whole(msg: seq<bv8>): (r: seq<bv8>)
    ensures |r| % 64 == 0
  {
    msg[..|msg| - |msg| % 64]
  }

  function Rest(msg: seq<bv8>): (r: seq<bv8>)
    ensures |r| == |msg| % 64
  {
    msg[|msg| - |msg| % 64..]
  }

  lemma AllWhole(msg: seq<bv8>)
    requires |msg| % 64 == 0
    ensures Whole(msg) == msg && Rest(msg) == []
  {
  }

  /** The state has taken in the whole blocks of the message; the buffer starts with the rest. */
  ghost predicate Holds<S>(f: (S, Block) -> S, init: S, s: S, buf: seq<bv8>, msg: seq<bv8>) {
    && |buf| == 64
    && s == Fold(f, init, Whole(msg))
    && buf[..|msg| % 64] == Rest(msg)
  }

  lemma HoldsNothing<S>(f: (S, Block) -> S, init: S, buf: seq<bv8>)
    requires |buf| == 64
    ensures Holds(f, init, init, buf, [])
  {
  }

  lemma ModGrows(n: nat, k: nat)
    requires n % 64 + k < 64
    ensures (n + k) % 64 == n % 64 + k
  {
  }

  lemma ModFills(n: nat, k: nat)
    requires n % 64 + k == 64
    ensures (n + k) % 64 == 0
  {
  }

  lemma SlicesGrow(msg: seq<bv8>, d: seq<bv8>, cut: nat)
    requires cut <= |msg|
    ensures (msg + d)[..cut] == msg[..cut] && (msg + d)[cut..] == msg[cut..] + d
  {
  }

  /** Bytes that do not complete a block only make the rest longer. */
  lemma RestGrows(msg: seq<bv8>, d: seq<bv8>)
    requires |msg| % 64 + |d| < 64
    ensures |msg + d| % 64 == |msg| % 64 + |d|
    ensures Whole(msg + d) == Whole(msg) && Rest(msg + d) == Rest(msg) + d
  {
    ModGrows(|msg|, |d|);
    SlicesGrow(msg, d, |msg| - |msg| % 64);
    assert |msg + d| - |msg + d| % 64 == |msg| - |msg| % 64;
  }

  /** Bytes that complete a block make one out of the rest. */
  lemma RestFills(msg: seq<bv8>, d: seq<bv8>)
    requires |msg| % 64 + |d| == 64
    ensures |msg + d| % 64 == 0 && msg + d == Whole(msg) + (Rest(msg) + d)
  {
    ModFills(|msg|, |d|);
    var cut := |msg| - |msg| % 64;
    assert msg == msg[..cut] + msg[cut..];
    assert (msg[..cut] + msg[cut..]) + d == msg[..cut] + (msg[cut..] + d);
  }

  /** More bytes, not enough for a block. */
  lemma HoldsPart<S>(f: (S, Block) -> S, init: S, s: S, buf: seq<bv8>, msg: seq<bv8>, d: seq<bv8>, buf': seq<bv8>)
    requires Holds(f, init, s, buf, msg) && |msg| % 64 + |d| < 64
    requires |buf'| == 64 && buf'[..|msg| % 64 + |d|] == buf[..|msg| % 64] + d
    ensures Holds(f, init, s, buf', msg + d)
  {
    RestGrows(msg, d);
  }

  /** Bytes that complete a block. */
  lemma HoldsFull<S>(f: (S, Block) -> S, init: S, s: S, buf: seq<bv8>, msg: seq<bv8>, d: seq<bv8>, buf': seq<bv8>)
    requires Holds(f, init, s, buf, msg) && |msg| % 64 + |d| == 64 && |buf'| == 64
    ensures |msg + d| % 64 == 0 && |buf[..|msg| % 64] + d| == 64
    ensures Holds(f, init, f(s, buf[..|msg| % 64] + d), buf', msg + d)
    ensures f(s, buf[..|msg| % 64] + d) == Fold(f, init, msg + d)
  {
    RestFills(msg, d);
    AllWhole(msg + d);
    var b: Block := Rest(msg) + d;
    assert f(s, b) == Fold(f, init, msg + d) by {
      FoldAppend(f, init, Whole(msg), b);
      FoldOne(f, s, b);
    }
    assert buf'[..0] == [];
  }

  lemma SumOfMultiples(x: nat, y: nat)
    requires x % 64 == 0 && y % 64 == 0
    ensures (x + y) % 64 == 0
  {
  }

  /** Whole blocks after whole blocks. */
  lemma HoldsBlocks<S>(f: (S, Block) -> S, init: S, s: S, buf: seq<bv8>, msg: seq<bv8>, d: seq<bv8>, s': S)
    requires Holds(f, init, s, buf, msg) && |msg| % 64 == 0 && |d| % 64 == 0 && s' == Fold(f, s, d)
    ensures Holds(f, init, s', buf, msg + d)
  {
    AllWhole(msg);
    var all := msg + d;
    SumOfMultiples(|msg|, |d|);
    AllWhole(all);
    assert s' == Fold(f, init, all) by { FoldAppend(f, init, msg, d); }
    assert buf[..0] == [];
  }

  // ----- numbers as bytes -----

  function Pow256(k: nat): (r: nat)
    ensures r >= 1
  {
    if k == 0 then 1 else 256 * Pow256(k - 1)
  }

  /** The `k` low bytes of a number, least significant first. */
  function LeBytes(n: nat, k: nat): (r: seq<bv8>)
    ensures |r| == k
  {
    if k == 0 then [] else [(n % 256) as bv8] + LeBytes(n / 256, k - 1)
  }

  /** The `k` low bytes of a number, most significant first. */
  function BeBytes(n: nat, k: nat): (r: seq<bv8>)
    ensures |r| == k
  {
    if k == 0 then [] else BeBytes(n / 256, k - 1) + [(n % 256) as bv8]
  }

  lemma {:induction false} LeSplits(a: nat, b: nat, j: nat, k: nat)
    requires a < Pow256(j)
    ensures LeBytes(a + b * Pow256(j), j + k) == LeBytes(a, j) + LeBytes(b, k)
  {
    if j > 0 {
      ShiftByte(a, b, Pow256(j - 1));
      LeSplits(a / 256, b, j - 1, k);
    }
  }

  lemma ShiftByte(a: nat, b: nat, p: nat)
    ensures (a + b * (256 * p)) % 256 == a % 256 && (a + b * (256 * p)) / 256 == a / 256 + b * p
  {
    assert b * (256 * p) == 256 * (b * p);
  }

  lemma {:induction false} BeSplits(a: nat, b: nat, j: nat, k: nat)
    requires a < Pow256(j)
    ensures BeBytes(a + b * Pow256(j), j + k) == BeBytes(b, k) + BeBytes(a, j)
  {
    if j > 0 {
      ShiftByte(a, b, Pow256(j - 1));
      BeSplits(a / 256, b, j - 1, k);
    }
  }

  function Zeros(n: nat): (r: seq<bv8>)
    ensures |r| == n
  {
    seq(n, _ => 0)
  }

  /** A one bit, zero bits up to 8 bytes before the end of a block, and the length. */
  function PadWith(msg: seq<bv8>, length: seq<bv8>): (r: seq<bv8>)
    requires |length| == 8
    ensures |r| % 64 == 0
  {
    msg + [0x80] + Zeros((119 - |msg| % 64) % 64) + length
  }

  lemma PadLong(msg: seq<bv8>, used: nat, length: seq<bv8>)
    requires used == |msg| % 64 && |length| == 8
    ensures used > 55 ==> PadWith(msg, length) == msg + ([0x80] + Zeros(63 - used)) + (Zeros(56) + length)
  {
    if used > 55 {
      assert Zeros(63 - used) + Zeros(56) == Zeros((119 - used) % 64);
    }
  }

  lemma PadShort(msg: seq<bv8>, used: nat, length: seq<bv8>)
    requires used == |msg| % 64 && |length| == 8
    ensures used <= 55 ==> PadWith(msg, length) == msg + ([0x80] + Zeros(55 - used) + length)
  {
  }

  /** The pieces of a message put together. */
  function Concat(chunks: seq<seq<bv8>>): seq<bv8> {
    if chunks == [] then [] else Concat(chunks[..|chunks| - 1]) + chunks[|chunks| - 1]
  }

  /** `memcpy` into a buffer. */
  method CopyInto(buf: array<bv8>, at: nat, d: seq<bv8>)
    requires at + |d| <= buf.Length
    modifies buf
    ensures buf[..at] == old(buf[..at]) && buf[at..at + |d|] == d && buf[at + |d|..] == old(buf[at + |d|..])
  {
    forall i | 0 <= i < |d| {
      buf[at + i] := d[i];
    }
  }
}
