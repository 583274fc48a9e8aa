/** Padding of firmware images to erase-block boundaries. */
module Padding {
  import opened Sets

  function Pow2(n: nat): (r: nat)
    ensures r >= 1
  {
    if n == 0 then 1 else 2 * Pow2(n - 1)
  }

  const LIMIT: nat := 0x1_0000_0000

  lemma {:induction false} Pow2Splits(i: nat, j: nat)
    requires i <= j
    ensures Pow2(j) == Pow2(i) * Pow2(j - i)
    decreases j - i
  {
    if i < j {
      Pow2Splits(i, j - 1);
      assert Pow2(j) == 2 * (Pow2(i) * Pow2(j - 1 - i));
      assert Pow2(j - i) == 2 * Pow2(j - i - 1);
    }
  }

  lemma LimitIsPow2()
    ensures Pow2(32) == LIMIT
  {
    assert Pow2(8) == 256;
    Pow2Splits(8, 16);
    Pow2Splits(16, 32);
  }

  lemma ProductsGrow(a: nat, x: int, y: int)
    requires x <= y
    ensures a * x <= a * y
  {
    assert a * y == a * x + a * (y - x);
  }

  lemma QuotientOrder(a: nat, x: int, y: int)
    requires a * x < a * y + a
    ensures x <= y
  {
    if x > y {
      ProductsGrow(a, y + 1, x);
    }
  }

  lemma Division(n: nat, a: nat, d: nat, r: nat)
    requires r < a && n == a * d + r
    ensures n / a == d && n % a == r
  {
    QuotientOrder(a, n / a, d);
    QuotientOrder(a, d, n / a);
  }

  predicate Multiple(x: nat, i: nat) { x % Pow2(i) == 0 }

  /** A multiple of a higher power of two is one of a lower power. */
  lemma MultipleLower(x: nat, i: nat, j: nat)
    requires i <= j && Multiple(x, j)
    ensures Multiple(x, i)
  {
    Pow2Splits(i, j);
    FactorDivides(x, Pow2(i), Pow2(j - i));
  }

  lemma FactorDivides(x: nat, a: nat, b: nat)
    requires a > 0 && b > 0 && x % (a * b) == 0
    ensures x % a == 0
  {
    var c := a * b;
    var q := x / c;
    assert x == c * q;
    Regroup(a, b, q);
    Division(x, a, b * q, 0);
  }

  lemma Regroup(a: nat, b: nat, c: nat)
    ensures (a * b) * c == a * (b * c)
  {
  }

  /** The least multiple of 2^i that is at least `x`. */
  function RoundUp(x: nat, i: nat): nat { Pow2(i) * ((x + Pow2(i) - 1) / Pow2(i)) }

  lemma RoundUpLeast(x: nat, i: nat)
    ensures x <= RoundUp(x, i) < x + Pow2(i) && Multiple(RoundUp(x, i), i)
  {
    var a := Pow2(i);
    var n := x + a - 1;
    assert n == a * (n / a) + n % a;
    Division(RoundUp(x, i), a, n / a, 0);
  }

  lemma RoundUpBelow(x: nat, i: nat, y: nat)
    requires x <= y && Multiple(y, i)
    ensures RoundUp(x, i) <= y
  {
    var a := Pow2(i);
    var n := x + a - 1;
    assert n == a * (n / a) + n % a;
    assert y == a * (y / a);
    QuotientOrder(a, n / a, y / a);
    ProductsGrow(a, n / a, y / a);
  }

  lemma RoundUpTwice(x: nat, i: nat, j: nat)
    requires i <= j
    ensures RoundUp(x, i) <= RoundUp(x, j) == RoundUp(RoundUp(x, i), j)
  {
    var y := RoundUp(x, i);
    RoundUpLeast(x, i);
    RoundUpLeast(x, j);
    RoundUpLeast(y, j);
    MultipleLower(RoundUp(x, j), i, j);
    RoundUpBelow(x, i, RoundUp(x, j));
    RoundUpBelow(y, j, RoundUp(x, j));
    RoundUpBelow(x, j, RoundUp(y, j));
  }

  /** The ALIGN macro with a 32-bit mask: bits 32 and above of the sum are lost. */
  function Align(x: nat, i: nat): nat { Pow2(i) * (((x + Pow2(i) - 1) % LIMIT) / Pow2(i)) }

  lemma LimitMultiple(i: nat)
    requires i <= 32
    ensures Multiple(LIMIT, i) && Pow2(i) <= LIMIT
  {
    LimitIsPow2();
    Pow2Splits(i, 32);
    Division(LIMIT, Pow2(i), Pow2(32 - i), 0);
    ProductsGrow(Pow2(i), 1, Pow2(32 - i));
  }

  /** Below the limit the macro rounds up; at the limit it wraps to 0. */
  lemma AlignRoundsUp(x: nat, i: nat)
    requires x < LIMIT && i <= 32
    ensures RoundUp(x, i) <= LIMIT
    ensures Align(x, i) == if RoundUp(x, i) == LIMIT then 0 else RoundUp(x, i)
  {
    var a := Pow2(i);
    var n := x + a - 1;
    LimitMultiple(i);
    RoundUpBelow(x, i, LIMIT);
    RoundUpLeast(x, i);
    if n < LIMIT {
      Division(n, LIMIT, 0, n);
    } else {
      Division(n, LIMIT, 1, n - LIMIT);
      Division(n - LIMIT, a, 0, n - LIMIT);
      Wraps(x, i);
    }
  }

  lemma Wraps(x: nat, i: nat)
    requires i <= 32 && x + Pow2(i) - 1 >= LIMIT
    ensures RoundUp(x, i) >= LIMIT
  {
    LimitMultiple(i);
    FloorAbove(x + Pow2(i) - 1, Pow2(i), LIMIT);
  }

  lemma FloorAbove(n: nat, a: nat, y: nat)
    requires a > 0 && y <= n && y % a == 0
    ensures y <= a * (n / a)
  {
    assert n == a * (n / a) + n % a;
    assert y == a * (y / a);
    QuotientOrder(a, y / a, n / a);
    ProductsGrow(a, y / a, n / a);
  }

  /** Two different multiples of 1024 are at least 1024 apart. */
  lemma Apart(x: nat, y: nat, i: nat, j: nat)
    requires x < y && 10 <= i && 10 <= j && Multiple(x, i) && Multiple(y, j)
    ensures x + 1024 <= y
  {
    assert Pow2(10) == 1024 by { assert Pow2(5) == 32; Pow2Splits(5, 10); }
    MultipleLower(x, 10, i);
    MultipleLower(y, 10, j);
  }

  // ----- the written bytes -----

  /** Markers at these offsets follow the image and one another without overlap. */
  predicate Spaced(length: nat, marks: seq<nat>, width: nat) {
    && (marks != [] ==> length <= marks[0])
    && forall j :: 0 < j < |marks| ==> marks[j - 1] + width <= marks[j]
  }

  /** Where output stands after the markers: past the last one. */
  function End(length: nat, marks: seq<nat>, width: nat): nat {
    if marks == [] then length else marks[|marks| - 1] + width
  }

  function Fill(n: nat): (r: seq<bv8>)
    ensures |r| == n
  {
    seq(n, _ => 0xff)
  }

  /** The bytes appended to an image of the given length: 0xff up to each marker. */
  function Image(length: nat, marks: seq<nat>, pad: seq<bv8>): (r: seq<bv8>)
    requires Spaced(length, marks, |pad|)
    ensures |r| == End(length, marks, |pad|) - length
  {
    if marks == [] then [] else
    var init, m := marks[..|marks| - 1], marks[|marks| - 1];
    Image(length, init, pad) + Fill(m - End(length, init, |pad|)) + pad
  }

  predicate Stands(out: seq<bv8>, at: nat, pad: seq<bv8>) {
    at + |pad| <= |out| && out[at..at + |pad|] == pad
  }

  lemma StandsOn(out: seq<bv8>, at: nat, pad: seq<bv8>, more: seq<bv8>)
    requires Stands(out, at, pad)
    ensures Stands(out + more, at, pad)
  {
    assert (out + more)[at..at + |pad|] == out[at..at + |pad|];
  }

  lemma StandsLast(out: seq<bv8>, pad: seq<bv8>)
    ensures Stands(out + pad, |out|, pad)
  {
    assert (out + pad)[|out|..|out| + |pad|] == pad;
  }

  /** The output up to the last marker. */
  lemma ImageLast(length: nat, marks: seq<nat>, pad: seq<bv8>) returns (before: seq<bv8>, fill: seq<bv8>)
    requires Spaced(length, marks, |pad|) && marks != []
    ensures before == Image(length, marks[..|marks| - 1], pad)
    ensures Image(length, marks, pad) == before + fill + pad
    ensures length + |before + fill| == marks[|marks| - 1]
  {
    var init, m := marks[..|marks| - 1], marks[|marks| - 1];
    before, fill := Image(length, init, pad), Fill(m - End(length, init, |pad|));
  }

  /** Each marker stands in the output at its own offset. */
  lemma {:induction false} ImageHolds(length: nat, marks: seq<nat>, pad: seq<bv8>, j: nat)
    requires Spaced(length, marks, |pad|) && j < |marks|
    ensures length <= marks[j] && Stands(Image(length, marks, pad), marks[j] - length, pad)
  {
    var before, fill := ImageLast(length, marks, pad);
    var init := marks[..|marks| - 1];
    if j < |init| {
      assert marks[j] == init[j];
      ImageHolds(length, init, pad, j);
      StandsOn(before, marks[j] - length, pad, fill);
      StandsOn(before + fill, marks[j] - length, pad, pad);
    } else {
      StandsLast(before + fill, pad);
    }
  }

  predicate Marked(marks: seq<nat>, i: nat) { exists m :: m in marks && Multiple(m, i) }

  ghost predicate AllMarked(pads: set<nat>, marks: seq<nat>) {
    forall i :: i in pads ==> Marked(marks, i)
  }

  ghost predicate Largest(pads: set<nat>, top: nat) {
    top in pads && forall i :: i in pads ==> 10 <= i <= top < 32
  }

  // ----- progress of the padding loop on an image shorter than 4 GiB -----

  ghost predicate Going(length: nat, pads: set<nat>, top: nat, rest: set<nat>, marks: seq<nat>, cur: nat) {
    && rest <= pads && (rest != {} ==> top in rest)
    && AllMarked(pads - rest, marks)
    && length <= cur < LIMIT
    && RoundUp(cur, top) == RoundUp(length, top)
    && (if marks == [] then cur == length else
        cur == marks[|marks| - 1] && Multiple(cur, 10) && forall i :: i in rest ==> !Multiple(cur, i))
    && forall m :: m in marks ==> length <= m < LIMIT
  }

  /** The loop ended on a wrap: nothing was marked at a multiple of the largest block. */
  ghost predicate Wrapped(length: nat, top: nat, rest: set<nat>, marks: seq<nat>) {
    rest == {} && RoundUp(length, top) == LIMIT && !Marked(marks, top)
  }

  lemma NotMarked(length: nat, top: nat, marks: seq<nat>)
    requires RoundUp(length, top) >= LIMIT
    requires forall m :: m in marks ==> length <= m < LIMIT
    ensures !Marked(marks, top)
  {
    forall m | m in marks ensures !Multiple(m, top) {
      if Multiple(m, top) { RoundUpBelow(length, top, m); }
    }
  }

  /** A round that wraps: the marker lands where output stands, and every bit is cleared. */
  lemma RoundWraps(length: nat, pads: set<nat>, top: nat, rest: set<nat>, marks: seq<nat>, cur: nat, i: nat, width: nat)
    requires Largest(pads, top) && 0 < width < 1024
    requires Going(length, pads, top, rest, marks, cur) && i in rest
    requires RoundUp(cur, i) == LIMIT
    ensures RoundUp(length, top) == LIMIT
    ensures !Marked(marks + [End(length, marks, width)], top)
  {
    RoundUpTwice(cur, i, top);
    AlignRoundsUp(cur, top);
    if marks != [] {
      LimitMultiple(10);
      Apart(cur, LIMIT, 10, 10);
    }
    NotMarked(length, top, marks + [End(length, marks, width)]);
  }

  /** A round that does not wrap: the next marker lies at the rounded length. */
  lemma RoundAdvances(length: nat, pads: set<nat>, top: nat, rest: set<nat>, marks: seq<nat>, cur: nat,
                      i: nat, width: nat, left: set<nat>)
    requires Largest(pads, top) && 0 < width < 1024
    requires Going(length, pads, top, rest, marks, cur) && i in rest
    requires RoundUp(cur, i) < LIMIT
    requires forall k :: k in left <==> k in rest && !Multiple(RoundUp(cur, i), k)
    ensures End(length, marks, width) <= RoundUp(cur, i)
    ensures Going(length, pads, top, left, marks + [RoundUp(cur, i)], RoundUp(cur, i))
  {
    var next := RoundUp(cur, i);
    RoundUpLeast(cur, i);
    MultipleLower(next, 10, i);
    RoundUpTwice(cur, i, top);
    if marks != [] {
      assert next != cur;
      Apart(cur, next, 10, 10);
    }
    LeftNeedsTop(pads, top, rest, next, left);
    MarksKept(pads, rest, marks, next, left);
  }

  lemma LeftNeedsTop(pads: set<nat>, top: nat, rest: set<nat>, next: nat, left: set<nat>)
    requires Largest(pads, top) && rest <= pads && top in rest
    requires forall k :: k in left <==> k in rest && !Multiple(next, k)
    ensures left != {} ==> top in left
  {
    if Multiple(next, top) {
      forall k | k in rest ensures Multiple(next, k) {
        MultipleLower(next, k, top);
      }
    }
  }

  lemma MarksKept(pads: set<nat>, rest: set<nat>, marks: seq<nat>, next: nat, left: set<nat>)
    requires AllMarked(pads - rest, marks)
    requires forall k :: k in left <==> k in rest && !Multiple(next, k)
    ensures AllMarked(pads - left, marks + [next])
  {
    forall k | k in pads - left ensures Marked(marks + [next], k) {
      if k in rest {
        assert next in marks + [next] && Multiple(next, k);
      } else {
        assert k in pads - rest;
        var m :| m in marks && Multiple(m, k);
        assert m in marks + [next];
      }
    }
  }

  // ----- the program -----

  method LowestBit(rest: set<nat>) returns (i: nat)
    requires rest != {} && forall k :: k in rest ==> 10 <= k < 32
    ensures i in rest && forall k :: k in rest ==> i <= k
  {
    i := 10;
    while i < 32 && i !in rest
      invariant 10 <= i <= 32
      invariant forall k :: k in rest ==> i <= k
    {
      i := i + 1;
    }
  }

  method ClearAligned(rest: set<nat>, x: nat) returns (left: set<nat>)
    requires forall k :: k in rest ==> 10 <= k < 32
    ensures forall k :: k in left <==> k in rest && !Multiple(x, k)
  {
    left := rest;
    var i := 10;
    while i < 32
      invariant 10 <= i <= 32
      invariant forall k :: k in left <==> k in rest && (k < i ==> !Multiple(x, k))
    {
      if x % Pow2(i) == 0 {
        left := left - {i};
      }
      i := i + 1;
    }
  }

  const BUF_SIZE: nat := 65536

  /** Writes 0xff in pieces of at most one buffer. */
  method FillTo(out: seq<bv8>, outLen: nat, inLen: nat) returns (out': seq<bv8>, outLen': nat)
    ensures outLen' == if outLen < inLen then inLen else outLen
    ensures out' == out + Fill(outLen' - outLen)
  {
    out', outLen' := out, outLen;
    while outLen' < inLen
      invariant outLen <= outLen' && (outLen < outLen' ==> outLen' <= inLen)
      invariant out' == out + Fill(outLen' - outLen)
    {
      var len := inLen - outLen';
      if len > BUF_SIZE {
        len := BUF_SIZE;
      }
      out' := out' + Fill(len);
      outLen' := outLen' + len;
    }
  }

  ghost predicate Blocks(pads: set<nat>) { forall i :: i in pads ==> 10 <= i < 32 }

  lemma LargestExists(pads: set<nat>, bound: nat)
    requires pads != {} && Blocks(pads) && forall i :: i in pads ==> i <= bound
    ensures exists top :: Largest(pads, top)
  {
    if bound in pads {
      assert Largest(pads, bound);
    } else {
      var i :| i in pads;
      LargestExists(pads, bound - 1);
    }
  }

  lemma ImageGrows(length: nat, marks: seq<nat>, pad: seq<bv8>, m: nat)
    requires Spaced(length, marks, |pad|) && End(length, marks, |pad|) <= m
    ensures Spaced(length, marks + [m], |pad|)
    ensures Image(length, marks + [m], pad) ==
            Image(length, marks, pad) + Fill(m - End(length, marks, |pad|)) + pad
  {
    SpacedGrows(length, marks, pad, m);
    var all := marks + [m];
    assert all[..|all| - 1] == marks && all[|all| - 1] == m;
  }

  lemma SpacedGrows(length: nat, marks: seq<nat>, pad: seq<bv8>, m: nat)
    requires Spaced(length, marks, |pad|) && End(length, marks, |pad|) <= m
    ensures Spaced(length, marks + [m], |pad|)
  {
    assert |Image(length, marks, pad)| == End(length, marks, |pad|) - length;
  }

  /** What every round keeps; nothing is claimed of longer images. */
  ghost predicate Underway(length: nat, pads: set<nat>, top: nat, rest: set<nat>, marks: seq<nat>, cur: nat) {
    Largest(pads, top) && length < LIMIT ==>
      Wrapped(length, top, rest, marks) || Going(length, pads, top, rest, marks, cur)
  }

  lemma Start(length: nat, pads: set<nat>, top: nat)
    ensures Underway(length, pads, top, pads, [], length)
  {
    assert pads - pads == {};
  }

  lemma ClearsOne(rest: set<nat>, x: nat, i: nat, left: set<nat>)
    requires i in rest
    requires forall k :: k in left <==> k in rest && !Multiple(Align(x, i), k)
    ensures left <= rest && |left| < |rest|
  {
    Division(Align(x, i), Pow2(i), ((x + Pow2(i) - 1) % LIMIT) / Pow2(i), 0);
    assert i !in left;
    assert left < rest;
    SubsetSmaller(left, rest);
  }

  /** One round of the loop, whichever way it goes. */
  lemma Round(length: nat, pads: set<nat>, top: nat, rest: set<nat>, marks: seq<nat>, cur: nat,
              i: nat, width: nat, left: set<nat>, m: nat)
    requires 0 < width < 1024 && i in rest
    requires Underway(length, pads, top, rest, marks, cur)
    requires forall k :: k in left <==> k in rest && !Multiple(Align(cur, i), k)
    requires var from := End(length, marks, width); m == if from < Align(cur, i) then Align(cur, i) else from
    ensures Underway(length, pads, top, left, marks + [m], Align(cur, i))
  {
    if Largest(pads, top) && length < LIMIT {
      AlignRoundsUp(cur, i);
      if RoundUp(cur, i) == LIMIT {
        RoundWraps(length, pads, top, rest, marks, cur, i, width);
        forall k ensures Multiple(0, k) { Division(0, Pow2(k), 0, 0); }
      } else {
        RoundAdvances(length, pads, top, rest, marks, cur, i, width, left);
      }
    }
  }

  lemma Finished(length: nat, pads: set<nat>, top: nat, marks: seq<nat>, cur: nat)
    requires Largest(pads, top) && length < LIMIT
    requires Underway(length, pads, top, {}, marks, cur)
    ensures AllMarked(pads, marks) <==> RoundUp(length, top) < LIMIT
  {
    if Going(length, pads, top, {}, marks, cur) {
      assert pads - {} == pads;
      assert Marked(marks, top);
      if RoundUp(length, top) >= LIMIT { NotMarked(length, top, marks); }
    }
  }

  lemma AlignBelowLimit(x: nat, i: nat)
    ensures Align(x, i) < LIMIT
  {
    var a := Pow2(i);
    var y := (x + a - 1) % LIMIT;
    assert y == a * (y / a) + y % a;
  }

  lemma EndAbove(length: nat, marks: seq<nat>, pad: seq<bv8>)
    requires Spaced(length, marks, |pad|)
    ensures length <= End(length, marks, |pad|)
  {
    assert |Image(length, marks, pad)| == End(length, marks, |pad|) - length;
  }

  /** The markers follow the image and one another without a gap. */
  predicate Packed(length: nat, marks: seq<nat>, width: nat) {
    && (marks != [] ==> marks[0] == length)
    && forall j :: 0 < j < |marks| ==> marks[j] == marks[j - 1] + width
  }

  lemma {:induction false} PackedAt(length: nat, marks: seq<nat>, width: nat, j: nat)
    requires Packed(length, marks, width) && j < |marks|
    ensures marks[j] == length + j * width
  {
    if j > 0 {
      PackedAt(length, marks, width, j - 1);
      assert (j - 1) * width + width == j * width;
    }
  }

  lemma PackedGrows(length: nat, marks: seq<nat>, width: nat)
    requires Packed(length, marks, width)
    ensures Packed(length, marks + [End(length, marks, width)], width)
  {
  }

  /** What the loop keeps, for images of every length. */
  ghost predicate Progress(length: nat, pads: set<nat>, top: nat, pad: seq<bv8>,
                           out: seq<bv8>, marks: seq<nat>, outLen: nat, inLen: nat, rest: set<nat>) {
    && Spaced(length, marks, |pad|) && out == Image(length, marks, pad)
    && outLen == End(length, marks, |pad|)
    && (length >= LIMIT ==> Packed(length, marks, |pad|))
    && Underway(length, pads, top, rest, marks, inLen)
  }

  /** The body of the loop: one more marker, and at least one block size done. */
  method PadRound(ghost length: nat, ghost pads: set<nat>, ghost top: nat, pad: seq<bv8>,
                  out: seq<bv8>, marks: seq<nat>, outLen: nat, inLen: nat, rest: set<nat>)
    returns (out': seq<bv8>, marks': seq<nat>, outLen': nat, inLen': nat, left: set<nat>)
    requires Blocks(rest) && rest != {} && 0 < |pad| < 1024
    requires Progress(length, pads, top, pad, out, marks, outLen, inLen, rest)
    ensures left <= rest && |left| < |rest|
    ensures marks' != [] && Progress(length, pads, top, pad, out', marks', outLen', inLen', left)
  {
    var i := LowestBit(rest);
    inLen' := Align(inLen, i);
    AlignBelowLimit(inLen, i);
    left := ClearAligned(rest, inLen');
    ClearsOne(rest, inLen, i, left);
    var mark;
    out', mark := FillTo(out, outLen, inLen');
    EndAbove(length, marks, pad);
    ImageGrows(length, marks, pad, mark);
    if length >= LIMIT { PackedGrows(length, marks, |pad|); }
    Round(length, pads, top, rest, marks, inLen, i, |pad|, left, mark);
    out', marks', outLen' := out' + pad, marks + [mark], mark + |pad|;
  }

  /**
   * Pads an image of `length` bytes (the extra offset included) for the block sizes 2^i, i in pads.
   * Below 4 GiB every block size gets a marker at one of its multiples exactly when the
   * length rounded up to the largest block size still fits in 32 bits.  From 4 GiB on nothing
   * is filled: the markers directly follow the image and one another.
   */
  method PadImage(length: nat, pads: set<nat>, pad: seq<bv8>) returns (out: seq<bv8>, marks: seq<nat>)
    requires Blocks(pads) && 0 < |pad| < 1024
    ensures Spaced(length, marks, |pad|) && out == Image(length, marks, pad)
    ensures marks == [] <==> pads == {}
    ensures length >= LIMIT ==> Packed(length, marks, |pad|)
    ensures forall top :: Largest(pads, top) && length < LIMIT ==>
              (AllMarked(pads, marks) <==> RoundUp(length, top) < LIMIT)
  {
    var inLen, outLen, rest := length, length, pads;
    out, marks := [], [];
    ghost var top: nat := 0;
    if pads != {} {
      LargestExists(pads, 32);
      top :| Largest(pads, top);
    }
    Start(length, pads, top);
    while rest != {}
      invariant rest <= pads && (marks == [] ==> rest == pads) && (marks != [] ==> pads != {})
      invariant Progress(length, pads, top, pad, out, marks, outLen, inLen, rest)
      decreases |rest|
    {
      out, marks, outLen, inLen, rest := PadRound(length, pads, top, pad, out, marks, outLen, inLen, rest);
    }
    if pads != {} && length < LIMIT {
      Finished(length, pads, top, marks, inLen);
    }
  }

  /** Padding 4095 MiB + 1 byte to 2 MiB blocks marks no multiple of 2 MiB. */
  lemma WrapExample()
    ensures RoundUp(0xfff0_0001, 21) == LIMIT
  {
    Pow2Splits(10, 21);
    assert Pow2(10) == 1024 by { assert Pow2(5) == 32; Pow2Splits(5, 10); }
    assert Pow2(11) == 2 * Pow2(10);
    Division(0xfff0_0001 + 0x20_0000 - 1, 0x20_0000, 2048, 0x10_0000);
  }

  method PadAcrossLimit(pad: seq<bv8>) returns (marks: seq<nat>)
    requires 0 < |pad| < 1024
    ensures marks != [] && forall m :: m in marks ==> !Multiple(m, 21)
  {
    var out;
    out, marks := PadImage(0xfff0_0001, {21}, pad);
    assert Largest({21}, 21);
    WrapExample();
  }
}
