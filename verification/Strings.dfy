/** The C library string routines that the configuration engine relies on:
    `strcmp`, `strtoll` and `strtoull`.  A C string is a `string` without its
    terminating NUL. */
module Strings {

  const LL_MAX := 0x7fff_ffff_ffff_ffff
  const LL_MIN := -0x8000_0000_0000_0000
  const ULL_MAX := 0xffff_ffff_ffff_ffff
  const ULL_MODULUS := 0x1_0000_0000_0000_0000

  /** The sign of `strcmp`. */
  function StrCmp(a: string, b: string): (r: int)
    ensures r == 0 <==> a == b
    ensures -1 <= r <= 1
  {
    if a == [] then (if b == [] then 0 else -1)
    else if b == [] then 1
    else if a[0] < b[0] then -1
    else if a[0] > b[0] then 1
    else
      assert a == [a[0]] + a[1..] && b == [b[0]] + b[1..];
      StrCmp(a[1..], b[1..])
  }

  predicate IsSpace(c: char) {
    c == ' ' || '\t' <= c <= '\r'
  }

  /** The value of a digit in base 16, or 99 for any other character. */
  function DigitValue(c: char): nat {
    if '0' <= c <= '9' then (c - '0') as nat
    else if 'a' <= c <= 'f' then (c - 'a') as nat + 10
    else if 'A' <= c <= 'F' then (c - 'A') as nat + 10
    else 99
  }

  predicate IsXDigit(c: char) {
    DigitValue(c) < 16
  }

  function SkipSpaces(s: string, i: nat): (j: nat)
    requires i <= |s|
    ensures i <= j <= |s|
    decreases |s| - i
  {
    if i < |s| && IsSpace(s[i]) then SkipSpaces(s, i + 1) else i
  }

  /** Reads digits of `base` from position `i`: the accumulated value and the end. */
  function Digits(s: string, i: nat, base: nat, acc: nat): (r: (nat, nat))
    requires i <= |s|
    ensures i <= r.1 <= |s|
    ensures r.1 > i ==> DigitValue(s[r.1 - 1]) < base
    decreases |s| - i
  {
    if i < |s| && DigitValue(s[i]) < base
    then Digits(s, i + 1, base, acc * base + DigitValue(s[i]))
    else (acc, i)
  }

  /** What `strtoll` and `strtoull` find: the signed value before any clamping,
      the number of characters consumed (0 when there is no number). */
  datatype Scan = Scan(val: int, tail: nat)

  predicate HexPrefix(s: string, i: nat) {
    i + 2 < |s| && s[i] == '0' && (s[i + 1] == 'x' || s[i + 1] == 'X') && IsXDigit(s[i + 2])
  }

  function ScanNumber(s: string, base: nat): (r: Scan)
    ensures r.tail <= |s|
  {
    var i := SkipSpaces(s, 0);
    var neg := i < |s| && s[i] == '-';
    var j := if i < |s| && (s[i] == '-' || s[i] == '+') then i + 1 else i;
    var hex := (base == 0 || base == 16) && HexPrefix(s, j);
    var b := if base != 0 then base
             else if hex then 16
             else if j < |s| && s[j] == '0' then 8
             else 10;
    var start := if hex then j + 2 else j;
    var (m, end) := Digits(s, start, b, 0);
    var n: int := m;
    if end == start then Scan(0, 0) else Scan(if neg then -n else n, end)
  }

  /** `strtoll` as used where `errno` is not consulted: the value is clamped. */
  function Strtoll(s: string, base: nat): (r: int)
    ensures LL_MIN <= r <= LL_MAX
  {
    var n := ScanNumber(s, base).val;
    if n > LL_MAX then LL_MAX else if n < LL_MIN then LL_MIN else n
  }
}
