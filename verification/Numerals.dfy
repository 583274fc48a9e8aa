/** Numbers written out in digits, and how the comparisons read them back. */
module Numerals {
  import opened Expressions
  import opened Strings
  import opened Values

  function DigitChar(d: nat): char
    requires d < 16
  {
    if d < 10 then '0' + d as char else 'a' + (d - 10) as char
  }

  lemma DigitCharValue(d: nat)
    requires d < 16
    ensures DigitValue(DigitChar(d)) == d && !IsSpace(DigitChar(d))
    ensures DigitChar(d) != '-' && DigitChar(d) != '+' && DigitChar(d) != 'x' && DigitChar(d) != 'X'
    ensures d > 0 ==> DigitChar(d) != '0'
  {}

  /** `n` written in `base`, most significant digit first. */
  function Numeral(n: nat, base: nat): (s: string)
    requires 2 <= base <= 16
    ensures s != ""
  {
    if n < base then [DigitChar(n)] else Numeral(n / base, base) + [DigitChar(n % base)]
  }

  function Decimal(n: int): string { if n < 0 then "-" + Numeral(-n, 10) else Numeral(n, 10) }

  lemma NumeralSplit(n: nat, base: nat) returns (m: nat, r: nat)
    requires 2 <= base <= 16 && n >= base
    ensures m < n && r < base && m * base + r == n
    ensures Numeral(n, base) == Numeral(m, base) + [DigitChar(r)]
  {
    m, r := n / base, n % base;
  }

  predicate AllDigits(s: string, base: nat) { forall k :: 0 <= k < |s| ==> DigitValue(s[k]) < base }

  lemma AllDigitsSnoc(s: string, c: char, base: nat)
    requires AllDigits(s, base) && DigitValue(c) < base
    ensures AllDigits(s + [c], base)
  {}

  lemma {:induction false} NumeralDigits(n: nat, base: nat)
    requires 2 <= base <= 16
    ensures AllDigits(Numeral(n, base), base)
    ensures n > 0 ==> Numeral(n, base)[0] != '0'
    decreases n
  {
    if n < base {
      DigitCharValue(n);
      AllDigitsSnoc("", DigitChar(n), base);
      assert "" + [DigitChar(n)] == [DigitChar(n)];
    } else {
      var m, r := NumeralSplit(n, base);
      NumeralDigits(m, base);
      DigitCharValue(r);
      AllDigitsSnoc(Numeral(m, base), DigitChar(r), base);
    }
  }

  lemma NumeralLast(n: nat, base: nat)
    requires 2 <= base <= 16
    ensures IsXDigit(Numeral(n, base)[|Numeral(n, base)| - 1])
  {
    NumeralDigits(n, base);
  }

  /** Reading digits stops at no digit before `k`. */
  lemma {:induction false} DigitsThrough(s: string, i: nat, k: nat, base: nat, acc: nat)
    requires i <= k <= |s| && forall j :: i <= j < k ==> DigitValue(s[j]) < base
    ensures Digits(s[..k], i, base, acc).1 == k
    ensures Digits(s, i, base, acc) == Digits(s, k, base, Digits(s[..k], i, base, acc).0)
    decreases k - i
  {
    if i < k {
      DigitsThrough(s, i + 1, k, base, acc * base + DigitValue(s[i]));
    }
  }

  lemma DigitsSnoc(q: string, i: nat, c: char, base: nat, v: nat)
    requires i <= |q| && forall j :: i <= j < |q| ==> DigitValue(q[j]) < base
    requires Digits(q, i, base, 0) == (v, |q|) && DigitValue(c) < base
    ensures Digits(q + [c], i, base, 0) == (v * base + DigitValue(c), |q| + 1)
  {
    var s := q + [c];
    assert s[..|q|] == q && s[|q|] == c;
    DigitsThrough(s, i, |q|, base, 0);
  }

  /** A numeral is read back as the number. */
  lemma {:induction false} DigitsNumeral(p: string, n: nat, base: nat)
    requires 2 <= base <= 16
    ensures Digits(p + Numeral(n, base), |p|, base, 0) == (n, |p + Numeral(n, base)|)
    decreases n
  {
    if n < base {
      DigitCharValue(n);
      assert Digits(p, |p|, base, 0) == (0, |p|);
      DigitsSnoc(p, |p|, DigitChar(n), base, 0);
    } else {
      var m, r := NumeralSplit(n, base);
      DigitsNumeral(p, m, base);
      DigitsNext(p, Numeral(m, base), m, r, base);
    }
  }

  lemma DigitsNext(p: string, t: string, m: nat, r: nat, base: nat)
    requires 2 <= base <= 16 && r < base && t == Numeral(m, base)
    requires Digits(p + t, |p|, base, 0) == (m, |p + t|)
    ensures Digits(p + (t + [DigitChar(r)]), |p|, base, 0) == (m * base + r, |p + (t + [DigitChar(r)])|)
  {
    NumeralDigits(m, base);
    DigitCharValue(r);
    DigitsSnoc(p + t, |p|, DigitChar(r), base, m);
    assert p + (t + [DigitChar(r)]) == p + t + [DigitChar(r)];
  }

  lemma FirstDigit(c: char)
    requires DigitValue(c) < 16
    ensures !IsSpace(c) && c != '-' && c != '+' && c != 'x' && c != 'X'
  {}

  lemma ScanZero(base: nat)
    requires base == 10 || base == 0
    ensures ScanNumber("0", base) == Scan(0, 1)
  {
    var s := "0";
    assert Digits(s, 0, 8, 0) == (0, 1) && Digits(s, 0, 10, 0) == (0, 1);
  }

  lemma NotHex(s: string, i: nat)
    requires i + 1 < |s| ==> DigitValue(s[i + 1]) < 16
    ensures !HexPrefix(s, i)
  {}

  lemma ScanPlain(s: string, base: nat, n: nat)
    requires base == 10 || base == 0
    requires s != "" && !IsSpace(s[0]) && s[0] != '-' && s[0] != '+' && s[0] != '0' && !HexPrefix(s, 0)
    requires Digits(s, 0, 10, 0) == (n, |s|)
    ensures ScanNumber(s, base) == Scan(n, |s|)
  {}

  lemma ScanMinus(s: string, base: nat, n: nat)
    requires base == 10 || base == 0
    requires |s| > 1 && s[0] == '-' && s[1] != '0' && !HexPrefix(s, 1)
    requires Digits(s, 1, 10, 0) == (n, |s|)
    ensures ScanNumber(s, base) == Scan(0 - n, |s|)
  {}

  lemma ScanPositive(n: nat, base: nat, s: string)
    requires base == 10 || base == 0
    requires n > 0 && s == Numeral(n, 10)
    ensures ScanNumber(s, base) == Scan(n, |s|)
  {
    NumeralDigits(n, 10);
    FirstDigit(s[0]);
    NotHex(s, 0);
    DigitsNumeral("", n, 10);
    assert "" + s == s;
    ScanPlain(s, base, n);
  }

  lemma ScanNegative(n: nat, base: nat, s: string)
    requires base == 10 || base == 0
    requires n > 0 && s == "-" + Numeral(n, 10)
    ensures ScanNumber(s, base) == Scan(0 - n, |s|)
  {
    NumeralDigits(n, 10);
    assert s[1] == Numeral(n, 10)[0];
    if 2 < |s| { assert s[2] == Numeral(n, 10)[1]; }
    NotHex(s, 1);
    DigitsNumeral("-", n, 10);
    ScanMinus(s, base, n);
  }

  lemma DecimalLast(n: int)
    ensures Decimal(n) != "" && IsXDigit(Decimal(n)[|Decimal(n)| - 1])
  {
    NumeralLast(if n < 0 then -n else n, 10);
  }

  /** `strtoll` with base 10 or with the base left open reads a decimal number. */
  lemma ScanDecimal(n: int, base: nat)
    requires base == 10 || base == 0
    ensures ScanNumber(Decimal(n), base) == Scan(n, |Decimal(n)|)
  {
    if n < 0 {
      ScanNegative(-n, base, Decimal(n));
    } else if n == 0 {
      ScanZero(base);
    } else {
      ScanPositive(n, base, Numeral(n, 10));
    }
  }

  /** Base 16 reads hexadecimal digits, after "0x" or without it; left open, only after "0x". */
  lemma ScanPlainHex(n: nat, s: string)
    requires s == Numeral(n, 16)
    ensures ScanNumber(s, 16) == Scan(n, |s|)
  {
    NumeralDigits(n, 16);
    FirstDigit(s[0]);
    if 1 < |s| { FirstDigit(s[1]); }
    DigitsNumeral("", n, 16);
    assert "" + s == s;
  }

  lemma ScanHex(n: nat, base: nat, s: string)
    requires base == 16 || base == 0
    requires s == "0x" + Numeral(n, 16)
    ensures ScanNumber(s, base) == Scan(n, |s|)
  {
    NumeralDigits(n, 16);
    assert s[0] == '0' && s[1] == 'x' && s[2] == Numeral(n, 16)[0];
    assert HexPrefix(s, 0) && SkipSpaces(s, 0) == 0;
    DigitsNumeral("0x", n, 16);
  }

  // ----- comparisons -----

  /** Hexadecimal text, with and without the prefix. */
  function Hexadecimal(n: nat, prefixed: bool): string { (if prefixed then "0x" else "") + Numeral(n, 16) }

  /** The text of an int symbol stands for its number exactly when that fits in 64 bits. */
  lemma ParseDecimal(n: int, ty: SymType)
    requires ty.Int? || ty.Str? || ty.Unknown?
    ensures ParseString(Decimal(n), ty) == if LL_MIN <= n <= LL_MAX then AsSigned(n) else AsString
  {
    ScanDecimal(n, if ty.Int? then 10 else 0);
    DecimalLast(n);
  }

  lemma ParseHexadecimal(n: nat, prefixed: bool)
    ensures ParseString(Hexadecimal(n, prefixed), Hex) == if n <= ULL_MAX then AsUnsigned(n) else AsString
  {
    var s := Hexadecimal(n, prefixed);
    NumeralLast(n, 16);
    if prefixed {
      ScanHex(n, 16, s);
    } else {
      assert s == Numeral(n, 16);
      ScanPlainHex(n, s);
    }
    ParsedHex(s, n);
  }

  lemma ParsedHex(s: string, n: nat)
    requires ScanNumber(s, 16) == Scan(n, |s|) && s != "" && IsXDigit(s[|s| - 1])
    ensures ParseString(s, Hex) == if n <= ULL_MAX then AsUnsigned(n) else AsString
  {
    if n <= ULL_MAX { assert n % ULL_MODULUS == n; }
  }

  predicate Relates(rel: Rel, a: int, b: int) {
    match rel
    case Equal => a == b
    case Unequal => a != b
    case Lth => a < b
    case Leq => a <= b
    case Gth => b < a
    case Geq => b <= a
  }

  /** Decimal texts, at least one of them not of a string symbol, compare as numbers. */
  lemma IntegersCompare(rel: Rel, a: int, ty1: SymType, b: int, ty2: SymType)
    requires ty1.Int? && (ty2.Int? || ty2.Str? || ty2.Unknown?)
    requires LL_MIN <= a <= LL_MAX && LL_MIN <= b <= LL_MAX
    ensures rel.Holds(CompareValues(Decimal(a), ty1, Decimal(b), ty2)) == Relates(rel, a, b)
    ensures rel.Holds(CompareValues(Decimal(b), ty2, Decimal(a), ty1)) == Relates(rel, b, a)
  {
    ParseDecimal(a, ty1);
    ParseDecimal(b, ty2);
  }

  lemma SignRelates(rel: Rel, a: int, b: int)
    ensures rel.Holds(Sign(a, b)) == Relates(rel, a, b)
  {}

  lemma CompareParsed(s: string, ty1: SymType, t: string, ty2: SymType, p1: Parsed, p2: Parsed)
    requires ParseString(s, ty1) == p1 && ParseString(t, ty2) == p2
    requires !(ty1.Str? && ty2.Str?) && !p1.AsString? && !p2.AsString? && (p1.AsUnsigned? || p2.AsUnsigned?)
    ensures CompareValues(s, ty1, t, ty2) == Sign(p1.Raw() % ULL_MODULUS, p2.Raw() % ULL_MODULUS)
  {}

  lemma Wrapped(a: int)
    requires -ULL_MODULUS <= a <= ULL_MAX
    ensures a % ULL_MODULUS == if a < 0 then a + ULL_MODULUS else a
  {}

  lemma HexCompare(rel: Rel, a: nat, p: bool, b: nat, q: bool)
    requires a <= ULL_MAX && b <= ULL_MAX
    ensures rel.Holds(CompareValues(Hexadecimal(a, p), Hex, Hexadecimal(b, q), Hex)) == Relates(rel, a, b)
  {
    ParseHexadecimal(a, p);
    ParseHexadecimal(b, q);
    CompareParsed(Hexadecimal(a, p), Hex, Hexadecimal(b, q), Hex, AsUnsigned(a), AsUnsigned(b));
    Wrapped(a);
    Wrapped(b);
    SignRelates(rel, a, b);
  }

  /** Against a hexadecimal number, a negative one counts from 2^64 down. */
  lemma MixedCompare(rel: Rel, a: int, b: nat, q: bool)
    requires LL_MIN <= a <= LL_MAX && b <= ULL_MAX
    ensures rel.Holds(CompareValues(Decimal(a), Int, Hexadecimal(b, q), Hex)) == Relates(rel, if a < 0 then a + ULL_MODULUS else a, b)
  {
    ParseDecimal(a, Int);
    ParseHexadecimal(b, q);
    CompareParsed(Decimal(a), Int, Hexadecimal(b, q), Hex, AsSigned(a), AsUnsigned(b));
    Wrapped(a);
    Wrapped(b);
    SignRelates(rel, if a < 0 then a + ULL_MODULUS else a, b);
  }

  /** An int symbol compared with another, or with a number written in the configuration. */
  lemma ComparisonMeans(v: Valuation, rel: Rel, x: Sym, y: Sym, a: int, b: int)
    requires x.Type().Int? && (y.Type().Int? || y.Type().Str? || y.Type().Unknown?)
    requires StrOf(v, x) == Decimal(a) && StrOf(v, y) == Decimal(b)
    requires LL_MIN <= a <= LL_MAX && LL_MIN <= b <= LL_MAX
    ensures Eval(InterpOf(v), Comp(rel, x, y)) == if Relates(rel, a, b) then YES else NO
    ensures Eval(InterpOf(v), Comp(rel, y, x)) == if Relates(rel, b, a) then YES else NO
  {
    IntegersCompare(rel, a, Int, b, y.Type());
  }

  lemma HexComparisonMeans(v: Valuation, rel: Rel, x: Sym, y: Sym, a: nat, p: bool, b: nat, q: bool)
    requires x.Type().Hex? && y.Type().Hex?
    requires StrOf(v, x) == Hexadecimal(a, p) && StrOf(v, y) == Hexadecimal(b, q)
    requires a <= ULL_MAX && b <= ULL_MAX
    ensures Eval(InterpOf(v), Comp(rel, x, y)) == if Relates(rel, a, b) then YES else NO
  {
    HexCompare(rel, a, p, b, q);
  }

  // ----- bool and tristate symbols -----

  lemma LetterOrdinal(t: Tri)
    ensures TristateOrdinal(Letter(t)) == t
  {
    assert "n"[0] != "m"[0] && "n"[0] != "y"[0] && "m"[0] != "y"[0];
  }

  /** Two bool or tristate symbols compare as n < m < y. */
  lemma LogicalCompare(v: Valuation, rel: Rel, x: Sym, y: Sym)
    requires Consistent(v) && x.Logical() && y.Logical()
    ensures Eval(InterpOf(v), Comp(rel, x, y)) == if Relates(rel, TriOf(v, x), TriOf(v, y)) then YES else NO
  {
    assert StringValue(v, x) == Letter(TriOf(v, x)) && StringValue(v, y) == Letter(TriOf(v, y));
    LetterOrdinal(TriOf(v, x));
    LetterOrdinal(TriOf(v, y));
    SignRelates(rel, TriOf(v, x), TriOf(v, y));
  }

  /** The place of a letter in the alphabet. */
  function Place(t: Tri): nat { if t == MOD then 0 else if t == NO then 1 else 2 }

  lemma LettersCompare(t: Tri, u: Tri)
    ensures StrCmp(Letter(t), Letter(u)) == Sign(Place(t), Place(u))
  {
    assert "m"[0] < "n"[0] < "y"[0];
  }

  /** Against the constants y, m and n the text is compared, so there m < n < y. */
  lemma ConstantCompare(v: Valuation, rel: Rel, x: Sym, t: Tri)
    requires Consistent(v) && x.Logical()
    ensures Eval(InterpOf(v), Comp(rel, x, ConstFor(t))) == if Relates(rel, Place(TriOf(v, x)), Place(t)) then YES else NO
  {
    ConstantsAreStrings(t);
    assert StringValue(v, ConstFor(t)) == Letter(t);
    assert StringValue(v, x) == Letter(TriOf(v, x));
    LettersCompare(TriOf(v, x), t);
    SignRelates(rel, Place(TriOf(v, x)), Place(t));
  }

  // ----- text -----

  /** Dictionary order: `a` ends first, or has the smaller character where the two first differ. */
  ghost predicate Before(a: string, b: string) {
    exists i :: 0 <= i <= |a| && i < |b| && Splits(a, b, i)
  }

  predicate Splits(a: string, b: string, i: nat) {
    i <= |a| && i < |b| && a[..i] == b[..i] && (i == |a| || a[i] < b[i])
  }

  lemma {:induction false} StrCmpOrder(a: string, b: string)
    ensures StrCmp(a, b) < 0 <==> Before(a, b)
    ensures StrCmp(a, b) > 0 <==> Before(b, a)
  {
    if a == "" || b == "" || a[0] != b[0] {
      assert Splits(a, b, 0) || Splits(b, a, 0) || a == b;
    } else {
      StrCmpOrder(a[1..], b[1..]);
      BeforeRest(a, b);
      BeforeRest(b, a);
    }
  }

  lemma BeforeRest(a: string, b: string)
    requires a != "" && b != "" && a[0] == b[0]
    ensures Before(a, b) <==> Before(a[1..], b[1..])
  {
    if Before(a, b) {
      var i :| 0 <= i <= |a| && i < |b| && Splits(a, b, i);
      assert i > 0;
      assert a[1..][..i - 1] == a[..i][1..] && b[1..][..i - 1] == b[..i][1..];
      assert Splits(a[1..], b[1..], i - 1);
    }
    if Before(a[1..], b[1..]) {
      var i :| 0 <= i <= |a[1..]| && i < |b[1..]| && Splits(a[1..], b[1..], i);
      assert a[..i + 1] == [a[0]] + a[1..][..i] && b[..i + 1] == [b[0]] + b[1..][..i];
      assert Splits(a, b, i + 1);
    }
  }

  /** String symbols compare in dictionary order, whatever they look like. */
  lemma StringsCompare(v: Valuation, x: Sym, y: Sym)
    requires x.Type().Str? && y.Type().Str?
    ensures Eval(InterpOf(v), Comp(Lth, x, y)) == YES <==> Before(StrOf(v, x), StrOf(v, y))
    ensures Eval(InterpOf(v), Comp(Gth, x, y)) == YES <==> Before(StrOf(v, y), StrOf(v, x))
    ensures Eval(InterpOf(v), Comp(Equal, x, y)) == YES <==> StrOf(v, x) == StrOf(v, y)
  {
    StrCmpOrder(StrOf(v, x), StrOf(v, y));
  }
}
