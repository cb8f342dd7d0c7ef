/**
 * Operations on Go strings that the logger relies on: the byte-wise
 * ordering used by string comparison and sort.Strings, the decimal
 * conversions of strconv.Itoa and strconv.Atoi, and filepath.Split.
 */
module Strings {
  import opened Base

  // ---------------------------------------------------------------------
  // Lexicographic order
  // ---------------------------------------------------------------------

  /** `a <= b` on Go strings: lexicographic, element by element. */
  predicate LexLe(a: string, b: string)
    decreases |a|
  {
    |a| == 0 || (|b| > 0 && (a[0] < b[0] || (a[0] == b[0] && LexLe(a[1..], b[1..]))))
  }

  /** `a < b` on Go strings. */
  predicate LexLt(a: string, b: string) {
    LexLe(a, b) && a != b
  }

  lemma {:induction false} LexLeTotal(a: string, b: string)
    ensures LexLe(a, b) || LexLe(b, a)
    decreases |a|
  {
    if |a| > 0 && |b| > 0 && a[0] == b[0] {
      LexLeTotal(a[1..], b[1..]);
    }
  }

  lemma {:induction false} LexLeAntisymmetric(a: string, b: string)
    requires LexLe(a, b) && LexLe(b, a)
    ensures a == b
    decreases |a|
  {
    if |a| > 0 {
      LexLeAntisymmetric(a[1..], b[1..]);
      assert a == [a[0]] + a[1..];
      assert b == [b[0]] + b[1..];
    }
  }

  lemma {:induction false} LexLeTransitive(a: string, b: string, c: string)
    requires LexLe(a, b) && LexLe(b, c)
    ensures LexLe(a, c)
    decreases |a|
  {
    if |a| > 0 && a[0] == b[0] && b[0] == c[0] {
      LexLeTransitive(a[1..], b[1..], c[1..]);
    }
  }

  /** Two names that share a prefix compare as their suffixes do. */
  lemma {:induction false} LexLeCommonPrefix(p: string, a: string, b: string)
    ensures LexLe(p + a, p + b) <==> LexLe(a, b)
    decreases |p|
  {
    if |p| > 0 {
      assert (p + a)[1..] == p[1..] + a;
      assert (p + b)[1..] == p[1..] + b;
      LexLeCommonPrefix(p[1..], a, b);
    } else {
      assert p + a == a && p + b == b;
    }
  }

  // ---------------------------------------------------------------------
  // Prefixes
  // ---------------------------------------------------------------------

  /** strings.HasPrefix */
  predicate HasPrefix(s: string, prefix: string) {
    |prefix| <= |s| && s[..|prefix|] == prefix
  }

  // ---------------------------------------------------------------------
  // Decimal conversion
  // ---------------------------------------------------------------------

  predicate IsDigit(c: char) {
    '0' <= c <= '9'
  }

  predicate AllDigits(s: string) {
    forall i :: 0 <= i < |s| ==> IsDigit(s[i])
  }

  function DigitChar(d: int): (c: char)
    requires 0 <= d < 10
    ensures IsDigit(c) && c as int - '0' as int == d
  {
    ('0' as int + d) as char
  }

  /** The value of a string of decimal digits. */
  function DigitsValue(s: string): nat
    requires AllDigits(s)
  {
    if |s| == 0 then 0
    else DigitsValue(s[..|s| - 1]) * 10 + (s[|s| - 1] as int - '0' as int)
  }

  /** The decimal digits of a natural number, without leading zeros. */
  function NatDecimal(n: nat): (s: string)
    ensures 1 <= |s| && AllDigits(s)
  {
    if n < 10 then [DigitChar(n)] else NatDecimal(n / 10) + [DigitChar(n % 10)]
  }

  /** strconv.Itoa: a minus sign for negative numbers, then the digits. */
  function Itoa(x: int): string {
    if x < 0 then "-" + NatDecimal(-x) else NatDecimal(x)
  }

  /** Index just past the longest prefix of `s` made of decimal digits. */
  function DigitRun(s: string): (k: nat)
    ensures k <= |s| && AllDigits(s[..k])
    ensures k < |s| ==> !IsDigit(s[k])
  {
    if |s| == 0 || !IsDigit(s[0]) then 0
    else
      var k := 1 + DigitRun(s[1..]);
      assert s[..k] == [s[0]] + s[1..][..k - 1];
      k
  }

  /**
   * strconv.Atoi on a 64-bit platform: the value it returns and whether
   * it reported no error. An optional sign, then decimal digits; the
   * value is clamped to the int64 range on overflow; a syntax error
   * yields 0. ParseUint reports the overflow as soon as the digits read
   * so far exceed the uint64 range, before it sees a later non-digit,
   * so such a string clamps instead of yielding 0.
   */
  function Atoi(s: string): (r: (int, bool))
    ensures IsInt64(r.0)
  {
    var neg := |s| > 0 && s[0] == '-';
    var body := if |s| > 0 && (s[0] == '+' || s[0] == '-') then s[1..] else s;
    var k := DigitRun(body);
    var run: int := DigitsValue(body[..k]);
    if run > MaxUint64 then (if neg then MinInt64 else MaxInt64, false)
    else if k == 0 || k < |body| then (0, false)
    else
      var v := if neg then -run else run;
      if v > MaxInt64 then (MaxInt64, false)
      else if v < MinInt64 then (MinInt64, false)
      else (v, true)
  }

  lemma {:induction false} DigitsOfNatDecimal(n: nat)
    ensures DigitsValue(NatDecimal(n)) == n
    ensures NatDecimal(n)[0] != '-' && NatDecimal(n)[0] != '+'
  {
    var s := NatDecimal(n);
    if n >= 10 {
      DigitsOfNatDecimal(n / 10);
      assert s[..|s| - 1] == NatDecimal(n / 10);
    }
  }

  /** Round trip: Atoi reads back what Itoa wrote, for every Go int. */
  lemma AtoiItoa(x: int)
    requires IsInt64(x)
    ensures Atoi(Itoa(x)) == (x, true)
  {
    var m: nat := if x < 0 then -x else x;
    var digits := NatDecimal(m);
    DigitsOfNatDecimal(m);
    var s := Itoa(x);
    var body := if |s| > 0 && (s[0] == '+' || s[0] == '-') then s[1..] else s;
    if x < 0 {
      assert s[1..] == digits;
    }
    assert body == digits;
    assert DigitRun(body) == |body|;
    assert body[..|body|] == digits;
  }

  // ---------------------------------------------------------------------
  // Paths
  // ---------------------------------------------------------------------

  /** Length of the directory part of a slash-separated path (filepath.Split). */
  function DirLength(p: string): (i: nat)
    ensures i <= |p|
    ensures i == 0 || p[i - 1] == '/'
    ensures forall j :: i <= j < |p| ==> p[j] != '/'
  {
    if |p| == 0 then 0
    else if p[|p| - 1] == '/' then |p|
    else DirLength(p[..|p| - 1])
  }

  /** The directory part of filepath.Split, trailing slash included. */
  function Dir(p: string): string {
    p[..DirLength(p)]
  }

  /** The file part of filepath.Split. */
  function BaseOf(p: string): (f: string)
    ensures Dir(p) + f == p
    ensures '/' !in f
  {
    p[DirLength(p)..]
  }
}
