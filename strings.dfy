/**
 * JavaScript string behaviour that the archive scripts rely on: the
 * whitespace class of `\s` and `trim()`, `'' + n` for integers,
 * `padStart`, and the default `Array.prototype.sort` order on strings
 * (comparison of code units, here of characters).
 */
module Strings {

  /** The characters JavaScript counts as white space (`\s`, `trim`). */
  predicate IsJsSpace(c: char) {
    || c == '\t' || c == '\n' || c == '\U{000B}' || c == '\U{000C}' || c == '\r'
    || c == ' ' || c == '\U{00A0}' || c == '\U{1680}'
    || ('\U{2000}' <= c <= '\U{200A}')
    || c == '\U{2028}' || c == '\U{2029}' || c == '\U{202F}' || c == '\U{205F}'
    || c == '\U{3000}' || c == '\U{FEFF}'
  }

  /** The characters the regular-expression `.` does not match: the line terminators. */
  predicate NotTerminator(c: char) {
    c != '\n' && c != '\r' && c != '\U{2028}' && c != '\U{2029}'
  }

  predicate AllSpace(s: string) {
    forall i :: 0 <= i < |s| ==> IsJsSpace(s[i])
  }

  function TrimStart(s: string): (r: string)
    ensures |r| <= |s|
    ensures r == [] || !IsJsSpace(r[0])
    ensures AllSpace(s[..|s| - |r|])
  {
    if s != [] && IsJsSpace(s[0]) then TrimStart(s[1..]) else s
  }

  function TrimEnd(s: string): (r: string)
    ensures |r| <= |s|
    ensures r == [] || !IsJsSpace(r[|r| - 1])
    ensures AllSpace(s[|r|..])
  {
    if s != [] && IsJsSpace(s[|s| - 1]) then TrimEnd(s[..|s| - 1]) else s
  }

  /** Trimming the start leaves a suffix. */
  lemma {:induction false} TrimStartSuffix(s: string)
    ensures TrimStart(s) == s[|s| - |TrimStart(s)|..]
  {
    if s != [] && IsJsSpace(s[0]) {
      TrimStartSuffix(s[1..]);
      var t := TrimStart(s);
      assert s[1..][|s| - 1 - |t|..] == s[|s| - |t|..];
    }
  }

  /** Trimming the end leaves a prefix. */
  lemma {:induction false} TrimEndPrefix(s: string)
    ensures TrimEnd(s) == s[..|TrimEnd(s)|]
  {
    if s != [] && IsJsSpace(s[|s| - 1]) {
      TrimEndPrefix(s[..|s| - 1]);
      var t := TrimEnd(s);
      assert s[..|s| - 1][..|t|] == s[..|t|];
    }
  }

  /** `s.trim()` */
  function Trim(s: string): string {
    TrimEnd(TrimStart(s))
  }

  lemma {:induction false} TrimEndEmptyIffBlank(s: string)
    ensures TrimEnd(s) == [] <==> AllSpace(s)
  {
    if s != [] && IsJsSpace(s[|s| - 1]) {
      TrimEndEmptyIffBlank(s[..|s| - 1]);
      assert AllSpace(s) <==> AllSpace(s[..|s| - 1]) by {
        if AllSpace(s[..|s| - 1]) {
          forall i | 0 <= i < |s| ensures IsJsSpace(s[i]) {
            if i < |s| - 1 {
              assert s[..|s| - 1][i] == s[i];
            }
          }
        }
      }
    }
  }

  lemma TrimStartBlank(s: string)
    ensures AllSpace(TrimStart(s)) <==> AllSpace(s)
  {
    var t := TrimStart(s);
    var k := |s| - |t|;
    TrimStartSuffix(s);
    assert s == s[..k] + t;
    if AllSpace(t) {
      forall i | 0 <= i < |s| ensures IsJsSpace(s[i]) {
        assert s[..k][i] == s[i];
      }
    }
  }

  /** `line.trim() === ''` holds exactly of the lines made of white space only. */
  lemma TrimEmptyIffBlank(s: string)
    ensures Trim(s) == [] <==> AllSpace(s)
  {
    TrimEndEmptyIffBlank(TrimStart(s));
    TrimStartBlank(s);
  }

  predicate IsDigit(c: char) { '0' <= c <= '9' }

  /**
   * `s` matches a pattern such as `dddd-dd-dd.json` whole: each `d`
   * stands for one of `[0-9]`, every other character for itself.
   */
  predicate DigitPattern(s: string, pattern: string)
    decreases |s|
  {
    |s| == |pattern| &&
    (s == [] || (PatternChar(s[0], pattern[0]) && DigitPattern(s[1..], pattern[1..])))
  }

  predicate PatternChar(c: char, p: char) {
    if p == 'd' then IsDigit(c) else c == p
  }

  predicate AllDigits(s: string) {
    forall i :: 0 <= i < |s| ==> IsDigit(s[i])
  }

  /** Each character of a string that matches a pattern matches the pattern's character at its place. */
  lemma {:induction false} DigitPatternAt(s: string, pattern: string, i: nat)
    requires DigitPattern(s, pattern) && i < |s|
    ensures |s| == |pattern| && PatternChar(s[i], pattern[i])
    decreases i
  {
    if i > 0 {
      DigitPatternAt(s[1..], pattern[1..], i - 1);
    }
  }

  function DigitChar(d: nat): (c: char)
    requires d < 10
    ensures IsDigit(c) && (c as int) - ('0' as int) == d
  {
    (('0' as int) + d) as char
  }

  /** The decimal numeral of a natural number, as `'' + n` prints it. */
  function Decimal(n: nat): string {
    if n < 10 then [DigitChar(n)] else Decimal(n / 10) + [DigitChar(n % 10)]
  }

  /** A numeral is a non-empty run of digits, one digit per power of ten. */
  lemma {:induction false} DecimalShape(n: nat)
    ensures var r := Decimal(n);
      && 1 <= |r| && AllDigits(r)
      && (n < 10 <==> |r| == 1)
      && (10 <= n < 100 ==> |r| == 2)
      && (100 <= n < 1000 ==> |r| == 3)
      && (1000 <= n < 10000 ==> |r| == 4)
  {
    if n >= 10 {
      DecimalShape(n / 10);
      var r := Decimal(n);
      assert r == Decimal(n / 10) + [DigitChar(n % 10)];
      assert forall i :: 0 <= i < |r| - 1 ==> r[i] == Decimal(n / 10)[i];
    }
  }

  /** `'' + i` for any integer: a leading `-` for negative values. */
  function IntToString(i: int): string {
    if i < 0 then "-" + Decimal(-i) else Decimal(i)
  }

  /** The value of a string of decimal digits. */
  function DigitsValue(s: string): nat
    requires AllDigits(s)
  {
    if s == [] then 0
    else DigitsValue(s[..|s| - 1]) * 10 + ((s[|s| - 1] as int) - ('0' as int))
  }

  /** Digit strings of one length with the same value are the same string. */
  lemma {:induction false} DigitsValueInjective(a: string, b: string)
    requires AllDigits(a) && AllDigits(b) && |a| == |b| && DigitsValue(a) == DigitsValue(b)
    ensures a == b
    decreases |a|
  {
    if a != [] {
      var n := |a| - 1;
      DivTen(DigitsValue(a[..n]), (a[n] as int) - ('0' as int), DigitsValue(b[..n]), (b[n] as int) - ('0' as int));
      DigitsValueInjective(a[..n], b[..n]);
      assert a == a[..n] + [a[n]] && b == b[..n] + [b[n]];
    }
  }

  /** A number written with one decimal digit last has that digit and the rest as quotient. */
  lemma DivTen(q1: int, r1: int, q2: int, r2: int)
    requires 0 <= r1 < 10 && 0 <= r2 < 10 && q1 * 10 + r1 == q2 * 10 + r2
    ensures q1 == q2 && r1 == r2
  {
  }

  /** Four digits not starting with `0` are worth 1000 to 9999. */
  lemma FourDigits(s: string)
    requires |s| == 4 && AllDigits(s) && s[0] != '0'
    ensures 1000 <= DigitsValue(s) <= 9999
  {
    assert s[..3][..2] == s[..2] && s[..2][..1] == s[..1] && s[..1][..0] == [];
    assert 1 <= DigitsValue(s[..1]) <= 9;
    assert 10 <= DigitsValue(s[..2]) <= 99;
    assert 100 <= DigitsValue(s[..3]) <= 999;
  }

  lemma {:induction false} DecimalRoundTrip(n: nat)
    ensures AllDigits(Decimal(n)) && DigitsValue(Decimal(n)) == n
  {
    DecimalShape(n);
    if n >= 10 {
      var r := Decimal(n);
      assert r[..|r| - 1] == Decimal(n / 10);
      DecimalRoundTrip(n / 10);
    }
  }

  /** Reads back what `IntToString` printed. */
  function ParseInt(s: string): int
    requires (s != [] && s[0] == '-' && AllDigits(s[1..])) || AllDigits(s)
  {
    if s != [] && s[0] == '-' then 0 - DigitsValue(s[1..]) else DigitsValue(s)
  }

  lemma IntToStringRoundTrip(i: int)
    ensures var s := IntToString(i);
      ((s != [] && s[0] == '-' && AllDigits(s[1..])) || AllDigits(s)) && ParseInt(s) == i
  {
    if i < 0 {
      assert IntToString(i)[1..] == Decimal(-i);
      DecimalRoundTrip(-i);
    } else {
      DecimalRoundTrip(i);
    }
  }

  function Repeat(c: char, n: nat): (r: string)
    ensures |r| == n && forall i :: 0 <= i < n ==> r[i] == c
  {
    if n == 0 then [] else [c] + Repeat(c, n - 1)
  }

  /** `s.padStart(width, fill)` for a one-character fill. */
  function PadStart(s: string, width: nat, fill: char): string {
    if |s| >= width then s else Repeat(fill, width - |s|) + s
  }

  /** The padded string ends with `s`, preceded by as many `fill` as make up `width`. */
  lemma PadStartShape(s: string, width: nat, fill: char)
    ensures var r := PadStart(s, width, fill);
      && |r| == (if |s| >= width then |s| else width)
      && r[|r| - |s|..] == s
      && forall i :: 0 <= i < |r| - |s| ==> r[i] == fill
  {
  }

  predicate StartsWith(s: string, p: string) {
    |p| <= |s| && s[..|p|] == p
  }

  predicate EndsWith(s: string, p: string) {
    |p| <= |s| && s[|s| - |p|..] == p
  }

  /** `a <= b` on strings: lexicographic order of the characters. */
  predicate LessEq(a: string, b: string)
    decreases |a|
  {
    a == [] || (b != [] && (a[0] < b[0] || (a[0] == b[0] && LessEq(a[1..], b[1..]))))
  }

  /** `a < b` on strings. */
  predicate Less(a: string, b: string) {
    LessEq(a, b) && a != b
  }

  lemma {:induction false} LessEqReflexive(a: string)
    ensures LessEq(a, a)
  {
    if a != [] {
      LessEqReflexive(a[1..]);
    }
  }

  lemma {:induction false} LessEqTotal(a: string, b: string)
    ensures LessEq(a, b) || LessEq(b, a)
  {
    if a != [] && b != [] && a[0] == b[0] {
      LessEqTotal(a[1..], b[1..]);
    }
  }

  lemma {:induction false} LessEqAntisymmetric(a: string, b: string)
    requires LessEq(a, b) && LessEq(b, a)
    ensures a == b
  {
    if a != [] && b != [] {
      LessEqAntisymmetric(a[1..], b[1..]);
      assert a == [a[0]] + a[1..];
      assert b == [b[0]] + b[1..];
    }
  }

  lemma {:induction false} LessEqTransitive(a: string, b: string, c: string)
    requires LessEq(a, b) && LessEq(b, c)
    ensures LessEq(a, c)
  {
    if a != [] && a[0] == b[0] && b[0] == c[0] {
      LessEqTransitive(a[1..], b[1..], c[1..]);
    }
  }

  /** Lexicographic order agrees with the order of a common prefix's successors. */
  lemma {:induction false} LessEqAfterPrefix(p: string, a: string, b: string)
    ensures LessEq(p + a, p + b) <==> LessEq(a, b)
  {
    if p == [] {
      assert p + a == a && p + b == b;
    } else {
      assert (p + a)[1..] == p[1..] + a;
      assert (p + b)[1..] == p[1..] + b;
      LessEqAfterPrefix(p[1..], a, b);
    }
  }

  /** Two strings of equal length first differing at `k` are ordered by position `k`. */
  lemma {:induction false} LessEqAtFirstDifference(a: string, b: string, k: nat)
    requires |a| == |b| && k < |a| && a[..k] == b[..k] && a[k] != b[k]
    ensures LessEq(a, b) <==> a[k] < b[k]
  {
    if k > 0 {
      assert a[0] == a[..k][0] && b[0] == b[..k][0];
      assert a[1..][..k - 1] == a[..k][1..];
      assert b[1..][..k - 1] == b[..k][1..];
      LessEqAtFirstDifference(a[1..], b[1..], k - 1);
    }
  }

  predicate Sorted(s: seq<string>) {
    forall i, j :: 0 <= i < j < |s| ==> LessEq(s[i], s[j])
  }

  /** Places `x` before the first element it does not exceed. */
  function Insert(x: string, s: seq<string>): (r: seq<string>)
    ensures |r| == |s| + 1 && multiset(r) == multiset(s) + multiset{x}
  {
    if s == [] || LessEq(x, s[0]) then [x] + s
    else
      assert s == [s[0]] + s[1..];
      [s[0]] + Insert(x, s[1..])
  }

  /** Inserting an element at or above `b` among elements at or above `b` keeps them so. */
  lemma {:induction false} InsertAbove(x: string, s: seq<string>, b: string)
    requires LessEq(b, x) && forall k :: 0 <= k < |s| ==> LessEq(b, s[k])
    ensures forall k :: 0 <= k < |Insert(x, s)| ==> LessEq(b, Insert(x, s)[k])
  {
    if s != [] && !LessEq(x, s[0]) {
      var t := Insert(x, s[1..]);
      forall k | 0 <= k < |s| - 1 ensures LessEq(b, s[1..][k]) {
        assert s[1..][k] == s[k + 1];
      }
      InsertAbove(x, s[1..], b);
      var r := [s[0]] + t;
      assert Insert(x, s) == r;
      forall k | 0 <= k < |r| ensures LessEq(b, r[k]) {
        if k == 0 {
          assert r[k] == s[0];
        } else {
          assert r[k] == t[k - 1];
        }
      }
    }
  }

  lemma {:induction false} InsertSorted(x: string, s: seq<string>)
    requires Sorted(s)
    ensures Sorted(Insert(x, s))
  {
    if s == [] || LessEq(x, s[0]) {
      var r := [x] + s;
      assert Insert(x, s) == r;
      forall i, j | 0 <= i < j < |r| ensures LessEq(r[i], r[j]) {
        assert r[j] == s[j - 1];
        if i == 0 {
          if j > 1 {
            LessEqTransitive(x, s[0], s[j - 1]);
          }
        } else {
          assert r[i] == s[i - 1];
        }
      }
    } else {
      LessEqTotal(x, s[0]);
      var rest := s[1..];
      var t := Insert(x, rest);
      InsertSorted(x, rest);
      forall k | 0 <= k < |rest| ensures LessEq(s[0], rest[k]) {
        assert rest[k] == s[k + 1];
      }
      InsertAbove(x, rest, s[0]);
      var r := [s[0]] + t;
      assert Insert(x, s) == r;
      forall i, j | 0 <= i < j < |r| ensures LessEq(r[i], r[j]) {
        assert r[j] == t[j - 1];
        if i == 0 {
          assert r[i] == s[0];
        } else {
          assert r[i] == t[i - 1];
        }
      }
    }
  }

  /** Insertion sort by `LessEq`, the order `Array.prototype.sort` uses without a comparator. */
  function Sort(s: seq<string>): (r: seq<string>)
    ensures Sorted(r) && multiset(r) == multiset(s)
  {
    if s == [] then []
    else
      assert s == [s[0]] + s[1..];
      var t := Sort(s[1..]);
      InsertSorted(s[0], t);
      Insert(s[0], t)
  }

  /** `.reverse()`. */
  function Reverse<T>(s: seq<T>): seq<T> {
    if s == [] then [] else Reverse(s[1..]) + [s[0]]
  }

  /** The reversed sequence holds the same elements back to front. */
  lemma {:induction false} ReverseIndex<T>(s: seq<T>)
    ensures |Reverse(s)| == |s| && forall i :: 0 <= i < |s| ==> Reverse(s)[i] == s[|s| - 1 - i]
  {
    if s != [] {
      ReverseIndex(s[1..]);
    }
  }

  /** `.filter(p)` over strings, keeping order. */
  function Filter(s: seq<string>, p: string -> bool): (r: seq<string>)
    ensures |r| <= |s|
    ensures forall x :: x in r <==> x in s && p(x)
  {
    if s == [] then []
    else (if p(s[0]) then [s[0]] else []) + Filter(s[1..], p)
  }
}
