/** Decimal rendering of integers, `String.prototype.padStart`, and the
    code-point lexicographic order on strings that stands in for
    `localeCompare` when sorting period keys. */
module Text {

  predicate IsDigit(c: char) {
    '0' <= c <= '9'
  }

  predicate IsDigits(s: string) {
    forall i :: 0 <= i < |s| ==> IsDigit(s[i])
  }

  function DigitValue(c: char): (d: int)
    requires IsDigit(c)
    ensures 0 <= d < 10
  {
    c as int - '0' as int
  }

  function DigitChar(d: int): (c: char)
    requires 0 <= d < 10
    ensures IsDigit(c) && DigitValue(c) == d
  {
    ('0' as int + d) as char
  }

  /** The number a string of decimal digits denotes (most significant first). */
  function ValueOf(s: string): nat
    requires IsDigits(s)
  {
    if |s| == 0 then 0 else 10 * ValueOf(s[..|s| - 1]) + DigitValue(s[|s| - 1])
  }

  /** The shortest decimal rendering of a natural number, as `String(n)`. */
  function DecimalDigits(n: nat): (s: string)
    ensures |s| > 0 && IsDigits(s)
    ensures ValueOf(s) == n
    ensures |s| > 1 ==> s[0] != '0'
  {
    if n < 10 then [DigitChar(n)]
    else
      var s := DecimalDigits(n / 10) + [DigitChar(n % 10)];
      assert s[..|s| - 1] == DecimalDigits(n / 10);
      s
  }

  lemma SingleDigit(n: nat)
    requires n < 10
    ensures DecimalDigits(n) == [DigitChar(n)]
  {
  }

  lemma TwoDigits(n: nat)
    requires 10 <= n < 100
    ensures DecimalDigits(n) == [DigitChar(n / 10), DigitChar(n % 10)]
  {
    SingleDigit(n / 10);
  }

  lemma ValueOfTwo(a: char, b: char)
    requires IsDigit(a) && IsDigit(b)
    ensures IsDigits([a, b]) && ValueOf([a, b]) == 10 * DigitValue(a) + DigitValue(b)
  {
    assert [a, b][..1] == [a];
    assert [a][..0] == [];
    assert ValueOf([a]) == DigitValue(a);
    assert ValueOf([a, b]) == 10 * ValueOf([a]) + DigitValue(b);
  }

  /** `String(i)` for an integer `i`: a minus sign, then the digits of `|i|`. */
  function IntToString(i: int): (s: string)
    ensures |s| > 0 && (IsDigit(s[0]) || s[0] == '-')
  {
    if i < 0 then "-" + DecimalDigits(-i) else DecimalDigits(i)
  }

  /** Two different integers never render to the same string. */
  lemma IntToStringInjective(a: int, b: int)
    ensures IntToString(a) == IntToString(b) <==> a == b
  {
    if IntToString(a) == IntToString(b) {
      if a < 0 && b < 0 {
        assert DecimalDigits(-a) == IntToString(a)[1..];
        assert DecimalDigits(-b) == IntToString(b)[1..];
      } else if a >= 0 && b >= 0 {
        assert ValueOf(DecimalDigits(a)) == ValueOf(DecimalDigits(b));
      }
    }
  }

  /** `s.padStart(width, fill)` with a one-character fill string. */
  function PadStart(s: string, width: nat, fill: char): (r: string)
    ensures |r| == if |s| >= width then |s| else width
    ensures r[|r| - |s|..] == s
    ensures forall i :: 0 <= i < |r| - |s| ==> r[i] == fill
    decreases width
  {
    if |s| >= width then s else [fill] + PadStart(s, width - 1, fill)
  }

  /** Code-point lexicographic order: `a` sorts strictly before `b`. */
  predicate LexLess(a: string, b: string)
    decreases |a|
  {
    if |a| == 0 then |b| > 0
    else |b| > 0 && (a[0] < b[0] || (a[0] == b[0] && LexLess(a[1..], b[1..])))
  }

  lemma LexLessIrreflexive(a: string)
    ensures !LexLess(a, a)
  {
  }

  lemma {:induction false} LexLessAsymmetric(a: string, b: string)
    ensures !(LexLess(a, b) && LexLess(b, a))
    decreases |a|
  {
    if |a| > 0 && |b| > 0 && a[0] == b[0] {
      LexLessAsymmetric(a[1..], b[1..]);
    }
  }

  lemma {:induction false} LexLessTransitive(a: string, b: string, c: string)
    requires LexLess(a, b) && LexLess(b, c)
    ensures LexLess(a, c)
    decreases |a|
  {
    if |a| > 0 && a[0] == b[0] && b[0] == c[0] {
      LexLessTransitive(a[1..], b[1..], c[1..]);
    }
  }

  lemma {:induction false} LexLessTotal(a: string, b: string)
    ensures a == b || LexLess(a, b) || LexLess(b, a)
    decreases |a|
  {
    if |a| > 0 && |b| > 0 && a[0] == b[0] {
      LexLessTotal(a[1..], b[1..]);
      if a[1..] == b[1..] {
        assert a == [a[0]] + a[1..] && b == [b[0]] + b[1..];
      }
    }
  }

  /** Comparing `a + b` with `c + d` where `a` and `c` have equal length:
      decided by `a` against `c` first, and by `b` against `d` on a tie. */
  lemma {:induction false} LexLessAppend(a: string, b: string, c: string, d: string)
    requires |a| == |c|
    ensures LexLess(a + b, c + d) <==> LexLess(a, c) || (a == c && LexLess(b, d))
    decreases |a|
  {
    if |a| == 0 {
      assert a + b == b && c + d == d;
    } else {
      assert (a + b)[0] == a[0] && (c + d)[0] == c[0];
      assert (a + b)[1..] == a[1..] + b && (c + d)[1..] == c[1..] + d;
      LexLessAppend(a[1..], b, c[1..], d);
      if a[0] == c[0] && a[1..] == c[1..] {
        assert a == [a[0]] + a[1..] && c == [c[0]] + c[1..];
      }
    }
  }

  /** On digit strings of equal width, lexicographic order is numeric order. */
  lemma {:induction false} DigitsOrder(s: string, t: string)
    requires IsDigits(s) && IsDigits(t) && |s| == |t|
    ensures LexLess(s, t) <==> ValueOf(s) < ValueOf(t)
    decreases |s|
  {
    if |s| > 0 {
      var n := |s| - 1;
      var p, q := s[..n], t[..n];
      assert s == p + [s[n]] && t == q + [t[n]];
      LexLessAppend(p, [s[n]], q, [t[n]]);
      DigitsOrder(p, q);
      DigitsOrder(q, p);
      LexLessTotal(p, q);
      LexLessAsymmetric(p, q);
      assert LexLess([s[n]], [t[n]]) <==> s[n] < t[n];
    }
  }
}
