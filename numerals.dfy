/** ASCII decimal numerals as Python reads and writes them: `int()` on a run
    of ASCII digits, `str()` of an integer, the `{i:04d}` zero-padded format,
    and Python's lexicographic `<` on strings. */
module Numerals {

  /** `\d` restricted to ASCII. */
  predicate IsDigit(c: char) {
    '0' <= c <= '9'
  }

  predicate AllDigits(s: string) {
    forall k :: 0 <= k < |s| ==> IsDigit(s[k])
  }

  function DigitValue(c: char): (v: nat)
    requires IsDigit(c)
    ensures v < 10
  {
    (c as int - '0' as int)
  }

  function DigitChar(d: nat): (c: char)
    requires d < 10
    ensures IsDigit(c) && DigitValue(c) == d
  {
    ('0' as int + d) as char
  }

  function Pow10(n: nat): (r: nat)
    ensures r >= 1
  {
    if n == 0 then 1 else 10 * Pow10(n - 1)
  }

  /** `int(s)` for a string of ASCII digits: leading zeros are allowed and the
      value is always below 10 to the number of digits. */
  function DecimalValue(s: string): (v: nat)
    requires AllDigits(s)
    ensures v < Pow10(|s|)
  {
    if s == [] then 0
    else
      var rest := DecimalValue(s[1..]);
      assert DigitValue(s[0]) * Pow10(|s| - 1) <= 9 * Pow10(|s| - 1);
      DigitValue(s[0]) * Pow10(|s| - 1) + rest
  }

  lemma {:induction false} DecimalValueSnoc(s: string, c: char)
    requires AllDigits(s) && IsDigit(c)
    ensures AllDigits(s + [c])
    ensures DecimalValue(s + [c]) == 10 * DecimalValue(s) + DigitValue(c)
  {
    var t := s + [c];
    assert AllDigits(t) by {
      forall k | 0 <= k < |t| ensures IsDigit(t[k]) {
        if k < |s| { assert t[k] == s[k]; }
      }
    }
    if s == [] {
      assert t == [c];
      assert t[1..] == [];
    } else {
      assert t[0] == s[0];
      assert t[1..] == s[1..] + [c];
      DecimalValueSnoc(s[1..], c);
      var x, p := DigitValue(s[0]), Pow10(|s| - 1);
      assert Pow10(|t| - 1) == 10 * p;
      assert DecimalValue(t) == x * (10 * p) + DecimalValue(s[1..] + [c]);
      assert DecimalValue(s) == x * p + DecimalValue(s[1..]);
      ScaleByTen(x, p);
    }
  }

  lemma ScaleByTen(x: nat, p: nat)
    ensures x * (10 * p) == 10 * (x * p)
  {
  }

  /** A string of `k` zero characters. */
  function Zeros(k: nat): (z: string)
    ensures |z| == k && AllDigits(z)
  {
    seq(k, _ => '0')
  }

  /** Leading zeros do not change the value `int()` reads. */
  lemma {:induction false} LeadingZerosIgnored(k: nat, s: string)
    requires AllDigits(s)
    ensures AllDigits(Zeros(k) + s)
    ensures DecimalValue(Zeros(k) + s) == DecimalValue(s)
  {
    var t := Zeros(k) + s;
    assert AllDigits(t) by {
      forall j | 0 <= j < |t| ensures IsDigit(t[j]) {
        if j < k { assert t[j] == '0'; } else { assert t[j] == s[j - k]; }
      }
    }
    if k > 0 {
      assert t[0] == '0';
      assert DigitValue(t[0]) * Pow10(|t| - 1) == 0;
      assert t[1..] == Zeros(k - 1) + s;
      LeadingZerosIgnored(k - 1, s);
    } else {
      assert t == s;
    }
  }

  /** `str(n)` for a natural number: the shortest decimal numeral of `n`,
      which reads back as `n` and has no leading zero. */
  function DecimalString(n: nat): (r: string)
    ensures |r| >= 1 && AllDigits(r)
    ensures DecimalValue(r) == n
    ensures |r| > 1 ==> r[0] != '0'
    decreases n
  {
    if n < 10 then
      var r := [DigitChar(n)];
      assert r[1..] == [];
      r
    else
      var prefix := DecimalString(n / 10);
      DecimalValueSnoc(prefix, DigitChar(n % 10));
      prefix + [DigitChar(n % 10)]
  }

  /** The numeral of `n` fits in `w` characters exactly when `n` is below
      10 to the `w`. */
  lemma {:induction false} DecimalStringFits(n: nat, w: nat)
    requires w >= 1
    ensures |DecimalString(n)| <= w <==> n < Pow10(w)
    decreases n
  {
    if n >= 10 {
      if w == 1 {
        assert Pow10(1) == 10;
      } else {
        DecimalStringFits(n / 10, w - 1);
        assert n / 10 < Pow10(w - 1) <==> n < 10 * Pow10(w - 1);
      }
    } else {
      PowAtLeastTen(w);
    }
  }

  lemma {:induction false} PowAtLeastTen(w: nat)
    requires w >= 1
    ensures Pow10(w) >= 10
  {
    if w > 1 { PowAtLeastTen(w - 1); }
  }

  /** `str(d)` for a signed integer, as used for the `--density` argument. */
  function IntText(d: int): (r: string)
    ensures |r| >= 1
    ensures r[0] == '-' <==> d < 0
    ensures d >= 0 ==> AllDigits(r) && DecimalValue(r) == d
    ensures d < 0 ==> AllDigits(r[1..]) && DecimalValue(r[1..]) == -d
    ensures d >= 0 && |r| > 1 ==> r[0] != '0'
    ensures d < 0 ==> |r| >= 2 && (|r| > 2 ==> r[1] != '0')
  {
    if d < 0 then
      var r := "-" + DecimalString(-d);
      assert r[1..] == DecimalString(-d);
      r
    else DecimalString(d)
  }

  /** `{i:04d}` for a non-negative integer: the numeral of `i`, left-padded
      with zeros to width 4 (never truncated). */
  function Format04(i: nat): (r: string)
    ensures AllDigits(r)
    ensures DecimalValue(r) == i
    ensures |r| >= 4
    ensures |r| == 4 <==> i < 10000
    ensures |r| > 4 ==> r[0] != '0'
  {
    var d := DecimalString(i);
    var pad := if |d| < 4 then 4 - |d| else 0;
    LeadingZerosIgnored(pad, d);
    DecimalStringFits(i, 4);
    assert Pow10(4) == 10000;
    Zeros(pad) + d
  }

  /** Distinct indices give distinct `{i:04d}` texts. */
  lemma Format04Injective(i: nat, j: nat)
    requires Format04(i) == Format04(j)
    ensures i == j
  {
    assert DecimalValue(Format04(i)) == i;
  }

  /** Python's `<` on `str`: code point by code point, a proper prefix first. */
  predicate LexLess(a: string, b: string)
    ensures a < b ==> LexLess(a, b)
    ensures LexLess(a, b) ==> b != [] && a != b
  {
    if a == [] then b != []
    else b != [] && (a[0] < b[0] || (a[0] == b[0] && LexLess(a[1..], b[1..])))
  }

  /** On two digit strings of the same length, lexicographic order is
      numeric order. */
  lemma {:induction false} LexLessIsNumericOrder(a: string, b: string)
    requires |a| == |b| && AllDigits(a) && AllDigits(b)
    ensures LexLess(a, b) <==> DecimalValue(a) < DecimalValue(b)
  {
    if a != [] {
      var p := Pow10(|a| - 1);
      var x, y := DigitValue(a[0]), DigitValue(b[0]);
      var ra, rb := DecimalValue(a[1..]), DecimalValue(b[1..]);
      assert DecimalValue(a) == x * p + ra;
      assert DecimalValue(b) == y * p + rb;
      if a[0] < b[0] {
        LeadingDigitDecides(x, y, p, ra, rb);
      } else if a[0] > b[0] {
        LeadingDigitDecides(y, x, p, rb, ra);
      } else {
        LexLessIsNumericOrder(a[1..], b[1..]);
      }
    }
  }

  /** A smaller leading digit makes a smaller number, whatever follows. */
  lemma LeadingDigitDecides(x: nat, y: nat, p: nat, rx: nat, ry: nat)
    requires x < y && rx < p
    ensures x * p + rx < y * p + ry
  {
    assert (x + 1) * p <= y * p;
  }

  /** A common prefix does not change lexicographic order. */
  lemma {:induction false} LexLessCommonPrefix(p: string, a: string, b: string)
    ensures LexLess(p + a, p + b) <==> LexLess(a, b)
  {
    if p != [] {
      assert (p + a)[1..] == p[1..] + a;
      assert (p + b)[1..] == p[1..] + b;
      LexLessCommonPrefix(p[1..], a, b);
    } else {
      assert p + a == a && p + b == b;
    }
  }

  /** Once two strings of the same length are ordered, whatever follows
      them does not matter. */
  lemma {:induction false} LexLessExtend(x: string, y: string, s: string, t: string)
    requires |x| == |y| && LexLess(x, y)
    ensures LexLess(x + s, y + t)
  {
    assert x != [];
    if x[0] == y[0] {
      assert (x + s)[1..] == x[1..] + s;
      assert (y + t)[1..] == y[1..] + t;
      LexLessExtend(x[1..], y[1..], s, t);
    }
  }

  /** For indices below 10000 the `{i:04d}` texts sort like the indices. */
  lemma Format04Ordered(i: nat, j: nat)
    requires i < 10000 && j < 10000
    ensures LexLess(Format04(i), Format04(j)) <==> i < j
  {
    LexLessIsNumericOrder(Format04(i), Format04(j));
  }

  /** `{10000:04d}` is five digits starting with 1; `{9999:04d}` starts with 9. */
  lemma Format04AroundTenThousand()
    ensures |Format04(10000)| == 5 && Format04(10000)[0] == '1'
    ensures |Format04(9999)| == 4 && Format04(9999)[0] == '9'
  {
    var a, b := Format04(10000), Format04(9999);
    assert |a| == 5 by {
      DecimalStringFits(10000, 5);
      assert Pow10(5) == 100000;
    }
    assert a[0] == '1' by {
      assert Pow10(4) == 10000;
      assert DecimalValue(a) == DigitValue(a[0]) * 10000 + DecimalValue(a[1..]);
      assert DecimalValue(a[1..]) < Pow10(4);
    }
    assert b[0] == '9' by {
      assert Pow10(3) == 1000;
      assert DecimalValue(b) == DigitValue(b[0]) * 1000 + DecimalValue(b[1..]);
      assert DecimalValue(b[1..]) < Pow10(3);
    }
  }

  /** At 10000 the width grows and the order breaks: `{10000:04d}` sorts
      before `{9999:04d}`. */
  lemma Format04OrderBreaksAtTenThousand()
    ensures LexLess(Format04(10000), Format04(9999))
  {
    Format04AroundTenThousand();
  }

  lemma {:induction false} LexLessIrreflexive(a: string)
    ensures !LexLess(a, a)
  {
    if a != [] { LexLessIrreflexive(a[1..]); }
  }

  lemma {:induction false} LexLessAsymmetric(a: string, b: string)
    requires LexLess(a, b)
    ensures !LexLess(b, a)
  {
    if a != [] && a[0] == b[0] { LexLessAsymmetric(a[1..], b[1..]); }
  }
}
