/**
  Character-level operations the scripts use on date strings and file names:
  Python's ordering of `str` values, `s.split(sep)[0]`, `s.replace(c, '')`,
  and decimal formatting of non-negative integers (`str(n)`, `f'{n:02d}'`).
*/
module Text {

  // ---------------------------------------------------------------------------
  // Ordering of strings
  // ---------------------------------------------------------------------------

  /** Python's `a < b` on `str` (and numpy's on unicode arrays): lexicographic
      by code point, a proper prefix sorting before the longer string. */
  predicate LexLess(a: string, b: string)
    decreases |a|
  {
    if |a| == 0 then |b| > 0
    else if |b| == 0 then false
    else a[0] < b[0] || (a[0] == b[0] && LexLess(a[1..], b[1..]))
  }

  lemma {:induction false} LexLessIrreflexive(a: string)
    ensures !LexLess(a, a)
    decreases |a|
  {
    if |a| > 0 {
      LexLessIrreflexive(a[1..]);
    }
  }

  lemma {:induction false} LexLessTransitive(a: string, b: string, c: string)
    requires LexLess(a, b) && LexLess(b, c)
    ensures LexLess(a, c)
    decreases |a|
  {
    if |a| > 0 && a[0] == b[0] && b[0] == c[0] {
      LexLessTransitive(a[1..], b[1..], c[1..]);
    }
  }

  /** Any two strings are equal or ordered one way round. */
  lemma {:induction false} LexLessTotal(a: string, b: string)
    ensures a == b || LexLess(a, b) || LexLess(b, a)
    decreases |a|
  {
    if |a| > 0 && |b| > 0 && a[0] == b[0] {
      LexLessTotal(a[1..], b[1..]);
      if a[1..] == b[1..] {
        assert a == [a[0]] + a[1..] && b == [b[0]] + b[1..];
      }
    }
  }

  lemma LexLessAsymmetric(a: string, b: string)
    requires LexLess(a, b)
    ensures !LexLess(b, a)
  {
    if LexLess(b, a) {
      LexLessTransitive(a, b, a);
      LexLessIrreflexive(a);
    }
  }

  /** Comparing two strings that start with the same text compares what follows it. */
  lemma {:induction false} LexLessCommonPrefix(p: string, a: string, b: string)
    ensures LexLess(p + a, p + b) <==> LexLess(a, b)
    decreases |p|
  {
    if |p| > 0 {
      assert (p + a)[0] == p[0] == (p + b)[0];
      assert (p + a)[1..] == p[1..] + a;
      assert (p + b)[1..] == p[1..] + b;
      LexLessCommonPrefix(p[1..], a, b);
    } else {
      assert p + a == a && p + b == b;
    }
  }

  /** Comparing two strings whose first `|x| == |y|` characters differ is decided there. */
  lemma {:induction false} LexLessFirstDifference(x: string, y: string, a: string, b: string)
    requires |x| == |y| && x != y
    ensures LexLess(x + a, y + b) <==> LexLess(x, y)
    decreases |x|
  {
    assert |x| > 0;
    assert (x + a)[0] == x[0] && (y + b)[0] == y[0];
    if x[0] == y[0] {
      assert x == [x[0]] + x[1..] && y == [y[0]] + y[1..];
      assert x[1..] != y[1..];
      assert (x + a)[1..] == x[1..] + a;
      assert (y + b)[1..] == y[1..] + b;
      LexLessFirstDifference(x[1..], y[1..], a, b);
    }
  }

  // ---------------------------------------------------------------------------
  // split(sep)[0] and replace(c, '')
  // ---------------------------------------------------------------------------

  /** `s.split(sep)[0]`: the text of `s` before its first `sep`, or all of `s`
      when `sep` does not occur in it. */
  function BeforeFirst(s: string, sep: char): (r: string)
    ensures r <= s
    ensures sep !in r
    ensures |r| < |s| ==> s[|r|] == sep
    ensures sep !in s ==> r == s
    decreases |s|
  {
    if |s| == 0 || s[0] == sep then "" else [s[0]] + BeforeFirst(s[1..], sep)
  }

  /** `s.replace(c, '')`: `s` with every `c` deleted and every other character kept. */
  function Remove(s: string, c: char): (r: string)
    ensures c !in r
    ensures |r| <= |s|
    ensures c !in s ==> r == s
    decreases |s|
  {
    if |s| == 0 then ""
    else
      assert s == [s[0]] + s[1..];
      (if s[0] == c then "" else [s[0]]) + Remove(s[1..], c)
  }

  /** Every character other than `c` keeps its number of occurrences. */
  lemma {:induction false} RemoveKeepsOthers(s: string, c: char)
    ensures forall x | x != c :: multiset(Remove(s, c))[x] == multiset(s)[x]
    decreases |s|
  {
    if |s| > 0 {
      RemoveKeepsOthers(s[1..], c);
      assert s == [s[0]] + s[1..];
      var head := if s[0] == c then "" else [s[0]];
      assert Remove(s, c) == head + Remove(s[1..], c);
    }
  }

  /** Deleting a character keeps the surviving characters in their order. */
  lemma {:induction false} RemoveAppend(a: string, b: string, c: char)
    ensures Remove(a + b, c) == Remove(a, c) + Remove(b, c)
    decreases |a|
  {
    if |a| > 0 {
      assert (a + b)[0] == a[0];
      assert (a + b)[1..] == a[1..] + b;
      var head := if a[0] == c then "" else [a[0]];
      assert Remove(a + b, c) == head + Remove(a[1..] + b, c);
      assert Remove(a, c) == head + Remove(a[1..], c);
      RemoveAppend(a[1..], b, c);
      assert head + (Remove(a[1..], c) + Remove(b, c)) == (head + Remove(a[1..], c)) + Remove(b, c);
    } else {
      assert a + b == b;
    }
  }

  // ---------------------------------------------------------------------------
  // Decimal digits
  // ---------------------------------------------------------------------------

  predicate IsDigit(ch: char) { '0' <= ch <= '9' }

  predicate AllDigits(s: string) { forall k | 0 <= k < |s| :: IsDigit(s[k]) }

  function DigitChar(d: nat): (ch: char)
    requires d < 10
    ensures IsDigit(ch)
  {
    (48 + d) as char
  }

  function DigitValue(ch: char): (d: nat)
    requires IsDigit(ch)
    ensures d < 10
  {
    ch as int - 48
  }

  /** `int(s)` for a string of ASCII digits (the empty string reads as 0). */
  function DigitsValue(s: string): nat
    requires AllDigits(s)
    decreases |s|
  {
    if |s| == 0 then 0 else DigitsValue(s[..|s| - 1]) * 10 + DigitValue(s[|s| - 1])
  }

  /** `str(n)` for a non-negative integer: its decimal digits, no leading zero. */
  function NatToString(n: nat): (r: string)
    ensures |r| > 0 && AllDigits(r)
    decreases n
  {
    if n < 10 then [DigitChar(n)] else NatToString(n / 10) + [DigitChar(n % 10)]
  }

  function Zeros(k: nat): (r: string)
    ensures |r| == k && AllDigits(r)
  {
    seq(k, _ => '0')
  }

  /** `f'{n:0{w}d}'`: the digits of `n`, left-padded with '0' to at least `w` characters. */
  function ZeroPad(n: nat, w: nat): (r: string)
    ensures AllDigits(r)
    ensures |r| == if |NatToString(n)| < w then w else |NatToString(n)|
    ensures DigitsValue(r) == n
  {
    var digits := NatToString(n);
    var pad := if |digits| < w then w - |digits| else 0;
    NatToStringValue(n);
    ZerosValue(pad, digits);
    Zeros(pad) + digits
  }

  function Pow10(k: nat): (p: nat)
    ensures p >= 1
  {
    if k == 0 then 1 else 10 * Pow10(k - 1)
  }

  lemma {:induction false} DigitsPrefixValue(s: string, ch: char)
    requires AllDigits(s) && IsDigit(ch)
    ensures AllDigits(s + [ch]) && DigitsValue(s + [ch]) == DigitsValue(s) * 10 + DigitValue(ch)
  {
    assert (s + [ch])[..|s|] == s;
  }

  /** Reading back the digits `str(n)` prints gives `n`. */
  lemma {:induction false} NatToStringValue(n: nat)
    ensures DigitsValue(NatToString(n)) == n
    decreases n
  {
    if n >= 10 {
      NatToStringValue(n / 10);
      DigitsPrefixValue(NatToString(n / 10), DigitChar(n % 10));
    } else {
      assert NatToString(n)[..0] == [];
    }
  }

  /** `str` is injective: distinct numbers print differently. */
  lemma NatToStringInjective(m: nat, n: nat)
    requires NatToString(m) == NatToString(n)
    ensures m == n
  {
    NatToStringValue(m);
    NatToStringValue(n);
  }

  /** Leading zeros do not change the value read. */
  lemma {:induction false} ZerosValue(k: nat, s: string)
    requires AllDigits(s)
    ensures AllDigits(Zeros(k) + s) && DigitsValue(Zeros(k) + s) == DigitsValue(s)
    decreases |s|
  {
    var z := Zeros(k);
    if |s| == 0 {
      assert z + s == z;
      ZerosOnly(k);
    } else {
      var init := s[..|s| - 1];
      assert (z + s)[..|z + s| - 1] == z + init;
      assert (z + s)[|z + s| - 1] == s[|s| - 1];
      ZerosValue(k, init);
    }
  }

  lemma {:induction false} ZerosOnly(k: nat)
    ensures DigitsValue(Zeros(k)) == 0
    decreases k
  {
    if k > 0 {
      assert Zeros(k)[..k - 1] == Zeros(k - 1);
      ZerosOnly(k - 1);
    }
  }

  /** A number below 10^w prints in at most `w` digits. */
  lemma {:induction false} NatToStringLength(n: nat, w: nat)
    requires w >= 1 && n < Pow10(w)
    ensures |NatToString(n)| <= w
    decreases n
  {
    if n >= 10 {
      assert Pow10(1) == 10;
      assert w >= 2;
      assert n / 10 < Pow10(w - 1);
      NatToStringLength(n / 10, w - 1);
    }
  }

  /** Digit strings of one width are determined by their value. */
  lemma {:induction false} DigitsInjective(a: string, b: string)
    requires AllDigits(a) && AllDigits(b) && |a| == |b|
    requires DigitsValue(a) == DigitsValue(b)
    ensures a == b
    decreases |a|
  {
    if |a| > 0 {
      var n := |a| - 1;
      var va, vb := DigitsValue(a[..n]), DigitsValue(b[..n]);
      var da, db := DigitValue(a[n]), DigitValue(b[n]);
      assert va * 10 + da == vb * 10 + db;
      assert da == db && va == vb;
      DigitsInjective(a[..n], b[..n]);
      assert a == a[..n] + [a[n]] && b == b[..n] + [b[n]];
      assert a[n] == b[n] by {
        assert a[n] as int == da + 48 && b[n] as int == db + 48;
      }
    }
  }

  /** When `n` fits in `w` digits, `f'{n:0{w}d}'` is exactly `w` characters. */
  lemma ZeroPadWidth(n: nat, w: nat)
    requires w >= 1 && n < Pow10(w)
    ensures |ZeroPad(n, w)| == w
  {
    NatToStringLength(n, w);
  }

  /** The fixed-width digits of a value are the only `w`-digit string of that value. */
  lemma ZeroPadOfDigits(s: string)
    requires AllDigits(s) && |s| >= 1
    ensures ZeroPad(DigitsValue(s), |s|) == s
  {
    DigitsBound(s);
    ZeroPadWidth(DigitsValue(s), |s|);
    DigitsInjective(ZeroPad(DigitsValue(s), |s|), s);
  }

  /** A `w`-digit string reads as less than 10^w. */
  lemma {:induction false} DigitsBound(s: string)
    requires AllDigits(s)
    ensures DigitsValue(s) < Pow10(|s|)
    decreases |s|
  {
    if |s| > 0 {
      DigitsBound(s[..|s| - 1]);
    }
  }

  /** For digit strings of one width, string order is numeric order. */
  lemma {:induction false} DigitsOrder(a: string, b: string)
    requires AllDigits(a) && AllDigits(b) && |a| == |b|
    ensures LexLess(a, b) <==> DigitsValue(a) < DigitsValue(b)
    decreases |a|
  {
    if |a| > 0 {
      var n := |a| - 1;
      var a', b' := a[..n], b[..n];
      var x, y := [a[n]], [b[n]];
      assert a == a' + x && b == b' + y;
      assert DigitsValue(a) == DigitsValue(a') * 10 + DigitValue(a[n]);
      assert DigitsValue(b) == DigitsValue(b') * 10 + DigitValue(b[n]);
      DigitsOrder(a', b');
      if a' == b' {
        LexLessCommonPrefix(a', x, y);
        assert x[1..] == [] && y[1..] == [];
      } else {
        LexLessFirstDifference(a', b', x, y);
        if DigitsValue(a') == DigitsValue(b') {
          DigitsInjective(a', b');
        }
      }
    }
  }
}
