/** Decimal digit strings as the app builds and reads them: `Number.prototype.toString()`
    on a non-negative integer, `parseInt(s, 10)` on a string of ASCII digits, and
    `String.prototype.padStart(2, '0')`. */
module Decimal {

  /** An ASCII digit: what `\d` and `[0-9]` match in a JavaScript regular expression. */
  predicate IsDigit(c: char) {
    '0' <= c <= '9'
  }

  predicate AllDigits(s: string) {
    forall i :: 0 <= i < |s| ==> IsDigit(s[i])
  }

  function DigitChar(d: nat): (c: char)
    requires d < 10
    ensures IsDigit(c) && DigitValue(c) == d
  {
    ('0' as int + d) as char
  }

  function DigitValue(c: char): nat
    requires IsDigit(c)
  {
    c as int - '0' as int
  }

  function Pow10(k: nat): (p: nat)
    ensures p >= 1
  {
    if k == 0 then 1 else 10 * Pow10(k - 1)
  }

  /** `n.toString()` for a non-negative integer `n`: no leading zeros, no sign. */
  function NatToString(n: nat): (s: string)
    ensures AllDigits(s)
    ensures |s| == 1 <==> n < 10
    ensures |s| == 2 <==> 10 <= n < 100
    ensures |s| >= 1 && (|s| > 1 ==> s[0] != '0')
    decreases n
  {
    if n < 10 then [DigitChar(n)] else NatToString(n / 10) + [DigitChar(n % 10)]
  }

  /** `parseInt(s, 10)` on a string of ASCII digits. The app never passes it the empty
      string (where JavaScript gives NaN); the value 0 given here for it only closes the
      recursion. */
  function ParseDecimal(s: string): nat
    requires AllDigits(s)
    decreases |s|
  {
    if s == [] then 0 else ParseDecimal(s[..|s| - 1]) * 10 + DigitValue(s[|s| - 1])
  }

  lemma AllDigitsConcat(a: string, b: string)
    requires AllDigits(a) && AllDigits(b)
    ensures AllDigits(a + b)
  {
  }

  /** Reading back what `toString` wrote gives the number. */
  lemma {:induction false} ParseNatToString(n: nat)
    ensures ParseDecimal(NatToString(n)) == n
    decreases n
  {
    if n >= 10 {
      var s := NatToString(n);
      assert s[..|s| - 1] == NatToString(n / 10);
      ParseNatToString(n / 10);
    }
  }

  /** `toString` is one-to-one. */
  lemma NatToStringInjective(a: nat, b: nat)
    requires NatToString(a) == NatToString(b)
    ensures a == b
  {
    ParseNatToString(a);
    ParseNatToString(b);
  }

  /** The value of a concatenation of digit strings. */
  lemma {:induction false} ParseConcat(a: string, b: string)
    requires AllDigits(a) && AllDigits(b)
    ensures AllDigits(a + b)
    ensures ParseDecimal(a + b) == ParseDecimal(a) * Pow10(|b|) + ParseDecimal(b)
    decreases |b|
  {
    AllDigitsConcat(a, b);
    if b == [] {
      assert a + b == a;
    } else {
      var b' := b[..|b| - 1];
      assert (a + b)[..|a + b| - 1] == a + b';
      ParseConcat(a, b');
      ShiftDigit(ParseDecimal(a), Pow10(|b'|), ParseDecimal(b'), DigitValue(b[|b| - 1]));
    }
  }

  /** Appending a digit to the lower part of a shifted number. */
  lemma ShiftDigit(x: int, p: int, y: int, d: int)
    ensures (x * p + y) * 10 + d == x * (p * 10) + (y * 10 + d)
  {
  }

  /** `s.padStart(2, '0')`: left-pad with '0' up to length two; longer strings are kept. */
  function PadStart2(s: string): (r: string)
    ensures |s| >= 2 ==> r == s
    ensures |s| < 2 ==> |r| == 2 && r[2 - |s|..] == s && forall i :: 0 <= i < 2 - |s| ==> r[i] == '0'
  {
    if |s| >= 2 then s else if |s| == 1 then "0" + s else "00"
  }

  /** Padding with zeros keeps a digit string a digit string and keeps its value. */
  lemma ParsePadStart2(s: string)
    requires AllDigits(s)
    ensures AllDigits(PadStart2(s))
    ensures ParseDecimal(PadStart2(s)) == ParseDecimal(s)
  {
    if |s| < 2 {
      ParseConcat(PadStart2(s)[..2 - |s|], s);
      assert PadStart2(s)[..2 - |s|] + s == PadStart2(s);
      var z := PadStart2(s)[..2 - |s|];
      assert z == [] || z == "0" || z == "00";
      assert ParseDecimal(z) == 0 by {
        if |z| == 2 {
          assert z[..1] == "0";
        }
      }
    }
  }

  /** A digit string without a leading zero is what `toString` writes for its value. */
  lemma {:induction false} CanonicalDigits(s: string)
    requires AllDigits(s) && s != [] && s[0] != '0'
    ensures NatToString(ParseDecimal(s)) == s
    decreases |s|
  {
    var init := s[..|s| - 1];
    var last := s[|s| - 1];
    if init == [] {
      assert s == [last];
    } else {
      CanonicalDigits(init);
      ParseNatToString(ParseDecimal(init));
      var n := ParseDecimal(s);
      assert n == ParseDecimal(init) * 10 + DigitValue(last);
      assert ParseDecimal(init) > 0 by {
        PositiveLeadingDigit(init);
      }
      assert n / 10 == ParseDecimal(init) && n % 10 == DigitValue(last);
      assert s == init + [last];
    }
  }

  lemma {:induction false} PositiveLeadingDigit(s: string)
    requires AllDigits(s) && s != [] && s[0] != '0'
    ensures ParseDecimal(s) > 0
    decreases |s|
  {
    if |s| > 1 {
      PositiveLeadingDigit(s[..|s| - 1]);
    }
  }

}
