/**
 * Decimal rendering of integers as Java's string concatenation does it
 * (`Integer.toString`: digits with no leading zero, a '-' in front of a
 * negative value), and the digit-string parser that inverts it.
 */
module Decimal {

  predicate IsDigit(c: char) { '0' <= c <= '9' }

  predicate AllDigits(s: string) {
    forall i :: 0 <= i < |s| ==> IsDigit(s[i])
  }

  function DigitChar(d: nat): (c: char)
    requires d < 10
    ensures IsDigit(c)
  {
    ('0' as int + d) as char
  }

  function DigitValue(c: char): (d: nat)
    requires IsDigit(c)
    ensures d < 10 && DigitChar(d) == c
  {
    c as int - '0' as int
  }

  /** The value of a string of decimal digits, most significant first. */
  function ParseNat(s: string): nat
    requires AllDigits(s)
  {
    if s == [] then 0 else 10 * ParseNat(s[..|s| - 1]) + DigitValue(s[|s| - 1])
  }

  /**
   * The canonical decimal form of a natural number: non-empty, digits only,
   * no leading zero, and one character exactly for the values below ten.
   */
  function NatToString(n: nat): (s: string)
    ensures 1 <= |s| && AllDigits(s)
    ensures s[0] != '0' || n == 0
    ensures n < 10 <==> |s| == 1
    decreases n
  {
    if n < 10 then [DigitChar(n)]
    else NatToString(n / 10) + [DigitChar(n % 10)]
  }

  /** Parsing is a right inverse of rendering: the digits of `n` parse back to `n`. */
  lemma {:induction false} ParseRendered(n: nat)
    ensures ParseNat(NatToString(n)) == n
    decreases n
  {
    var s := NatToString(n);
    if n < 10 {
      assert s[..|s| - 1] == [];
    } else {
      var p := NatToString(n / 10);
      assert s == p + [DigitChar(n % 10)];
      assert s[..|s| - 1] == p;
      ParseRendered(n / 10);
    }
  }

  /**
   * `Integer.toString`: a non-negative value is a canonical digit string
   * that parses back to it; a negative value is a '-' followed by a
   * canonical digit string, with no leading zero, of its magnitude.
   */
  function JavaIntToString(n: int): (s: string)
    ensures 1 <= |s|
    ensures n >= 0 ==> AllDigits(s) && ParseNat(s) == n && (s[0] != '0' || |s| == 1)
    ensures n < 0 ==> |s| >= 2 && s[0] == '-' && AllDigits(s[1..]) && s[1] != '0' && ParseNat(s[1..]) == -n
  {
    if n < 0 then
      var digits := NatToString(-n);
      ParseRendered(-n);
      var s := "-" + digits;
      assert s[1..] == digits;
      s
    else
      ParseRendered(n);
      NatToString(n)
  }

  /** Only negative values are rendered with a minus sign. */
  lemma MinusSignIffNegative(n: int)
    ensures '-' in JavaIntToString(n) <==> n < 0
  {
    var s := JavaIntToString(n);
    if n >= 0 {
      assert forall i :: 0 <= i < |s| ==> IsDigit(s[i]);
    } else {
      assert s[0] == '-';
    }
  }

  /** A leading zero does not change the value of a digit string. */
  lemma {:induction false} ParseLeadingZero(s: string)
    requires AllDigits(s)
    ensures AllDigits("0" + s) && ParseNat("0" + s) == ParseNat(s)
    decreases |s|
  {
    var z := "0" + s;
    assert forall i :: 0 <= i < |z| ==> IsDigit(z[i]);
    if s != [] {
      var p := s[..|s| - 1];
      assert z[..|z| - 1] == "0" + p;
      ParseLeadingZero(p);
    }
  }

  /** A digit string without a leading zero stands for a positive number. */
  lemma {:induction false} ParsePositive(s: string)
    requires AllDigits(s) && |s| >= 1 && s[0] != '0'
    ensures ParseNat(s) >= 1
    ensures |s| >= 2 ==> ParseNat(s) >= 10
    decreases |s|
  {
    if |s| >= 2 {
      ParsePositive(s[..|s| - 1]);
    }
  }

  /**
   * Parsing is a left inverse of rendering on canonical digit strings: a
   * digit string with no leading zero (or the single digit "0") is the
   * rendering of its own value.
   */
  lemma {:induction false} RenderParsed(s: string)
    requires AllDigits(s) && |s| >= 1 && (s[0] != '0' || |s| == 1)
    ensures NatToString(ParseNat(s)) == s
    decreases |s|
  {
    var n := ParseNat(s);
    var p := s[..|s| - 1];
    var c := s[|s| - 1];
    if |s| == 1 {
      assert p == [] && ParseNat(p) == 0;
      assert n == DigitValue(c);
      assert s == [c];
    } else {
      ParsePositive(s);
      RenderParsed(p);
      assert n / 10 == ParseNat(p) && n % 10 == DigitValue(c);
      assert s == p + [c];
    }
  }
}
