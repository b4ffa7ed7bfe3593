/**
 * `MainActivity.formatTime`: whole seconds rendered as minutes, a colon and
 * seconds, each part given a leading "0" when it is below ten.  The
 * function is modelled for every integer with Java's truncating `/` and
 * `%`; its guarantees are stated for the non-negative inputs the progress
 * callback supplies, together with `ParseTime`, its inverse.
 */
module TimeFormat {
  import opened Wrappers
  import opened Decimal

  /** Java's `/` on a positive divisor: the quotient truncated toward zero. */
  function JavaDiv(a: int, b: int): (q: int)
    requires b > 0
    ensures a >= 0 ==> 0 <= a - b * q < b
    ensures a < 0 ==> -b < a - b * q <= 0
  {
    if a >= 0 then a / b else -((-a) / b)
  }

  /** Java's `%` on a positive divisor: the remainder takes the dividend's sign. */
  function JavaRem(a: int, b: int): (r: int)
    requires b > 0
    ensures a == b * JavaDiv(a, b) + r
    ensures a >= 0 ==> 0 <= r < b
    ensures a < 0 ==> -b < r <= 0
  {
    if a >= 0 then a % b else -((-a) % b)
  }

  /**
   * One field of the output: `n < 10 ? "0" + n : n`.  For a non-negative
   * field it is at least two digits, it starts with '0' only when it is
   * exactly two long.
   */
  function Pad(n: int): (s: string)
    ensures n >= 0 ==> AllDigits(s) && |s| >= 2
    ensures n >= 0 && s[0] == '0' ==> |s| == 2
  {
    var digits := JavaIntToString(n);
    if n < 10 then
      assert n >= 0 ==> AllDigits("0" + digits) by {
        if n >= 0 { ParseLeadingZero(digits); }
      }
      "0" + digits
    else
      digits
  }

  /** A padded non-negative field parses back to the field. */
  lemma PadParses(n: nat)
    ensures ParseNat(Pad(n)) == n
  {
    ParseRendered(n);
    if n < 10 {
      ParseLeadingZero(NatToString(n));
    }
  }

  /** A field below 100 is rendered as exactly its two decimal digits. */
  lemma PadTwoDigits(n: nat)
    requires n < 100
    ensures Pad(n) == [DigitChar(n / 10), DigitChar(n % 10)]
  {
    if n >= 10 {
      assert NatToString(n) == NatToString(n / 10) + [DigitChar(n % 10)];
    }
  }

  /** `formatTime(time)`. */
  function FormatTime(time: int): (r: string)
    ensures time >= 0 ==> |r| >= 5 && r[|r| - 3] == ':'
  {
    Pad(JavaDiv(time, 60)) + ":" + Pad(JavaRem(time, 60))
  }

  /**
   * The shape of a formatted non-negative time: at least five characters,
   * exactly one ':' (third from the end), decimal digits everywhere else,
   * and the seconds as exactly two digits.
   */
  lemma FormatShape(time: nat)
    ensures var r := FormatTime(time);
            && |r| >= 5
            && (forall i :: 0 <= i < |r| ==> (r[i] == ':' <==> i == |r| - 3))
            && (forall i :: 0 <= i < |r| && i != |r| - 3 ==> IsDigit(r[i]))
            && r[|r| - 2..] == [DigitChar(time % 60 / 10), DigitChar(time % 60 % 10)]
  {
    var m := Pad(time / 60);
    var s := Pad(time % 60);
    PadTwoDigits(time % 60);
    var r := FormatTime(time);
    assert r == m + ":" + s;
    assert r[|r| - 2..] == s;
    assert forall i :: 0 <= i < |m| ==> r[i] == m[i];
    assert forall i :: 0 <= i < |s| ==> r[|m| + 1 + i] == s[i];
  }

  /** The minutes field of a formatted time: everything before the last three characters. */
  function MinuteField(s: string): string
    requires |s| >= 3
  {
    s[..|s| - 3]
  }

  /** The seconds field of a formatted time: the last two characters. */
  function SecondField(s: string): string
    requires |s| >= 3
  {
    s[|s| - 2..]
  }

  /**
   * Reads a time back: at least one minute digit, a colon, two second
   * digits; `None` for anything else.
   */
  function ParseTime(s: string): Option<nat> {
    if |s| >= 4 && s[|s| - 3] == ':' && AllDigits(MinuteField(s)) && AllDigits(SecondField(s))
    then Some(ParseNat(MinuteField(s)) * 60 + ParseNat(SecondField(s)))
    else None
  }

  /**
   * The strings `formatTime` produces from non-negative times, with time an
   * unbounded integer (Java's `int` stops at "35791394:07"): a minutes
   * field of at least two digits that starts with '0' only when it is
   * exactly two long, a colon, and two seconds digits whose first is at
   * most '5'.
   */
  ghost predicate Canonical(s: string) {
    && |s| >= 5
    && s[|s| - 3] == ':'
    && AllDigits(MinuteField(s))
    && AllDigits(SecondField(s))
    && s[|s| - 2] <= '5'
    && (s[0] == '0' ==> |s| == 5)
  }

  /** Splitting a formatted time at its colon gives back the two padded fields. */
  lemma Fields(time: nat)
    ensures var r := FormatTime(time);
            MinuteField(r) == Pad(time / 60) && SecondField(r) == Pad(time % 60)
  {
    var m := Pad(time / 60);
    PadTwoDigits(time % 60);
    var r := FormatTime(time);
    assert r == m + ":" + Pad(time % 60);
    assert r[..|r| - 3] == m;
  }

  /** Round trip: parsing a formatted non-negative time gives the time back. */
  lemma ParseFormat(time: nat)
    ensures ParseTime(FormatTime(time)) == Some(time)
  {
    Fields(time);
    PadParses(time / 60);
    PadParses(time % 60);
  }

  /** Distinct non-negative times are formatted as distinct strings. */
  lemma FormatInjective(a: nat, b: nat)
    requires FormatTime(a) == FormatTime(b)
    ensures a == b
  {
    ParseFormat(a);
    ParseFormat(b);
  }

  /** Every non-negative time is formatted as a canonical string. */
  lemma FormatIsCanonical(time: nat)
    ensures Canonical(FormatTime(time))
  {
    Fields(time);
    PadTwoDigits(time % 60);
    var r := FormatTime(time);
    assert r[|r| - 2] == SecondField(r)[0];
    assert r[0] == MinuteField(r)[0];
  }

  /** A canonical seconds field is below sixty and is the padding of its own value. */
  lemma PadSecondField(f: string)
    requires |f| == 2 && AllDigits(f) && f[0] <= '5'
    ensures ParseNat(f) < 60 && Pad(ParseNat(f)) == f
  {
    var hi, lo := DigitValue(f[0]), DigitValue(f[1]);
    assert f[..1][..0] == [];
    assert ParseNat(f[..1]) == hi;
    var n := ParseNat(f);
    assert n == 10 * hi + lo;
    PadTwoDigits(n);
    assert n / 10 == hi && n % 10 == lo;
    assert f == [f[0], f[1]];
  }

  /** A canonical minutes field is the padding of its own value. */
  lemma PadMinuteField(f: string)
    requires |f| >= 2 && AllDigits(f) && (f[0] == '0' ==> |f| == 2)
    ensures Pad(ParseNat(f)) == f
  {
    if f[0] == '0' {
      var tail := f[1..];
      assert f == "0" + tail;
      ParseLeadingZero(tail);
      RenderParsed(tail);
    } else {
      RenderParsed(f);
      ParsePositive(f);
    }
  }

  /**
   * The other round trip: every canonical string parses, and formatting
   * the parsed time reproduces the string.  With `FormatIsCanonical` this
   * makes the canonical strings exactly the outputs on non-negative
   * unbounded times.
   */
  lemma FormatParse(s: string)
    requires Canonical(s)
    ensures ParseTime(s).Some? && FormatTime(ParseTime(s).value) == s
  {
    var time, minute, second := CanonicalFields(s);
    Rejoin(s);
  }

  /**
   * What a canonical string stands for: it parses to a time whose Java
   * quotient and remainder by sixty are two values whose paddings are
   * exactly the string's minutes and seconds fields.
   */
  lemma CanonicalFields(s: string) returns (time: nat, minute: nat, second: nat)
    requires Canonical(s)
    ensures ParseTime(s) == Some(time)
    ensures JavaDiv(time, 60) == minute && JavaRem(time, 60) == second
    ensures Pad(minute) == MinuteField(s) && Pad(second) == SecondField(s)
  {
    minute, second := ParseNat(MinuteField(s)), ParseNat(SecondField(s));
    PadSecondField(SecondField(s));
    PadMinuteField(MinuteField(s));
    time := minute * 60 + second;
    SplitTime(minute, second);
  }

  /** Minutes and seconds below sixty are recovered by Java's division and remainder. */
  lemma SplitTime(minute: nat, second: nat)
    requires second < 60
    ensures JavaDiv(minute * 60 + second, 60) == minute && JavaRem(minute * 60 + second, 60) == second
  {
  }

  /** A string with a colon three from the end is its two fields around that colon. */
  lemma Rejoin(s: string)
    requires |s| >= 3 && s[|s| - 3] == ':'
    ensures s == MinuteField(s) + ":" + SecondField(s)
  {
  }

  /** Exactly the negative times produce a '-' somewhere in the output. */
  lemma MinusIffNegative(time: int)
    ensures '-' in FormatTime(time) <==> time < 0
  {
    var minute := JavaDiv(time, 60);
    var second := JavaRem(time, 60);
    var m, s := Pad(minute), Pad(second);
    var r := FormatTime(time);
    assert r == m + ":" + s;
    if time < 0 {
      if second < 0 {
        MinusSignIffNegative(second);
        assert s == "0" + JavaIntToString(second);
        assert '-' in s;
      } else {
        assert minute < 0;
        MinusSignIffNegative(minute);
        assert m == "0" + JavaIntToString(minute);
        assert '-' in m;
      }
    }
  }

  /** Sample outputs, including the Java rendering of a negative input. */
  lemma Examples()
    ensures FormatTime(65) == "01:05"
    ensures FormatTime(3725) == "62:05"
    ensures FormatTime(-5) == "00:0-5"
  {
    assert NatToString(1) == "1" && NatToString(5) == "5" && NatToString(0) == "0";
    assert NatToString(62) == NatToString(6) + "2" == "62";
    assert Pad(1) == "01" && Pad(5) == "05" && Pad(62) == "62" && Pad(0) == "00";
    assert JavaDiv(65, 60) == 1 && JavaRem(65, 60) == 5;
    assert JavaDiv(3725, 60) == 62 && JavaRem(3725, 60) == 5;
    assert JavaDiv(-5, 60) == 0 && JavaRem(-5, 60) == -5;
    assert JavaIntToString(-5) == "-5";
    assert Pad(-5) == "0-5";
  }
}
