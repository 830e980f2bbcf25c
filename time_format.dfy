/**
 * The `m:ss` clock text shown on the game screen and on the clear screen.
 * Both screens define the same formatter over whole seconds: minutes are
 * `floor(seconds / 60)` printed in decimal, seconds are `seconds % 60`
 * printed with a leading zero below ten.
 */
module TimeFormat {
  import opened Wrappers

  predicate IsDigit(c: char) {
    '0' <= c <= '9'
  }

  predicate AllDigits(s: string) {
    forall i :: 0 <= i < |s| ==> IsDigit(s[i])
  }

  function DigitChar(d: nat): (c: char)
    requires d < 10
    ensures IsDigit(c) && c as int - '0' as int == d
  {
    ('0' as int + d) as char
  }

  function DigitValue(c: char): (d: nat)
    requires IsDigit(c)
    ensures d < 10 && DigitChar(d) == c
  {
    c as int - '0' as int
  }

  /** A natural number printed in decimal, as JavaScript prints an integral Number. */
  function Decimal(n: nat): (s: string)
    ensures |s| >= 1 && AllDigits(s)
    ensures |s| > 1 ==> s[0] != '0'
    ensures n < 10 <==> |s| == 1
    decreases n
  {
    if n < 10 then [DigitChar(n)] else Decimal(n / 10) + [DigitChar(n % 10)]
  }

  /** The value of a string of decimal digits. */
  function DigitsValue(s: string): nat
    requires AllDigits(s)
  {
    if s == [] then 0 else DigitsValue(s[..|s| - 1]) * 10 + DigitValue(s[|s| - 1])
  }

  lemma {:induction false} DecimalRoundTrip(n: nat)
    ensures DigitsValue(Decimal(n)) == n
    decreases n
  {
    if n >= 10 {
      var s := Decimal(n);
      assert s[..|s| - 1] == Decimal(n / 10);
      DecimalRoundTrip(n / 10);
    }
  }

  /** The leading zero of the seconds: `secs < 10 ? '0' : ''`. */
  function Pad(secs: nat): string {
    if secs < 10 then "0" else ""
  }

  /** The formatter: minutes, a colon, and the seconds padded to two digits. */
  function FormatTime(seconds: nat): string {
    Decimal(seconds / 60) + ":" + Pad(seconds % 60) + Decimal(seconds % 60)
  }

  /** The seconds part is always two digits, whose value is the seconds. */
  lemma PaddedSeconds(secs: nat)
    requires secs < 60
    ensures |Pad(secs) + Decimal(secs)| == 2 && AllDigits(Pad(secs) + Decimal(secs))
    ensures DigitsValue(Pad(secs) + Decimal(secs)) == secs
  {
    var tail := Pad(secs) + Decimal(secs);
    DecimalRoundTrip(secs);
    if secs < 10 {
      assert tail[..1] == "0";
    } else {
      assert tail == Decimal(secs);
    }
  }

  /** Where the pieces of a clock text sit. */
  lemma FormatTimeParts(seconds: nat)
    ensures var r := FormatTime(seconds);
            && |r| >= 4 && r[|r| - 3] == ':'
            && r[..|r| - 3] == Decimal(seconds / 60)
            && r[|r| - 2..] == Pad(seconds % 60) + Decimal(seconds % 60)
  {
    var m, secs := Decimal(seconds / 60), seconds % 60;
    var tail := Pad(secs) + Decimal(secs);
    PaddedSeconds(secs);
    ConcatAssoc(m + ":", Pad(secs), Decimal(secs));
    var r := FormatTime(seconds);
    assert r == m + ":" + tail;
  }

  /**
   * What the clock text says: digits, a colon and two digits; the two
   * digits are below 60; and minutes times 60 plus seconds is the input.
   */
  lemma FormatTimeMeaning(seconds: nat)
    ensures var r := FormatTime(seconds);
            && |r| >= 4 && r[|r| - 3] == ':'
            && AllDigits(r[..|r| - 3]) && AllDigits(r[|r| - 2..])
            && DigitsValue(r[|r| - 2..]) < 60
            && DigitsValue(r[..|r| - 3]) * 60 + DigitsValue(r[|r| - 2..]) == seconds
  {
    FormatTimeParts(seconds);
    PaddedSeconds(seconds % 60);
    DecimalRoundTrip(seconds / 60);
  }

  /** A clock text: decimal minutes, a colon, two digits below 60. */
  predicate IsClock(s: string) {
    && |s| >= 4 && s[|s| - 3] == ':'
    && AllDigits(s[..|s| - 3]) && AllDigits(s[|s| - 2..]) && DigitsValue(s[|s| - 2..]) < 60
  }

  /**
   * Reads a clock text back to seconds. It is the partner of FormatTime:
   * see ParseFormatTime and FormatParseTime.
   */
  function ParseTime(s: string): (r: Option<nat>)
    ensures r.Some? <==> IsClock(s)
  {
    if IsClock(s) then Some(DigitsValue(s[..|s| - 3]) * 60 + DigitsValue(s[|s| - 2..])) else None
  }

  /** Round trip: the clock text determines the number of seconds. */
  lemma ParseFormatTime(seconds: nat)
    ensures ParseTime(FormatTime(seconds)) == Some(seconds)
  {
    FormatTimeMeaning(seconds);
  }

  lemma FormatTimeInjective(a: nat, b: nat)
    requires FormatTime(a) == FormatTime(b)
    ensures a == b
  {
    ParseFormatTime(a);
    ParseFormatTime(b);
  }

  /** The other round trip: a clock text without a leading zero in its minutes is what FormatTime prints. */
  lemma FormatParseTime(s: string)
    requires IsClock(s) && (|s| > 4 ==> s[0] != '0')
    ensures ParseTime(s).Some? && FormatTime(ParseTime(s).value) == s
  {
    var m, tail := s[..|s| - 3], s[|s| - 2..];
    assert s == m + ":" + tail;
    DigitsDecimal(m);
    TwoDigits(tail);
    ClockOfParts(DigitsValue(m), DigitsValue(tail), m, tail);
  }

  lemma ClockOfParts(minutes: nat, secs: nat, m: string, tail: string)
    requires secs < 60 && m == Decimal(minutes) && tail == Pad(secs) + Decimal(secs)
    ensures FormatTime(minutes * 60 + secs) == m + ":" + tail
  {
    var t := minutes * 60 + secs;
    assert t / 60 == minutes && t % 60 == secs;
    ConcatAssoc(m + ":", Pad(secs), Decimal(secs));
  }

  lemma ConcatAssoc(a: string, b: string, c: string)
    ensures a + b + c == a + (b + c)
  {
  }

  /** Digit strings without a leading zero are exactly the printed numbers. */
  lemma {:induction false} DigitsDecimal(s: string)
    requires |s| >= 1 && AllDigits(s) && (|s| > 1 ==> s[0] != '0')
    ensures Decimal(DigitsValue(s)) == s
    decreases |s|
  {
    if |s| > 1 {
      var p := s[..|s| - 1];
      assert AllDigits(p) && p[0] == s[0];
      DigitsDecimal(p);
      PositiveDigits(p);
      var n := DigitsValue(s);
      assert n / 10 == DigitsValue(p) && n % 10 == DigitValue(s[|s| - 1]);
      assert s == p + [s[|s| - 1]];
    }
  }

  lemma {:induction false} PositiveDigits(s: string)
    requires |s| >= 1 && AllDigits(s) && s[0] != '0'
    ensures DigitsValue(s) >= 1
    decreases |s|
  {
    if |s| > 1 {
      PositiveDigits(s[..|s| - 1]);
    }
  }

  /** A two-character digit string below 60 is the padded form of its value. */
  lemma TwoDigits(t: string)
    requires |t| == 2 && AllDigits(t) && DigitsValue(t) < 60
    ensures t == Pad(DigitsValue(t)) + Decimal(DigitsValue(t))
  {
    var hi, lo := DigitValue(t[0]), DigitValue(t[1]);
    assert t[..1] == [t[0]];
    var v := DigitsValue(t);
    assert v == hi * 10 + lo;
    assert v / 10 == hi && v % 10 == lo;
    if v < 10 {
      assert hi == 0 && t[0] == '0';
      assert Decimal(v) == [t[1]];
      assert t == "0" + [t[1]];
    } else {
      assert Decimal(v) == Decimal(hi) + [t[1]];
      assert Decimal(hi) == [t[0]];
      assert t == [t[0]] + [t[1]];
    }
  }
}
