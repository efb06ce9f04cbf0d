/**
 * The elapsed-time display of the game: `formatTime` renders a number of
 * seconds as minutes, a colon and two-digit seconds ("m:ss").
 *
 * The rendering goes through JavaScript's number-to-string conversion,
 * `String.prototype.padStart` and the `%` operator, whose remainder takes
 * the sign of the dividend; each is written out here for integers.
 */
module TimeFormat {
  import opened Wrappers

  const SecondsPerMinute: int := 60
  /** Width the seconds field is padded to, and the padding character. */
  const SecondsWidth: nat := 2
  const PadChar: char := '0'

  predicate IsDigit(c: char) {
    '0' <= c <= '9'
  }

  predicate AllDigits(s: string) {
    forall i :: 0 <= i < |s| ==> IsDigit(s[i])
  }

  function DigitChar(d: nat): (c: char)
    requires d < 10
    ensures IsDigit(c) && c as int - '0' as int == d
  {
    ('0' as int + d) as char
  }

  function DigitValue(c: char): (d: nat)
    requires IsDigit(c)
    ensures d < 10 && DigitChar(d) == c
  {
    c as int - '0' as int
  }

  /** Decimal digits of a natural number, most significant first, without leading zeros. */
  function Digits(n: nat): (r: string)
    ensures |r| >= 1 && AllDigits(r)
    ensures (|r| == 1) == (n < 10)
    ensures r[0] == '0' ==> n == 0
    decreases n
  {
    if n < 10 then [DigitChar(n)] else Digits(n / 10) + [DigitChar(n % 10)]
  }

  /** Number.prototype.toString() on an integer: a minus sign, then the digits. */
  function DecimalString(i: int): (r: string)
    ensures |r| >= 1
    ensures (r[0] == '-') <==> i < 0
    ensures AllDigits(r[if i < 0 then 1 else 0..])
    ensures ParseDigits(r[if i < 0 then 1 else 0..]) == (if i < 0 then -i else i)
    ensures r[if i < 0 then 1 else 0] == '0' ==> i == 0
  {
    if i < 0 then
      assert ("-" + Digits(-i))[1..] == Digits(-i);
      ParseDigitsOfDigits(-i);
      "-" + Digits(-i)
    else
      ParseDigitsOfDigits(i);
      Digits(i)
  }

  /** The value of a string of decimal digits (the inverse of Digits). */
  function ParseDigits(s: string): nat
    requires AllDigits(s)
    decreases |s|
  {
    if s == [] then 0 else ParseDigits(s[..|s| - 1]) * 10 + DigitValue(s[|s| - 1])
  }

  /** JavaScript's `a % d` for a positive divisor: truncated, so the remainder has the sign of `a`. */
  function JsRemainder(a: int, d: int): (r: int)
    requires d > 0
    ensures -d < r < d
    ensures a >= 0 ==> 0 <= r && r == a % d
    ensures a < 0 ==> r <= 0 && -r == (-a) % d
  {
    if a >= 0 then a % d else -((-a) % d)
  }

  /** `Math.floor(a / d)` for a positive divisor. */
  function FloorDiv(a: int, d: int): (q: int)
    requires d > 0
    ensures q * d <= a < (q + 1) * d
  {
    a / d
  }

  function Repeat(c: char, n: nat): (r: string)
    ensures |r| == n && forall i :: 0 <= i < n ==> r[i] == c
  {
    if n == 0 then [] else [c] + Repeat(c, n - 1)
  }

  /** `s.padStart(width, fill)` with a one-character fill. */
  function PadStart(s: string, width: nat, fill: char): (r: string)
    ensures |r| == if |s| >= width then |s| else width
    ensures r[|r| - |s|..] == s
    ensures forall i :: 0 <= i < |r| - |s| ==> r[i] == fill
  {
    if |s| >= width then s else Repeat(fill, width - |s|) + s
  }

  /**
   * formatTime: minutes unpadded, a colon, then the remainder padded to two
   * characters. For a non-negative count that is `s div 60` printed without
   * padding and `s mod 60` printed as exactly two digits.
   */
  function FormatTime(seconds: int): (r: string)
    ensures seconds >= 0 ==>
      r == Digits(seconds / SecondsPerMinute) + ":"
           + [DigitChar(seconds % SecondsPerMinute / 10), DigitChar(seconds % SecondsPerMinute % 10)]
  {
    var mins := FloorDiv(seconds, SecondsPerMinute);
    var secs := JsRemainder(seconds, SecondsPerMinute);
    var shown := DecimalString(mins) + ":" + PadStart(DecimalString(secs), SecondsWidth, PadChar);
    if seconds >= 0 then TwoDigitSeconds(secs); shown else shown
  }

  /** Reads back a string of the shape FormatTime produces for a non-negative count. */
  function ParseTime(t: string): Option<nat> {
    if |t| >= 4 && t[|t| - 3] == ':' && AllDigits(t[..|t| - 3]) && AllDigits(t[|t| - 2..])
    then Some(ParseDigits(t[..|t| - 3]) * SecondsPerMinute + ParseDigits(t[|t| - 2..]))
    else None
  }

  lemma {:induction false} ParseDigitsOfDigits(n: nat)
    ensures ParseDigits(Digits(n)) == n
    decreases n
  {
    if n >= 10 {
      var d := Digits(n / 10);
      var r := Digits(n);
      assert r == d + [DigitChar(n % 10)];
      assert r[..|r| - 1] == d;
      ParseDigitsOfDigits(n / 10);
    }
  }

  /** A seconds remainder below one minute always pads to exactly its two decimal digits. */
  lemma TwoDigitSeconds(secs: nat)
    requires secs < SecondsPerMinute
    ensures PadStart(Digits(secs), SecondsWidth, PadChar) == [DigitChar(secs / 10), DigitChar(secs % 10)]
  {
    if secs >= 10 {
      assert Digits(secs) == Digits(secs / 10) + [DigitChar(secs % 10)];
      assert Digits(secs / 10) == [DigitChar(secs / 10)];
    }
  }

  /** The display loses nothing for non-negative counts: it can be read back. */
  lemma FormatTimeRoundTrip(s: nat)
    ensures ParseTime(FormatTime(s)) == Some(s)
  {
    ReadBackParts(s);
  }

  lemma ReadBackParts(s: nat)
    ensures ParseTime(Digits(s / SecondsPerMinute) + ":"
                      + [DigitChar(s % SecondsPerMinute / 10), DigitChar(s % SecondsPerMinute % 10)])
            == Some(s)
  {
    var mins, secs := s / SecondsPerMinute, s % SecondsPerMinute;
    var tail := [DigitChar(secs / 10), DigitChar(secs % 10)];
    assert AllDigits(tail);
    ParseTimeOfParts(Digits(mins), tail);
    ParseDigitsOfDigits(mins);
    TwoDigitValue(secs);
    assert mins * SecondsPerMinute + secs == s;
  }

  lemma ParseTimeOfParts(m: string, tail: string)
    requires |m| >= 1 && AllDigits(m) && |tail| == 2 && AllDigits(tail)
    ensures ParseTime(m + ":" + tail) == Some(ParseDigits(m) * SecondsPerMinute + ParseDigits(tail))
  {
    var t := m + ":" + tail;
    assert t[..|t| - 3] == m;
    assert t[|t| - 2..] == tail;
    assert t[|t| - 3] == ':';
  }

  lemma TwoDigitValue(secs: nat)
    requires secs < SecondsPerMinute
    ensures ParseDigits([DigitChar(secs / 10), DigitChar(secs % 10)]) == secs
  {
    var hi, lo := DigitChar(secs / 10), DigitChar(secs % 10);
    var tail := [hi, lo];
    assert tail[..1] == [hi];
    assert [hi][..0] == [];
    assert ParseDigits([hi]) == secs / 10;
    assert ParseDigits(tail) == secs / 10 * 10 + secs % 10;
  }

  /** Distinct non-negative counts are displayed differently. */
  lemma FormatTimeInjective(a: nat, b: nat)
    requires FormatTime(a) == FormatTime(b)
    ensures a == b
  {
    FormatTimeRoundTrip(a);
    FormatTimeRoundTrip(b);
  }

  lemma FormatTimeExamples()
    ensures FormatTime(0) == "0:00"
    ensures FormatTime(65) == "1:05"
    ensures FormatTime(600) == "10:00"
  {
    assert Digits(10) == "10";
  }

  /**
   * A negative count (the wall clock stepped back after the first drop)
   * renders with the floored minutes and the sign-carrying remainder.
   */
  lemma FormatTimeNegative()
    ensures FormatTime(-1) == "-1:-1"
    ensures FormatTime(-60) == "-1:00"
  {
    assert FloorDiv(-1, 60) == -1;
    assert JsRemainder(-1, 60) == -1;
    assert DecimalString(-1) == "-1";
    assert PadStart("-1", 2, '0') == "-1";
    assert FloorDiv(-60, 60) == -1;
    assert JsRemainder(-60, 60) == 0;
    assert PadStart("0", 2, '0') == "00";
  }
}
