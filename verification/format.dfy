/**
 * The `mm:ss` rendering of the remaining time (`formatTime` in App.jsx).
 *
 * `formatTime(time)` takes `Math.floor(time / 60)` minutes and `time % 60`
 * seconds, turns each into its decimal numeral with `String(...)` and left-pads
 * it with '0' to two characters with `padStart(2, '0')`. The time shown is
 * never negative, so JavaScript's floor division and remainder agree with
 * Dafny's `/` and `%` on the natural numbers used here.
 */
module Format {

  datatype Option<T> = None | Some(value: T)

  predicate IsDigit(c: char) {
    '0' <= c <= '9'
  }

  predicate AllDigits(s: string) {
    forall i :: 0 <= i < |s| ==> IsDigit(s[i])
  }

  function DigitValue(c: char): (d: nat)
    requires IsDigit(c)
    ensures d < 10
  {
    (c as int) - ('0' as int)
  }

  function DigitChar(d: nat): (c: char)
    requires d < 10
    ensures IsDigit(c) && DigitValue(c) == d
  {
    (('0' as int) + d) as char
  }

  /** The decimal numeral `String(n)` produces for a non-negative integer:
      most significant digit first, no leading zero. */
  function Decimal(n: nat): (s: string)
    ensures 1 <= |s| && AllDigits(s)
    ensures s[0] == '0' ==> n == 0
    ensures n < 10 <==> |s| == 1
    ensures n < 100 <==> |s| <= 2
    decreases n
  {
    if n < 10 then [DigitChar(n)] else Decimal(n / 10) + [DigitChar(n % 10)]
  }

  /** The number a string of decimal digits denotes (the empty string denotes 0). */
  function Value(s: string): nat
    requires AllDigits(s)
  {
    if s == [] then 0 else 10 * Value(s[..|s| - 1]) + DigitValue(s[|s| - 1])
  }

  /** `Value` reads back exactly the number `Decimal` wrote. */
  lemma {:induction false} DecimalRoundTrip(n: nat)
    ensures Value(Decimal(n)) == n
  {
    if n >= 10 {
      var s := Decimal(n);
      assert s[..|s| - 1] == Decimal(n / 10);
      DecimalRoundTrip(n / 10);
    }
  }

  /** `s.padStart(width, fill)`: `s` preceded by as many `fill` characters as
      it takes to reach `width`; a string already that long is left alone. */
  function PadStart(s: string, width: nat, fill: char): (r: string)
    ensures |r| == if |s| < width then width else |s|
    ensures r[|r| - |s|..] == s
    ensures forall i :: 0 <= i < |r| - |s| ==> r[i] == fill
  {
    if |s| >= width then s else seq(width - |s|, _ => fill) + s
  }

  /** Leading zeros do not change the number a digit string denotes. */
  lemma {:induction false} LeadingZerosKeepValue(z: string, s: string)
    requires forall i :: 0 <= i < |z| ==> z[i] == '0'
    requires AllDigits(s)
    ensures AllDigits(z + s) && Value(z + s) == Value(s)
  {
    if s == [] {
      assert z + s == z;
      AllZerosValue(z);
    } else {
      assert (z + s)[..|z + s| - 1] == z + s[..|s| - 1];
      LeadingZerosKeepValue(z, s[..|s| - 1]);
    }
  }

  lemma {:induction false} AllZerosValue(z: string)
    requires forall i :: 0 <= i < |z| ==> z[i] == '0'
    ensures AllDigits(z) && Value(z) == 0
  {
    if z != [] {
      AllZerosValue(z[..|z| - 1]);
    }
  }

  /** Padding a numeral with '0' keeps its value. */
  lemma PadZeroKeepsValue(s: string, width: nat)
    requires AllDigits(s)
    ensures AllDigits(PadStart(s, width, '0'))
    ensures Value(PadStart(s, width, '0')) == Value(s)
  {
    var r := PadStart(s, width, '0');
    var z := r[..|r| - |s|];
    assert r == z + s;
    LeadingZerosKeepValue(z, s);
  }

  /** A field of the face: `String(n).padStart(2, '0')`. */
  function Field(n: nat): (s: string)
    ensures n < 100 ==> |s| == 2 && AllDigits(s)
  {
    PadStart(Decimal(n), 2, '0')
  }

  /** `formatTime(time)`: below 100 minutes, five characters with the colon
      in the middle. */
  function FormatTime(time: nat): (r: string)
    ensures time < 6000 ==> |r| == 5 && r[2] == ':'
  {
    var minutes, seconds := time / 60, time % 60;
    assert time < 6000 ==> minutes < 100 && seconds < 60;
    Field(minutes) + ":" + Field(seconds)
  }

  /** Reads a `mm:ss` face back into seconds; `None` for anything that is not
      two digits, a colon, and two digits below 60. */
  function ParseClock(s: string): Option<nat> {
    if |s| == 5 && s[2] == ':' && AllDigits(s[..2]) && AllDigits(s[3..]) && Value(s[3..]) < 60
    then Some(Value(s[..2]) * 60 + Value(s[3..]))
    else None
  }

  /** Whole minutes and leftover seconds of a time below 100 minutes. */
  lemma MinutesAndSeconds(time: nat)
    requires time < 6000
    ensures time / 60 < 100 && time % 60 < 60 && (time / 60) * 60 + time % 60 == time
  {
  }

  /** A field below 100 is two digits that read back as the number. */
  lemma FieldValue(n: nat)
    requires n < 100
    ensures |Field(n)| == 2 && AllDigits(Field(n)) && Value(Field(n)) == n
  {
    PadZeroKeepsValue(Decimal(n), 2);
    DecimalRoundTrip(n);
  }

  /** Below 100 minutes the face is exactly `mm:ss`: two digits of whole
      minutes, a colon, two digits of the seconds left over. */
  lemma FormatTimeFields(time: nat)
    requires time < 6000
    ensures var r := FormatTime(time);
      |r| == 5 && r[2] == ':' && AllDigits(r[..2]) && AllDigits(r[3..]) &&
      Value(r[..2]) == time / 60 && Value(r[3..]) == time % 60 &&
      Value(r[3..]) < 60 && Value(r[..2]) * 60 + Value(r[3..]) == time
  {
    MinutesAndSeconds(time);
    var mm, ss := Field(time / 60), Field(time % 60);
    FieldValue(time / 60);
    FieldValue(time % 60);
    var r := FormatTime(time);
    assert r == mm + ":" + ss;
    assert r[..2] == mm;
    assert r[3..] == ss;
  }

  /** Reading the face back gives the time that was formatted. */
  lemma FormatTimeRoundTrip(time: nat)
    requires time < 6000
    ensures ParseClock(FormatTime(time)) == Some(time)
  {
    FormatTimeFields(time);
    ReadFace(FormatTime(time), time);
  }

  lemma ReadFace(r: string, time: nat)
    requires |r| == 5 && r[2] == ':' && AllDigits(r[..2]) && AllDigits(r[3..])
    requires Value(r[3..]) < 60 && Value(r[..2]) * 60 + Value(r[3..]) == time
    ensures ParseClock(r) == Some(time)
  {
  }

  /** Two different times below 100 minutes never show the same face. */
  lemma FormatTimeInjective(a: nat, b: nat)
    requires a < 6000 && b < 6000
    requires FormatTime(a) == FormatTime(b)
    ensures a == b
  {
    FormatTimeRoundTrip(a);
    FormatTimeRoundTrip(b);
  }
}
