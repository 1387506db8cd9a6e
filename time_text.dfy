/** Text formats of the timer: the decimal rendering of whole numbers, the
    "m:ss" clock text shown inside the circle (formatTime) and the unpadded
    `${mm}:${ss}` duration string kept under the storage key "timerValue". */
module TimeText {

  datatype Option<T> = None | Some(value: T)

  predicate IsDigit(c: char) { '0' <= c <= '9' }

  predicate AllDigits(s: string) { forall i :: 0 <= i < |s| ==> IsDigit(s[i]) }

  function DigitChar(d: nat): (c: char)
    requires d < 10
    ensures IsDigit(c)
  {
    ('0' as int + d) as char
  }

  function DigitValue(c: char): (d: nat)
    requires IsDigit(c)
    ensures d < 10
  {
    c as int - '0' as int
  }

  /** The decimal text of a whole number, as JavaScript's number-to-string
      conversion writes it for the small whole numbers the timer uses: no
      sign, no leading zero. */
  function DecimalString(n: nat): (s: string)
    ensures 1 <= |s| && AllDigits(s)
    ensures |s| > 1 ==> s[0] != '0'
    ensures n < 10 <==> |s| == 1
  {
    if n < 10 then [DigitChar(n)] else DecimalString(n / 10) + [DigitChar(n % 10)]
  }

  /** The value of a string of decimal digits, as JavaScript's Number() reads
      it for the small whole numbers the timer uses; the empty string reads
      as 0. */
  function DecimalValue(s: string): nat
    requires AllDigits(s)
  {
    if s == [] then 0 else DecimalValue(s[..|s| - 1]) * 10 + DigitValue(s[|s| - 1])
  }

  /** Reading back the decimal text of a number gives that number. */
  lemma {:induction false} DecimalRoundTrip(n: nat)
    ensures DecimalValue(DecimalString(n)) == n
  {
    if n >= 10 {
      var s := DecimalString(n);
      assert s[..|s| - 1] == DecimalString(n / 10);
      DecimalRoundTrip(n / 10);
    }
  }

  /** Leading zeros do not change the value of a digit string. */
  lemma {:induction false} LeadingZero(s: string)
    requires AllDigits(s)
    ensures AllDigits(['0'] + s) && DecimalValue(['0'] + s) == DecimalValue(s)
  {
    if s != [] {
      var t := ['0'] + s;
      assert t[..|t| - 1] == ['0'] + s[..|s| - 1];
      LeadingZero(s[..|s| - 1]);
    }
  }

  /** String.prototype.padStart(2, "0"). */
  function PadStart2(s: string): (p: string)
    decreases 2 - |s|
  {
    if |s| >= 2 then s else PadStart2(['0'] + s)
  }

  /** Padding a digit string keeps it a digit string of the same value and of
      length at least two; a string already that long is left alone. */
  lemma {:induction false} PadStart2Value(s: string)
    requires AllDigits(s)
    ensures AllDigits(PadStart2(s)) && DecimalValue(PadStart2(s)) == DecimalValue(s)
    ensures |PadStart2(s)| == if |s| >= 2 then |s| else 2
    decreases 2 - |s|
  {
    if |s| < 2 {
      LeadingZero(s);
      PadStart2Value(['0'] + s);
    }
  }

  /** The index of the first colon of `s`, or |s| when it has none: where
      `split(":")` ends its first piece. */
  function ColonIndex(s: string): (i: nat)
    ensures i <= |s|
  {
    if s == [] || s[0] == ':' then 0 else 1 + ColonIndex(s[1..])
  }

  /** A colon-free prefix is skipped by ColonIndex, and a colon right after
      it is found. */
  lemma {:induction false} ColonIndexPast(a: string, b: string)
    requires ':' !in a
    ensures ColonIndex(a + b) == |a| + ColonIndex(b)
    ensures ColonIndex(a + [':'] + b) == |a|
  {
    if a != [] {
      assert a[0] != ':';
      assert (a + b)[1..] == a[1..] + b;
      assert (a + [':'] + b)[1..] == a[1..] + [':'] + b;
      ColonIndexPast(a[1..], b);
    } else {
      assert a + b == b;
    }
  }

  /** The duration string written on every dropdown change: the template
      `${mm}:${ss}`, no padding. */
  function EncodeStored(mm: nat, ss: nat): string
  {
    DecimalString(mm) + ":" + DecimalString(ss)
  }

  /** `storedTime.split(":").map(Number)` destructured into [mm, ss]: the
      pieces before the first colon and between the first and the second (or
      the end). Both must be digit strings (an empty piece reads as 0); a
      string without a colon, or with another character in those pieces, is
      malformed. */
  function ParseStored(s: string): Option<(nat, nat)>
  {
    var i := ColonIndex(s);
    if i == |s| then None
    else
      var rest := s[i + 1..];
      var first, second := s[..i], rest[..ColonIndex(rest)];
      if AllDigits(first) && AllDigits(second)
      then Some((DecimalValue(first), DecimalValue(second)))
      else None
  }

  /** The stored duration string reads back as the minutes and seconds that
      were written. */
  lemma StoredRoundTrip(mm: nat, ss: nat)
    ensures ParseStored(EncodeStored(mm, ss)) == Some((mm, ss))
  {
    var a, b := DecimalString(mm), DecimalString(ss);
    assert ':' !in a && ':' !in b;
    var t := EncodeStored(mm, ss);
    assert t == a + [':'] + b;
    ColonIndexPast(a, b);
    ColonIndexPast(b, []);
    assert t[..|a|] == a && t[|a| + 1..] == b && b + [] == b;
    DecimalRoundTrip(mm);
    DecimalRoundTrip(ss);
  }

  /** JavaScript's `%` on numbers: the remainder of a division truncated
      toward zero, with the sign of the dividend. */
  function JsRem(x: real, m: real): real
    requires m != 0.0
  {
    var q := x / m;
    var t := if q >= 0.0 then q.Floor else -((-q).Floor);
    x - m * t as real
  }

  /** The whole seconds a clock reading shows: negative readings show 0. */
  function WholeSeconds(seconds: real): nat
  {
    if seconds < 0.0 then 0 else seconds.Floor
  }

  /** The minutes field of formatTime: Math.floor(seconds / 60). */
  function MinutesField(seconds: real): nat
  {
    var s := if seconds < 0.0 then 0.0 else seconds;
    (s / 60.0).Floor
  }

  /** The seconds field of formatTime: Math.floor(seconds % 60). */
  function SecondsField(seconds: real): nat
  {
    var s := if seconds < 0.0 then 0.0 else seconds;
    JsRem(s, 60.0).Floor
  }

  /** formatTime: minutes unpadded, a colon, the seconds padded to two digits. */
  function FormatTime(seconds: real): string
  {
    DecimalString(MinutesField(seconds)) + ":" + PadStart2(DecimalString(SecondsField(seconds)))
  }

  /** The two fields of formatTime split the whole seconds into minutes and
      seconds below 60. */
  lemma FieldsSplitWholeSeconds(seconds: real)
    ensures SecondsField(seconds) < 60
    ensures MinutesField(seconds) * 60 + SecondsField(seconds) == WholeSeconds(seconds)
  {
    var s := if seconds < 0.0 then 0.0 else seconds;
    var m := (s / 60.0).Floor;
    assert m as real <= s / 60.0 < m as real + 1.0;
    var r := s - 60.0 * m as real;
    assert 0.0 <= r < 60.0;
    assert JsRem(s, 60.0) == r;
    var f := r.Floor;
    assert f as real <= r < f as real + 1.0;
    assert (f + 60 * m) as real <= s < (f + 60 * m) as real + 1.0;
  }

  /** A whole number of seconds is shown as its minutes and its seconds. */
  lemma FormatWholeSeconds(mm: nat, ss: nat)
    requires ss < 60
    ensures FormatTime((mm * 60 + ss) as real) == DecimalString(mm) + ":" + PadStart2(DecimalString(ss))
  {
    var x := (mm * 60 + ss) as real;
    FieldsSplitWholeSeconds(x);
    assert x.Floor == mm * 60 + ss;
    var m := MinutesField(x);
    assert m * 60 + SecondsField(x) == mm * 60 + ss;
    assert m == mm;
  }

  /** The clock text depends only on the whole seconds of the reading: a
      fractional reading is shown as its floor (0 for a negative one), so
      together with FormatWholeSeconds the text of every reading is fixed. */
  lemma FormatFloor(seconds: real)
    ensures FormatTime(seconds) == FormatTime(WholeSeconds(seconds) as real)
  {
    var w := WholeSeconds(seconds);
    FieldsSplitWholeSeconds(seconds);
    FieldsSplitWholeSeconds(w as real);
    assert WholeSeconds(w as real) == w;
    var m1, s1 := MinutesField(seconds), SecondsField(seconds);
    var m2, s2 := MinutesField(w as real), SecondsField(w as real);
    assert m1 * 60 + s1 == m2 * 60 + s2;
  }

  /** The clock text is "<minutes>:<two digits>", and reading it back gives
      the whole seconds shown: seconds below 60 and minutes * 60 + seconds
      equal to the floor of the (non-negative) reading. */
  lemma FormatTimeReadsBack(seconds: real)
    ensures var t := FormatTime(seconds);
      |t| >= 4 && t[|t| - 3] == ':' &&
      match ParseStored(t)
      case Some((mm, ss)) => ss < 60 && mm * 60 + ss == WholeSeconds(seconds)
      case None => false
  {
    var m, s := MinutesField(seconds), SecondsField(seconds);
    FieldsSplitWholeSeconds(seconds);
    var a, b := DecimalString(m), PadStart2(DecimalString(s));
    PadStart2Value(DecimalString(s));
    assert |b| == 2;
    assert ':' !in a && ':' !in b;
    var t := FormatTime(seconds);
    assert t == a + [':'] + b;
    ColonIndexPast(a, b);
    ColonIndexPast(b, []);
    assert t[..|a|] == a && t[|a| + 1..] == b && b + [] == b;
    DecimalRoundTrip(m);
    DecimalRoundTrip(s);
  }

  /** Four readings: 125 s, 0 s, a negative reading and 20 minutes. */
  lemma FormatTimeExamples()
    ensures FormatTime(125.0) == "2:05"
    ensures FormatTime(0.0) == "0:00"
    ensures FormatTime(-5.0) == "0:00"
    ensures FormatTime(1200.0) == "20:00"
  {
    assert MinutesField(125.0) == 2 && SecondsField(125.0) == 5;
    assert MinutesField(1200.0) == 20 && SecondsField(1200.0) == 0;
    assert DecimalString(20) == "20";
  }
}
