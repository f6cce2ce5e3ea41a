/**
 * The exam page's display helpers: the countdown text, its colour, the
 * low-time warning and the progress percentage.
 */
module ExamClock {
  import opened Common

  // ---------------------------------------------------------------------
  // Countdown text

  /** `s.padStart(width, fill)`. */
  function PadStart(s: string, width: nat, fill: char): (r: string)
    ensures |r| == if |s| >= width then |s| else width
    ensures r[|r| - |s|..] == s
    ensures forall i :: 0 <= i < |r| - |s| ==> r[i] == fill
  {
    if |s| >= width then s else seq(width - |s|, _ => fill) + s
  }

  /** `n.toString().padStart(2, '0')`. */
  function Pad2(n: nat): string {
    PadStart(NatToString(n), 2, '0')
  }

  /** Below 100 the padded form is exactly the tens digit and the units digit. */
  lemma Pad2Digits(n: nat)
    requires n < 100
    ensures Pad2(n) == [DigitChar(n / 10), DigitChar(n % 10)]
  {
    if n >= 10 {
      assert NatToString(n) == NatToString(n / 10) + [DigitChar(n % 10)];
    }
  }

  /** `formatTime`: `h:mm:ss` when at least an hour remains, `m:ss` otherwise. */
  function FormatTime(seconds: nat): string {
    var hours := seconds / 3600;
    var minutes := (seconds % 3600) / 60;
    var remaining := seconds % 60;
    if hours > 0 then NatToString(hours) + ":" + Pad2(minutes) + ":" + Pad2(remaining)
    else NatToString(minutes) + ":" + Pad2(remaining)
  }

  /** The pieces of a string between colons. */
  function SplitColon(s: string): (r: seq<string>)
    ensures |r| >= 1
  {
    if s == [] then [[]]
    else if s[0] == ':' then [[]] + SplitColon(s[1..])
    else
      var rest := SplitColon(s[1..]);
      [[s[0]] + rest[0]] + rest[1..]
  }

  predicate NoColon(s: string) {
    forall i :: 0 <= i < |s| ==> s[i] != ':'
  }

  lemma {:induction false} SplitColonPlain(a: string)
    requires NoColon(a)
    ensures SplitColon(a) == [a]
  {
    if a != [] {
      assert a[0] != ':';
      SplitColonPlain(a[1..]);
      assert [a[0]] + a[1..] == a;
    }
  }

  lemma {:induction false} SplitColonJoin(a: string, rest: string)
    requires NoColon(a)
    ensures SplitColon(a + ":" + rest) == [a] + SplitColon(rest)
  {
    if a == [] {
      assert a + ":" + rest == [':'] + rest;
    } else {
      assert (a + ":" + rest)[1..] == a[1..] + ":" + rest;
      SplitColonJoin(a[1..], rest);
      assert [a[0]] + a[1..] == a;
    }
  }

  /** A clock field: one or more decimal digits. */
  predicate Field(s: string) {
    s != [] && AllDigits(s)
  }

  /** A two-digit minutes or seconds field below 60. */
  predicate Sexagesimal(s: string) {
    |s| == 2 && AllDigits(s) && DigitsValue(s) < 60
  }

  /** Reads a countdown text `m:ss` or `h:mm:ss` back into seconds. */
  function ClockSeconds(text: string): Option<nat> {
    FieldsSeconds(SplitColon(text))
  }

  /** The seconds two or three clock fields stand for. */
  function FieldsSeconds(f: seq<string>): Option<nat> {
    if |f| == 2 && Field(f[0]) && Sexagesimal(f[1]) then
      Some(DigitsValue(f[0]) * 60 + DigitsValue(f[1]))
    else if |f| == 3 && Field(f[0]) && Sexagesimal(f[1]) && Sexagesimal(f[2]) then
      Some(DigitsValue(f[0]) * 3600 + DigitsValue(f[1]) * 60 + DigitsValue(f[2]))
    else None
  }

  lemma DigitsNoColon(s: string)
    requires AllDigits(s)
    ensures NoColon(s)
  {
  }

  lemma Pad2Sexagesimal(n: nat)
    requires n < 60
    ensures Sexagesimal(Pad2(n)) && NoColon(Pad2(n)) && DigitsValue(Pad2(n)) == n
  {
    Pad2Digits(n);
    var p := Pad2(n);
    assert p[..1] == [DigitChar(n / 10)];
    assert p[..1][..0] == [];
    assert DigitsValue(p[..1]) == n / 10;
    assert DigitsValue(p) == (n / 10) * 10 + n % 10;
  }

  lemma ClockTwoFields(m: string, ss: string)
    requires Field(m) && Sexagesimal(ss)
    ensures SplitColon(m + ":" + ss) == [m, ss]
    ensures ClockSeconds(m + ":" + ss) == Some(DigitsValue(m) * 60 + DigitsValue(ss))
  {
    DigitsNoColon(m);
    DigitsNoColon(ss);
    SplitColonJoin(m, ss);
    SplitColonPlain(ss);
  }

  lemma ClockThreeFields(h: string, mm: string, ss: string)
    requires Field(h) && Sexagesimal(mm) && Sexagesimal(ss)
    ensures SplitColon(h + ":" + mm + ":" + ss) == [h, mm, ss]
    ensures ClockSeconds(h + ":" + mm + ":" + ss)
            == Some(DigitsValue(h) * 3600 + DigitsValue(mm) * 60 + DigitsValue(ss))
  {
    DigitsNoColon(h);
    DigitsNoColon(mm);
    DigitsNoColon(ss);
    SplitThree(h, mm, ss);
    var f := [h, mm, ss];
    assert FieldsSeconds(f) == Some(DigitsValue(h) * 3600 + DigitsValue(mm) * 60 + DigitsValue(ss));
  }

  lemma SplitThree(h: string, mm: string, ss: string)
    requires NoColon(h) && NoColon(mm) && NoColon(ss)
    ensures SplitColon(h + ":" + mm + ":" + ss) == [h, mm, ss]
  {
    var rest := mm + ":" + ss;
    SplitColonJoin(mm, ss);
    SplitColonPlain(ss);
    assert h + ":" + mm + ":" + ss == h + ":" + rest;
    SplitColonJoin(h, rest);
  }

  /** Hours, minutes and seconds recombine to the total, and hours are shown from 3600 on. */
  lemma ClockSplit(seconds: nat)
    ensures (seconds % 3600) / 60 < 60 && seconds % 60 < 60
    ensures (seconds / 3600) * 3600 + ((seconds % 3600) / 60) * 60 + seconds % 60 == seconds
    ensures seconds / 3600 > 0 <==> seconds >= 3600
  {
    var r := seconds % 3600;
    assert seconds == (seconds / 3600) * 3600 + r;
    assert r == (r / 60) * 60 + r % 60;
    assert r % 60 == seconds % 60 by {
      assert seconds == ((seconds / 3600) * 60 + r / 60) * 60 + r % 60;
    }
  }

  /**
   * The countdown text loses nothing: reading it back gives the seconds,
   * and it shows an hours field exactly when at least an hour remains.
   */
  lemma FormatTimeRoundTrip(seconds: nat)
    ensures ClockSeconds(FormatTime(seconds)) == Some(seconds)
    ensures |SplitColon(FormatTime(seconds))| == 3 <==> seconds >= 3600
  {
    var hours := seconds / 3600;
    var minutes := (seconds % 3600) / 60;
    var remaining := seconds % 60;
    ClockSplit(seconds);
    Pad2Sexagesimal(minutes);
    Pad2Sexagesimal(remaining);
    NatToStringValue(hours);
    NatToStringValue(minutes);
    if hours > 0 {
      ClockThreeFields(NatToString(hours), Pad2(minutes), Pad2(remaining));
    } else {
      ClockTwoFields(NatToString(minutes), Pad2(remaining));
      assert FormatTime(seconds) == NatToString(minutes) + ":" + Pad2(remaining);
      assert minutes * 60 + remaining == seconds;
    }
  }

  // ---------------------------------------------------------------------
  // Colour of the countdown

  datatype Colour = Red | Yellow | Green

  /**
   * `getTimeColor`: the share of the starting time still left, in percent,
   * against 10 and 25; a starting time of 0 is replaced by 1.
   */
  function TimeColour(remaining: int, initial: int): Colour {
    var base := if initial == 0 then 1 else initial;
    var percentage := (remaining as real / base as real) * 100.0;
    if percentage <= 10.0 then Red
    else if percentage <= 25.0 then Yellow
    else Green
  }

  /** Scaling a quotient by 100 and comparing is comparing the cross product. */
  lemma PercentAtMost(x: real, y: real, c: real)
    requires y > 0.0
    ensures (x / y) * 100.0 <= c <==> 100.0 * x <= c * y
  {
    var q := x / y;
    assert q * y == x;
    assert 100.0 * x == (q * 100.0) * y;
  }

  /** With a positive starting time the thresholds are exact integer comparisons. */
  lemma TimeColourThresholds(remaining: int, initial: int)
    requires initial > 0
    ensures TimeColour(remaining, initial) == Red <==> 10 * remaining <= initial
    ensures TimeColour(remaining, initial) == Yellow <==> 10 * remaining > initial && 4 * remaining <= initial
    ensures TimeColour(remaining, initial) == Green <==> 4 * remaining > initial
  {
    PercentAtMost(remaining as real, initial as real, 10.0);
    PercentAtMost(remaining as real, initial as real, 25.0);
  }

  function Urgency(c: Colour): nat {
    match c
    case Red => 2
    case Yellow => 1
    case Green => 0
  }

  /** Less time left is never shown in a calmer colour. */
  lemma TimeColourMonotone(t1: int, t2: int, initial: int)
    requires initial > 0 && t1 <= t2
    ensures Urgency(TimeColour(t1, initial)) >= Urgency(TimeColour(t2, initial))
  {
    TimeColourThresholds(t1, initial);
    TimeColourThresholds(t2, initial);
  }

  // ---------------------------------------------------------------------
  // Warning and progress

  /** The low-time warning shows with five minutes or less left. */
  predicate ShowWarning(remaining: int) {
    remaining <= 300
  }

  /** `Math.ceil(remaining / 60)`: the minutes shown in the warning, rounded up. */
  function WarningMinutes(remaining: nat): (m: nat)
    ensures remaining <= m * 60 < remaining + 60
  {
    (remaining + 59) / 60
  }

  /**
   * While the warning shows and time is left, it names between one and five
   * minutes, and it names five minutes only in the first minute it shows.
   */
  lemma WarningNamesAtMostFive(remaining: nat)
    requires ShowWarning(remaining) && remaining > 0
    ensures 1 <= WarningMinutes(remaining) <= 5
    ensures WarningMinutes(remaining) == 5 <==> remaining > 240
  {
  }

  /** `Math.round((index + 1) / count * 100)`: the progress shown for the current question. */
  function ProgressPercent(index: nat, count: nat): (p: int)
    requires count > 0
    ensures index < count ==> 0 <= p <= 100
    ensures index + 1 == count ==> p == 100
  {
    var r := RoundDiv(100 * (index + 1), count);
    assert index < count ==> 0 <= r <= 100 by {
      if index < count {
        assert 100 * (index + 1) <= 100 * count;
        RoundDivBounds(100 * (index + 1), count, 0, 100);
      }
    }
    assert index + 1 == count ==> r == 100 by {
      if index + 1 == count {
        RoundDivExact(100, count);
      }
    }
    r
  }
}
