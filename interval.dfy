/**
 * The `time_interval` text of an alert: `str(later - earlier).split('.')[0]`.
 * Both operands are pandas Timestamps, so the difference is a pandas
 * Timedelta, whose text form for a non-negative duration is
 * `"<days> days <HH>:<MM>:<SS>"`, followed by `".<ffffff>"` when there is a
 * fractional second (at microsecond resolution). Cutting at the first `'.'`
 * drops the fraction: the interval is truncated to whole seconds.
 */
module Interval {
  import opened Records

  function Digit(d: nat): (ch: char)
    requires d < 10
    ensures '0' <= ch <= '9' && (ch as int) - ('0' as int) == d
  {
    (('0' as int) + d) as char
  }

  /** `str(n)` for a natural number: decimal, no leading zeros. */
  function NatStr(n: nat): (s: string)
    ensures |s| >= 1
  {
    if n < 10 then [Digit(n)] else NatStr(n / 10) + [Digit(n % 10)]
  }

  /** `str(n)` is made of decimal digits only. */
  lemma {:induction false} NatStrDigits(n: nat)
    ensures AllDigits(NatStr(n))
  {
    if n >= 10 {
      NatStrDigits(n / 10);
    }
  }

  /** `f"{n:02d}"` for `n < 100`. */
  function Pad2(n: nat): (s: string)
    requires n < 100
    ensures |s| == 2 && '0' <= s[0] <= '9' && '0' <= s[1] <= '9'
  {
    [Digit(n / 10), Digit(n % 10)]
  }

  /** `f"{n:03d}"` for `n < 1000`. */
  function Pad3(n: nat): (s: string)
    requires n < 1000
    ensures |s| == 3
  {
    [Digit(n / 100), Digit(n / 10 % 10), Digit(n % 10)]
  }

  /** The whole-second part of a pandas Timedelta's text: `"<days> days <HH>:<MM>:<SS>"`. */
  function WholeSecondsStr(secs: nat): (s: string)
    ensures |s| >= 15
  {
    var rem := secs % 86_400;
    NatStr(secs / 86_400) + ClockStr(rem / 3_600, rem % 3_600 / 60, rem % 3_600 % 60)
  }

  /** The fixed-width `" days <HH>:<MM>:<SS>"` part that follows the day count. */
  function ClockStr(h: nat, m: nat, s: nat): (r: string)
    requires h < 100 && m < 100 && s < 100
    ensures |r| == 14
  {
    " days " + Pad2(h) + ":" + Pad2(m) + ":" + Pad2(s)
  }

  /** The whole-second text has no `'.'`: its day count is digits and its clock part has none. */
  lemma WholeSecondsNoDot(secs: nat)
    ensures '.' !in WholeSecondsStr(secs)
  {
    var rem := secs % 86_400;
    var days, clock := NatStr(secs / 86_400), ClockStr(rem / 3_600, rem % 3_600 / 60, rem % 3_600 % 60);
    NatStrDigits(secs / 86_400);
    assert '.' !in clock by {
      assert forall i :: 0 <= i < 14 ==> clock[i] == ' ' || clock[i] == ':' || ('a' <= clock[i] <= 'z') || ('0' <= clock[i] <= '9');
    }
    assert '.' !in days;
    assert WholeSecondsStr(secs) == days + clock;
  }

  /** `str(td)` of a non-negative pandas Timedelta holding `d` microseconds. */
  function TimedeltaStr(d: nat): string
  {
    var frac := d % Second;
    WholeSecondsStr(d / Second) + (if frac == 0 then "" else "." + Pad3(frac / 1_000) + Pad3(frac % 1_000))
  }

  /** `s.split('.')[0]`: everything before the first `'.'`, or all of `s` when it has none. */
  function BeforeFirstDot(s: string): (r: string)
  {
    if s == [] || s[0] == '.' then [] else [s[0]] + BeforeFirstDot(s[1..])
  }

  /** The result is the longest prefix of `s` without a `'.'`: it stops at the first `'.'`, or takes all of `s`. */
  lemma {:induction false} BeforeFirstDotCuts(s: string)
    ensures BeforeFirstDot(s) <= s
    ensures '.' !in BeforeFirstDot(s)
    ensures |BeforeFirstDot(s)| < |s| ==> s[|BeforeFirstDot(s)|] == '.'
  {
    if s != [] && s[0] != '.' {
      BeforeFirstDotCuts(s[1..]);
      var r := BeforeFirstDot(s[1..]);
      assert BeforeFirstDot(s) == [s[0]] + r;
      assert s == [s[0]] + s[1..];
    }
  }

  /** The `time_interval` of an alert whose two samples are `d` microseconds apart. */
  function TimeInterval(d: nat): string
  {
    BeforeFirstDot(TimedeltaStr(d))
  }

  lemma {:induction false} BeforeFirstDotOfPrefix(a: string, b: string)
    requires '.' !in a
    requires b == [] || b[0] == '.'
    ensures BeforeFirstDot(a + b) == a
  {
    if a != [] {
      assert (a + b)[1..] == a[1..] + b;
      BeforeFirstDotOfPrefix(a[1..], b);
    } else {
      assert a + b == b;
    }
  }

  /**
   * The interval is the duration truncated to whole seconds, never rounded:
   * the text of `d` is the text of the largest whole number of seconds not above it.
   */
  lemma IntervalTruncates(d: nat)
    ensures TimeInterval(d) == WholeSecondsStr(d / Second)
    ensures TimeInterval(d) == TimedeltaStr(d / Second * Second)
  {
    var frac := d % Second;
    var tail := if frac == 0 then "" else "." + Pad3(frac / 1_000) + Pad3(frac % 1_000);
    WholeSecondsNoDot(d / Second);
    BeforeFirstDotOfPrefix(WholeSecondsStr(d / Second), tail);
    assert (d / Second * Second) % Second == 0;
    assert (d / Second * Second) / Second == d / Second;
    assert TimedeltaStr(d / Second * Second) == WholeSecondsStr(d / Second) + "";
  }

  /** Two durations within the same whole second give the same interval text. */
  lemma IntervalIgnoresSubseconds(d1: nat, d2: nat)
    requires d1 / Second == d2 / Second
    ensures TimeInterval(d1) == TimeInterval(d2)
  {
    IntervalTruncates(d1);
    IntervalTruncates(d2);
  }

  /** The number a string of decimal digits spells. */
  function DigitsValue(s: string): nat
  {
    if s == [] then 0
    else
      var d := (s[|s| - 1] as int) - ('0' as int);
      DigitsValue(s[..|s| - 1]) * 10 + (if 0 <= d < 10 then d else 0)
  }

  predicate AllDigits(s: string)
  {
    forall i :: 0 <= i < |s| ==> '0' <= s[i] <= '9'
  }

  /** Reads the fixed-width `" days <HH>:<MM>:<SS>"` part back as a number of seconds. */
  function ParseClock(t: string): (r: Option<nat>)
    requires |t| == 14
  {
    if t[..6] != " days " || t[8] != ':' || t[11] != ':'
       || !AllDigits(t[6..8]) || !AllDigits(t[9..11]) || !AllDigits(t[12..])
    then None
    else Some(DigitsValue(t[6..8]) * 3_600 + DigitsValue(t[9..11]) * 60 + DigitsValue(t[12..]))
  }

  /** Reads a day count and a clock part back as a number of seconds. */
  function ParseParts(head: string, clock: string): (r: Option<nat>)
    requires |clock| == 14
  {
    if head == [] || !AllDigits(head) then None
    else
      match ParseClock(clock)
      case None => None
      case Some(t) => Some(DigitsValue(head) * 86_400 + t)
  }

  /** Reads a `"<days> days <HH>:<MM>:<SS>"` interval back as a number of seconds. */
  function ParseInterval(s: string): (r: Option<nat>)
  {
    if |s| < 15 then None else ParseParts(s[..|s| - 14], s[|s| - 14..])
  }

  lemma {:induction false} NatStrValue(n: nat)
    ensures DigitsValue(NatStr(n)) == n
  {
    if n >= 10 {
      NatStrValue(n / 10);
      var s := NatStr(n);
      assert s[..|s| - 1] == NatStr(n / 10);
    }
  }

  lemma Pad2Value(n: nat)
    requires n < 100
    ensures DigitsValue(Pad2(n)) == n
  {
    var s := Pad2(n);
    assert s[..1] == [s[0]] && [s[0]][..0] == [];
    assert DigitsValue([s[0]]) == n / 10;
  }

  /** The clock part of an interval reads back as the seconds of its three fields. */
  lemma ClockRoundTrip(h: nat, m: nat, sec: nat)
    requires h < 100 && m < 100 && sec < 100
    ensures ParseClock(ClockStr(h, m, sec)) == Some(h * 3_600 + m * 60 + sec)
  {
    var c := ClockStr(h, m, sec);
    assert c[..6] == " days " && c[8] == ':' && c[11] == ':';
    assert c[6..8] == Pad2(h) && c[9..11] == Pad2(m) && c[12..] == Pad2(sec);
    Pad2Value(h);
    Pad2Value(m);
    Pad2Value(sec);
  }

  /** Days, hours, minutes and seconds, as pandas splits them, add back up to the duration. */
  lemma SplitSeconds(secs: nat)
    ensures var rem := secs % 86_400;
      secs / 86_400 * 86_400 + rem / 3_600 * 3_600 + rem % 3_600 / 60 * 60 + rem % 3_600 % 60 == secs
  {
    var rem := secs % 86_400;
    assert secs == secs / 86_400 * 86_400 + rem;
    assert rem == rem / 3_600 * 3_600 + rem % 3_600;
    var r2 := rem % 3_600;
    assert r2 == r2 / 60 * 60 + r2 % 60;
  }

  /** Any text followed by a 14-character clock part is read as that day count and that clock. */
  lemma ParseSplit(head: string, clock: string)
    requires |head| >= 1 && |clock| == 14
    ensures ParseInterval(head + clock) == ParseParts(head, clock)
  {
    var s := head + clock;
    assert s[..|s| - 14] == head;
    assert s[|s| - 14..] == clock;
  }

  /** A day count followed by a clock reads back as the seconds they add up to. */
  lemma ParseWhole(days: nat, h: nat, m: nat, sec: nat)
    requires h < 100 && m < 100 && sec < 100
    ensures ParseInterval(NatStr(days) + ClockStr(h, m, sec)) == Some(days * 86_400 + h * 3_600 + m * 60 + sec)
  {
    ParseSplit(NatStr(days), ClockStr(h, m, sec));
    NatStrDigits(days);
    ClockRoundTrip(h, m, sec);
    NatStrValue(days);
  }

  /** The whole-second text of a duration reads back as that number of seconds. */
  lemma WholeSecondsRoundTrip(secs: nat)
    ensures ParseInterval(WholeSecondsStr(secs)) == Some(secs)
  {
    var rem := secs % 86_400;
    var days, h, m, sec := secs / 86_400, rem / 3_600, rem % 3_600 / 60, rem % 3_600 % 60;
    ParseWhole(days, h, m, sec);
    SplitSeconds(secs);
  }

  /**
   * Reading an interval back gives the elapsed time in whole seconds: the
   * formatting loses exactly the fractional second.
   */
  lemma IntervalRoundTrip(d: nat)
    ensures ParseInterval(TimeInterval(d)) == Some(d / Second)
  {
    IntervalTruncates(d);
    WholeSecondsRoundTrip(d / Second);
  }

  /** The text of a duration under ten minutes whose minutes and seconds are single digits. */
  lemma ShortWholeSeconds(secs: nat, m: nat, sec: nat)
    requires m < 10 && sec < 10 && secs == m * 60 + sec
    ensures WholeSecondsStr(secs) == ['0', ' ', 'd', 'a', 'y', 's', ' ', '0', '0', ':', '0', Digit(m), ':', '0', Digit(sec)]
  {
    var rem := secs % 86_400;
    assert rem == secs && secs / 86_400 == 0;
    assert rem / 3_600 == 0 && rem % 3_600 / 60 == m && rem % 3_600 % 60 == sec;
    assert WholeSecondsStr(secs) == NatStr(0) + ClockStr(0, m, sec);
    assert Pad2(0) == ['0', '0'] && Pad2(m) == ['0', Digit(m)] && Pad2(sec) == ['0', Digit(sec)];
    assert NatStr(0) == ['0'];
  }

  /** Samples five minutes apart give the interval `"0 days 00:05:00"`. */
  lemma FiveMinutesInterval()
    ensures TimeInterval(300_000_000) == "0 days 00:05:00"
  {
    IntervalTruncates(300_000_000);
    ShortWholeSeconds(300, 5, 0);
  }

  /** Samples 1.75 seconds apart give one second: truncated, not rounded up. */
  lemma SubsecondTruncated()
    ensures TimeInterval(1_750_000) == "0 days 00:00:01"
  {
    IntervalTruncates(1_750_000);
    ShortWholeSeconds(1, 0, 1);
  }
}
