/** `LegendadorApp.format_timestamp`: a seconds offset rendered as the
    subtitle timecode `HH:MM:SS,mmm`.

    The offset is an exact non-negative real; `math.floor` is `.Floor` and
    Python's `round` is `RoundHalfEven` (ties go to the even neighbour, as
    Python rounds an exact half). */
module Timestamp {
  import opened Options
  import opened Text

  /** Nearest integer, ties to the even one. */
  function RoundHalfEven(x: real): (r: int)
    ensures x - 0.5 <= r as real <= x + 0.5
    ensures (x - 0.5 < r as real < x + 0.5) || r % 2 == 0
  {
    var f := x.Floor;
    var d := x - f as real;
    if d < 0.5 then f
    else if d > 0.5 then f + 1
    else if f % 2 == 0 then f
    else f + 1
  }

  /** A non-negative offset into the media, in seconds. */
  type Seconds = r: real | r >= 0.0

  /** The four numbers the timecode is made of. */
  datatype Clock = Clock(hours: nat, minutes: nat, seconds: nat, millis: nat)

  /** Whole seconds of a clock, and what a clock stands for in seconds. */
  function WholeSeconds(c: Clock): nat {
    3600 * c.hours + 60 * c.minutes + c.seconds
  }

  function ClockValue(c: Clock): real {
    WholeSeconds(c) as real + c.millis as real / 1000.0
  }

  /** The computation of format_timestamp before rendering: hours by
      floor-division, the remainder modulo 3600 split into minutes, the
      remainder modulo 60 split into whole seconds and a fraction, and the
      fraction rounded to milliseconds.

      Minutes and seconds are below 60, the whole part is exact, and the
      clock is within half a millisecond of `t`. Milliseconds may be 1000:
      a fraction of at least 0.9995 rounds up and is not carried into the
      seconds. */
  function ClockOf(t: real): (c: Clock)
    requires t >= 0.0
    ensures c.minutes < 60 && c.seconds < 60 && c.millis <= 1000
    ensures WholeSeconds(c) as real <= t < WholeSeconds(c) as real + 1.0
    ensures c.millis == RoundHalfEven((t - WholeSeconds(c) as real) * 1000.0)
    ensures t - 0.0005 <= ClockValue(c) <= t + 0.0005
    ensures c.millis == 1000 <==> t - WholeSeconds(c) as real >= 0.9995
  {
    var hours := (t / 3600.0).Floor;
    var rest := t - 3600.0 * hours as real;          // seconds %= 3600
    var minutes := (rest / 60.0).Floor;
    var rest2 := rest - 60.0 * minutes as real;      // seconds %= 60
    var whole := rest2.Floor;
    var millis := RoundHalfEven((rest2 - whole as real) * 1000.0);
    Clock(hours, minutes, whole, millis)
  }

  /** The fields are the usual hours/minutes/seconds decomposition: any
      `h, m, s, f` with `m, s < 60`, `0 <= f < 1` and
      `t = 3600h + 60m + s + f` are the ones format_timestamp finds. */
  lemma ClockUnique(t: real, h: nat, m: nat, s: nat, f: real)
    requires m < 60 && s < 60 && 0.0 <= f < 1.0
    requires t == (3600 * h + 60 * m + s) as real + f
    ensures ClockOf(t) == Clock(h, m, s, RoundHalfEven(f * 1000.0))
  {
    var below := (60 * m + s) as real + f;
    assert 0.0 <= below < 3600.0;
    FloorIs(t / 3600.0, h);
    var rest := t - 3600.0 * h as real;
    assert rest == below;
    FloorIs(rest / 60.0, m);
    var rest2 := rest - 60.0 * m as real;
    assert rest2 == s as real + f;
    FloorIs(rest2, s);
  }

  lemma FloorIs(x: real, k: int)
    requires k as real <= x < k as real + 1.0
    ensures x.Floor == k
  {
  }

  /** `f"{hours:02d}:{minutes:02d}:{seconds:02d},{milliseconds:03d}"` */
  function FormatTimestamp(t: Seconds): string {
    Render(ClockOf(t))
  }

  function Render(c: Clock): string {
    PadZeros(c.hours, 2) + ":" + PadZeros(c.minutes, 2) + ":"
      + PadZeros(c.seconds, 2) + "," + PadZeros(c.millis, 3)
  }

  /** A rendered timecode is made of digits, `:` and `,` only. */
  lemma RenderHasNo(c: Clock, ch: char)
    requires !IsDigit(ch) && ch != ':' && ch != ','
    ensures ch !in Render(c)
  {
    NoSeparatorInDigits(PadZeros(c.hours, 2), ch);
    NoSeparatorInDigits(PadZeros(c.minutes, 2), ch);
    NoSeparatorInDigits(PadZeros(c.seconds, 2), ch);
    NoSeparatorInDigits(PadZeros(c.millis, 3), ch);
  }

  // ---------------------------------------------------------------------
  // Reading a timecode back
  // ---------------------------------------------------------------------

  /** Parses `H:MM:SS,mmm`-shaped text with digit fields of any length. */
  function ParseTimestamp(s: string): Option<Clock> {
    match SplitFirst(s, ':')
    case None => None
    case Some(p1) =>
      match SplitFirst(p1.1, ':')
      case None => None
      case Some(p2) =>
        match SplitFirst(p2.1, ',')
        case None => None
        case Some(p3) =>
          if AllDigits(p1.0) && AllDigits(p2.0) && AllDigits(p3.0) && AllDigits(p3.1)
             && p1.0 != [] && p2.0 != [] && p3.0 != [] && p3.1 != []
          then Some(Clock(DigitsValue(p1.0), DigitsValue(p2.0), DigitsValue(p3.0), DigitsValue(p3.1)))
          else None
  }

  lemma NoSeparatorInDigits(d: string, sep: char)
    requires AllDigits(d) && !IsDigit(sep)
    ensures sep !in d
  {
  }

  /** Four digit fields joined by `:`, `:` and `,` read back as their
      values. */
  lemma ParseFields(h: string, m: string, s: string, ms: string)
    requires AllDigits(h) && AllDigits(m) && AllDigits(s) && AllDigits(ms)
    requires h != [] && m != [] && s != [] && ms != []
    ensures ParseTimestamp(h + [':'] + (m + [':'] + (s + [','] + ms)))
            == Some(Clock(DigitsValue(h), DigitsValue(m), DigitsValue(s), DigitsValue(ms)))
  {
    NoSeparatorInDigits(h, ':');
    NoSeparatorInDigits(m, ':');
    NoSeparatorInDigits(s, ',');
    SplitFirstAt(h, ':', m + [':'] + (s + [','] + ms));
    SplitFirstAt(m, ':', s + [','] + ms);
    SplitFirstAt(s, ',', ms);
  }

  lemma RegroupFields(h: string, m: string, s: string, ms: string)
    ensures h + ":" + m + ":" + s + "," + ms == h + [':'] + (m + [':'] + (s + [','] + ms))
  {
  }

  /** Every rendered clock reads back as itself, whatever the widths of the
      hour and millisecond fields. */
  lemma ParseRender(c: Clock)
    ensures ParseTimestamp(Render(c)) == Some(c)
  {
    var h, m, s, ms := PadZeros(c.hours, 2), PadZeros(c.minutes, 2), PadZeros(c.seconds, 2), PadZeros(c.millis, 3);
    RegroupFields(h, m, s, ms);
    ParseFields(h, m, s, ms);
  }

  /** format_timestamp loses only the sub-millisecond part: its text reads
      back as `ClockOf(t)`, which is within half a millisecond of `t`. */
  lemma ParseFormat(t: real)
    requires t >= 0.0
    ensures ParseTimestamp(FormatTimestamp(t)) == Some(ClockOf(t))
  {
    ParseRender(ClockOf(t));
  }

  /** A timecode fits on one line, has no space, and reads back. */
  lemma TimecodeReadsBack(t: real)
    requires t >= 0.0
    ensures '\n' !in FormatTimestamp(t) && ' ' !in FormatTimestamp(t)
    ensures ParseTimestamp(FormatTimestamp(t)) == Some(ClockOf(t))
  {
    RenderHasNo(ClockOf(t), '\n');
    RenderHasNo(ClockOf(t), ' ');
    ParseFormat(t);
  }

  /** The timecode has the fixed 12-character width `HH:MM:SS,mmm` exactly
      when the offset is below 100 hours and the milliseconds did not round
      up to 1000; otherwise a field grows (format specs pad, never cut). */
  lemma FixedWidthIff(t: real)
    requires t >= 0.0
    ensures |FormatTimestamp(t)| == 12 <==> ClockOf(t).hours < 100 && ClockOf(t).millis < 1000
  {
    var c := ClockOf(t);
    PadZerosWidth(c.hours, 2);
    PadZerosWidth(c.minutes, 2);
    PadZerosWidth(c.seconds, 2);
    PadZerosWidth(c.millis, 3);
    assert Pow10(2) == 100 && Pow10(3) == 1000;
  }

  lemma FormatZero()
    ensures FormatTimestamp(0.0) == "00:00:00,000"
  {
    ClockZero();
    RenderZero();
  }

  lemma ClockZero()
    ensures ClockOf(0.0) == Clock(0, 0, 0, 0)
  {
    ClockUnique(0.0, 0, 0, 0, 0.0);
    assert RoundHalfEven(0.0) == 0;
  }

  lemma RenderZero()
    ensures Render(Clock(0, 0, 0, 0)) == "00:00:00,000"
  {
    PadZeroTwo();
    PadOneDigit(0, 3);
    assert Zeros(2) == "00";
  }

  lemma FormatOneHourOneMinute()
    ensures FormatTimestamp(3661.5) == "01:01:01,500"
  {
    ClockOneHourOneMinute();
    RenderOneHourOneMinute();
  }

  lemma ClockOneHourOneMinute()
    ensures ClockOf(3661.5) == Clock(1, 1, 1, 500)
  {
    ClockUnique(3661.5, 1, 1, 1, 0.5);
    assert RoundHalfEven(500.0) == 500;
  }

  lemma RenderOneHourOneMinute()
    ensures Render(Clock(1, 1, 1, 500)) == "01:01:01,500"
  {
    PadOneTwo();
    PadFiveHundred();
  }

  lemma PadOneTwo()
    ensures PadZeros(1, 2) == "01"
  {
    PadOneDigit(1, 2);
    assert Zeros(1) == "0";
  }

  lemma PadFiveHundred()
    ensures PadZeros(500, 3) == "500"
  {
    NatToStringStep(5, 0);
    NatToStringStep(50, 0);
    assert NatToString(500) == "500";
  }

  /** The millisecond overflow is reachable: 0.9996 s renders with a
      four-digit millisecond field. */
  lemma FormatMillisOverflow()
    ensures ClockOf(0.9996).millis == 1000
    ensures FormatTimestamp(0.9996) == "00:00:00,1000"
  {
    ClockOfJustUnderOne();
    RenderThousandMillis();
  }

  lemma ClockOfJustUnderOne()
    ensures ClockOf(0.9996) == Clock(0, 0, 0, 1000)
  {
    ClockUnique(0.9996, 0, 0, 0, 0.9996);
    assert RoundHalfEven(999.6) == 1000;
  }

  lemma RenderThousandMillis()
    ensures Render(Clock(0, 0, 0, 1000)) == "00:00:00,1000"
  {
    PadZeroTwo();
    PadThousand();
  }

  lemma PadZeroTwo()
    ensures PadZeros(0, 2) == "00"
  {
    PadOneDigit(0, 2);
    assert Zeros(1) == "0";
  }

  lemma PadThousand()
    ensures PadZeros(1000, 3) == "1000"
  {
    NatToStringStep(1, 0);
    NatToStringStep(10, 0);
    NatToStringStep(100, 0);
    assert NatToString(1000) == "1000";
  }
}
