/** Display helpers: a signed Elo change, and how long ago a timestamp was,
    bucketed into minutes, hours and days. */
module Format {
  import opened Wrappers
  import opened Text

  /** `formatDelta`: "-" when there is no delta, otherwise the number with
      an explicit "+" unless it is negative. */
  function FormatDelta(delta: Option<int>): (s: string)
    ensures delta.None? <==> s == "-"
    ensures delta.Some? && delta.value >= 0 ==> |s| >= 2 && s[0] == '+'
    ensures delta.Some? && delta.value < 0 ==> |s| >= 2 && s[0] == '-'
  {
    match delta
    case None => "-"
    case Some(d) => if d >= 0 then "+" + NatToString(d) else "-" + NatToString(-d)
  }

  /** Reads back what `FormatDelta` writes. */
  function ParseDelta(s: string): Option<Option<int>> {
    if s == "-" then Some(None)
    else if |s| >= 2 && s[0] == '+' && IsDigits(s[1..]) then Some(Some(ParseDigits(s[1..])))
    else if |s| >= 2 && s[0] == '-' && IsDigits(s[1..]) then Some(Some(-(ParseDigits(s[1..]) as int)))
    else None
  }

  /** The text of a delta determines the delta: formatting loses nothing. */
  lemma ParseFormatDelta(delta: Option<int>)
    ensures ParseDelta(FormatDelta(delta)) == Some(delta)
  {
    match delta
    case None =>
    case Some(d) =>
      var digits := if d >= 0 then NatToString(d) else NatToString(-d);
      assert FormatDelta(delta)[1..] == digits;
      if d >= 0 {
        ParseNatToString(d);
      } else {
        ParseNatToString(-d);
      }
  }

  /** Two deltas with the same text are the same delta. */
  lemma FormatDeltaInjective(a: Option<int>, b: Option<int>)
    requires FormatDelta(a) == FormatDelta(b)
    ensures a == b
  {
    ParseFormatDelta(a);
    ParseFormatDelta(b);
  }

  // ---------------------------------------------------------------------
  // Relative time

  const MinuteMs := 60000
  const HourMs := 60 * MinuteMs
  const DayMs := 24 * HourMs

  /** The bucket `relativeTime` chooses; `OnDate` is the calendar-date
      fallback for anything thirty days old or more. */
  datatype Elapsed = JustNow | MinutesAgo(minutes: nat) | HoursAgo(hours: nat) | DaysAgo(days: nat) | OnDate

  /** `relativeTime`, with `now` standing for `Date.now()`. The source floors
      the elapsed minutes, then the hours from the minutes and the days from
      the hours; on a positive divisor Dafny's `/` floors as `Math.floor`
      does, so a timestamp in the future is "just now". */
  function RelativeTime(now: int, timestamp: int): (r: Elapsed)
    ensures r.MinutesAgo? ==> 1 <= r.minutes < 60
    ensures r.HoursAgo? ==> 1 <= r.hours < 24
    ensures r.DaysAgo? ==> 1 <= r.days < 30
  {
    var diff := now - timestamp;
    var minutes := diff / MinuteMs;
    if minutes < 1 then JustNow
    else if minutes < 60 then MinutesAgo(minutes)
    else
      var hours := minutes / 60;
      if hours < 24 then HoursAgo(hours)
      else
        var days := hours / 24;
        if days < 30 then DaysAgo(days) else OnDate
  }

  /** Flooring minutes to hours and hours to days is flooring the elapsed
      milliseconds directly. */
  lemma NestedFloors(diff: int)
    ensures (diff / MinuteMs) / 60 == diff / HourMs
    ensures ((diff / MinuteMs) / 60) / 24 == diff / DayMs
  {
    var m := diff / MinuteMs;
    var h := m / 60;
    var d := h / 24;
    assert diff == MinuteMs * m + diff % MinuteMs;
    assert m == 60 * h + m % 60;
    assert h == 24 * d + h % 24;
    assert diff == HourMs * h + (MinuteMs * (m % 60) + diff % MinuteMs);
    assert 0 <= MinuteMs * (m % 60) + diff % MinuteMs < HourMs;
    DivUnique(diff, HourMs, h, MinuteMs * (m % 60) + diff % MinuteMs);
    assert diff == DayMs * d + (HourMs * (h % 24) + MinuteMs * (m % 60) + diff % MinuteMs);
    DivUnique(diff, DayMs, d, HourMs * (h % 24) + MinuteMs * (m % 60) + diff % MinuteMs);
  }

  lemma DivUnique(a: int, b: int, q: int, r: int)
    requires b > 0 && a == b * q + r && 0 <= r < b
    ensures a / b == q
  {
    var q' := a / b;
    var r' := a % b;
    assert a == b * q' + r';
    if q' > q {
      assert b * q' >= b * (q + 1) by { MulMonotone(b, q + 1, q'); }
    } else if q' < q {
      assert b * q >= b * (q' + 1) by { MulMonotone(b, q' + 1, q); }
    }
  }

  lemma MulMonotone(b: int, x: int, y: int)
    requires b > 0 && x <= y
    ensures b * x <= b * y
  {
  }

  /** The buckets by elapsed time alone: under a minute, under an hour,
      under a day, under thirty days, and the rest, each count floored from
      the elapsed milliseconds. */
  lemma RelativeTimeByElapsed(now: int, timestamp: int)
    ensures var diff := now - timestamp;
      var r := RelativeTime(now, timestamp);
      && (r == JustNow <==> diff < MinuteMs)
      && (r.MinutesAgo? <==> MinuteMs <= diff < HourMs)
      && (r.HoursAgo? <==> HourMs <= diff < DayMs)
      && (r.DaysAgo? <==> DayMs <= diff < 30 * DayMs)
      && (r == OnDate <==> diff >= 30 * DayMs)
      && (r.MinutesAgo? ==> r.minutes == diff / MinuteMs)
      && (r.HoursAgo? ==> r.hours == diff / HourMs)
      && (r.DaysAgo? ==> r.days == diff / DayMs)
  {
    var diff := now - timestamp;
    NestedFloors(diff);
  }

  /** The label shown for a bucket; `dateLabel` stands for the locale's
      short month-and-day rendering of the timestamp. */
  function ElapsedLabel(e: Elapsed, dateLabel: string): (s: string)
    ensures e == JustNow ==> s == "just now"
    ensures e == OnDate ==> s == dateLabel
    ensures e.MinutesAgo? || e.HoursAgo? || e.DaysAgo? ==>
      |s| >= 6 && s[|s| - 4..] == " ago" && s[..|s| - 5] == NatToString(CountOf(e))
  {
    match e
    case JustNow => "just now"
    case MinutesAgo(n) => NatToString(n) + "m ago"
    case HoursAgo(n) => NatToString(n) + "h ago"
    case DaysAgo(n) => NatToString(n) + "d ago"
    case OnDate => dateLabel
  }

  /** The unit letter before " ago", or the 't' of "just now". */
  function UnitMark(e: Elapsed): char {
    match e
    case JustNow => 't'
    case MinutesAgo(_) => 'm'
    case HoursAgo(_) => 'h'
    case DaysAgo(_) => 'd'
    case OnDate => ' '
  }

  lemma LabelShape(e: Elapsed, dateLabel: string)
    requires e != OnDate
    ensures var s := ElapsedLabel(e, dateLabel);
      && |s| >= 6 && s[|s| - 5] == UnitMark(e)
      && (e != JustNow ==> s[..|s| - 5] == NatToString(CountOf(e)))
  {
  }

  function CountOf(e: Elapsed): nat {
    match e
    case MinutesAgo(n) => n
    case HoursAgo(n) => n
    case DaysAgo(n) => n
    case _ => 0
  }

  /** Different buckets show different labels: the text names the bucket
      and its count. */
  lemma ElapsedLabelInjective(a: Elapsed, b: Elapsed, dateLabel: string)
    requires a != OnDate && b != OnDate
    requires ElapsedLabel(a, dateLabel) == ElapsedLabel(b, dateLabel)
    ensures a == b
  {
    LabelShape(a, dateLabel);
    LabelShape(b, dateLabel);
    if a != JustNow && b != JustNow {
      NatToStringInjective(CountOf(a), CountOf(b));
    }
  }
}
