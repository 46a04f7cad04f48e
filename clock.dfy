/** Instants and wall-clock times. An instant is a whole number of seconds
    since the Unix epoch (what Go's `time.Time.Unix` returns); a zone is a
    fixed number of seconds east of UTC. */
module Clock {
  import opened Common
  import opened GoStrings

  const Minute: int := 60
  const Hour: int := 3600
  const Day: int := 86400

  /** Asia/Taipei has kept UTC+8 without daylight saving since 1979. */
  const TaipeiOffset: int := 8 * Hour

  /** The first instant of the calendar day that holds `now`, in the zone
      `offset` seconds east of UTC: what `time.Date(now.Year(), now.Month(),
      now.Day(), 0, 0, 0, 0, zone)` denotes. */
  function DayStart(now: int, offset: int): (d: int)
    ensures d <= now < d + Day
    ensures (d + offset) % Day == 0
  {
    now - (now + offset) % Day
  }

  /** The instant at hour:minute:00 on the day that holds `now`. */
  function AtClock(now: int, offset: int, hour: int, minute: int): (t: int)
    requires 0 <= hour < 24 && 0 <= minute < 60
    ensures DayStart(now, offset) <= t < DayStart(now, offset) + Day
    ensures (t - DayStart(now, offset)) / Hour == hour
    ensures (t - DayStart(now, offset)) % Hour == minute * Minute
  {
    DayStart(now, offset) + hour * Hour + minute * Minute
  }

  /** The two layouts handed to `time.Parse`: "1504" and "15:04". */
  datatype Layout = Compact | Colon

  /** `time.Parse` with layout "1504" (Compact) or "15:04" (Colon): the hour
      element "15" takes one digit, or two when a second digit follows, and
      must be below 24; the minute element "04" takes exactly two digits and
      must be below 60; the colon is a literal; text left over is an error.
      Yields (hour, minute), or None for a parse error. */
  function ParseClock(s: string, layout: Layout): (r: Option<(int, int)>)
    ensures r.Some? ==> 0 <= r.value.0 < 24 && 0 <= r.value.1 < 60
  {
    if |s| == 0 || !IsDigit(s[0]) then None
    else
      var two := |s| >= 2 && IsDigit(s[1]);
      var hour := if two then 10 * DigitValue(s[0]) + DigitValue(s[1]) else DigitValue(s[0]);
      var rest := if two then s[2..] else s[1..];
      if hour >= 24 then None
      else if layout == Colon && (|rest| == 0 || rest[0] != ':') then None
      else
        var m := if layout == Colon then rest[1..] else rest;
        if |m| < 2 || !IsDigit(m[0]) || !IsDigit(m[1]) then None
        else
          var minute := 10 * DigitValue(m[0]) + DigitValue(m[1]);
          if minute >= 60 || |m| > 2 then None
          else Some((hour, minute))
  }

  /** Two decimal digits, with a leading zero below ten. */
  function Pad2(n: int): (s: string)
    requires 0 <= n < 100
    ensures |s| == 2 && AllDigits(s)
  {
    [DigitChar(n / 10), DigitChar(n % 10)]
  }

  /** Every valid hour and minute written with two digits each is read back
      by both layouts; the colon layout also reads a one-digit hour. */
  lemma ParseClockReadsPadded(hour: int, minute: int)
    requires 0 <= hour < 24 && 0 <= minute < 60
    ensures ParseClock(Pad2(hour) + Pad2(minute), Compact) == Some((hour, minute))
    ensures ParseClock(Pad2(hour) + ":" + Pad2(minute), Colon) == Some((hour, minute))
    ensures hour < 10 ==> ParseClock([DigitChar(hour)] + ":" + Pad2(minute), Colon) == Some((hour, minute))
  {
  }

  /** Conversely, those are the only strings either layout accepts: the
      compact layout needs exactly four digits, the colon layout "HH:MM" or
      "H:MM". */
  lemma ParseClockShapes(s: string, layout: Layout)
    requires ParseClock(s, layout).Some?
    ensures var (hour, minute) := ParseClock(s, layout).value;
      if layout == Compact then s == Pad2(hour) + Pad2(minute)
      else s == Pad2(hour) + ":" + Pad2(minute) || (hour < 10 && s == [DigitChar(hour)] + ":" + Pad2(minute))
  {
  }
}
