/** Instants, days and "HH:MM" times of day. An instant is a whole number of
    seconds in local time; a day is 86400 seconds and starts at a multiple of
    it, so a calendar date is a day number. */
module Clock {
  import opened Common

  const MINUTE: int := 60
  const HOUR: int := 3600
  const DAY: int := 86400

  /** Midnight of the day holding `t` (`t.replace(hour=0, minute=0, ...)`). */
  function DayStart(t: int): (r: int)
    ensures r <= t < r + DAY && r % DAY == 0
  {
    t - t % DAY
  }

  /** The calendar date of `t` (`strftime("%Y-%m-%d")`), as a day number. */
  function DayOf(t: int): (d: int)
    ensures d * DAY <= t < d * DAY + DAY
  {
    t / DAY
  }

  datatype ClockTime = ClockTime(hour: int, minute: int)

  /** What `datetime` accepts for hour and minute. */
  predicate ValidClock(c: ClockTime) {
    0 <= c.hour <= 23 && 0 <= c.minute <= 59
  }

  /** Seconds after midnight of `HH:MM:00`. */
  function Offset(c: ClockTime): (r: int)
    requires ValidClock(c)
    ensures 0 <= r < DAY
  {
    c.hour * HOUR + c.minute * MINUTE
  }

  // ---------------------------------------------------------------------------
  // Parsing "HH:MM"
  // ---------------------------------------------------------------------------

  predicate IsDigit(c: char) {
    '0' <= c <= '9'
  }

  predicate AllDigits(s: string) {
    forall i :: 0 <= i < |s| ==> IsDigit(s[i])
  }

  /** The value of a string of decimal digits. */
  function DigitsValue(s: string): (n: nat)
    requires AllDigits(s)
  {
    if |s| == 0 then 0
    else DigitsValue(s[..|s| - 1]) * 10 + (s[|s| - 1] as int - '0' as int)
  }

  /** `int(s)` on a string: an optional sign and at least one decimal digit.
      None stands for the `ValueError` that `int` raises otherwise. */
  function ParseInt(s: string): (r: Option<int>)
    ensures r.Some? ==> |s| > 0
  {
    if |s| > 0 && (s[0] == '+' || s[0] == '-') then
      if |s| > 1 && AllDigits(s[1..]) then
        var v: int := DigitsValue(s[1..]);
        Some(if s[0] == '-' then -v else v)
      else None
    else if |s| > 0 && AllDigits(s) then Some(DigitsValue(s))
    else None
  }

  /** Python's `s.split(sep)`: the pieces between the separators, always at
      least one. */
  function Split(s: string, sep: char): (parts: seq<string>)
    ensures |parts| >= 1
  {
    if |s| == 0 then [""]
    else
      var rest := Split(s[1..], sep);
      if s[0] == sep then [""] + rest
      else [[s[0]] + rest[0]] + rest[1..]
  }

  lemma {:induction false} SplitNoSep(s: string, sep: char)
    requires forall i :: 0 <= i < |s| ==> s[i] != sep
    ensures Split(s, sep) == [s]
  {
    if |s| > 0 {
      SplitNoSep(s[1..], sep);
      assert [s[0]] + s[1..] == s;
    }
  }

  lemma {:induction false} SplitAt(a: string, sep: char, b: string)
    requires forall i :: 0 <= i < |a| ==> a[i] != sep
    ensures Split(a + [sep] + b, sep) == [a] + Split(b, sep)
  {
    if |a| == 0 {
      assert a + [sep] + b == [sep] + b;
      assert ([sep] + b)[1..] == b;
    } else {
      assert (a + [sep] + b)[1..] == a[1..] + [sep] + b;
      SplitAt(a[1..], sep, b);
      assert [a[0]] + a[1..] == a;
    }
  }

  /** `hour, minute = map(int, s.split(':'))`: exactly two pieces, both
      integers. The range of the values is checked later, by `datetime`. */
  function ParseClock(s: string): Option<ClockTime> {
    var parts := Split(s, ':');
    if |parts| != 2 then None
    else match (ParseInt(parts[0]), ParseInt(parts[1]))
      case (Some(h), Some(m)) => Some(ClockTime(h, m))
      case _ => None
  }

  /** `add_alarm`'s validation: the time parses and names a real time of day. */
  predicate ValidTime(s: string) {
    ParseClock(s).Some? && ValidClock(ParseClock(s).value)
  }

  /** `datetime.strptime(s, "%H:%M")`: one or two digits on each side of the
      colon, hour at most 23, minute at most 59, nothing else. */
  function ParseClockStrict(s: string): (r: Option<ClockTime>)
    ensures r.Some? ==> ValidClock(r.value)
  {
    var parts := Split(s, ':');
    if |parts| != 2 then None
    else
      var hs, ms := parts[0], parts[1];
      if 1 <= |hs| <= 2 && 1 <= |ms| <= 2 && AllDigits(hs) && AllDigits(ms)
         && DigitsValue(hs) <= 23 && DigitsValue(ms) <= 59
      then Some(ClockTime(DigitsValue(hs), DigitsValue(ms)))
      else None
  }

  /** Everything the strict parser accepts, the lenient one accepts with the
      same value: the tray app never reads a time differently from the daemon. */
  lemma StrictImpliesLenient(s: string)
    requires ParseClockStrict(s).Some?
    ensures ParseClock(s) == ParseClockStrict(s)
  {
    var parts := Split(s, ':');
    assert ParseInt(parts[0]) == Some(DigitsValue(parts[0]));
    assert ParseInt(parts[1]) == Some(DigitsValue(parts[1]));
  }

  function DigitChar(d: int): char
    requires 0 <= d <= 9
  {
    ('0' as int + d) as char
  }

  function TwoDigits(n: int): (s: string)
    requires 0 <= n <= 99
  {
    [DigitChar(n / 10), DigitChar(n % 10)]
  }

  /** `"%02d:%02d" % (hour, minute)`, the form the dashboard and the dialogs write. */
  function FormatClock(c: ClockTime): string
    requires ValidClock(c)
  {
    TwoDigits(c.hour) + ":" + TwoDigits(c.minute)
  }

  lemma TwoDigitsValue(n: int)
    requires 0 <= n <= 99
    ensures AllDigits(TwoDigits(n)) && DigitsValue(TwoDigits(n)) == n
  {
    var s := TwoDigits(n);
    assert s[..1] == [DigitChar(n / 10)];
    assert DigitsValue(s[..1]) == n / 10 by {
      assert s[..1][..0] == [];
    }
  }

  /** Both parsers read back a formatted time of day unchanged. */
  lemma {:induction false} ParseFormatClock(c: ClockTime)
    requires ValidClock(c)
    ensures ParseClock(FormatClock(c)) == Some(c)
    ensures ParseClockStrict(FormatClock(c)) == Some(c)
  {
    var h, m := TwoDigits(c.hour), TwoDigits(c.minute);
    TwoDigitsValue(c.hour);
    TwoDigitsValue(c.minute);
    SplitAt(h, ':', m);
    SplitNoSep(m, ':');
    assert FormatClock(c) == h + [':'] + m;
    assert Split(FormatClock(c), ':') == [h, m];
    assert ParseInt(h) == Some(c.hour);
    assert ParseInt(m) == Some(c.minute);
  }

  // ---------------------------------------------------------------------------
  // calculate_alarm_datetime
  // ---------------------------------------------------------------------------

  /** The optional `date_str` argument: absent or empty, a date that parses,
      or one whose split or `datetime(year, month, day, ...)` raises. */
  datatype DateArg = NoDate | OnDate(day: int) | BadDate

  /** `calculate_alarm_datetime(time_str, date_str)` at instant `now`. None
      stands for the `ValueError` it raises on a malformed time or date or an
      out-of-range hour or minute. */
  function CalculateAlarmDatetime(timeStr: string, date: DateArg, now: int): (r: Option<int>)
    ensures r.Some? <==> ValidTime(timeStr) && !date.BadDate?
    ensures r.Some? && date.OnDate? ==>
      r.value == date.day * DAY + Offset(ParseClock(timeStr).value)
    ensures r.Some? && date.NoDate? ==>
      now < r.value <= now + DAY && r.value % DAY == Offset(ParseClock(timeStr).value)
  {
    match ParseClock(timeStr)
    case None => None
    case Some(c) =>
      if !ValidClock(c) then None
      else match date
        case BadDate => None
        case OnDate(d) => Some(d * DAY + Offset(c))
        case NoDate =>
          var today := DayStart(now) + Offset(c);
          TimeOfDayKept(now, Offset(c));
          if today > now then Some(today) else Some(today + DAY)
  }

  /** An instant is pinned down by its time of day and any window of one day
      that holds it; so the contract above determines the dateless result. */
  lemma {:induction false} OneInstantPerDay(x: int, y: int, now: int)
    requires now < x <= now + DAY && now < y <= now + DAY
    requires x % DAY == y % DAY
    ensures x == y
  {
    var qx, qy := x / DAY, y / DAY;
    assert x == qx * DAY + x % DAY;
    assert y == qy * DAY + y % DAY;
    assert x - y == (qx - qy) * DAY;
  }

  /** Today and tomorrow at a time of day both have that time of day. */
  lemma {:induction false} TimeOfDayKept(now: int, off: int)
    requires 0 <= off < DAY
    ensures (DayStart(now) + off) % DAY == off
    ensures (DayStart(now) + off + DAY) % DAY == off
  {
    var k := now / DAY;
    assert DayStart(now) == k * DAY;
    assert (k * DAY + off) / DAY == k;
    assert k * DAY + off + DAY == (k + 1) * DAY + off;
  }

  /** The instant `off` seconds into day `k` has time of day `off`. */
  lemma {:induction false} DayOffset(k: int, off: int)
    requires 0 <= off < DAY
    ensures (k * DAY + off) % DAY == off
  {
    assert (k * DAY + off) / DAY == k;
  }

  /** "07:00", the time the examples below use, reads as 07:00. */
  lemma SevenOClock()
    ensures ParseClock("07:00") == Some(ClockTime(7, 0))
    ensures ParseClockStrict("07:00") == Some(ClockTime(7, 0))
  {
    ParseFormatClock(ClockTime(7, 0));
    assert FormatClock(ClockTime(7, 0)) == "07:00";
  }

  /** With an explicit date the result is that date at HH:MM:00 even when it
      lies in the past: there is no future check. */
  lemma ExplicitDateMayBePast(now: int)
    ensures CalculateAlarmDatetime("07:00", OnDate(DayOf(now) - 1), now) == Some((DayOf(now) - 1) * DAY + 7 * HOUR)
    ensures (DayOf(now) - 1) * DAY + 7 * HOUR < now
  {
    SevenOClock();
  }
}
