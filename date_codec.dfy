// `gen_http_date` and `gen_http_time` (net/net-http-server.c:682-773) as
// the C code runs them: arithmetic on local variables and loops over the
// months. Each is proved to compute what the functions of `HttpDate`
// describe, so the round trip and the error codes proved about those hold
// of them. The `sscanf` call of `gen_http_time` is the function
// `ScanDate`.
module HttpDateCodec {
  import opened HtsTypes
  import opened HttpDate

  /**
   * `gen_http_date(date_buffer, time)`: negative times print as the epoch;
   * the result is the 29 bytes the buffer holds afterwards.
   */
  method GenHttpDate(time: int) returns (buf: seq<byte>)
    requires -0x8000_0000 <= time < 0x8000_0000
    ensures buf == FormatHttpDate(time)
  {
    var t := if time < 0 then 0 else time;
    var sec := t % 60;
    t := t / 60;
    var min := t % 60;
    t := t / 60;
    var hour := t % 24;
    t := t / 24;
    var f := Calendar(t, hour, min, sec);
    FieldsInRange(time);
    buf := Render(f);
  }

  /**
   * The calendar part of `gen_http_date`: weekday from day 0 being a
   * Thursday, years in four-year cycles of 1461 days starting with 1970,
   * then months walked off the day of the year.
   */
  method Calendar(days: nat, hour: int, min: int, sec: int) returns (f: Fields)
    ensures f == DateOfDay(days, hour, min, sec)
  {
    var dow := (days + 4) % 7;
    var year, xd := YearOfCycle(days / (365 * 3 + 366) * 4 + 1970, days % (365 * 3 + 366));
    var mon, mday := MonthOfYear(xd, Leap(year));
    f := Fields(dow, mday + 1, mon, year, hour, min, sec);
  }

  /** The year cascade: at most three whole years taken off the day of a cycle. */
  method YearOfCycle(start: int, cycleDay: int) returns (year: int, xd: int)
    ensures (year, xd) == YearSplit(start, cycleDay)
  {
    year, xd := start, cycleDay;
    if xd >= 365 {
      year, xd := year + 1, xd - 365;
      if xd >= 365 {
        year, xd := year + 1, xd - 365;
        if xd >= 366 {
          year, xd := year + 1, xd - 366;
        }
      }
    }
  }

  /** The month walk: month lengths taken off the day of the year while it spans them. */
  method MonthOfYear(yearDay: int, leap: bool) returns (i: nat, xd: int)
    ensures (i, xd) == MonthSplit(yearDay, leap, 0)
  {
    i, xd := 0, yearDay;
    while i < 12 && xd >= MonthLen(i, leap)
      invariant 0 <= i <= 12
      invariant MonthSplit(xd, leap, i) == MonthSplit(yearDay, leap, 0)
      decreases 12 - i
    {
      xd := xd - MonthLen(i, leap);
      i := i + 1;
    }
  }

  /** The month lookup loop of `gen_http_time`: the index of `tok`'s name, or 12. */
  method MonthOf(tok: seq<byte>) returns (mon: nat)
    ensures mon == MonthIndex(tok, 0)
    ensures mon < 12 ==> MonthName(mon) == tok
  {
    mon := 0;
    while mon < 12 && MonthName(mon) != tok
      invariant 0 <= mon <= 12
      invariant MonthIndex(tok, mon) == MonthIndex(tok, 0)
      decreases 12 - mon
    {
      mon := mon + 1;
    }
  }

  /**
   * The day count of `gen_http_time`: whole years since 1970 with one day
   * per leap year passed, the day of the month, February 29 when the date
   * lies after it, and the months before `mon` summed with February at 28.
   */
  method DayCount(year: int, mon: nat, day: int) returns (d: int)
    requires 1970 <= year && mon < 12
    ensures d == DayNumber(year, mon, day)
  {
    d := (year - 1970) * 365 + (year - 1969) / 4 + (day - 1);
    if Leap(year) && mon >= 2 {
      d := d + 1;
    }
    ghost var d0 := d;
    var i := 0;
    while i < mon
      invariant 0 <= i <= mon
      invariant d == d0 + DaysBefore(i, false)
    {
      d := d + MonthLen(i, false);
      i := i + 1;
    }
  }

  /**
   * The checks and the arithmetic of `gen_http_time` once `sscanf` has run:
   * the return code, and `*time` afterwards (unchanged unless the code is 0).
   */
  method Decode(x: DateScan, time: int) returns (res: int, time': int)
    ensures match DecodeDate(x)
      case Time(t) => res == 0 && time' == t
      case DateError(c) => res == c && time' == time
  {
    if x.Partial? {
      return if x.count > 0 then -(x.count as int) else -8, time;
    }
    var mon := MonthOf(x.month);
    if mon == 12 {
      return -11, time;
    }
    var year, hour, min, sec := x.year, x.hour, x.min, x.sec;
    if year < 1970 || year > 2039 {
      return -12, time;
    }
    if hour < 0 || hour >= 24 {
      return -13, time;
    }
    if min < 0 || min >= 60 {
      return -14, time;
    }
    if sec < 0 || sec >= 60 {
      return -15, time;
    }
    if x.tz != GMT {
      return -16, time;
    }
    var d := DayCount(year, mon, x.day);
    return 0, Wrap32(((d * 24 + hour) * 60 + min) * 60 + sec);
  }

  /** `gen_http_time(date_buffer, &time)`: scan up to the first NUL, then decode. */
  method GenHttpTime(s: seq<byte>, time: int) returns (res: int, time': int)
    ensures match ParseHttpDate(s)
      case Time(t) => res == 0 && time' == t
      case DateError(c) => res == c && time' == time
  {
    var x := ScanDate(UpToNul(s));
    assert ParseHttpDate(s) == DecodeDate(x);
    res, time' := Decode(x, time);
  }
}
