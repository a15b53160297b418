// The IMF-fixdate codec (section 7.1.1.1 of RFC 7231) of
// net/net-http-server.c:671-780: `gen_http_date` renders seconds since the
// epoch as "Www, DD Mon YYYY HH:MM:SS GMT", `gen_http_time` reads such a
// string back, and `cur_http_date` caches the rendering of the current
// second. The C code keeps the month lengths in a global array whose
// February entry both functions overwrite; here the month length is a
// function of whether the year is a leap year.
module HttpDate {
  import opened HtsTypes

  /**
   * Three-letter name of month `m` (0 = January), as bytes. The C code keeps
   * the names in one string, "JanFebMarAprMayJunJulAugSepOctNovDecGlk", and
   * prints the three bytes at offset `3 * m`; entry 12 is the filler that
   * follows December.
   */
  function MonthName(m: nat): (r: seq<byte>)
    requires m < 13
    ensures |r| == 3
  {
    match m
    case 0 => [74, 97, 110]    // Jan
    case 1 => [70, 101, 98]    // Feb
    case 2 => [77, 97, 114]    // Mar
    case 3 => [65, 112, 114]   // Apr
    case 4 => [77, 97, 121]    // May
    case 5 => [74, 117, 110]   // Jun
    case 6 => [74, 117, 108]   // Jul
    case 7 => [65, 117, 103]   // Aug
    case 8 => [83, 101, 112]   // Sep
    case 9 => [79, 99, 116]    // Oct
    case 10 => [78, 111, 118]  // Nov
    case 11 => [68, 101, 99]   // Dec
    case 12 => [71, 108, 107]  // Glk
  }

  /**
   * Three-letter name of weekday `d` (0 = Sunday), from
   * "SunMonTueWedThuFriSatEar" in the same way.
   */
  function DowName(d: nat): (r: seq<byte>)
    requires d < 8
    ensures |r| == 3
  {
    match d
    case 0 => [83, 117, 110]   // Sun
    case 1 => [77, 111, 110]   // Mon
    case 2 => [84, 117, 101]   // Tue
    case 3 => [87, 101, 100]   // Wed
    case 4 => [84, 104, 117]   // Thu
    case 5 => [70, 114, 105]   // Fri
    case 6 => [83, 97, 116]    // Sat
    case 7 => [69, 97, 114]    // Ear
  }

  /** The zone name written after the time and required by the parser. */
  const GMT: seq<byte> := [71, 77, 84]

  /** `!(year & 3)`: every fourth year is a leap year, without the century rule. */
  predicate Leap(year: int) { year % 4 == 0 }

  function MonthLen(m: nat, leap: bool): (r: int)
    requires m < 12
    ensures 28 <= r <= 31
  {
    if m == 1 then (if leap then 29 else 28)
    else [31, 28, 31, 30, 31, 30, 31, 31, 30, 31, 30, 31][m]
  }

  function YearLen(leap: bool): int { if leap then 366 else 365 }

  /** Number of days in the months before month `m`. */
  function DaysBefore(m: nat, leap: bool): (r: int)
    requires m <= 12
    ensures r >= 0
  {
    if m == 0 then 0 else DaysBefore(m - 1, leap) + MonthLen(m - 1, leap)
  }

  lemma {:induction false} DaysBeforeLeap(m: nat)
    requires m <= 12
    ensures DaysBefore(m, true) == DaysBefore(m, false) + (if m >= 2 then 1 else 0)
  {
    if m > 0 {
      DaysBeforeLeap(m - 1);
    }
  }

  lemma DaysBeforeYear(leap: bool)
    ensures DaysBefore(12, leap) == YearLen(leap)
  {
    var f := if leap then 1 else 0;
    assert DaysBefore(1, leap) == 31;
    assert DaysBefore(2, leap) == 59 + f;
    assert DaysBefore(3, leap) == 90 + f;
    assert DaysBefore(4, leap) == 120 + f;
    assert DaysBefore(5, leap) == 151 + f;
    assert DaysBefore(6, leap) == 181 + f;
    assert DaysBefore(7, leap) == 212 + f;
    assert DaysBefore(8, leap) == 243 + f;
    assert DaysBefore(9, leap) == 273 + f;
    assert DaysBefore(10, leap) == 304 + f;
    assert DaysBefore(11, leap) == 334 + f;
  }

  /**
   * The month loop of `gen_http_date`, entered at month `i` with `xd` days
   * left: the month reached and the day within it.
   */
  function MonthSplit(xd: int, leap: bool, i: nat): (r: (nat, int))
    requires i <= 12
    decreases 12 - i
  {
    if i == 12 then (12, xd)
    else if xd < MonthLen(i, leap) then (i, xd)
    else MonthSplit(xd - MonthLen(i, leap), leap, i + 1)
  }

  lemma {:induction false} MonthSplitInYear(xd: int, leap: bool, i: nat)
    requires i <= 12
    requires 0 <= xd && DaysBefore(i, leap) + xd < YearLen(leap)
    ensures MonthSplit(xd, leap, i).0 < 12
    ensures 0 <= MonthSplit(xd, leap, i).1 < MonthLen(MonthSplit(xd, leap, i).0, leap)
    ensures DaysBefore(MonthSplit(xd, leap, i).0, leap) + MonthSplit(xd, leap, i).1
            == DaysBefore(i, leap) + xd
    decreases 12 - i
  {
    DaysBeforeYear(leap);
    if i == 12 {
    } else if xd >= MonthLen(i, leap) {
      MonthSplitInYear(xd - MonthLen(i, leap), leap, i + 1);
    }
  }

  /** The broken-down time that `gen_http_date` prints. */
  datatype Fields = Fields(dow: nat, day: int, mon: nat, year: int, hour: int, min: int, sec: int)

  /** The four-year cycle 1970 (365), 1971 (365), 1972 (366), 1973 (365). */
  function YearSplit(year: int, xd: int): (int, int)
  {
    if xd >= 365 then
      if xd - 365 >= 365 then
        if xd - 730 >= 366 then (year + 3, xd - 1096) else (year + 2, xd - 730)
      else (year + 1, xd - 365)
    else (year, xd)
  }

  /** The field computation of `gen_http_date` for a 32-bit `time`. */
  function FieldsOf(t: int): (f: Fields)
    requires -0x8000_0000 <= t < 0x8000_0000
  {
    var t0 := if t < 0 then 0 else t;
    var sec := t0 % 60;
    var t1 := t0 / 60;
    var min := t1 % 60;
    var t2 := t1 / 60;
    var hour := t2 % 24;
    var days := t2 / 24;
    DateOfDay(days, hour, min, sec)
  }

  /** Weekday, year, month and day of day number `days`. */
  function DateOfDay(days: nat, hour: int, min: int, sec: int): Fields
  {
    var ys := YearSplit(days / 1461 * 4 + 1970, days % 1461);
    var ms := MonthSplit(ys.1, Leap(ys.0), 0);
    Fields((days + 4) % 7, ms.1 + 1, ms.0, ys.0, hour, min, sec)
  }

  /** The ranges `gen_http_date` asserts before printing (line 722). */
  predicate InRange(f: Fields)
  {
    f.dow < 7 && 1 <= f.day && f.mon < 12 && f.day <= MonthLen(f.mon, Leap(f.year))
    && 1970 <= f.year <= 2038 && 0 <= f.hour < 24 && 0 <= f.min < 60 && 0 <= f.sec < 60
  }

  lemma YearSplitFacts(c: int, xd: int)
    requires 0 <= c && 0 <= xd < 1461
    ensures var ys := YearSplit(c * 4 + 1970, xd);
      0 <= ys.1 < YearLen(Leap(ys.0))
      && (ys.0 - 1970) * 365 + (ys.0 - 1969) / 4 + ys.1 == 1461 * c + xd
      && 4 * c + 1970 <= ys.0 <= 4 * c + 1973
      && (xd <= 18 ==> ys.0 == 4 * c + 1970)
  {
    var y := c * 4 + 1970;
    assert y % 4 == 2;
    assert (y + 1) % 4 == 3 && (y + 2) % 4 == 0 && (y + 3) % 4 == 1;
    assert (y - 1969) / 4 == c;
    assert (y + 1 - 1969) / 4 == c;
    assert (y + 2 - 1969) / 4 == c;
    assert (y + 3 - 1969) / 4 == c + 1;
  }

  lemma DayBound(t: int)
    requires 0 <= t < 0x8000_0000
    ensures t / 60 / 60 / 24 == t / 86400 <= 24855
  {
    assert t / 60 / 60 == t / 3600;
    assert t / 3600 / 24 == t / 86400;
  }

  lemma DateOfDayInRange(days: nat, hour: int, min: int, sec: int)
    requires days <= 24855 && 0 <= hour < 24 && 0 <= min < 60 && 0 <= sec < 60
    ensures InRange(DateOfDay(days, hour, min, sec))
  {
    var c := days / 1461;
    assert c <= 17;
    assert c == 17 ==> days % 1461 <= 18;
    YearSplitFacts(c, days % 1461);
    var ys := YearSplit(days / 1461 * 4 + 1970, days % 1461);
    MonthSplitInYear(ys.1, Leap(ys.0), 0);
  }

  /** `gen_http_date`'s assert holds for every 32-bit time. */
  lemma FieldsInRange(t: int)
    requires -0x8000_0000 <= t < 0x8000_0000
    ensures InRange(FieldsOf(t))
  {
    var t0 := if t < 0 then 0 else t;
    DayBound(t0);
    DateOfDayInRange(t0 / 60 / 60 / 24, t0 / 60 / 60 % 24, t0 / 60 % 60, t0 % 60);
  }

  /**
   * The bytes `gen_http_date` leaves in its 29-byte buffer: sprintf with
   * "%.3s, %.2d %.3s %d %.2d:%.2d:%.2d GM", then 'T' written over the NUL.
   */
  function Render(f: Fields): seq<byte>
    requires f.dow < 8 && f.day >= 0 && f.mon < 13 && f.year >= 0
    requires f.hour >= 0 && f.min >= 0 && f.sec >= 0
  {
    DowName(f.dow) + ([44 as byte] + ([SP] + (Pad2(f.day) + ([SP] + (MonthName(f.mon) +
    ([SP] + (Decimal(f.year) + ([SP] + (Pad2(f.hour) + ([COLON] + (Pad2(f.min) + ([COLON]
    + (Pad2(f.sec) + ([SP] + GMT))))))))))))))
  }

  /** `gen_http_date(buf, t)`: always 29 bytes. */
  function FormatHttpDate(t: int): (r: seq<byte>)
    requires -0x8000_0000 <= t < 0x8000_0000
    ensures |r| == 29
  {
    FieldsInRange(t);
    Render(FieldsOf(t))
  }

  // ---------------------------------------------------------------------
  // gen_http_time: sscanf (buf, "%3s, %d %3s %d %d:%d:%d %15s", ...)
  // ---------------------------------------------------------------------

  /** `isspace` in the C locale. */
  predicate IsSpace(b: byte) { b == 32 || 9 <= b <= 13 }

  /** The input as a C string: the bytes before the first NUL. */
  function UpToNul(s: seq<byte>): (r: seq<byte>)
    ensures |r| <= |s| && r == s[..|r|]
    ensures forall i :: 0 <= i < |r| ==> r[i] != 0
    ensures |r| < |s| ==> s[|r|] == 0
  {
    if s == [] || s[0] == 0 then [] else [s[0]] + UpToNul(s[1..])
  }

  /** Result of one conversion: the value and the input left over. */
  datatype Scanned<T> = Fail | Got(val: T, rest: seq<byte>)

  /** A whitespace directive: skip any amount of white space. */
  function SkipWs(s: seq<byte>): (r: seq<byte>)
    ensures |r| <= |s| && r == s[|s| - |r|..]
    ensures r == [] || !IsSpace(r[0])
  {
    if s != [] && IsSpace(s[0]) then SkipWs(s[1..]) else s
  }

  /** Length of the run of non-space bytes at the front of `s`, at most `w`. */
  function WordRun(s: seq<byte>, w: nat): (n: nat)
    ensures n <= w && n <= |s|
  {
    if s == [] || w == 0 || IsSpace(s[0]) then 0 else 1 + WordRun(s[1..], w - 1)
  }

  /** `%Ns`: skip white space, then read 1 to `w` non-space bytes. */
  function ScanStr(s: seq<byte>, w: nat): Scanned<seq<byte>>
    requires w > 0
  {
    var s1 := SkipWs(s);
    if s1 == [] then Fail
    else
      var n := WordRun(s1, w);
      Got(s1[..n], s1[n..])
  }

  /** Length of the run of decimal digits at the front of `s`. */
  function DigitRun(s: seq<byte>): (n: nat)
    ensures n <= |s|
    ensures forall i :: 0 <= i < n ==> IsDigit(s[i])
    ensures n < |s| ==> !IsDigit(s[n])
  {
    if s == [] || !IsDigit(s[0]) then 0 else 1 + DigitRun(s[1..])
  }

  /** The first `n` bytes of `s`, all digits, form a run of digits. */
  lemma DigitPrefix(s: seq<byte>, n: nat)
    requires n <= |s| && forall i :: 0 <= i < n ==> IsDigit(s[i])
    ensures forall i :: 0 <= i < |s[..n]| ==> IsDigit(s[..n][i])
  {
  }

  /**
   * `%d`: skip white space, an optional sign, then at least one digit.
   * The value is kept exactly (values beyond `int` are not modelled).
   */
  function ScanInt(s: seq<byte>): Scanned<int>
  {
    var s1 := SkipWs(s);
    var signed := s1 != [] && (s1[0] == 45 || s1[0] == 43);
    var s2 := if signed then s1[1..] else s1;
    var n := DigitRun(s2);
    if n == 0 then Fail
    else
      DigitPrefix(s2, n);
      var v: int := DigitsValue(s2[..n]);
      Got(if signed && s1[0] == 45 then -v else v, s2[n..])
  }

  /** An ordinary character of the format: must be the next input byte. */
  function ScanLit(s: seq<byte>, c: byte): Scanned<byte>
  {
    if s != [] && s[0] == c then Got(c, s[1..]) else Fail
  }

  /** What sscanf stored: all eight fields, or how many it converted. */
  datatype DateScan =
    | Partial(count: nat)
    | Full(dow: seq<byte>, day: int, month: seq<byte>, year: int,
           hour: int, min: int, sec: int, tz: seq<byte>)

  /**
   * sscanf (s, "%3s, %d %3s %d %d:%d:%d %15s", ...): the first four
   * conversions; `ScanClock` does the rest.
   */
  function ScanDate(s: seq<byte>): (r: DateScan)
    ensures r.Partial? ==> r.count < 8
  {
    match ScanStr(s, 3)
    case Fail => Partial(0)
    case Got(dow, s1) =>
    match ScanLit(s1, 44)
    case Fail => Partial(1)
    case Got(_, s2) =>
    match ScanInt(s2)
    case Fail => Partial(1)
    case Got(day, s3) =>
    match ScanStr(s3, 3)
    case Fail => Partial(2)
    case Got(month, s4) =>
    ScanClock(s4, dow, day, month)
  }

  /** The year and the hour, after three fields were stored. */
  function ScanClock(s4: seq<byte>, dow: seq<byte>, day: int, month: seq<byte>): (r: DateScan)
    ensures r.Partial? ==> 3 <= r.count < 8
  {
    match ScanInt(s4)
    case Fail => Partial(3)
    case Got(year, s5) =>
    match ScanInt(s5)
    case Fail => Partial(4)
    case Got(hour, s6) =>
    ScanMinutes(s6, dow, day, month, year, hour)
  }

  /** ":%d", after five fields were stored. */
  function ScanMinutes(s6: seq<byte>, dow: seq<byte>, day: int, month: seq<byte>,
                       year: int, hour: int): (r: DateScan)
    ensures r.Partial? ==> 5 <= r.count < 8
  {
    match ScanLit(s6, 58)
    case Fail => Partial(5)
    case Got(_, s7) =>
    match ScanInt(s7)
    case Fail => Partial(5)
    case Got(min, s8) =>
    ScanSeconds(s8, dow, day, month, year, hour, min)
  }

  /** ":%d %15s", after six fields were stored. */
  function ScanSeconds(s8: seq<byte>, dow: seq<byte>, day: int, month: seq<byte>,
                       year: int, hour: int, min: int): (r: DateScan)
    ensures r.Partial? ==> 6 <= r.count < 8
  {
    match ScanLit(s8, 58)
    case Fail => Partial(6)
    case Got(_, s9) =>
    match ScanInt(s9)
    case Fail => Partial(6)
    case Got(sec, s10) =>
    match ScanStr(s10, 15)
    case Fail => Partial(7)
    case Got(tz, _) =>
    Full(dow, day, month, year, hour, min, sec, tz)
  }

  /**
   * The month lookup loop: the first `m >= i` whose name equals the token,
   * or 12. (`memcmp` of three bytes against the NUL-terminated token read by
   * "%3s" matches exactly when the token is that three-letter name.)
   */
  function MonthIndex(tok: seq<byte>, i: nat): (m: nat)
    requires i <= 12
    ensures i <= m <= 12
    ensures m < 12 ==> MonthName(m) == tok
    decreases 12 - i
  {
    if i == 12 then 12
    else if MonthName(i) == tok then i
    else MonthIndex(tok, i + 1)
  }

  /** The day count of `gen_http_time` (lines 763-770), before the wrap. */
  function DayNumber(year: int, mon: nat, day: int): int
    requires mon < 12
  {
    (year - 1970) * 365 + (year - 1969) / 4 + (day - 1)
    + (if Leap(year) && mon >= 2 then 1 else 0) + DaysBefore(mon, false)
  }

  function Seconds(d: int, hour: int, min: int, sec: int): int
  {
    ((d * 24 + hour) * 60 + min) * 60 + sec
  }

  /** Outcome of `gen_http_time`: the time stored, or the negative return code. */
  datatype TimeResult = Time(t: int) | DateError(code: int)

  /** `gen_http_time (s, &t)`: scan the C string in `s`, then check and convert. */
  function ParseHttpDate(s: seq<byte>): (r: TimeResult)
    ensures r.Time? ==> -0x8000_0000 <= r.t < 0x8000_0000
  {
    DecodeDate(ScanDate(UpToNul(s)))
  }

  /** The checks and the arithmetic that follow the sscanf call. */
  function DecodeDate(x: DateScan): (r: TimeResult)
    ensures r.Time? ==> -0x8000_0000 <= r.t < 0x8000_0000
  {
    match x
    case Partial(n) => DateError(if n > 0 then -(n as int) else -8)
    case Full(_, day, month, year, hour, min, sec, tz) =>
      var mon := MonthIndex(month, 0);
      if mon == 12 then DateError(-11)
      else if year < 1970 || year > 2039 then DateError(-12)
      else if hour < 0 || hour >= 24 then DateError(-13)
      else if min < 0 || min >= 60 then DateError(-14)
      else if sec < 0 || sec >= 60 then DateError(-15)
      else if tz != GMT then DateError(-16)
      else Time(Wrap32(Seconds(DayNumber(year, mon, day), hour, min, sec)))
  }
}
