// `gen_http_time` reads back what `gen_http_date` writes
// (net/net-http-server.c:683-774): for every non-negative 32-bit time the
// rendered date scans into its eight fields, passes every range check and
// recomputes the same number of seconds.
module HttpDateRoundTrip {
  import opened HtsTypes
  import opened HttpDate

  /** The byte is a letter of the name tables. */
  predicate Letter(b: byte) { 65 <= b <= 122 }

  lemma NameLetters(m: nat, d: nat)
    requires m < 13 && d < 8
    ensures forall i :: 0 <= i < 3 ==> Letter(MonthName(m)[i])
    ensures forall i :: 0 <= i < 3 ==> Letter(DowName(d)[i])
  {
  }

  /** The twelve month names are pairwise different. */
  lemma MonthNamesDistinct(k: nat, m: nat)
    requires k < m < 12
    ensures MonthName(k) != MonthName(m)
  {
  }

  /** The month lookup of `gen_http_time` finds the month that was printed. */
  lemma {:induction false} MonthIndexOfName(m: nat, i: nat)
    requires i <= m < 12
    ensures MonthIndex(MonthName(m), i) == m
    decreases m - i
  {
    if i < m {
      MonthNamesDistinct(i, m);
      MonthIndexOfName(m, i + 1);
    }
  }

  // Scanning lemmas: what each conversion does on the pieces the
  // rendering is made of.

  lemma {:induction false} UpToNulWhole(s: seq<byte>)
    requires forall i :: 0 <= i < |s| ==> s[i] != 0
    ensures UpToNul(s) == s
  {
    if s != [] {
      UpToNulWhole(s[1..]);
    }
  }

  lemma {:induction false} WordRunWord(a: seq<byte>, rest: seq<byte>, w: nat)
    requires |a| <= w
    requires forall i :: 0 <= i < |a| ==> !IsSpace(a[i])
    requires |a| == w || rest == [] || IsSpace(rest[0])
    ensures WordRun(a + rest, w) == |a|
  {
    if a != [] {
      assert (a + rest)[1..] == a[1..] + rest;
      WordRunWord(a[1..], rest, w - 1);
    } else if w > 0 && rest != [] {
      assert a + rest == rest;
    }
  }

  /** `%Ns` on a word of at most N bytes followed by a space or the end. */
  lemma ScanStrWord(a: seq<byte>, rest: seq<byte>, w: nat)
    requires 0 < |a| <= w
    requires forall i :: 0 <= i < |a| ==> !IsSpace(a[i])
    requires |a| == w || rest == [] || IsSpace(rest[0])
    ensures ScanStr(a + rest, w) == Got(a, rest)
  {
    assert (a + rest)[0] == a[0];
    WordRunWord(a, rest, w);
    assert (a + rest)[..|a|] == a && (a + rest)[|a|..] == rest;
  }

  lemma {:induction false} DigitRunDigits(a: seq<byte>, rest: seq<byte>)
    requires forall i :: 0 <= i < |a| ==> IsDigit(a[i])
    requires rest == [] || !IsDigit(rest[0])
    ensures DigitRun(a + rest) == |a|
  {
    if a != [] {
      assert (a + rest)[1..] == a[1..] + rest;
      DigitRunDigits(a[1..], rest);
    } else {
      assert a + rest == rest;
    }
  }

  /** `%d` on a run of digits followed by a non-digit or the end. */
  lemma ScanIntDigits(a: seq<byte>, rest: seq<byte>)
    requires 0 < |a|
    requires forall i :: 0 <= i < |a| ==> IsDigit(a[i])
    requires rest == [] || !IsDigit(rest[0])
    ensures ScanInt(a + rest) == Got(DigitsValue(a) as int, rest)
  {
    var s := a + rest;
    assert SkipWs(s) == s by {
      assert s[0] == a[0] && IsDigit(s[0]);
    }
    assert DigitRun(s) == |a| by {
      DigitRunDigits(a, rest);
    }
    assert s[..|a|] == a;
    assert s[|a|..] == rest;
  }

  /** One separating space before a non-space byte. */
  lemma SkipOneSpace(rest: seq<byte>)
    requires rest != [] && !IsSpace(rest[0])
    ensures SkipWs([SP] + rest) == rest
  {
    assert ([SP] + rest)[1..] == rest;
  }

  /** Both conversions skip the white space in front of them. */
  lemma ScanAfterSpace(rest: seq<byte>, w: nat)
    requires rest != [] && !IsSpace(rest[0]) && w > 0
    ensures ScanInt([SP] + rest) == ScanInt(rest)
    ensures ScanStr([SP] + rest, w) == ScanStr(rest, w)
  {
    SkipOneSpace(rest);
  }

  /** The conversion cascade of `ScanSeconds` when every step succeeds. */
  lemma ScanSecondsSteps(s12: seq<byte>, s13: seq<byte>, s14: seq<byte>, dow: seq<byte>,
                         day: int, month: seq<byte>, year: int, hour: int, min: int,
                         sec: int, tz: seq<byte>)
    requires ScanLit(s12, 58) == Got(58, s13) && ScanInt(s13) == Got(sec, s14)
    requires ScanStr(s14, 15) == Got(tz, [])
    ensures ScanSeconds(s12, dow, day, month, year, hour, min)
            == Full(dow, day, month, year, hour, min, sec, tz)
  {
  }

  /** The conversion cascade of `ScanMinutes` when every step succeeds. */
  lemma ScanMinutesSteps(s10: seq<byte>, s11: seq<byte>, s12: seq<byte>, dow: seq<byte>,
                         day: int, month: seq<byte>, year: int, hour: int, min: int)
    requires ScanLit(s10, 58) == Got(58, s11) && ScanInt(s11) == Got(min, s12)
    ensures ScanMinutes(s10, dow, day, month, year, hour)
            == ScanSeconds(s12, dow, day, month, year, hour, min)
  {
  }

  /** The conversion cascade of `ScanClock` when every step succeeds. */
  lemma ScanClockSteps(s6: seq<byte>, s8: seq<byte>, s10: seq<byte>,
                       dow: seq<byte>, day: int, month: seq<byte>, year: int, hour: int)
    requires ScanInt(s6) == Got(year, s8) && ScanInt(s8) == Got(hour, s10)
    ensures ScanClock(s6, dow, day, month) == ScanMinutes(s10, dow, day, month, year, hour)
  {
  }

  /** The conversion cascade of `ScanDate` when every step succeeds. */
  lemma ScanDateSteps(s0: seq<byte>, s1: seq<byte>, s2: seq<byte>, s4: seq<byte>, s6: seq<byte>,
                      dow: seq<byte>, day: int, month: seq<byte>)
    requires ScanStr(s0, 3) == Got(dow, s1) && ScanLit(s1, 44) == Got(44, s2)
    requires ScanInt(s2) == Got(day, s4) && ScanStr(s4, 3) == Got(month, s6)
    ensures ScanDate(s0) == ScanClock(s6, dow, day, month)
  {
  }

  /** A non-empty run of decimal digits. */
  predicate DigitWord(a: seq<byte>)
  {
    0 < |a| && forall i :: 0 <= i < |a| ==> IsDigit(a[i])
  }

  /** A word of three non-space bytes, as "%3s" reads it in full. */
  predicate Word3(a: seq<byte>)
  {
    |a| == 3 && forall i :: 0 <= i < 3 ==> !IsSpace(a[i])
  }

  /** "Www, DD Mon" scans into its three fields. */
  lemma ScanDayOf(dw: seq<byte>, a: seq<byte>, m: seq<byte>, s6: seq<byte>)
    requires Word3(dw) && DigitWord(a) && Word3(m)
    requires s6 != [] && s6[0] == SP
    ensures ScanDate(dw + ([44 as byte] + ([SP] + (a + ([SP] + (m + s6))))))
            == ScanClock(s6, dw, DigitsValue(a), m)
  {
    var s4 := [SP] + (m + s6);
    var s2 := [SP] + (a + s4);
    var s1 := [44 as byte] + s2;
    var s0 := dw + s1;
    ScanStrWord(dw, s1, 3);
    assert ScanLit(s1, 44) == Got(44, s2);
    assert (a + s4)[0] == a[0];
    ScanAfterSpace(a + s4, 3);
    ScanIntDigits(a, s4);
    assert (m + s6)[0] == m[0];
    ScanAfterSpace(m + s6, 3);
    ScanStrWord(m, s6, 3);
    ScanDateSteps(s0, s1, s2, s4, s6, dw, DigitsValue(a), m);
  }

  /** " YYYY HH" scans into the year and the hour. */
  lemma ScanHourOf(y: seq<byte>, h: seq<byte>, s10: seq<byte>,
                   dow: seq<byte>, day: int, month: seq<byte>)
    requires DigitWord(y) && DigitWord(h)
    requires s10 != [] && s10[0] == COLON
    ensures ScanClock([SP] + (y + ([SP] + (h + s10))), dow, day, month)
            == ScanMinutes(s10, dow, day, month, DigitsValue(y), DigitsValue(h))
  {
    var s8 := [SP] + (h + s10);
    var s6 := [SP] + (y + s8);
    assert (y + s8)[0] == y[0];
    ScanAfterSpace(y + s8, 3);
    ScanIntDigits(y, s8);
    assert (h + s10)[0] == h[0];
    ScanAfterSpace(h + s10, 3);
    ScanIntDigits(h, s10);
    ScanClockSteps(s6, s8, s10, dow, day, month, DigitsValue(y), DigitsValue(h));
  }

  /** ":MM:SS ZONE" scans into its three fields. */
  lemma ScanMinutesOf(a: seq<byte>, b: seq<byte>, tz: seq<byte>, dow: seq<byte>, day: int,
                      month: seq<byte>, year: int, hour: int)
    requires DigitWord(a) && DigitWord(b)
    requires 0 < |tz| <= 15 && forall i :: 0 <= i < |tz| ==> !IsSpace(tz[i])
    ensures ScanMinutes([COLON] + (a + ([COLON] + (b + ([SP] + tz)))), dow, day, month, year, hour)
            == Full(dow, day, month, year, hour, DigitsValue(a), DigitsValue(b), tz)
  {
    var s14 := [SP] + tz;
    var s13 := b + s14;
    var s12 := [COLON] + s13;
    var s11 := a + s12;
    var s10 := [COLON] + s11;
    assert ScanLit(s10, 58) == Got(58, s11);
    ScanIntDigits(a, s12);
    assert ScanLit(s12, 58) == Got(58, s13);
    ScanIntDigits(b, s14);
    ScanAfterSpace(tz, 15);
    ScanStrWord(tz, [], 15);
    assert tz + [] == tz;
    ScanMinutesSteps(s10, s11, s12, dow, day, month, year, hour, DigitsValue(a));
    ScanSecondsSteps(s12, s13, s14, dow, day, month, year, hour, DigitsValue(a),
                     DigitsValue(b), tz);
  }

  /** " YYYY HH:MM:SS ZONE" scans into the last five fields. */
  lemma ScanClockLayout(y: seq<byte>, h: seq<byte>, mi: seq<byte>, se: seq<byte>, tz: seq<byte>,
                        dw: seq<byte>, day: int, m: seq<byte>)
    requires DigitWord(y) && DigitWord(h) && DigitWord(mi) && DigitWord(se)
    requires 0 < |tz| <= 15 && forall i :: 0 <= i < |tz| ==> !IsSpace(tz[i])
    ensures ScanClock([SP] + (y + ([SP] + (h + ([COLON] + (mi + ([COLON] + (se + ([SP] + tz)))))))),
                      dw, day, m)
            == Full(dw, day, m, DigitsValue(y), DigitsValue(h), DigitsValue(mi),
                    DigitsValue(se), tz)
  {
    var s10 := [COLON] + (mi + ([COLON] + (se + ([SP] + tz))));
    ScanHourOf(y, h, s10, dw, day, m);
    ScanMinutesOf(mi, se, tz, dw, day, m, DigitsValue(y), DigitsValue(h));
  }

  /** A whole date in the rendered layout scans into its eight fields. */
  lemma ScanLayout(dw: seq<byte>, a: seq<byte>, m: seq<byte>, y: seq<byte>, h: seq<byte>,
                   mi: seq<byte>, se: seq<byte>, tz: seq<byte>)
    requires Word3(dw) && Word3(m)
    requires DigitWord(a) && DigitWord(y) && DigitWord(h) && DigitWord(mi) && DigitWord(se)
    requires 0 < |tz| <= 15 && forall i :: 0 <= i < |tz| ==> !IsSpace(tz[i])
    ensures ScanDate(dw + ([44 as byte] + ([SP] + (a + ([SP] + (m + ([SP] + (y + ([SP]
              + (h + ([COLON] + (mi + ([COLON] + (se + ([SP] + tz)))))))))))))))
            == Full(dw, DigitsValue(a), m, DigitsValue(y), DigitsValue(h),
                    DigitsValue(mi), DigitsValue(se), tz)
  {
    var s6 := [SP] + (y + ([SP] + (h + ([COLON] + (mi + ([COLON] + (se + ([SP] + tz))))))));
    ScanDayOf(dw, a, m, s6);
    ScanClockLayout(y, h, mi, se, tz, dw, DigitsValue(a), m);
  }

  /** The scan of a rendered date: all eight conversions succeed. */
  lemma ScanRender(f: Fields)
    requires InRange(f)
    ensures ScanDate(Render(f))
            == Full(DowName(f.dow), f.day, MonthName(f.mon), f.year,
                    f.hour, f.min, f.sec, GMT)
  {
    NameLetters(f.mon, f.dow);
    Pad2Value(f.day);
    DecimalValue(f.year);
    Pad2Value(f.hour);
    Pad2Value(f.min);
    Pad2Value(f.sec);
    ScanLayout(DowName(f.dow), Pad2(f.day), MonthName(f.mon), Decimal(f.year),
               Pad2(f.hour), Pad2(f.min), Pad2(f.sec), GMT);
  }

  /** The rendering is a C string: it has no NUL before its end. */
  lemma RenderNoNul(f: Fields)
    requires InRange(f)
    ensures forall i :: 0 <= i < |Render(f)| ==>
      Render(f)[i] != 0 && Render(f)[i] != CR && Render(f)[i] != LF
  {
    NameLetters(f.mon, f.dow);
  }

  /** Splitting seconds into days, hours, minutes and seconds loses nothing. */
  lemma SecondsOfFields(t: int)
    requires 0 <= t
    ensures Seconds(t / 60 / 60 / 24, t / 60 / 60 % 24, t / 60 % 60, t % 60) == t
  {
    var t1 := t / 60;
    var t2 := t1 / 60;
    assert t2 / 24 * 24 + t2 % 24 == t2;
    assert t1 / 60 * 60 + t1 % 60 == t1;
    assert t / 60 * 60 + t % 60 == t;
  }

  /** The day count of `gen_http_time` from a year, a month and a day of month. */
  lemma DayNumberOfSplit(days: int, year: int, yd: int, mon: nat, md: int)
    requires mon < 12
    requires (year - 1970) * 365 + (year - 1969) / 4 + yd == days
    requires DaysBefore(mon, Leap(year)) + md == yd
    ensures DayNumber(year, mon, md + 1) == days
  {
    DaysBeforeLeap(mon);
  }

  /** The day count of `gen_http_time` inverts the calendar split of `gen_http_date`. */
  lemma DayNumberOfDate(days: nat, hour: int, min: int, sec: int)
    requires days <= 24855
    ensures var f := DateOfDay(days, hour, min, sec);
      f.mon < 12 && DayNumber(f.year, f.mon, f.day) == days
  {
    YearSplitFacts(days / 1461, days % 1461);
    var ys := YearSplit(days / 1461 * 4 + 1970, days % 1461);
    MonthSplitInYear(ys.1, Leap(ys.0), 0);
    var ms := MonthSplit(ys.1, Leap(ys.0), 0);
    DayNumberOfSplit(days, ys.0, ys.1, ms.0, ms.1);
  }

  /** The range checks and the arithmetic of `gen_http_time` after a full scan. */
  lemma DecodeFull(dw: seq<byte>, day: int, mon: nat, year: int, hour: int, min: int, sec: int)
    requires mon < 12 && 1970 <= year <= 2039
    requires 0 <= hour < 24 && 0 <= min < 60 && 0 <= sec < 60
    ensures DecodeDate(Full(dw, day, MonthName(mon), year, hour, min, sec, GMT))
            == Time(Wrap32(Seconds(DayNumber(year, mon, day), hour, min, sec)))
  {
    MonthIndexOfName(mon, 0);
  }

  /** Parsing rendered fields gives the seconds `gen_http_time` computes from them. */
  lemma ParseRender(f: Fields)
    requires InRange(f)
    ensures ParseHttpDate(Render(f))
            == Time(Wrap32(Seconds(DayNumber(f.year, f.mon, f.day), f.hour, f.min, f.sec)))
  {
    RenderNoNul(f);
    UpToNulWhole(Render(f));
    ScanRender(f);
    DecodeFull(DowName(f.dow), f.day, f.mon, f.year, f.hour, f.min, f.sec);
  }

  /**
   * Round trip: parsing the date rendered for a non-negative 32-bit time
   * gives that time back.
   */
  lemma ParseFormat(t: int)
    requires 0 <= t < 0x8000_0000
    ensures ParseHttpDate(FormatHttpDate(t)) == Time(t)
  {
    FieldsInRange(t);
    ParseRender(FieldsOf(t));
    DayBound(t);
    DayNumberOfDate(t / 60 / 60 / 24, t / 60 / 60 % 24, t / 60 % 60, t % 60);
    SecondsOfFields(t);
  }

  /** Negative times render as the epoch, so they read back as 0. */
  lemma ParseFormatNegative(t: int)
    requires -0x8000_0000 <= t < 0
    ensures FormatHttpDate(t) == FormatHttpDate(0)
    ensures ParseHttpDate(FormatHttpDate(t)) == Time(0)
  {
    ParseFormat(0);
  }
}
