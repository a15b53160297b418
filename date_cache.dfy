// `cur_http_date`: the date string of the current second, recomputed only
// when the clock has moved since the last call. The clock `now` is a
// parameter.
module HttpDateCache {
  import opened HtsTypes
  import opened HttpDate
  import HttpDateCodec

  /** `now_date_utime` and `now_date_string`, the cached time and its text. */
  class DateCache {
    var utime: int
    var text: seq<byte>

    /** The text is always the rendering of the cached time. */
    predicate Valid()
      reads this
    {
      -0x8000_0000 <= utime < 0x8000_0000 && text == FormatHttpDate(utime)
    }

    /** The static initial values: time 0 and the epoch's date. */
    constructor()
      ensures Valid() && utime == 0
      ensures text == Ascii("Thu, 01 Jan 1970 00:00:00 GMT")
    {
      utime := 0;
      text := Ascii("Thu, 01 Jan 1970 00:00:00 GMT");
      EpochDate();
    }

    /** `cur_http_date()` at clock value `now`. */
    method Current(now: int) returns (s: seq<byte>)
      requires Valid() && -0x8000_0000 <= now < 0x8000_0000
      modifies this
      ensures Valid() && utime == now && s == text
      ensures s == FormatHttpDate(now)
      ensures old(utime) == now ==> text == old(text)
    {
      if utime != now {
        utime := now;
        text := HttpDateCodec.GenHttpDate(now);
      }
      s := text;
    }
  }

  /** The initial cached string is the rendering of time 0. */
  lemma EpochDate()
    ensures FormatHttpDate(0) == Ascii("Thu, 01 Jan 1970 00:00:00 GMT")
  {
    var f := FieldsOf(0);
    assert f == Fields(4, 1, 0, 1970, 0, 0, 0);
  }
}
