/**
 * Calendar dates and times as the harvester renders and parses them with
 * datetime.strftime, datetime.strptime, isoformat and fromisoformat, and the second
 * count that subtracting two datetimes compares. Clock readings are not modelled; a
 * DateTime is a plain value, to the microsecond.
 */
module Dates {
  import opened Wrappers
  import opened Strings

  /** A naive datetime, to the microsecond. */
  datatype DateTime = DateTime(year: int, month: int, day: int, hour: int, minute: int, second: int,
                               microsecond: int)

  predicate IsLeapYear(y: int) {
    (y % 4 == 0 && y % 100 != 0) || y % 400 == 0
  }

  function DaysInMonth(y: int, m: int): int
    requires 1 <= m <= 12
  {
    if m == 2 then (if IsLeapYear(y) then 29 else 28)
    else if m == 4 || m == 6 || m == 9 || m == 11 then 30
    else 31
  }

  /** The values Python's datetime constructor accepts. */
  predicate ValidDateTime(d: DateTime) {
    && 1 <= d.year <= 9999
    && 1 <= d.month <= 12
    && 1 <= d.day <= DaysInMonth(d.year, d.month)
    && 0 <= d.hour < 24 && 0 <= d.minute < 60 && 0 <= d.second < 60
    && 0 <= d.microsecond < 1000000
  }

  /** A date at midnight, as datetime.strptime("%Y-%m-%d") and datetime(y, m, d) produce. */
  function Midnight(year: int, month: int, day: int): DateTime {
    DateTime(year, month, day, 0, 0, 0, 0)
  }

  /** Two decimal digits, zero-padded (strftime's %m, %d, %H, %M, %S). */
  function Pad2(n: nat): (r: string)
    requires n < 100
    ensures |r| == 2 && IsDigit(r[0]) && IsDigit(r[1])
  {
    [DigitChar(n / 10), DigitChar(n % 10)]
  }

  /** Four decimal digits, zero-padded (strftime's %Y). */
  function Pad4(n: nat): (r: string)
    requires n < 10000
    ensures |r| == 4 && forall i :: 0 <= i < 4 ==> IsDigit(r[i])
  {
    Pad2(n / 100) + Pad2(n % 100)
  }

  /** strftime("%Y-%m-%d") */
  function FormatYmd(d: DateTime): string
    requires ValidDateTime(d)
  {
    Pad4(d.year) + "-" + Pad2(d.month) + "-" + Pad2(d.day)
  }

  /** Six decimal digits, zero-padded (the fraction isoformat writes). */
  function Pad6(n: nat): (r: string)
    requires n < 1000000
    ensures |r| == 6 && forall i :: 0 <= i < 6 ==> IsDigit(r[i])
  {
    Pad2(n / 10000) + Pad4(n % 10000)
  }

  /** strftime("%Y-%m-%dT%H:%M:%S"): the fraction of a second is dropped. */
  function FormatIsoSeconds(d: DateTime): string
    requires ValidDateTime(d)
  {
    FormatYmd(d) + "T" + Pad2(d.hour) + ":" + Pad2(d.minute) + ":" + Pad2(d.second)
  }

  /** isoformat(): the seconds form, followed by ".ffffff" when the microsecond is not zero. */
  function Isoformat(d: DateTime): string
    requires ValidDateTime(d)
  {
    FormatIsoSeconds(d) + (if d.microsecond == 0 then "" else "." + Pad6(d.microsecond))
  }

  /** strftime("%Y%m%d%H%M%S") */
  function FormatCompact(d: DateTime): string
    requires ValidDateTime(d)
  {
    Pad4(d.year) + Pad2(d.month) + Pad2(d.day) + Pad2(d.hour) + Pad2(d.minute) + Pad2(d.second)
  }

  /** The month field strptime's %m accepts: 1-9, 01-09 or 10-12. */
  predicate IsMonthField(m: string) {
    || (|m| == 1 && '1' <= m[0] <= '9')
    || (|m| == 2 && m[0] == '0' && '1' <= m[1] <= '9')
    || (|m| == 2 && m[0] == '1' && '0' <= m[1] <= '2')
  }

  /** The day field strptime's %d accepts: 1-9, 01-09, 10-29, 30, 31 or a space and 1-9. */
  predicate IsDayField(d: string) {
    || (|d| == 1 && '1' <= d[0] <= '9')
    || (|d| == 2 && d[0] == '0' && '1' <= d[1] <= '9')
    || (|d| == 2 && (d[0] == '1' || d[0] == '2') && IsDigit(d[1]))
    || (|d| == 2 && d[0] == '3' && (d[1] == '0' || d[1] == '1'))
    || (|d| == 2 && d[0] == ' ' && '1' <= d[1] <= '9')
  }

  /** The numeric value of an accepted month or day field. */
  function FieldValue(f: string): int
    requires IsMonthField(f) || IsDayField(f)
  {
    if |f| == 1 then DigitValue(f[0])
    else if f[0] == ' ' then DigitValue(f[1])
    else DigitValue(f[0]) * 10 + DigitValue(f[1])
  }

  /** The numeric value of four ASCII digits. */
  function YearValue(y: string): int
    requires |y| == 4
  {
    DigitValue(y[0]) * 1000 + DigitValue(y[1]) * 100 + DigitValue(y[2]) * 10 + DigitValue(y[3])
  }

  /** The position of the first c in s, if any. */
  function IndexOf(s: string, c: char): (r: Option<nat>)
    ensures r.None? ==> c !in s
    ensures r.Some? ==> r.value < |s| && s[r.value] == c && c !in s[..r.value]
  {
    if |s| == 0 then None
    else if s[0] == c then Some(0)
    else
      var r := IndexOf(s[1..], c);
      if r.None? then None
      else
        assert s[..r.value + 1] == [s[0]] + s[1..][..r.value];
        Some(r.value + 1)
  }

  /**
   * datetime.strptime(s, "%Y-%m-%d"): four digits, '-', a month field, '-', a day field
   * and nothing after it, naming a day that exists.
   */
  function ParseYmd(s: string): (r: Option<DateTime>)
    ensures r.Some? ==> ValidDateTime(r.value)
    ensures r.Some? ==> r.value.hour == 0 && r.value.minute == 0 && r.value.second == 0 && r.value.microsecond == 0
  {
    if |s| < 5 || s[4] != '-' || !(IsDigit(s[0]) && IsDigit(s[1]) && IsDigit(s[2]) && IsDigit(s[3])) then None
    else
      var rest := s[5..];
      var dash := IndexOf(rest, '-');
      if dash.None? then None
      else
        var m := rest[..dash.value];
        var d := rest[dash.value + 1..];
        if !IsMonthField(m) || !IsDayField(d) then None
        else
          var year := YearValue(s[..4]);
          var month := FieldValue(m);
          var day := FieldValue(d);
          if year < 1 || month < 1 || 12 < month || day < 1 || DaysInMonth(year, month) < day then None
          else Some(Midnight(year, month, day))
  }

  lemma Pad4Value(n: nat)
    requires n < 10000
    ensures YearValue(Pad4(n)) == n
  {
    var h, l := n / 100, n % 100;
    var r := Pad4(n);
    assert r[0] == DigitChar(h / 10) && r[1] == DigitChar(h % 10);
    assert r[2] == DigitChar(l / 10) && r[3] == DigitChar(l % 10);
    assert h == 10 * (h / 10) + h % 10;
    assert l == 10 * (l / 10) + l % 10;
  }

  /** strptime("%Y-%m-%d") reads back what strftime("%Y-%m-%d") wrote, for any date at midnight. */
  lemma ParseFormatYmd(d: DateTime)
    requires ValidDateTime(d) && d.hour == 0 && d.minute == 0 && d.second == 0 && d.microsecond == 0
    ensures ParseYmd(FormatYmd(d)) == Some(d)
  {
    var s := FormatYmd(d);
    var y, m, dd := Pad4(d.year), Pad2(d.month), Pad2(d.day);
    assert s == y + "-" + m + "-" + dd;
    assert s[..4] == y;
    assert s[4] == '-';
    var rest := s[5..];
    assert rest == m + "-" + dd;
    assert IndexOf(rest, '-') == Some(2) by {
      assert rest[0] != '-' && rest[1] != '-' && rest[2] == '-';
      assert rest[1..][1..] == rest[2..];
    }
    assert rest[..2] == m && rest[3..] == dd;
    Pad4Value(d.year);
    assert IsMonthField(m);
    assert IsDayField(dd);
  }

  // ---------------------------------------------------------------- isoformat

  /** The numeric value of two ASCII digits. */
  function TwoDigitValue(s: string, i: nat): int
    requires i + 1 < |s|
  {
    DigitValue(s[i]) * 10 + DigitValue(s[i + 1])
  }

  /** Two ASCII digits at positions i and i + 1. */
  predicate TwoDigitsAt(s: string, i: nat)
    requires i + 1 < |s|
  {
    IsDigit(s[i]) && IsDigit(s[i + 1])
  }

  /** The numeric value of six ASCII digits from position i. */
  function SixDigitValue(s: string, i: nat): int
    requires i + 5 < |s|
  {
    TwoDigitValue(s, i) * 10000 + YearValue(s[i + 2..i + 6])
  }

  /** "YYYY-MM-DDTHH:MM:SS", naming a datetime that exists; its microsecond is zero. */
  function ParseSecondsForm(s: string): (r: Option<DateTime>)
    ensures r.Some? ==> ValidDateTime(r.value) && r.value.microsecond == 0
    ensures r.Some? ==> |s| == 19
    ensures r.Some? ==> s[4] == '-' && s[7] == '-' && s[10] == 'T' && s[13] == ':' && s[16] == ':'
  {
    if |s| != 19 || s[4] != '-' || s[7] != '-' || s[10] != 'T' || s[13] != ':' || s[16] != ':' then None
    else if !(TwoDigitsAt(s, 0) && TwoDigitsAt(s, 2) && TwoDigitsAt(s, 5) && TwoDigitsAt(s, 8)
              && TwoDigitsAt(s, 11) && TwoDigitsAt(s, 14) && TwoDigitsAt(s, 17)) then None
    else
      var d := DateTime(YearValue(s[..4]), TwoDigitValue(s, 5), TwoDigitValue(s, 8),
                        TwoDigitValue(s, 11), TwoDigitValue(s, 14), TwoDigitValue(s, 17), 0);
      if ValidDateTime(d) then Some(d) else None
  }

  /** Six ASCII digits: the fraction of a second, in microseconds. */
  predicate IsFraction(f: string) {
    |f| == 6 && TwoDigitsAt(f, 0) && TwoDigitsAt(f, 2) && TwoDigitsAt(f, 4)
  }

  /**
   * datetime.fromisoformat on the two forms isoformat writes: "YYYY-MM-DDTHH:MM:SS" and
   * "YYYY-MM-DDTHH:MM:SS.ffffff", naming a datetime that exists.
   */
  function ParseIsoformat(s: string): (r: Option<DateTime>)
    ensures r.Some? ==> ValidDateTime(r.value)
    ensures r.Some? ==> |s| == 19 || |s| == 26
    ensures r.Some? ==> s[4] == '-' && s[7] == '-' && s[10] == 'T' && s[13] == ':' && s[16] == ':'
    ensures r.Some? && |s| == 19 ==> r.value.microsecond == 0
    ensures r.Some? && |s| == 26 ==> s[19] == '.'
  {
    if |s| == 19 then ParseSecondsForm(s)
    else if |s| != 26 || s[19] != '.' || !IsFraction(s[20..]) then None
    else
      var t := ParseSecondsForm(s[..19]);
      if t.None? then None
      else
        var d := t.value.(microsecond := SixDigitValue(s[20..], 0));
        if ValidDateTime(d) then Some(d) else None
  }

  lemma Pad2Value(n: nat)
    requires n < 100
    ensures TwoDigitValue(Pad2(n), 0) == n
  {
    assert n == 10 * (n / 10) + n % 10;
  }

  lemma Pad6Value(n: nat)
    requires n < 1000000
    ensures SixDigitValue(Pad6(n), 0) == n
  {
    var r := Pad6(n);
    var a, b := Pad2(n / 10000), Pad4(n % 10000);
    assert r == a + b;
    assert r[2..6] == b;
    Pad2Value(n / 10000);
    Pad4Value(n % 10000);
    assert TwoDigitValue(r, 0) == TwoDigitValue(a, 0);
  }

  /** The seconds form reads back as the datetime with its fraction dropped. */
  lemma ParseFormatIsoSeconds(d: DateTime)
    requires ValidDateTime(d)
    ensures ParseIsoformat(FormatIsoSeconds(d)) == Some(d.(microsecond := 0))
  {
    var s := FormatIsoSeconds(d);
    var y, mo, da := Pad4(d.year), Pad2(d.month), Pad2(d.day);
    var h, mi, se := Pad2(d.hour), Pad2(d.minute), Pad2(d.second);
    var ymd := FormatYmd(d);
    assert ymd == y + "-" + mo + "-" + da;
    assert |ymd| == 10;
    assert s == ymd + "T" + h + ":" + mi + ":" + se;
    assert s[..4] == y by { assert s[..10] == ymd; assert ymd[..4] == y; }
    assert s[5] == mo[0] && s[6] == mo[1] && s[8] == da[0] && s[9] == da[1];
    assert s[11] == h[0] && s[12] == h[1] && s[14] == mi[0] && s[15] == mi[1];
    assert s[17] == se[0] && s[18] == se[1];
    assert s[4] == '-' && s[7] == '-' && s[10] == 'T' && s[13] == ':' && s[16] == ':';
    Pad4Value(d.year);
    Pad2Value(d.month);
    Pad2Value(d.day);
    Pad2Value(d.hour);
    Pad2Value(d.minute);
    Pad2Value(d.second);
    assert TwoDigitValue(s, 5) == TwoDigitValue(mo, 0);
    assert TwoDigitValue(s, 8) == TwoDigitValue(da, 0);
    assert TwoDigitValue(s, 11) == TwoDigitValue(h, 0);
    assert TwoDigitValue(s, 14) == TwoDigitValue(mi, 0);
    assert TwoDigitValue(s, 17) == TwoDigitValue(se, 0);
  }

  /** The fraction form: the seconds form, '.', and six digits giving the microsecond back. */
  lemma ParseFormatFraction(d: DateTime)
    requires ValidDateTime(d)
    ensures ParseIsoformat(FormatIsoSeconds(d) + "." + Pad6(d.microsecond)) == Some(d)
  {
    var t := FormatIsoSeconds(d);
    var f := Pad6(d.microsecond);
    var s := t + "." + f;
    ParseFormatIsoSeconds(d);
    assert |t| == 19;
    assert s[..19] == t;
    assert s[19] == '.';
    assert s[20..] == f;
    Pad6Value(d.microsecond);
  }

  /** fromisoformat reads back what isoformat wrote, for every datetime. */
  lemma ParseFormatIsoformat(d: DateTime)
    requires ValidDateTime(d)
    ensures ParseIsoformat(Isoformat(d)) == Some(d)
  {
    if d.microsecond == 0 {
      ParseFormatIsoSeconds(d);
      assert Isoformat(d) == FormatIsoSeconds(d);
    } else {
      ParseFormatFraction(d);
      assert Isoformat(d) == FormatIsoSeconds(d) + "." + Pad6(d.microsecond);
    }
  }

  // ---------------------------------------------------------------- elapsed time

  /** Days from 0001-01-01 to the first of January of year y (proleptic Gregorian). */
  function DaysBeforeYear(y: int): int {
    var p := y - 1;
    365 * p + p / 4 - p / 100 + p / 400
  }

  /** Days from the first of January of year y to the first of month m. */
  function DaysBeforeMonth(y: int, m: int): int
    requires 1 <= m <= 12
  {
    if m == 1 then 0 else DaysBeforeMonth(y, m - 1) + DaysInMonth(y, m - 1)
  }

  /**
   * Seconds since 0001-01-01T00:00:00. The difference of two of these is the timedelta
   * that subtracting two naive datetimes gives, counted in seconds.
   */
  function Seconds(d: DateTime): int
    requires ValidDateTime(d)
  {
    (DaysBeforeYear(d.year) + DaysBeforeMonth(d.year, d.month) + d.day - 1) * 86400
      + d.hour * 3600 + d.minute * 60 + d.second
  }

  /**
   * Microseconds since 0001-01-01T00:00:00: the resolution at which subtracting two naive
   * datetimes and comparing the timedelta works.
   */
  function Microseconds(d: DateTime): int
    requires ValidDateTime(d)
  {
    Seconds(d) * 1000000 + d.microsecond
  }
}
