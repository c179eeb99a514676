/**
 * The time window of an "occurred at" timestamp: the text `YYYY-MM-DD HH:MM:SS` is
 * a wall-clock time in Japan (UTC+9), and the window runs from two minutes before
 * to two minutes after that instant, in whole seconds since the Unix epoch.
 *
 * The computation follows ECMAScript's `Date.UTC` on integral arguments: a year from
 * 0 to 99 means 1900 plus that year, an out-of-range month carries into the year, and
 * day, hour, minute and second are added linearly (so day 0 or hour -9 simply reach
 * back into the previous day).
 */
module TimeWindow {
  import opened Chars
  import opened Decimal

  /** The lexical form `[0-9]{4}-[0-9]{2}-[0-9]{2} [0-9]{2}:[0-9]{2}:[0-9]{2}`. */
  predicate IsTimestampShape(s: string) {
    |s| == 19 && s[4] == '-' && s[7] == '-' && s[10] == ' ' && s[13] == ':' && s[16] == ':'
    && forall k :: 0 <= k < 19 && k != 4 && k != 7 && k != 10 && k != 13 && k != 16 ==> IsDigit(s[k])
  }

  /** The six numbers of a timestamp, as written. */
  datatype Fields = Fields(year: nat, month: nat, day: nat, hour: nat, minute: nat, second: nat)

  /** The number written at `s[lo..hi]`. */
  function NumberAt(s: string, lo: nat, hi: nat): nat
    requires lo <= hi <= |s| && forall k :: lo <= k < hi ==> IsDigit(s[k])
  {
    DigitsValue(s[lo..hi])
  }

  /** Splitting at the space, the dashes and the colons, and reading each part as a Number. */
  function ParseTimestamp(s: string): (f: Fields)
    requires IsTimestampShape(s)
    ensures f.month < 100 && f.day < 100 && f.hour < 100 && f.minute < 100 && f.second < 100
  {
    var f := Fields(NumberAt(s, 0, 4), NumberAt(s, 5, 7), NumberAt(s, 8, 10),
                    NumberAt(s, 11, 13), NumberAt(s, 14, 16), NumberAt(s, 17, 19));
    TwoDigitsBound(s, 5); TwoDigitsBound(s, 8); TwoDigitsBound(s, 11);
    TwoDigitsBound(s, 14); TwoDigitsBound(s, 17);
    f
  }

  lemma TwoDigitsBound(s: string, lo: nat)
    requires lo + 2 <= |s| && IsDigit(s[lo]) && IsDigit(s[lo + 1])
    ensures NumberAt(s, lo, lo + 2) < 100
  {
    TwoDigits(s, lo);
  }

  /** A two-digit field's value, digit by digit. */
  lemma TwoDigits(s: string, lo: nat)
    requires lo + 2 <= |s| && IsDigit(s[lo]) && IsDigit(s[lo + 1])
    ensures NumberAt(s, lo, lo + 2) == DigitValue(s[lo]) * 10 + DigitValue(s[lo + 1])
  {
    var t := s[lo..lo + 2];
    assert t[..1][..0] == [];
    assert t[..1] == [s[lo]];
    assert DigitsValue(t[..1]) == DigitValue(s[lo]);
    assert t[1] == s[lo + 1];
  }

  /** `Date.UTC` reads a year from 0 to 99 as a year of the 1900s. */
  function FullYear(y: int): int {
    if 0 <= y <= 99 then 1900 + y else y
  }

  predicate IsLeap(y: int) {
    y % 4 == 0 && (y % 100 != 0 || y % 400 == 0)
  }

  function DaysInYear(y: int): int {
    if IsLeap(y) then 366 else 365
  }

  /** ECMAScript's DayFromYear: the day number of 1 January of year `y`
      (Dafny's `/` by a positive constant is the floor the definition asks for). */
  function DayFromYear(y: int): int {
    365 * (y - 1970) + (y - 1969) / 4 - (y - 1901) / 100 + (y - 1601) / 400
  }

  /** Days from 1 January to the first of the 0-based month `mn`: ECMAScript's month table. */
  function DaysBeforeMonth(mn: int, leap: bool): int
    requires 0 <= mn < 12
  {
    var table := [0, 31, 59, 90, 120, 151, 181, 212, 243, 273, 304, 334];
    table[mn] + if leap && mn >= 2 then 1 else 0
  }

  /** ECMAScript's MakeDay on integral arguments: the 0-based month is first carried into the year. */
  function MakeDay(year: int, month: int, date: int): int {
    var ym := year + month / 12;
    var mn := month % 12;
    DayFromYear(ym) + DaysBeforeMonth(mn, IsLeap(ym)) + date - 1
  }

  /** `Date.UTC(year, month - 1, day, hour - 9, minute, second)`, in milliseconds. */
  function JstTimeValue(f: Fields): int {
    MakeDay(FullYear(f.year), f.month - 1, f.day) * 86400000
      + (f.hour - 9) * 3600000 + f.minute * 60000 + f.second * 1000
  }

  /** The instant of the timestamp in seconds: the calendar day times 86400, plus the
      wall-clock time moved back by the nine hours of Japan's offset. */
  function JstEpochSeconds(f: Fields): int {
    MakeDay(FullYear(f.year), f.month - 1, f.day) * 86400
      + (f.hour - 9) * 3600 + f.minute * 60 + f.second
  }

  /** The ±2-minute window, in epoch seconds. */
  datatype Window = Window(fromTs: int, toTs: int)

  /** The window of a parsed timestamp: `Math.floor` of the instant two minutes before
      and after, in seconds. It is always 240 seconds wide and starts 120 seconds before
      the instant. */
  function WindowOf(f: Fields): (w: Window)
    ensures w.toTs - w.fromTs == 240
    ensures w.fromTs == JstEpochSeconds(f) - 120
    ensures w.toTs == JstEpochSeconds(f) + 120
  {
    var t := JstTimeValue(f);
    Window((t - 2 * 60000) / 1000, (t + 2 * 60000) / 1000)
  }

  /** `getFromToTs`: parse the timestamp, then take the window around its instant. */
  function GetFromToTs(s: string): (w: Window)
    requires IsTimestampShape(s)
    ensures w.toTs - w.fromTs == 240
    ensures w.fromTs == JstEpochSeconds(ParseTimestamp(s)) - 120
    ensures w.toTs == JstEpochSeconds(ParseTimestamp(s)) + 120
  {
    WindowOf(ParseTimestamp(s))
  }

  // ---------------------------------------------------------------------------
  // An independent calendar: days counted one year and one month at a time.

  function MonthLength(y: int, m: int): int
    requires 1 <= m <= 12
  {
    if m == 2 then (if IsLeap(y) then 29 else 28)
    else if m == 4 || m == 6 || m == 9 || m == 11 then 30
    else 31
  }

  /** Days from 1970-01-01 to 1 January of `y`, adding or removing whole years. */
  function YearStart(y: int): int
    decreases if y >= 1970 then y - 1970 else 1970 - y
  {
    if y == 1970 then 0
    else if y > 1970 then YearStart(y - 1) + DaysInYear(y - 1)
    else YearStart(y + 1) - DaysInYear(y)
  }

  /** Days from 1 January to the first of the 1-based month `m`, adding whole months. */
  function MonthStart(y: int, m: int): int
    requires 1 <= m <= 12
  {
    if m == 1 then 0 else MonthStart(y, m - 1) + MonthLength(y, m - 1)
  }

  /** Seconds since the Unix epoch of the UTC time y-m-d h:mi:s (hour may be out of 0..23). */
  function UtcSeconds(y: int, m: int, d: int, h: int, mi: int, s: int): int
    requires 1 <= m <= 12
  {
    (YearStart(y) + MonthStart(y, m) + d - 1) * 86400 + h * 3600 + mi * 60 + s
  }

  /** The closed form of DayFromYear grows by the length of each year. */
  lemma DayFromYearStep(y: int)
    ensures DayFromYear(y + 1) - DayFromYear(y) == DaysInYear(y)
  {
    var q := QuarterStep(y);
    var c := CenturyStep(y);
    var f := FourCenturyStep(y);
    LeapDivisibility(y);
    assert DayFromYear(y + 1) - DayFromYear(y) == 365 + q - c + f;
  }

  /** A year divisible by 400 is divisible by 100, and one divisible by 100 by 4. */
  lemma LeapDivisibility(y: int)
    ensures y % 400 == 0 ==> y % 100 == 0
    ensures y % 100 == 0 ==> y % 4 == 0
  {
    if y % 400 == 0 {
      var k := y / 400;
      assert y == 100 * (4 * k);
    }
    if y % 100 == 0 {
      var k := y / 100;
      assert y == 4 * (25 * k);
    }
  }

  lemma QuarterStep(y: int) returns (d: int)
    ensures d == (y - 1968) / 4 - (y - 1969) / 4
    ensures d == if y % 4 == 0 then 1 else 0
  {
    d := (y - 1968) / 4 - (y - 1969) / 4;
  }

  lemma CenturyStep(y: int) returns (d: int)
    ensures d == (y - 1900) / 100 - (y - 1901) / 100
    ensures d == if y % 100 == 0 then 1 else 0
  {
    d := (y - 1900) / 100 - (y - 1901) / 100;
  }

  lemma FourCenturyStep(y: int) returns (d: int)
    ensures d == (y - 1600) / 400 - (y - 1601) / 400
    ensures d == if y % 400 == 0 then 1 else 0
  {
    d := (y - 1600) / 400 - (y - 1601) / 400;
  }

  /** ECMAScript's DayFromYear agrees with counting years one by one. */
  lemma {:induction false} DayFromYearIsYearStart(y: int)
    ensures DayFromYear(y) == YearStart(y)
    decreases if y >= 1970 then y - 1970 else 1970 - y
  {
    if y > 1970 {
      DayFromYearIsYearStart(y - 1);
      DayFromYearStep(y - 1);
    } else if y < 1970 {
      DayFromYearIsYearStart(y + 1);
      DayFromYearStep(y);
    }
  }

  /** ECMAScript's month table agrees with adding month lengths. */
  lemma {:induction false} DaysBeforeMonthIsMonthStart(y: int, m: int)
    requires 1 <= m <= 12
    ensures DaysBeforeMonth(m - 1, IsLeap(y)) == MonthStart(y, m)
  {
    if m > 1 {
      DaysBeforeMonthIsMonthStart(y, m - 1);
    }
  }

  /** On a month from 1 to 12, MakeDay is the day count of the independent calendar. */
  lemma MakeDayIsCalendar(y: int, m: int, d: int)
    requires 1 <= m <= 12
    ensures MakeDay(y, m - 1, d) == YearStart(y) + MonthStart(y, m) + d - 1
  {
    assert (m - 1) / 12 == 0 && (m - 1) % 12 == m - 1;
    DayFromYearIsYearStart(y);
    DaysBeforeMonthIsMonthStart(y, m);
  }

  /** For a timestamp with a month from 1 to 12 and a year of at least 100, the window
      is centred on the UTC instant nine hours before the written wall-clock time. */
  lemma WindowIsJstInstant(s: string)
    requires IsTimestampShape(s)
    requires var f := ParseTimestamp(s); 1 <= f.month <= 12 && f.year >= 100
    ensures var f := ParseTimestamp(s);
      var t := UtcSeconds(f.year, f.month, f.day, f.hour - 9, f.minute, f.second);
      GetFromToTs(s) == Window(t - 120, t + 120)
  {
    var f := ParseTimestamp(s);
    MakeDayIsCalendar(f.year, f.month, f.day);
    assert FullYear(f.year) == f.year;
  }

  /** Two strings that agree on their first `n` characters agree on every slice in there. */
  lemma SamePrefixSlice(s: string, s': string, n: nat, lo: nat, hi: nat)
    requires n <= |s| && n <= |s'| && s[..n] == s'[..n] && lo <= hi <= n
    ensures s[lo..hi] == s'[lo..hi]
  {
    forall i | lo <= i < hi ensures s[i] == s'[i] {
      assert s[i] == s[..n][i];
      assert s'[i] == s'[..n][i];
    }
    assert s[lo..hi] == s'[lo..hi];
  }

  /** Changing only the seconds field by `k` moves both ends of the window by `k`. */
  lemma SecondsShift(s: string, s': string, k: int)
    requires IsTimestampShape(s) && IsTimestampShape(s')
    requires s[..17] == s'[..17]
    requires NumberAt(s', 17, 19) == NumberAt(s, 17, 19) + k
    ensures GetFromToTs(s').fromTs == GetFromToTs(s).fromTs + k
    ensures GetFromToTs(s').toTs == GetFromToTs(s).toTs + k
  {
    SecondsOnlyField(s, s', k);
    var f := ParseTimestamp(s);
    WindowSecondsShift(f, k);
  }

  /** On parsed fields: adding `k` to the seconds moves the window by `k`. */
  lemma WindowSecondsShift(f: Fields, k: int)
    requires f.second + k >= 0
    ensures WindowOf(f.(second := f.second + k)) ==
      Window(WindowOf(f).fromTs + k, WindowOf(f).toTs + k)
  {
  }

  lemma SecondsOnlyField(s: string, s': string, k: int)
    requires IsTimestampShape(s) && IsTimestampShape(s')
    requires s[..17] == s'[..17]
    requires NumberAt(s', 17, 19) == NumberAt(s, 17, 19) + k
    ensures ParseTimestamp(s') == ParseTimestamp(s).(second := ParseTimestamp(s).second + k)
  {
    SamePrefixSlice(s, s', 17, 0, 4);
    SamePrefixSlice(s, s', 17, 5, 7);
    SamePrefixSlice(s, s', 17, 8, 10);
    SamePrefixSlice(s, s', 17, 11, 13);
    SamePrefixSlice(s, s', 17, 14, 16);
  }

  /** The fields of the timestamp 2025-09-29 05:36:04. */
  lemma ExampleFields()
    ensures IsTimestampShape("2025-09-29 05:36:04")
    ensures ParseTimestamp("2025-09-29 05:36:04") == Fields(2025, 9, 29, 5, 36, 4)
  {
    var s := "2025-09-29 05:36:04";
    assert IsTimestampShape(s);
    TwoDigits(s, 0); TwoDigits(s, 2);
    assert s[0..4][..2] == s[0..2];
    assert NumberAt(s, 0, 4) == 2025 by {
      var t := s[0..4];
      assert t[..3][..2] == t[..2] == s[0..2];
      assert DigitsValue(t[..3]) == DigitsValue(t[..2]) * 10 + 2;
    }
    TwoDigits(s, 5); TwoDigits(s, 8); TwoDigits(s, 11); TwoDigits(s, 14); TwoDigits(s, 17);
  }

  /** 2025-09-29 05:36:04 in Japan is epoch second 1759091764 (2025-09-28 20:36:04 UTC). */
  lemma ExampleWindow()
    ensures IsTimestampShape("2025-09-29 05:36:04")
    ensures GetFromToTs("2025-09-29 05:36:04") == Window(1759091644, 1759091884)
  {
    ExampleFields();
    ExampleEpoch();
  }

  lemma ExampleEpoch()
    ensures JstEpochSeconds(Fields(2025, 9, 29, 5, 36, 4)) == 1759091764
  {
    assert DayFromYear(2025) == 20089;
    assert MakeDay(2025, 8, 29) == 20360;
  }

  /** The same window, read on the independent calendar: 20:34:04 to 20:38:04 UTC on
      2025-09-28. */
  lemma ExampleWindowUtc()
    ensures IsTimestampShape("2025-09-29 05:36:04")
    ensures GetFromToTs("2025-09-29 05:36:04") ==
      Window(UtcSeconds(2025, 9, 28, 20, 34, 4), UtcSeconds(2025, 9, 28, 20, 38, 4))
  {
    ExampleFields();
    WindowIsJstInstant("2025-09-29 05:36:04");
  }
}
