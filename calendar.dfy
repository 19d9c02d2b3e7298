/** Calendar arithmetic for the event year 2025 (not a leap year): the
    days of the year, the Monday-based weekday (`Series.dt.weekday`), the
    weekday labels, the key of a `W-SUN` weekly period (its start, a
    Monday), the zero-padded `"2025-MM-DD"` text the scraper writes and
    `pd.to_datetime(..., errors="coerce")` reading it back. */
module Calendar {
  import opened Wrappers
  import opened PyStr

  const Year: nat := 2025
  const YearPrefix: string := "2025-"

  /** A day of 2025 as month and day of month; only `ValidDate` ones exist
      on the calendar. */
  datatype Date = Date(month: int, day: int)

  function DaysInMonth(m: int): (n: int)
    requires 1 <= m <= 12
    ensures 28 <= n <= 31
  {
    if m == 2 then 28
    else if m == 4 || m == 6 || m == 9 || m == 11 then 30
    else 31
  }

  predicate ValidDate(dt: Date) {
    1 <= dt.month <= 12 && 1 <= dt.day <= DaysInMonth(dt.month)
  }

  /** Days of 2025 before the first of month `m`. */
  function DaysBefore(m: int): (n: int)
    requires 1 <= m <= 12
  {
    [0, 31, 59, 90, 120, 151, 181, 212, 243, 273, 304, 334][m - 1]
  }

  /** The table adds up the month lengths, and the year has 365 days. */
  lemma DaysBeforeCumulative(m: int)
    requires 1 <= m <= 12
    ensures m == 1 ==> DaysBefore(m) == 0
    ensures m < 12 ==> DaysBefore(m + 1) == DaysBefore(m) + DaysInMonth(m)
    ensures m == 12 ==> DaysBefore(m) + DaysInMonth(m) == 365
  {
  }

  /** Days since 2025-01-01. */
  function DayOfYear(dt: Date): (n: int)
    requires ValidDate(dt)
    ensures 0 <= n < 365
  {
    DaysBefore(dt.month) + dt.day - 1
  }

  /** Chronological order of dates, read off month then day. */
  predicate NotAfter(a: Date, b: Date) {
    a.month < b.month || (a.month == b.month && a.day <= b.day)
  }

  lemma {:induction false} DaysBeforeGrows(m1: int, m2: int)
    requires 1 <= m1 < m2 <= 12
    ensures DaysBefore(m1) + DaysInMonth(m1) <= DaysBefore(m2)
    decreases m2 - m1
  {
    DaysBeforeCumulative(m1);
    if m1 + 1 < m2 {
      DaysBeforeGrows(m1 + 1, m2);
      DaysBeforeCumulative(m1 + 1);
    }
  }

  /** Counting days since New Year orders valid dates exactly as the
      calendar does, and tells different dates apart. */
  lemma DayOfYearOrder(a: Date, b: Date)
    requires ValidDate(a) && ValidDate(b)
    ensures NotAfter(a, b) <==> DayOfYear(a) <= DayOfYear(b)
    ensures a == b <==> DayOfYear(a) == DayOfYear(b)
  {
    if a.month < b.month {
      DaysBeforeGrows(a.month, b.month);
    } else if b.month < a.month {
      DaysBeforeGrows(b.month, a.month);
    }
  }

  /** Monday = 0 ... Sunday = 6 of the day `n` days after 2025-01-01, which
      was a Wednesday. Negative `n` counts back into 2024. */
  function Weekday(n: int): (w: int)
    ensures 0 <= w < 7
  {
    (n + 2) % 7
  }

  /** An independent reference: Sakamoto's weekday formula for the
      Gregorian calendar, Sunday = 0. */
  function GregorianWeekday(y: int, m: int, d: int): (w: int)
    requires 1 <= m <= 12
    ensures 0 <= w < 7
  {
    var t := [0, 3, 2, 5, 0, 3, 5, 1, 4, 6, 2, 4];
    var y' := if m < 3 then y - 1 else y;
    (y' + y' / 4 - y' / 100 + y' / 400 + t[m - 1] + d) % 7
  }

  lemma ModAddMod(x: int, c: int)
    ensures (x % 7 + c) % 7 == (x + c) % 7
  {
  }

  lemma SameResidue(a: int, b: int, d: int)
    requires a % 7 == b % 7
    ensures (a + d) % 7 == (b + d) % 7
  {
  }

  /** The weekday count agrees with the Gregorian calendar on every day of 2025. */
  lemma WeekdayIsGregorian(dt: Date)
    requires ValidDate(dt)
    ensures Weekday(DayOfYear(dt)) == (GregorianWeekday(Year, dt.month, dt.day) + 6) % 7
  {
    var m, d := dt.month, dt.day;
    var t := [0, 3, 2, 5, 0, 3, 5, 1, 4, 6, 2, 4];
    var y' := if m < 3 then Year - 1 else Year;
    assert y' + y' / 4 - y' / 100 + y' / 400 == if m < 3 then 2515 else 2516;
    var c := (if m < 3 then 2515 else 2516) + t[m - 1];
    assert GregorianWeekday(Year, m, d) == (c + d) % 7;
    ModAddMod(c + d, 6);
    assert (DaysBefore(m) + 1) % 7 == (c + 6) % 7;
    SameResidue(DaysBefore(m) + 1, c + 6, d);
  }

  /** `{0:"月",1:"火",2:"水",3:"木",4:"金",5:"土",6:"日"}`. */
  function WeekdayLabel(w: int): (name: string)
    requires 0 <= w < 7
    ensures |name| == 1
  {
    ["月", "火", "水", "木", "金", "土", "日"][w]
  }

  /** Different weekdays get different labels. */
  lemma WeekdayLabelInjective(v: int, w: int)
    requires 0 <= v < 7 && 0 <= w < 7
    ensures WeekdayLabel(v) == WeekdayLabel(w) <==> v == w
  {
    if v != w {
      assert WeekdayLabel(v)[0] != WeekdayLabel(w)[0];
    }
  }

  /** The start of the `W-SUN` period holding day `n`: a `W-SUN` week ends
      on a Sunday, so it starts on the Monday on or before `n`. */
  function WeekStart(n: int): (s: int)
    ensures Weekday(s) == 0
    ensures s <= n <= s + 6
  {
    n - Weekday(n)
  }

  /** Exactly one Monday lies within the six days up to `n`. */
  lemma WeekStartUnique(n: int, s: int)
    requires Weekday(s) == 0 && s <= n <= s + 6
    ensures s == WeekStart(n)
  {
    var k := n - s;
    assert (s + 2) % 7 == 0;
    assert (n + 2) % 7 == k by {
      assert n + 2 == (s + 2) + k;
    }
  }

  /** Two days share a week key exactly when no Monday separates them. */
  lemma SameWeek(n1: int, n2: int)
    requires n1 <= n2
    ensures WeekStart(n1) == WeekStart(n2) <==> n2 - n1 <= Weekday(n2) - Weekday(n1)
  {
    var s1, s2 := WeekStart(n1), WeekStart(n2);
    if n2 - n1 <= Weekday(n2) - Weekday(n1) {
      WeekStartUnique(n2, s1);
    }
  }

  // -----------------------------------------------------------------------
  // "2025-MM-DD" text

  /** `f"{n:02}"`: at least two digits, zero-padded on the left. */
  function Pad2(n: nat): (s: string)
    ensures |s| >= 2 && AllDigits(s) && DecimalValue(s) == n
    ensures n < 100 ==> |s| == 2
  {
    if n < 10 then
      var s := "0" + DecimalString(n);
      assert s[..1] == "0";
      s
    else
      assert n < 100 ==> DecimalString(n) == DecimalString(n / 10) + [DigitChar(n % 10)];
      DecimalString(n)
  }

  /** `f"2025-{month:02}-{day:02}"`. */
  function FormatDate(month: nat, day: nat): (s: string)
    ensures month < 100 && day < 100 ==>
      |s| == 10 && s[..5] == YearPrefix && s[7] == '-'
      && s[5..7] == Pad2(month) && s[8..] == Pad2(day)
  {
    YearPrefix + Pad2(month) + "-" + Pad2(day)
  }

  /** `pd.to_datetime(s, errors="coerce")` on text of the shape
      `"2025-MM-DD"`: the date if it is on the calendar, otherwise `None`
      (pandas' "not a time", which `dropna` removes). */
  function ToDate(s: string): (r: Option<Date>)
    ensures r.Some? ==> ValidDate(r.value)
  {
    if |s| == 10 && s[..5] == YearPrefix && s[7] == '-' && AllDigits(s[5..7]) && AllDigits(s[8..]) then
      var dt := Date(DecimalValue(s[5..7]), DecimalValue(s[8..]));
      if ValidDate(dt) then Some(dt) else None
    else None
  }

  /** What the scraper writes, pandas reads back as that very date, or as
      "not a time" when it is not on the calendar (`2025-13-40`). */
  lemma ToDateFormatDate(month: nat, day: nat)
    requires month < 100 && day < 100
    ensures ToDate(FormatDate(month, day)) ==
      if ValidDate(Date(month, day)) then Some(Date(month, day)) else None
  {
  }

  lemma DigitCharValue(c: char)
    requires IsDigit(c)
    ensures DigitChar(DigitValue(c)) == c
  {
  }

  /** Two digits are the zero-padded spelling of their value. */
  lemma Pad2OfDigits(s: string)
    requires |s| == 2 && AllDigits(s)
    ensures Pad2(DecimalValue(s)) == s
  {
    var hi, lo := DigitValue(s[0]), DigitValue(s[1]);
    assert s[..1][..0] == [];
    assert DecimalValue(s[..1]) == hi;
    var v := DecimalValue(s);
    assert v == 10 * hi + lo;
    DigitCharValue(s[0]);
    DigitCharValue(s[1]);
    if hi == 0 {
      assert s[0] == '0';
      assert Pad2(v) == "0" + [DigitChar(lo)];
    } else {
      assert v / 10 == hi && v % 10 == lo;
      assert DecimalString(v) == DecimalString(hi) + [DigitChar(lo)];
      assert Pad2(v) == [DigitChar(hi), DigitChar(lo)];
    }
  }

  /** Every text pandas accepts here is the scraper's own spelling of the
      date it denotes. */
  lemma ToDateCanonical(s: string)
    requires ToDate(s).Some?
    ensures s == FormatDate(ToDate(s).value.month, ToDate(s).value.day)
  {
    Pad2OfDigits(s[5..7]);
    Pad2OfDigits(s[8..]);
    assert s == s[..5] + s[5..7] + [s[7]] + s[8..];
  }

  /** Sample days of the event: 2025-01-01 is a Wednesday, labelled "水";
      the opening day 2025-04-13 is a Sunday, in the week keyed by Monday
      2025-04-07; January 1 to 5 fall in the week keyed by 2024-12-30. */
  lemma SampleDays()
    ensures Weekday(DayOfYear(Date(1, 1))) == 2 && WeekdayLabel(2) == "水"
    ensures Weekday(DayOfYear(Date(4, 13))) == 6
    ensures WeekStart(DayOfYear(Date(4, 13))) == DayOfYear(Date(4, 7))
    ensures WeekStart(DayOfYear(Date(1, 5))) == -2
  {
  }
}
