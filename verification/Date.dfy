/** The `Date` header: from seconds since 1970 to the IMF-fixdate of section 5.6.7 of RFC 9110. */
module Date {
  import opened Text
  import opened Wrappers

  const DAYS: seq<string> := ["Sun", "Mon", "Tue", "Wed", "Thu", "Fri", "Sat"]

  const MONTHS: seq<string> :=
    ["Jan", "Feb", "Mar", "Apr", "May", "Jun", "Jul", "Aug", "Sep", "Oct", "Nov", "Dec"]

  datatype Fields = Fields(weekday: nat, day: nat, month: nat, year: nat, hour: nat, minute: nat, second: nat)

  // ---- The two calendars

  /** Lengths of the months, for either leap year rule. */
  function MonthLength(month: nat, leap: bool): nat
    requires 1 <= month <= 12
  {
    if month in {4, 6, 9, 11} then 30 else if month == 2 then if leap then 29 else 28 else 31
  }

  /** The days of the months before `month`. */
  function DaysBefore(month: nat, leap: bool): nat
    requires 1 <= month <= 12
  {
    if month == 1 then 0 else DaysBefore(month - 1, leap) + MonthLength(month - 1, leap)
  }

  predicate FourYearLeap(year: nat) { year % 4 == 0 }

  predicate GregorianLeap(year: nat) { year % 4 == 0 && (year % 100 != 0 || year % 400 == 0) }

  /** The first day of a year of the code's calendar, counted from 1970. */
  function FourYearStart(year: nat): nat
    requires year >= 1970
  {
    365 * (year - 1970) + (year - 1969) / 4
  }

  /** The first day of a Gregorian year. */
  function GregorianStart(year: nat): nat
    requires year >= 1970
  {
    if year == 1970 then 0 else GregorianStart(year - 1) + if GregorianLeap(year - 1) then 366 else 365
  }

  predicate IsDate(day: nat, month: nat, year: nat, leap: bool) {
    year >= 1970 && 1 <= month <= 12 && 1 <= day <= MonthLength(month, leap)
  }

  function FourYearDay(day: nat, month: nat, year: nat): nat
    requires IsDate(day, month, year, FourYearLeap(year))
  {
    FourYearStart(year) + DaysBefore(month, FourYearLeap(year)) + day - 1
  }

  function GregorianDay(day: nat, month: nat, year: nat): nat
    requires IsDate(day, month, year, GregorianLeap(year))
  {
    GregorianStart(year) + DaysBefore(month, GregorianLeap(year)) + day - 1
  }

  lemma MonthLengths(month: nat, leap: bool)
    requires 1 <= month <= 12
    ensures MonthLength(month, leap) ==
            [31, if leap then 29 else 28, 31, 30, 31, 30, 31, 31, 30, 31, 30, 31][month - 1]
  {
  }

  // ---- The month loop

  /** Days since 1970 at the start of a month of the code's calendar. */
  function MonthStart(month: nat, year: nat): nat
    requires year >= 1970 && 1 <= month <= 12
  {
    FourYearStart(year) + DaysBefore(month, FourYearLeap(year))
  }

  lemma NextMonth(month: nat, year: nat)
    requires year >= 1970 && 1 <= month <= 12
    ensures var next := MonthStart(month, year) + MonthLength(month, FourYearLeap(year));
            next == if month < 12 then MonthStart(month + 1, year) else MonthStart(1, year + 1)
  {
    YearLength(FourYearLeap(year));
  }

  lemma YearLength(leap: bool)
    ensures DaysBefore(12, leap) + 31 == if leap then 366 else 365
  {
    assert DaysBefore(2, leap) == 31;
    assert DaysBefore(3, leap) == if leap then 60 else 59;
    assert DaysBefore(5, leap) == DaysBefore(3, leap) + 61;
    assert DaysBefore(7, leap) == DaysBefore(5, leap) + 61;
    assert DaysBefore(9, leap) == DaysBefore(7, leap) + 62;
    assert DaysBefore(11, leap) == DaysBefore(9, leap) + 61;
  }

  method DaysInMonth(month: nat, year: nat) returns (n: nat)
    requires 1 <= month <= 12
    ensures n == MonthLength(month, FourYearLeap(year))
  {
    if month == 1 || month == 3 || month == 5 || month == 7 || month == 8 || month == 10 || month == 12 {
      return 31;
    } else if month == 4 || month == 6 || month == 9 || month == 11 {
      return 30;
    } else if year % 4 == 0 {
      return 29;
    }
    return 28;
  }

  /** For any number of days the loop ends at the date of the closed form. */
  method Calendar(total: nat) returns (day: nat, month: nat, year: nat)
    ensures IsDate(day, month, year, FourYearLeap(year)) && FourYearDay(day, month, year) == total
  {
    var days := total;
    year, month := 1970, 1;
    var length := DaysInMonth(month, year);
    while days >= length
      invariant year >= 1970 && 1 <= month <= 12 && length == MonthLength(month, FourYearLeap(year))
      invariant MonthStart(month, year) + days == total
      decreases days
    {
      NextMonth(month, year);
      days := days - length;
      month := month + 1;
      if month > 12 {
        month := 1;
        year := year + 1;
      }
      length := DaysInMonth(month, year);
    }
    day := days + 1;
  }

  // ---- The closed forms number the days one to one

  lemma {:induction false} DaysBeforeMonotone(m: nat, n: nat, leap: bool)
    requires 1 <= m < n <= 12
    ensures DaysBefore(m, leap) + MonthLength(m, leap) <= DaysBefore(n, leap)
  {
    if m < n - 1 {
      DaysBeforeMonotone(m, n - 1, leap);
    }
  }

  lemma WithinYear(day: nat, month: nat, leap: bool)
    requires 1 <= month <= 12 && 1 <= day <= MonthLength(month, leap)
    ensures DaysBefore(month, leap) + day <= if leap then 366 else 365
  {
    YearLength(leap);
    if month < 12 {
      DaysBeforeMonotone(month, 12, leap);
    }
  }

  lemma SameInYear(d: nat, m: nat, e: nat, n: nat, leap: bool)
    requires 1 <= m <= 12 && 1 <= n <= 12 && 1 <= d <= MonthLength(m, leap) && 1 <= e <= MonthLength(n, leap)
    requires DaysBefore(m, leap) + d == DaysBefore(n, leap) + e
    ensures d == e && m == n
  {
    if m < n {
      DaysBeforeMonotone(m, n, leap);
    } else if n < m {
      DaysBeforeMonotone(n, m, leap);
    }
  }

  /** So the loop inverts the day number: no two dates of the code's calendar share one. */
  lemma FourYearDayInjective(d: nat, m: nat, y: nat, e: nat, n: nat, z: nat)
    requires IsDate(d, m, y, FourYearLeap(y)) && IsDate(e, n, z, FourYearLeap(z))
    requires FourYearDay(d, m, y) == FourYearDay(e, n, z)
    ensures d == e && m == n && y == z
  {
    WithinYear(d, m, FourYearLeap(y));
    WithinYear(e, n, FourYearLeap(z));
    assert y == z;
    SameInYear(d, m, e, n, FourYearLeap(y));
  }

  lemma {:induction false} GregorianYears(y: nat, z: nat)
    requires 1970 <= y < z
    ensures GregorianStart(y) + (if GregorianLeap(y) then 366 else 365) <= GregorianStart(z)
    decreases z
  {
    if y < z - 1 {
      GregorianYears(y, z - 1);
    }
  }

  lemma GregorianDayInjective(d: nat, m: nat, y: nat, e: nat, n: nat, z: nat)
    requires IsDate(d, m, y, GregorianLeap(y)) && IsDate(e, n, z, GregorianLeap(z))
    requires GregorianDay(d, m, y) == GregorianDay(e, n, z)
    ensures d == e && m == n && y == z
  {
    WithinYear(d, m, GregorianLeap(y));
    WithinYear(e, n, GregorianLeap(z));
    if y < z {
      GregorianYears(y, z);
    } else if z < y {
      GregorianYears(z, y);
    }
    SameInYear(d, m, e, n, GregorianLeap(y));
  }

  // ---- The code's calendar against the Gregorian one

  lemma LeapYears(year: nat)
    requires 1970 <= year <= 2199
    ensures GregorianLeap(year) <==> FourYearLeap(year) && year != 2100
    ensures FourYearStart(year + 1) == FourYearStart(year) + if FourYearLeap(year) then 366 else 365
  {
  }

  lemma {:induction false} YearStarts(year: nat)
    requires 1970 <= year <= 2199
    ensures GregorianStart(year) == FourYearStart(year) - if year <= 2100 then 0 else 1
  {
    if year > 1970 {
      YearStarts(year - 1);
      LeapYears(year - 1);
    }
  }

  /** 2100-03-01, the day after the first date that only the code's calendar has. */
  const MARCH_2100: nat := 47541

  lemma {:induction false} LeapFebruary(month: nat)
    requires 1 <= month <= 12
    ensures DaysBefore(month, true) == DaysBefore(month, false) + if month <= 2 then 0 else 1
  {
    if month > 1 {
      LeapFebruary(month - 1);
    }
  }

  /** A date of the code's calendar is the Gregorian date of the same day exactly before 2100-03-01. */
  lemma Agreement(day: nat, month: nat, year: nat)
    requires IsDate(day, month, year, FourYearLeap(year)) && year <= 2199
    ensures IsDate(day, month, year, GregorianLeap(year)) &&
            GregorianDay(day, month, year) == FourYearDay(day, month, year)
            <==> FourYearDay(day, month, year) < MARCH_2100
    ensures IsDate(day, month, year, GregorianLeap(year)) ==>
            GregorianDay(day, month, year) <= FourYearDay(day, month, year)
  {
    YearStarts(year);
    LeapFebruary(month);
    WithinYear(day, month, FourYearLeap(year));
    LeapYears(year);
    assert DaysBefore(3, true) == 60;
  }

  // ---- The text

  function Two(n: nat): string
    requires n < 100
  {
    [DigitChar(n / 10), DigitChar(n % 10)]
  }

  predicate Printable(f: Fields) {
    f.weekday < 7 && 1 <= f.month <= 12 && f.day < 100 && f.hour < 24 && f.minute < 60 && f.second < 60
    && 1000 <= f.year <= 9999
  }

  /** IMF-fixdate, with a year of four digits. */
  function ImfFixdate(f: Fields): string
    requires Printable(f)
  {
    DAYS[f.weekday]
    + (", " + (Two(f.day) + (" " + (MONTHS[f.month - 1] + (" " + (Decimal(f.year) + (" " + Time(f))))))))
  }

  function Time(f: Fields): string
    requires Printable(f)
  {
    Two(f.hour) + (":" + (Two(f.minute) + (":" + (Two(f.second) + " GMT"))))
  }

  lemma TwoIsDecimal(n: nat)
    requires n < 100
    ensures |Two(n)| == 2 && AllDigits(Two(n)) && DecimalValue(Two(n)) == n
  {
    var first := [DigitChar(n / 10)];
    assert first[..0] == "" && DecimalValue(first) == n / 10;
    assert Two(n)[..1] == first;
  }

  lemma SameTwo(m: nat, n: nat)
    requires m < 100 && n < 100 && Two(m) == Two(n)
    ensures m == n
  {
    assert Two(m)[0] == Two(n)[0] && Two(m)[1] == Two(n)[1];
  }

  lemma SameNames(i: nat, j: nat)
    ensures i < 7 && j < 7 && DAYS[i] == DAYS[j] ==> i == j
    ensures i < 12 && j < 12 && MONTHS[i] == MONTHS[j] ==> i == j
    ensures i < 7 ==> |DAYS[i]| == 3
    ensures i < 12 ==> |MONTHS[i]| == 3
  {
    if i < 7 && j < 7 && DAYS[i] == DAYS[j] {
      assert DAYS[i][0] == DAYS[j][0] && DAYS[i][1] == DAYS[j][1];
    }
    if i < 12 && j < 12 && MONTHS[i] == MONTHS[j] {
      assert MONTHS[i][0] == MONTHS[j][0] && MONTHS[i][1] == MONTHS[j][1] && MONTHS[i][2] == MONTHS[j][2];
    }
  }

  lemma FourDigits(y: nat)
    requires 1000 <= y <= 9999
    ensures |Decimal(y)| == 4
  {
    assert |Decimal(y / 100)| == 2;
  }

  lemma SameTime(f: Fields, g: Fields)
    requires Printable(f) && Printable(g) && Time(f) == Time(g)
    ensures f.hour == g.hour && f.minute == g.minute && f.second == g.second
  {
    var fs, gs := Two(f.second) + " GMT", Two(g.second) + " GMT";
    var fm, gm := Two(f.minute) + (":" + fs), Two(g.minute) + (":" + gs);
    SameAppend(Two(f.hour), ":" + fm, Two(g.hour), ":" + gm);
    SameAppend(":", fm, ":", gm);
    SameAppend(Two(f.minute), ":" + fs, Two(g.minute), ":" + gs);
    SameAppend(":", fs, ":", gs);
    SameAppend(Two(f.second), " GMT", Two(g.second), " GMT");
    SameTwo(f.hour, g.hour);
    SameTwo(f.minute, g.minute);
    SameTwo(f.second, g.second);
  }

  /** A text determines its fields. */
  lemma ImfInjective(f: Fields, g: Fields)
    requires Printable(f) && Printable(g) && ImfFixdate(f) == ImfFixdate(g)
    ensures f == g
  {
    SameNames(f.weekday, g.weekday);
    SameNames(g.weekday, f.weekday);
    SameNames(f.month - 1, g.month - 1);
    SameNames(g.month - 1, f.month - 1);
    FourDigits(f.year);
    FourDigits(g.year);
    var fy, gy := Decimal(f.year) + (" " + Time(f)), Decimal(g.year) + (" " + Time(g));
    var fm, gm := MONTHS[f.month - 1] + (" " + fy), MONTHS[g.month - 1] + (" " + gy);
    var fd, gd := Two(f.day) + (" " + fm), Two(g.day) + (" " + gm);
    SameAppend(DAYS[f.weekday], ", " + fd, DAYS[g.weekday], ", " + gd);
    SameAppend(", ", fd, ", ", gd);
    SameAppend(Two(f.day), " " + fm, Two(g.day), " " + gm);
    SameAppend(" ", fm, " ", gm);
    SameAppend(MONTHS[f.month - 1], " " + fy, MONTHS[g.month - 1], " " + gy);
    SameAppend(" ", fy, " ", gy);
    SameAppend(Decimal(f.year), " " + Time(f), Decimal(g.year), " " + Time(g));
    SameAppend(" ", Time(f), " ", Time(g));
    SameTwo(f.day, g.day);
    DecimalInjective(f.year, g.year);
    SameTime(f, g);
  }

  // ---- What the text says

  /** The fields are those of an instant in the Gregorian calendar. */
  predicate FieldsOf(f: Fields, epoch: nat) {
    && IsDate(f.day, f.month, f.year, GregorianLeap(f.year))
    && GregorianDay(f.day, f.month, f.year) == epoch / 86400
    && f.weekday == (epoch / 86400 + 4) % 7
    && f.hour == epoch / 3600 % 24 && f.minute == epoch / 60 % 60 && f.second == epoch % 60
  }

  /** The text is the IMF-fixdate of that instant. */
  ghost predicate Denotes(text: string, epoch: nat) {
    exists f: Fields :: Printable(f) && FieldsOf(f, epoch) && text == ImfFixdate(f)
  }

  /** The fields the code prints: the day number is cut to 16 bits. */
  predicate Shown(f: Fields, epoch: nat) {
    var days := epoch / 86400 % 0x10000;
    && IsDate(f.day, f.month, f.year, FourYearLeap(f.year)) && FourYearDay(f.day, f.month, f.year) == days
    && f.weekday == (days + 4) % 0x10000 % 7
    && f.hour == epoch / 3600 % 24 && f.minute == epoch / 60 % 60 && f.second == epoch % 60
  }

  lemma ShownIsPrintable(f: Fields, epoch: nat)
    requires Shown(f, epoch)
    ensures Printable(f) && f.year < 2150
  {
  }

  /** The shown fields are right exactly before 2100-03-01. */
  lemma ShownIsRight(f: Fields, epoch: nat)
    requires Shown(f, epoch)
    ensures FieldsOf(f, epoch) <==> epoch / 86400 < MARCH_2100
  {
    ShownIsPrintable(f, epoch);
    Agreement(f.day, f.month, f.year);
  }

  lemma ShownDenotes(f: Fields, epoch: nat)
    requires Shown(f, epoch) && Printable(f)
    ensures Denotes(ImfFixdate(f), epoch) <==> epoch / 86400 < MARCH_2100
  {
    ShownIsRight(f, epoch);
    if Denotes(ImfFixdate(f), epoch) {
      var g :| Printable(g) && FieldsOf(g, epoch) && ImfFixdate(f) == ImfFixdate(g);
      ImfInjective(f, g);
    }
  }

  /** An instant has one text. */
  lemma OneText(text: string, other: string, epoch: nat)
    requires Denotes(text, epoch) && Denotes(other, epoch)
    ensures text == other
  {
    var f :| Printable(f) && FieldsOf(f, epoch) && text == ImfFixdate(f);
    var g :| Printable(g) && FieldsOf(g, epoch) && other == ImfFixdate(g);
    GregorianDayInjective(f.day, f.month, f.year, g.day, g.month, g.year);
  }

  const EXAMPLE := Fields(0, 6, 11, 1994, 8, 49, 37)

  lemma ExampleFields()
    ensures FieldsOf(EXAMPLE, 784111777)
  {
    YearStarts(1994);
    YearLength(false);
    assert DaysBefore(12, false) == DaysBefore(11, false) + 30;
  }

  lemma ExampleTime()
    ensures Time(EXAMPLE) == "08:49:37 GMT"
  {
    assert Two(8) == "08" && Two(49) == "49" && Two(37) == "37";
    assert "37" + " GMT" == "37 GMT" && "49" + ":37 GMT" == "49:37 GMT";
  }

  lemma ExampleYear()
    ensures Decimal(1994) == "1994"
  {
    assert Decimal(19) == "19" && Decimal(199) == "199";
  }

  lemma ExampleText()
    ensures ImfFixdate(EXAMPLE) == "Sun, " + ("06 " + ("Nov " + ("1994 " + "08:49:37 GMT")))
  {
    ExampleTime();
    ExampleYear();
    assert Two(6) == "06";
    Regroup("1994", " ", "08:49:37 GMT");
    var year := "1994 " + "08:49:37 GMT";
    assert "1994" + " " == "1994 " && "Nov" + " " == "Nov " && "06" + " " == "06 " && "Sun" + ", " == "Sun, ";
    Regroup("Nov", " ", year);
    Regroup("06", " ", "Nov " + year);
    Regroup("Sun", ", ", "06 " + ("Nov " + year));
  }

  /** The example of section 5.6.7 of RFC 9110 is the one text of its instant. */
  lemma RfcExample(text: string)
    ensures Denotes(text, 784111777) <==> text == "Sun, " + ("06 " + ("Nov " + ("1994 " + "08:49:37 GMT")))
  {
    ExampleFields();
    ExampleText();
    assert Denotes(ImfFixdate(EXAMPLE), 784111777);
    if Denotes(text, 784111777) {
      OneText(text, ImfFixdate(EXAMPLE), 784111777);
    }
  }

  /** The text of the header is the IMF-fixdate of the clock exactly before 2100-03-01. */
  method ImpDate(epoch: U64) returns (text: string)
    ensures Denotes(text, epoch) <==> epoch / 86400 < MARCH_2100
    ensures exists f :: Shown(f, epoch) && Printable(f) && text == ImfFixdate(f)
  {
    var seconds, minutes, hours := epoch % 60, epoch / 60 % 60, epoch / 3600 % 24;
    var days := epoch / 86400 % 0x10000;
    var weekday := (days + 4) % 0x10000 % 7;
    var day, month, year := Calendar(days);
    var f := Fields(weekday, day, month, year, hours, minutes, seconds);
    ShownIsPrintable(f, epoch);
    ShownDenotes(f, epoch);
    text := ImfFixdate(f);
  }
}
