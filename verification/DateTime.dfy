/**
 Date-time strings of the form YYYY-MM-DD HH:MM:SS, in the Gregorian calendar carried back and on without end.

 Within the years 0 to 9999 their order as strings is the order of the times they stand for, so that sorting
 records by the string sorts them by time.  OrderHoldsExactly says for any span of time whether it is.
 */
module DateTime {
  import opened Rotation

  datatype Civil = Civil(year: int, month: nat, day: nat, hour: nat, minute: nat, second: nat)

  // ---------- the calendar ----------

  predicate IsLeap(year: int) { year % 4 == 0 && (year % 100 != 0 || year % 400 == 0) }

  function DaysInYear(year: int): nat { if IsLeap(year) then 366 else 365 }

  function DaysInMonth(year: int, month: nat): nat {
    if month == 2 then (if IsLeap(year) then 29 else 28)
    else if month == 4 || month == 6 || month == 9 || month == 11 then 30
    else 31
  }

  /** Days from the first of January of year 0. */
  function DaysBeforeYear(year: int): int
    decreases if year < 0 then -year else year
  {
    if year == 0 then 0
    else if year > 0 then DaysBeforeYear(year - 1) + DaysInYear(year - 1)
    else DaysBeforeYear(year + 1) - DaysInYear(year)
  }

  lemma NextYear(year: int)
    ensures DaysBeforeYear(year + 1) == DaysBeforeYear(year) + DaysInYear(year)
  {
  }

  function DaysBeforeMonth(year: int, month: nat): nat {
    if month <= 1 then 0 else DaysBeforeMonth(year, month - 1) + DaysInMonth(year, month - 1)
  }

  predicate IsCivil(c: Civil) {
    && 1 <= c.month <= 12 && 1 <= c.day <= DaysInMonth(c.year, c.month)
    && c.hour < 24 && c.minute < 60 && c.second < 60
  }

  function DayNumber(c: Civil): int
    requires IsCivil(c)
  {
    DaysBeforeYear(c.year) + DaysBeforeMonth(c.year, c.month) + c.day - 1
  }

  function TimeOfDay(c: Civil): nat { c.hour * 3600 + c.minute * 60 + c.second }

  /** Seconds from the start of year 0. */
  function Seconds(c: Civil): int
    requires IsCivil(c)
  {
    DayNumber(c) * 86400 + TimeOfDay(c)
  }

  lemma MonthsFillTheYear(year: int)
    ensures DaysBeforeMonth(year, 12) + DaysInMonth(year, 12) == DaysInYear(year)
  {
    assert DaysBeforeMonth(year, 2) == 31 && DaysBeforeMonth(year, 4) == 31 + DaysInMonth(year, 2) + 31;
    assert DaysBeforeMonth(year, 6) == DaysBeforeMonth(year, 4) + 61;
    assert DaysBeforeMonth(year, 8) == DaysBeforeMonth(year, 6) + 61;
    assert DaysBeforeMonth(year, 10) == DaysBeforeMonth(year, 8) + 61;
    assert DaysBeforeMonth(year, 12) == DaysBeforeMonth(year, 10) + 61;
  }

  lemma {:induction false} YearsGrow(a: int, b: int)
    requires a < b
    ensures DaysBeforeYear(a) + DaysInYear(a) <= DaysBeforeYear(b)
    decreases b - a
  {
    NextYear(b - 1);
    hide DaysInYear, IsLeap, DaysBeforeYear;
    if a + 1 < b { YearsGrow(a, b - 1); }
  }

  lemma {:induction false} MonthsGrow(year: int, a: nat, b: nat)
    requires 1 <= a < b
    ensures DaysBeforeMonth(year, a) + DaysInMonth(year, a) <= DaysBeforeMonth(year, b)
  {
    if a + 1 < b { MonthsGrow(year, a, b - 1); }
  }

  lemma DayInYear(c: Civil)
    requires IsCivil(c)
    ensures DaysBeforeMonth(c.year, c.month) + c.day <= DaysInYear(c.year)
  {
    MonthsFillTheYear(c.year);
    if c.month < 12 { MonthsGrow(c.year, c.month, 12); }
  }

  /** The order of the calendar. */
  predicate DayBefore(a: Civil, b: Civil) {
    a.year < b.year || (a.year == b.year && (a.month < b.month || (a.month == b.month && a.day < b.day)))
  }

  predicate SameDay(a: Civil, b: Civil) { a.year == b.year && a.month == b.month && a.day == b.day }

  predicate Before(a: Civil, b: Civil) {
    DayBefore(a, b) || (SameDay(a, b) && TimeOfDay(a) < TimeOfDay(b))
  }

  lemma LaterDay(a: Civil, b: Civil)
    requires IsCivil(a) && IsCivil(b) && DayBefore(a, b)
    ensures DayNumber(a) < DayNumber(b)
  {
    if a.year < b.year {
      YearsGrow(a.year, b.year);
      DayInYear(a);
    } else if a.month < b.month {
      MonthsGrow(a.year, a.month, b.month);
    }
  }

  lemma LaterTime(a: Civil, b: Civil)
    requires IsCivil(a) && IsCivil(b) && Before(a, b)
    ensures Seconds(a) < Seconds(b)
  {
    assert TimeOfDay(a) < 86400;
    hide DayNumber, TimeOfDay;
    if DayBefore(a, b) { LaterDay(a, b); } else { assert DayNumber(a) == DayNumber(b) by { SameDayNumber(a, b); } }
  }

  lemma SameDayNumber(a: Civil, b: Civil)
    requires IsCivil(a) && IsCivil(b) && SameDay(a, b)
    ensures DayNumber(a) == DayNumber(b)
  {
  }

  lemma TimeOfDayIsUnique(a: Civil, b: Civil)
    requires IsCivil(a) && IsCivil(b) && TimeOfDay(a) == TimeOfDay(b)
    ensures a.hour == b.hour && a.minute == b.minute && a.second == b.second
  {
  }

  lemma Trichotomy(a: Civil, b: Civil)
    requires IsCivil(a) && IsCivil(b) && !Before(a, b) && a != b
    ensures Before(b, a)
  {
    if SameDay(a, b) && TimeOfDay(a) == TimeOfDay(b) { TimeOfDayIsUnique(a, b); }
  }

  /** The calendar's order is the order of seconds. */
  lemma {:induction false} CalendarIsTime(a: Civil, b: Civil)
    requires IsCivil(a) && IsCivil(b)
    ensures Before(a, b) <==> Seconds(a) < Seconds(b)
    ensures a == b <==> Seconds(a) == Seconds(b)
  {
    hide Before, Seconds, IsCivil;
    if Before(a, b) {
      LaterTime(a, b);
    } else if a != b {
      Trichotomy(a, b);
      LaterTime(b, a);
    }
  }

  // ---------- from seconds to the calendar ----------

  function YearAndDay(day: int, year: int): (r: (int, nat))
    ensures r.1 < DaysInYear(r.0) && DaysBeforeYear(r.0) + r.1 == DaysBeforeYear(year) + day
    decreases day < 0, if day < 0 then -day else day
  {
    NextYear(year - 1);
    NextYear(year);
    if day < 0 then YearAndDay(day + DaysInYear(year - 1), year - 1)
    else if day < DaysInYear(year) then (year, day)
    else YearAndDay(day - DaysInYear(year), year + 1)
  }

  function MonthAndDay(year: int, day: nat, month: nat): (r: (nat, nat))
    requires 1 <= month <= 12 && DaysBeforeMonth(year, month) + day < DaysInYear(year)
    ensures month <= r.0 <= 12 && r.1 < DaysInMonth(year, r.0)
    ensures DaysBeforeMonth(year, r.0) + r.1 == DaysBeforeMonth(year, month) + day
    decreases 12 - month
  {
    if day < DaysInMonth(year, month) then (month, day)
    else
      MonthsFillTheYear(year);
      MonthAndDay(year, day - DaysInMonth(year, month), month + 1)
  }

  function CivilOf(seconds: int): (c: Civil)
    ensures IsCivil(c) && Seconds(c) == seconds
  {
    var (year, day) := YearAndDay(seconds / 86400, 0);
    var (month, d) := MonthAndDay(year, day, 1);
    var rest := seconds % 86400;
    Civil(year, month, d + 1, rest / 3600, rest % 3600 / 60, rest % 60)
  }

  // ---------- strings ----------

  function Digit(n: nat): char
    requires n < 10
  {
    '0' + n as char
  }

  function Two(n: nat): (s: string)
    requires n < 100
    ensures |s| == 2
  {
    [Digit(n / 10), Digit(n % 10)]
  }

  /** At least four digits. */
  function Digits(n: nat): (s: string)
    ensures |s| >= 4 && (|s| == 4 <==> n < 10000)
  {
    if n < 10000 then Two(n / 100) + Two(n % 100) else Digits(n / 10) + [Digit(n % 10)]
  }

  /** A year before the year 0 has a sign. */
  function Year(n: int): string { if n < 0 then "-" + Digits(-n) else Digits(n) }

  function Format(c: Civil): string
    requires IsCivil(c)
  {
    Year(c.year) + ("-" + (Two(c.month) + ("-" + (Two(c.day) + (" " +
      (Two(c.hour) + (":" + (Two(c.minute) + (":" + Two(c.second))))))))))
  }

  /** The order of strings, character by character. */
  predicate Less(a: string, b: string) {
    b != [] && (a == [] || a[0] < b[0] || (a[0] == b[0] && Less(a[1..], b[1..])))
  }

  lemma LessConcat(a: string, x: string, b: string, y: string)
    requires |a| == |b|
    ensures Less(a + x, b + y) <==> Less(a, b) || (a == b && Less(x, y))
  {
    if a == [] {
      assert a + x == x && b + y == y;
    } else {
      assert (a + x)[1..] == a[1..] + x && (b + y)[1..] == b[1..] + y;
      LessConcat(a[1..], x, b[1..], y);
      assert a == [a[0]] + a[1..] && b == [b[0]] + b[1..];
    }
  }

  lemma DigitOrder(m: nat, n: nat)
    requires m < 10 && n < 10
    ensures Digit(m) < Digit(n) <==> m < n
    ensures Digit(m) == Digit(n) <==> m == n
  {
  }

  lemma PairOrder(p: char, q: char, r: char, s: char)
    ensures Less([p, q], [r, s]) <==> p < r || (p == r && q < s)
  {
    assert [p, q][1..] == [q] && [r, s][1..] == [s] && [q][1..] == [] && [s][1..] == [];
    NotLess("");
  }

  lemma TwoOrder(m: nat, n: nat)
    requires m < 100 && n < 100
    ensures Less(Two(m), Two(n)) <==> m < n
    ensures Two(m) == Two(n) <==> m == n
  {
    DigitOrder(m / 10, n / 10);
    DigitOrder(m % 10, n % 10);
    PairOrder(Digit(m / 10), Digit(m % 10), Digit(n / 10), Digit(n % 10));
    hide Less, Digit;
    assert Two(m)[0] == Digit(m / 10) && Two(m)[1] == Digit(m % 10);
    assert Two(n)[0] == Digit(n / 10) && Two(n)[1] == Digit(n % 10);
  }

  lemma FourOrder(m: nat, n: nat)
    requires m < 10000 && n < 10000
    ensures Less(Digits(m), Digits(n)) <==> m < n
    ensures Digits(m) == Digits(n) <==> m == n
  {
    TwoOrder(m / 100, n / 100);
    TwoOrder(m % 100, n % 100);
    LessConcat(Two(m / 100), Two(m % 100), Two(n / 100), Two(n % 100));
    var a, b := Digits(m), Digits(n);
    assert a[..2] == Two(m / 100) && a[2..] == Two(m % 100) && b[..2] == Two(n / 100) && b[2..] == Two(n % 100);
  }

  lemma OneOrder(p: char, q: char)
    ensures Less([p], [q]) <==> p < q
  {
    assert [p][1..] == [] && [q][1..] == [];
  }

  lemma LongDigits(n: nat)
    requires n >= 10000
    ensures Digits(n) == Digits(n / 10) + [Digit(n % 10)]
  {
  }

  /** Numbers of the same length are ordered as their digits. */
  lemma {:induction false} DigitsOrder(m: nat, n: nat)
    requires |Digits(m)| == |Digits(n)|
    ensures Less(Digits(m), Digits(n)) <==> m < n
    ensures Digits(m) == Digits(n) <==> m == n
  {
    if m < 10000 {
      FourOrder(m, n);
    } else {
      LongDigits(m);
      LongDigits(n);
      var a, b, x, y := Digits(m / 10), Digits(n / 10), Digit(m % 10), Digit(n % 10);
      DigitsOrder(m / 10, n / 10);
      DigitOrder(m % 10, n % 10);
      OneOrder(x, y);
      hide Digits, Digit, Less;
      LessConcat(a, [x], b, [y]);
      assert Digits(m)[..|a|] == a && Digits(m)[|a|] == x && Digits(n)[..|b|] == b && Digits(n)[|b|] == y;
    }
  }

  /** Longer numbers are larger. */
  lemma {:induction false} DigitsGrow(m: nat, n: nat)
    requires m <= n
    ensures |Digits(m)| <= |Digits(n)|
  {
    if m >= 10000 { DigitsGrow(m / 10, n / 10); }
  }

  /** One field and the separator behind it. */
  lemma FieldOrder(m: nat, n: nat, sep: string, x: string, y: string)
    requires m < 100 && n < 100
    ensures Less(Two(m) + (sep + x), Two(n) + (sep + y)) <==> m < n || (m == n && Less(x, y))
  {
    TwoOrder(m, n);
    hide Two;
    LessConcat(Two(m), sep + x, Two(n), sep + y);
    LessConcat(sep, x, sep, y);
    NotLess(sep);
  }

  lemma NotLess(s: string)
    ensures !Less(s, s)
  {
  }

  function Clock(c: Civil): string
    requires IsCivil(c)
  {
    Two(c.hour) + (":" + (Two(c.minute) + (":" + Two(c.second))))
  }

  lemma ClockOrder(a: Civil, b: Civil)
    requires IsCivil(a) && IsCivil(b)
    ensures Less(Clock(a), Clock(b)) <==> TimeOfDay(a) < TimeOfDay(b)
  {
    FieldOrder(a.hour, b.hour, ":", Two(a.minute) + (":" + Two(a.second)), Two(b.minute) + (":" + Two(b.second)));
    FieldOrder(a.minute, b.minute, ":", Two(a.second), Two(b.second));
    TwoOrder(a.second, b.second);
    hide Two, Less;
  }

  /** The string behind the year. */
  function InYear(c: Civil): string
    requires IsCivil(c)
  {
    Two(c.month) + ("-" + (Two(c.day) + (" " + Clock(c))))
  }

  lemma FormatIs(c: Civil)
    requires IsCivil(c)
    ensures Format(c) == Year(c.year) + ("-" + InYear(c))
  {
    hide Two, Year;
  }

  lemma InYearOrder(a: Civil, b: Civil)
    requires IsCivil(a) && IsCivil(b) && a.year == b.year
    ensures Less(InYear(a), InYear(b)) <==> Before(a, b)
  {
    var dayA, dayB := Two(a.day) + (" " + Clock(a)), Two(b.day) + (" " + Clock(b));
    hide Two, Clock, Less, TimeOfDay;
    FieldOrder(a.month, b.month, "-", dayA, dayB);
    FieldOrder(a.day, b.day, " ", Clock(a), Clock(b));
    ClockOrder(a, b);
  }

  /** Strings with years of the same length are ordered by these, and by the rest within one year. */
  lemma FormatLess(a: Civil, b: Civil)
    requires IsCivil(a) && IsCivil(b) && |Year(a.year)| == |Year(b.year)|
    ensures Less(Format(a), Format(b)) <==>
              Less(Year(a.year), Year(b.year)) || (Year(a.year) == Year(b.year) && Less(InYear(a), InYear(b)))
  {
    FormatIs(a);
    FormatIs(b);
    hide Year, InYear, Format, Less;
    LessConcat(Year(a.year), "-" + InYear(a), Year(b.year), "-" + InYear(b));
    LessConcat("-", InYear(a), "-", InYear(b));
    NotLess("-");
  }

  /** In one year strings are in the calendar's order, whatever year it is. */
  lemma SameYearOrder(a: Civil, b: Civil)
    requires IsCivil(a) && IsCivil(b) && a.year == b.year
    ensures Less(Format(a), Format(b)) <==> Before(a, b)
  {
    FormatLess(a, b);
    InYearOrder(a, b);
    NotLess(Year(a.year));
    hide Less, Format, InYear, Before, Year;
  }

  /** From the year 0 on strings of years with the same number of digits are in the calendar's order. */
  lemma FormatOrder(a: Civil, b: Civil)
    requires IsCivil(a) && IsCivil(b) && a.year >= 0 && b.year >= 0 && |Digits(a.year)| == |Digits(b.year)|
    ensures Less(Format(a), Format(b)) <==> Before(a, b)
  {
    if a.year == b.year {
      SameYearOrder(a, b);
    } else {
      FormatLess(a, b);
      DigitsOrder(a.year, b.year);
      assert Before(a, b) <==> a.year < b.year;
      hide Less, Format, Digits, InYear;
    }
  }

  // ---------- times ----------

  function FormatTime(seconds: int): string { Format(CivilOf(seconds)) }

  function YearOf(seconds: int): int { CivilOf(seconds).year }

  /** The times of the years 0 to 9999. */
  predicate FourDigitYear(seconds: int) { 0 <= YearOf(seconds) < 10000 }

  /** For these, one string is less than another exactly when its time is earlier. */
  lemma StringOrderIsTimeOrder(s: int, t: int)
    requires FourDigitYear(s) && FourDigitYear(t)
    ensures Less(FormatTime(s), FormatTime(t)) <==> s < t
  {
    hide CivilOf, Format, Less, Digits;
    TimeOrder(s, t);
    FormatOrder(CivilOf(s), CivilOf(t));
  }

  lemma TimeOrder(s: int, t: int)
    ensures Before(CivilOf(s), CivilOf(t)) <==> s < t
    ensures s <= t ==> YearOf(s) <= YearOf(t)
  {
    assert Seconds(CivilOf(s)) == s && Seconds(CivilOf(t)) == t;
    hide CivilOf, Seconds, IsCivil;
    CalendarIsTime(CivilOf(s), CivilOf(t));
    CalendarIsTime(CivilOf(t), CivilOf(s));
  }

  // ---------- where the strings turn back ----------

  function NewYear(year: int): (c: Civil)
    ensures IsCivil(c)
  {
    Civil(year, 1, 1, 0, 0, 0)
  }

  function NewYearsEve(year: int): (c: Civil)
    ensures IsCivil(c)
  {
    Civil(year, 12, 31, 23, 59, 59)
  }

  lemma YearEnds(year: int)
    ensures Seconds(NewYear(year + 1)) == Seconds(NewYearsEve(year)) + 1
  {
    MonthsFillTheYear(year);
    NextYear(year);
    hide DaysInYear, DaysBeforeYear;
    assert DaysInMonth(year, 12) == 31;
  }

  /** A time is written as the date it is. */
  lemma CivilIs(c: Civil)
    requires IsCivil(c)
    ensures CivilOf(Seconds(c)) == c && FormatTime(Seconds(c)) == Format(c)
  {
    CalendarIsTime(CivilOf(Seconds(c)), c);
    hide CivilOf, Format, Seconds;
  }

  /** A time lies before a year exactly when it comes before the first second of it. */
  lemma BeforeTheYear(t: int, year: int)
    ensures YearOf(t) < year <==> t < Seconds(NewYear(year))
  {
    CalendarIsTime(CivilOf(t), NewYear(year));
    assert IsCivil(CivilOf(t)) && Seconds(CivilOf(t)) == t;
    hide CivilOf, Seconds;
  }

  /** Where a number gets longer, it goes from nines to a one and zeros. */
  lemma {:induction false} LongerStarts(n: nat)
    requires n > 0 && |Digits(n - 1)| < |Digits(n)|
    ensures n >= 10000 && Digits(n - 1)[0] == '9' && Digits(n)[0] == '1'
  {
    if n < 10000 { ShortDigits(n); }
    if n == 10000 {
      FirstLong();
    } else {
      LongDigits(n);
      LongDigits(n - 1);
      var a, b := n / 10, (n - 1) / 10;
      assert b == a || b == a - 1;
      hide Digits, Digit;
      LongerStarts(a);
    }
  }

  lemma ShortDigits(n: nat)
    requires 0 < n < 10000
    ensures |Digits(n - 1)| == |Digits(n)|
  {
  }

  lemma FirstLong()
    ensures Digits(9999)[0] == '9' && Digits(10000)[0] == '1'
  {
    LongDigits(10000);
    assert Digits(1000)[0] == '1';
  }

  predicate TurnsBack(year: int) { !Less(Format(NewYearsEve(year - 1)), Format(NewYear(year))) }

  lemma FirstLess(a: string, b: string)
    requires a != [] && b != [] && a[0] < b[0]
    ensures Less(a, b) && !Less(b, a)
  {
  }

  lemma StartsWith(c: Civil)
    requires IsCivil(c) && c.year >= 0
    ensures Format(c) != [] && Format(c)[0] == Digits(c.year)[0]
  {
  }

  /** The strings turn back where a year gets longer: from nines to a one. */
  lemma {:induction false} LongerTurnsBack(year: int)
    requires year > 0 && |Digits(year - 1)| < |Digits(year)|
    ensures TurnsBack(year) && Less(Format(NewYear(year)), Format(NewYearsEve(year - 1)))
  {
    LongerStarts(year);
    StartsWith(NewYear(year));
    StartsWith(NewYearsEve(year - 1));
    hide Format, Digits;
    FirstLess(Format(NewYear(year)), Format(NewYearsEve(year - 1)));
  }

  lemma SignedLess(m: nat, n: nat)
    requires m > 0 && n > 0 && |Digits(m)| == |Digits(n)|
    ensures Less(Year(0 - m), Year(0 - n)) <==> m < n
    ensures |Year(0 - m)| == |Year(0 - n)| && (Year(0 - m) == Year(0 - n) <==> m == n)
  {
    DigitsOrder(m, n);
    hide Digits, Less;
    LessConcat("-", Digits(m), "-", Digits(n));
    NotLess("-");
    assert Year(0 - m)[1..] == Digits(m) && Year(0 - n)[1..] == Digits(n);
  }

  /** Years before the year 0 of the same length are in the wrong order. */
  lemma {:induction false} NegativeTurnsBack(year: int)
    requires year < 0 && |Digits(-year)| == |Digits(1 - year)|
    ensures TurnsBack(year) && Less(Format(NewYear(year)), Format(NewYearsEve(year - 1)))
  {
    SignedLess(-year, 1 - year);
    SignedLess(1 - year, -year);
    FormatLess(NewYearsEve(year - 1), NewYear(year));
    FormatLess(NewYear(year), NewYearsEve(year - 1));
    hide Less, Format, Digits, Year, InYear;
  }

  lemma JoinThree(a: string, b: string, c: string)
    ensures (a + b) + c == a + (b + c)
  {
  }

  lemma SignedIs(c: Civil)
    requires IsCivil(c) && c.year < 0
    ensures Format(c) == "-" + (Digits(-c.year) + ("-" + InYear(c)))
  {
    FormatIs(c);
    assert Year(c.year) == "-" + Digits(-c.year);
    hide Format, Digits, InYear, Year;
    JoinThree("-", Digits(-c.year), "-" + InYear(c));
  }

  /** Before the year 0 a year whose number gets shorter comes behind the one before it. */
  lemma {:induction false} ShorterIsLater(a: Civil, b: Civil)
    requires IsCivil(a) && IsCivil(b) && b.year == a.year + 1 < 0 && |Digits(-b.year)| < |Digits(-a.year)|
    ensures Less(Format(a), Format(b))
  {
    LongerStarts(-a.year);
    NotLess("-");
    assert |Digits(-a.year)| > 0 && |Digits(-b.year)| > 0;
    hide *;
    SignedIs(a);
    SignedIs(b);
    var x, y := Digits(-a.year) + ("-" + InYear(a)), Digits(-b.year) + ("-" + InYear(b));
    assert x[0] == Digits(-a.year)[0] && y[0] == Digits(-b.year)[0];
    FirstLess(x, y);
    LessConcat("-", x, "-", y);
  }

  lemma SignIsFirst(a: Civil, b: Civil)
    requires IsCivil(a) && IsCivil(b) && a.year < 0 <= b.year
    ensures Less(Format(a), Format(b))
  {
    FormatIs(a);
    StartsWith(b);
    DigitsStart(b.year);
    assert Format(a)[0] == '-';
    hide Format;
    FirstLess(Format(a), Format(b));
  }

  lemma {:induction false} DigitsStart(n: nat)
    ensures '0' <= Digits(n)[0]
  {
    if n >= 10000 { DigitsStart(n / 10); }
  }

  // ---------- exactly when the order holds ----------

  /** All strings in a span of time are in the order of the times. */
  ghost predicate OrderHolds(first: int, last: int) {
    forall s: int, t: int | first <= s < t <= last :: Less(FormatTime(s), FormatTime(t))
  }

  function Length(year: int): nat { if year < 0 then |Digits(-year)| else |Digits(year)| }

  /** The years of a span whose strings are in order: one year; years from -1 on with equally many digits; or two
      years before the year 0 of which the later has fewer digits. */
  predicate YearsInOrder(first: int, last: int) {
    || first == last
    || (-1 <= first && Length(first) == Length(last))
    || (last == first + 1 < 0 && Length(last) < Length(first))
  }

  lemma OrderBreaksAt(first: int, last: int, year: int)
    requires YearOf(first) < year <= YearOf(last) && TurnsBack(year)
    ensures !OrderHolds(first, last)
  {
    BeforeTheYear(last, year);
    BeforeTheYear(first, year);
    YearEnds(year - 1);
    CivilIs(NewYearsEve(year - 1));
    CivilIs(NewYear(year));
    hide FormatTime, Seconds, Format, YearOf;
    assert !Less(FormatTime(Seconds(NewYearsEve(year - 1))), FormatTime(Seconds(NewYear(year))));
  }

  /** Between numbers of different lengths there is one that is longer than the one before it. */
  lemma {:induction false} LongerBetween(m: nat, n: nat) returns (k: nat)
    requires m <= n && |Digits(m)| < |Digits(n)|
    ensures m < k <= n && |Digits(k - 1)| < |Digits(k)|
    decreases n - m
  {
    DigitsGrow(n - 1, n);
    hide Digits;
    if |Digits(n - 1)| < |Digits(n)| { k := n; } else { k := LongerBetween(m, n - 1); }
  }

  /** A span whose years are not in order holds a year at which the strings turn back. */
  lemma {:induction false} SomeYearTurnsBack(first: int, last: int) returns (year: int)
    requires first <= last && !YearsInOrder(first, last)
    ensures first < year <= last && TurnsBack(year)
  {
    hide TurnsBack;
    if first >= -1 { year := LateTurn(first, last); } else { year := EarlyTurn(first, last); }
  }

  lemma {:induction false} LateTurn(first: int, last: int) returns (year: int)
    requires -1 <= first < last && Length(first) != Length(last)
    ensures first < year <= last && TurnsBack(year)
  {
    var low := if first < 0 then 0 else first;
    DigitsGrow(low, last);
    ShortLengths();
    assert Length(low) == Length(first) && Length(last) == |Digits(last)| && Length(low) == |Digits(low)|;
    hide Digits, TurnsBack, Length;
    year := LongerBetween(low, last);
    LongerTurnsBack(year);
  }

  lemma {:induction false} EarlyTurn(first: int, last: int) returns (year: int)
    requires first < -1 && first < last && !(last == first + 1 < 0 && Length(last) < Length(first))
    ensures first < year <= last && TurnsBack(year)
  {
    var n := -first;
    DigitsGrow(n - 1, n);
    assert last == first + 1 ==> Length(last) == |Digits(n - 1)| && Length(first) == |Digits(n)|;
    hide Digits, TurnsBack, Length;
    if |Digits(n - 1)| == |Digits(n)| {
      year := first + 1;
    } else {
      SecondNegative(n);
      year := first + 2;
    }
    NegativeTurnsBack(year);
  }

  lemma ShortLengths()
    ensures Length(-1) == Length(0) == 4
  {
  }

  /** Two numbers below a longer one are of the same length. */
  lemma SecondNegative(n: nat)
    requires n > 1 && |Digits(n - 1)| < |Digits(n)|
    ensures n > 2 && |Digits(n - 2)| == |Digits(n - 1)|
  {
    hide Digits;
    LongerStarts(n);
    DigitsGrow(n - 2, n - 1);
    if |Digits(n - 2)| < |Digits(n - 1)| { LongerStarts(n - 1); }
  }

  lemma {:induction false} OrderedInSpan(first: int, last: int, s: int, t: int)
    requires YearsInOrder(YearOf(first), YearOf(last)) && first <= s < t <= last
    ensures Less(FormatTime(s), FormatTime(t))
  {
    TimeOrder(first, s);
    TimeOrder(s, t);
    TimeOrder(t, last);
    var a, b := CivilOf(s), CivilOf(t);
    hide CivilOf, Format, Less, Digits, Before;
    if a.year == b.year {
      SameYearOrder(a, b);
    } else if a.year < 0 <= b.year {
      SignIsFirst(a, b);
    } else if a.year >= 0 {
      LengthsGrow(YearOf(first), a.year, b.year, YearOf(last));
      FormatOrder(a, b);
    } else {
      ShorterIsLater(a, b);
    }
  }

  lemma LengthsGrow(first: int, a: int, b: int, last: int)
    requires -1 <= first <= a <= b <= last && a >= 0 && Length(first) == Length(last)
    ensures |Digits(a)| == |Digits(b)|
  {
    ShortLengths();
    DigitsGrow(if first < 0 then 0 else first, a);
    DigitsGrow(a, b);
    DigitsGrow(b, last);
    hide Digits;
  }

  /** The strings of all times of a span are in the order of the times exactly when its years are in order. */
  lemma {:induction false} OrderHoldsExactly(first: int, last: int)
    requires first <= last
    ensures OrderHolds(first, last) <==> YearsInOrder(YearOf(first), YearOf(last))
  {
    TimeOrder(first, last);
    hide YearsInOrder, YearOf, FormatTime, Less, TurnsBack;
    if YearsInOrder(YearOf(first), YearOf(last)) {
      forall s: int, t: int | first <= s < t <= last ensures Less(FormatTime(s), FormatTime(t)) {
        OrderedInSpan(first, last, s, t);
      }
    } else {
      hide OrderHolds;
      var year := SomeYearTurnsBack(YearOf(first), YearOf(last));
      OrderBreaksAt(first, last, year);
    }
  }

  lemma YearTurns(year: int)
    ensures var t := Seconds(NewYear(year));
            && t == Seconds(NewYearsEve(year - 1)) + 1
            && FormatTime(t) == Format(NewYear(year)) && FormatTime(t - 1) == Format(NewYearsEve(year - 1))
            && YearOf(t - 1) < year <= YearOf(t)
  {
    YearEnds(year - 1);
    CivilIs(NewYear(year));
    CivilIs(NewYearsEve(year - 1));
    BeforeTheYear(Seconds(NewYear(year)) - 1, year);
    BeforeTheYear(Seconds(NewYear(year)), year);
    hide Seconds, Format, FormatTime, CivilOf, YearOf;
  }

  // ---------- counting days ----------

  lemma DivUp(n: nat, d: nat)
    requires d > 0
    ensures (n + d) / d == (n + d - 1) / d + if n % d == 0 then 1 else 0
  {
    Ceiling(n, d);
    Quotient(n + d, n / d + 1, n % d, d) by {
      Parts(n, d);
      Distribute(n / d, 1, d);
    }
  }

  lemma LeapNest(year: nat)
    ensures (year % 400 == 0 ==> year % 100 == 0) && (year % 100 == 0 ==> year % 4 == 0)
  {
    Parts(year, 400);
    Parts(year, 100);
    if year % 400 == 0 { Quotient(year, 4 * (year / 400), 0, 100); }
    if year % 100 == 0 { Quotient(year, 25 * (year / 100), 0, 4); }
  }

  lemma {:induction false} DaysBeforeYearIs(year: nat)
    ensures DaysBeforeYear(year) == 365 * year + (year + 3) / 4 - (year + 99) / 100 + (year + 399) / 400
  {
    if year > 0 {
      DivUp(year - 1, 4);
      DivUp(year - 1, 100);
      DivUp(year - 1, 400);
      LeapNest(year - 1);
      DaysBeforeYearIs(year - 1);
    }
  }

  lemma SecondsOfNewYear(year: nat)
    ensures Seconds(NewYear(year)) == (365 * year + (year + 3) / 4 - (year + 99) / 100 + (year + 399) / 400) * 86400
  {
    DaysBeforeYearIs(year);
  }

  /** Where the strings turn back at the start of a year, they do so at this second. */
  lemma TurnAt(year: int, t: int)
    requires Less(Format(NewYear(year)), Format(NewYearsEve(year - 1))) && t == Seconds(NewYear(year))
    ensures Less(FormatTime(t), FormatTime(t - 1)) && YearOf(t - 1) < year <= YearOf(t)
  {
    hide Seconds, Format, FormatTime, YearOf;
    YearTurns(year);
  }

  /** The first second of a longer year. */
  lemma TurnAtLonger(year: nat, t: int)
    requires year > 0 && |Digits(year - 1)| < |Digits(year)|
    requires t == (365 * year + (year + 3) / 4 - (year + 99) / 100 + (year + 399) / 400) * 86400
    ensures Less(FormatTime(t), FormatTime(t - 1)) && YearOf(t - 1) < year <= YearOf(t)
  {
    LongerTurnsBack(year);
    SecondsOfNewYear(year);
    hide Digits, Format, FormatTime, YearOf, Less;
    TurnAt(year, t);
  }

  /** The first second of the year 10000. */
  lemma TurnAtTenThousand(t: int)
    requires t == (365 * 10000 + 10003 / 4 - 10099 / 100 + 10399 / 400) * 86400
    ensures Less(FormatTime(t), FormatTime(t - 1)) && YearOf(t - 1) < 10000 <= YearOf(t)
  {
    var year := 10000;
    assert |Digits(year - 1)| < |Digits(year)|;
    hide *;
    TurnAtLonger(year, t);
  }

  lemma YearBeforeZero(year: int)
    requires year + 1 == 0
    ensures Seconds(NewYear(year)) == -365 * 86400 && |Digits(-year)| == |Digits(1 - year)|
  {
    NextYear(year);
    assert DaysBeforeYear(year + 1) == 0;
    assert DaysInYear(year) == 365;
    hide DaysBeforeYear;
  }

  /** The first second of the year -1. */
  lemma TurnAtMinusOne(t: int)
    requires t == -365 * 86400
    ensures Less(FormatTime(t), FormatTime(t - 1)) && YearOf(t - 1) < -1 <= YearOf(t)
  {
    hide *;
    var year := -1;
    YearBeforeZero(year);
    NegativeTurnsBack(year);
    TurnAt(year, t);
  }
}
