/**
 Date-time strings read back by the rules of the Gregorian calendar, which are stated here in closed form and
 not by the recursion that module DateTime counts days with.
 */
module Calendar {
  import opened DateTime

  /** The decimal number that a string of digits writes. */
  function Number(s: string): int {
    if s == [] then 0 else 10 * Number(s[..|s| - 1]) + (s[|s| - 1] as int - '0' as int)
  }

  predicate AllDigits(s: string) { forall i | 0 <= i < |s| :: '0' <= s[i] <= '9' }

  /** Days from the first of January of year 0, in closed form: every fourth year is a leap year, but every
      hundredth only when it is a four hundredth. */
  function GregorianDay(year: int, month: nat, day: nat): int
    requires 1 <= month <= 12
  {
    365 * year + (year + 3) / 4 - (year + 99) / 100 + (year + 399) / 400
    + [0, 31, 59, 90, 120, 151, 181, 212, 243, 273, 304, 334][month - 1]
    + (if month > 2 && year % 4 == 0 && (year % 100 != 0 || year % 400 == 0) then 1 else 0) + day - 1
  }

  /** The time a string of 19 characters writes: four digits of the year, then two of each smaller part. */
  predicate Writes(s: string, t: int) {
    && |s| == 19 && s[4] == s[7] == '-' && s[10] == ' ' && s[13] == s[16] == ':'
    && AllDigits(s[0..4]) && AllDigits(s[5..7]) && AllDigits(s[8..10])
    && AllDigits(s[11..13]) && AllDigits(s[14..16]) && AllDigits(s[17..19])
    && 1 <= Number(s[5..7]) <= 12 && 1 <= Number(s[8..10]) <= 31
    && 0 <= Number(s[11..13]) < 24 && 0 <= Number(s[14..16]) < 60 && 0 <= Number(s[17..19]) < 60
    && t == 86400 * GregorianDay(Number(s[0..4]), Number(s[5..7]), Number(s[8..10]))
            + 3600 * Number(s[11..13]) + 60 * Number(s[14..16]) + Number(s[17..19])
  }

  lemma MonthsInClosedForm(year: int, month: nat)
    requires 1 <= month <= 12
    ensures DaysBeforeMonth(year, month) ==
              [0, 31, 59, 90, 120, 151, 181, 212, 243, 273, 304, 334][month - 1] + if month > 2 && IsLeap(year) then 1 else 0
    decreases month
  {
    if month > 1 { MonthsInClosedForm(year, month - 1); }
  }

  lemma NumberOfTwo(n: nat)
    requires n < 100
    ensures Number(Two(n)) == n && AllDigits(Two(n))
  {
    var s := Two(n);
    assert s[..1] == [Digit(n / 10)] && s[..1][..0] == [];
    assert Number(s[..1]) == n / 10;
  }

  lemma NumberOfFour(n: nat)
    requires n < 10000
    ensures Number(Digits(n)) == n && AllDigits(Digits(n))
  {
    NumberOfTwo(n / 100);
    NumberOfTwo(n % 100);
    assert Digits(n) == Two(n / 100) + Two(n % 100);
    hide Digits, Two;
    NumberOfJoined(Two(n / 100), Two(n % 100));
  }

  lemma NumberOfJoined(s: string, t: string)
    requires |t| == 2
    ensures Number(s + t) == 100 * Number(s) + Number(t)
  {
    var x := s + t;
    var y := x[..|x| - 1];
    assert y == s + t[..1] && y[..|y| - 1] == s && y[|y| - 1] == t[0] && x[|x| - 1] == t[1];
    assert t[..1][..0] == [];
    assert Number(t[..1]) == t[0] as int - '0' as int;
    assert Number(t) == 10 * Number(t[..1]) + (t[1] as int - '0' as int);
  }

  lemma FormatPieces(c: Civil)
    requires IsCivil(c) && 0 <= c.year < 10000
    ensures var s := Format(c);
            && |s| == 19 && s[4] == s[7] == '-' && s[10] == ' ' && s[13] == s[16] == ':'
            && s[0..4] == Digits(c.year) && s[5..7] == Two(c.month) && s[8..10] == Two(c.day)
            && s[11..13] == Two(c.hour) && s[14..16] == Two(c.minute) && s[17..19] == Two(c.second)
  {
    assert |Digits(c.year)| == 4;
    hide Digits, Two;
  }

  lemma DaysInClosedForm(c: Civil)
    requires IsCivil(c) && c.year >= 0
    ensures DayNumber(c) == GregorianDay(c.year, c.month, c.day)
  {
    DaysBeforeYearIs(c.year);
    MonthsInClosedForm(c.year, c.month);
    hide DaysBeforeYear, DaysBeforeMonth, DaysInMonth;
  }

  lemma SecondsInClosedForm(c: Civil)
    requires IsCivil(c) && c.year >= 0
    ensures Seconds(c) == 86400 * GregorianDay(c.year, c.month, c.day) + 3600 * c.hour + 60 * c.minute + c.second
  {
    DaysInClosedForm(c);
    hide DayNumber, GregorianDay;
  }

  lemma FormatReadsBack(c: Civil, t: int)
    requires IsCivil(c) && 0 <= c.year < 10000
    requires t == 86400 * GregorianDay(c.year, c.month, c.day) + 3600 * c.hour + 60 * c.minute + c.second
    ensures Writes(Format(c), t)
  {
    NumberOfFour(c.year);
    NumberOfTwo(c.month);
    NumberOfTwo(c.day);
    NumberOfTwo(c.hour);
    NumberOfTwo(c.minute);
    NumberOfTwo(c.second);
    FormatPieces(c);
    hide Format, Digits, Two, Number, AllDigits, GregorianDay;
  }

  /** The string of a time with a four-digit year, read back by the rules of the calendar, is that time. */
  lemma {:induction false} TimesAreWrittenOut(t: int)
    requires FourDigitYear(t)
    ensures Writes(FormatTime(t), t)
  {
    var c := CivilOf(t);
    SecondsInClosedForm(c);
    hide Seconds, Format, Writes, GregorianDay;
    FormatReadsBack(c, t);
  }
}
