/** The proleptic Gregorian calendar as ECMA-262 computes it (section 21.4.1), with astronomical years:
    year 0 is 1 BC. Times are milliseconds since 1970-01-01 UTC. */
module Calendar {
  import opened Bytes

  const MS_PER_DAY := 86400000
  const MAX_TIME := 8640000000000000

  predicate Multiple(y: int, n: int)
    requires n > 0
  {
    y % n == 0
  }

  /** The floored quotient. */
  function Quotient(x: int, n: int): int
    requires n > 0
  {
    x / n
  }

  predicate Leap(y: int)
  {
    Multiple(y, 4) && (!Multiple(y, 100) || Multiple(y, 400))
  }

  /** Days from 1970-01-01 to January 1 of `y`. */
  function DayFromYear(y: int): int
  {
    365 * (y - 1970) + Quotient(y - 1969, 4) - Quotient(y - 1901, 100) + Quotient(y - 1601, 400)
  }

  /** The closed form counts the leap years: it starts at 0 and grows by the length of each year. */
  lemma YearLength(y: int)
    ensures DayFromYear(1970) == 0
    ensures DayFromYear(y + 1) - DayFromYear(y) == if Leap(y) then 366 else 365
  {
    hide Multiple, Quotient;
    Floors(y);
    Multiples(y);
    Epoch();
  }

  lemma Epoch()
    ensures Quotient(1, 4) == 0 && Quotient(69, 100) == 0 && Quotient(369, 400) == 0
  {
  }

  /** A floored quotient steps exactly where its argument reaches a multiple. */
  lemma Floors(y: int)
    ensures Quotient(y + 1 - 1969, 4) - Quotient(y - 1969, 4) == if Multiple(y, 4) then 1 else 0
    ensures Quotient(y + 1 - 1901, 100) - Quotient(y - 1901, 100) == if Multiple(y, 100) then 1 else 0
    ensures Quotient(y + 1 - 1601, 400) - Quotient(y - 1601, 400) == if Multiple(y, 400) then 1 else 0
  {
    assert y == 4 * (y / 4) + y % 4;
    assert y == 100 * (y / 100) + y % 100;
    assert y == 400 * (y / 400) + y % 400;
  }

  lemma Multiples(y: int)
    ensures Multiple(y, 400) ==> Multiple(y, 100)
    ensures Multiple(y, 100) ==> Multiple(y, 4)
  {
    if Multiple(y, 400) { Of400(y); }
    if Multiple(y, 100) { Of100(y); }
  }

  lemma Of400(y: int)
    requires y % 400 == 0
    ensures Multiple(y, 100)
  {
    assert y == 100 * (4 * (y / 400));
  }

  lemma Of100(y: int)
    requires y % 100 == 0
    ensures Multiple(y, 4)
  {
    assert y == 4 * (25 * (y / 100));
  }

  /** 400 years are 146097 days. */
  lemma FourCenturies(y: int)
    ensures DayFromYear(y + 400) == DayFromYear(y) + 146097 && Leap(y + 400) == Leap(y)
  {
    hide Multiple, Quotient;
    Shift4(y - 1969);
    Shift4(y);
    Shift100(y - 1901);
    Shift100(y);
    Shift400(y - 1601);
    Shift400(y);
    assert y + 400 - 1969 == (y - 1969) + 400 && y + 400 - 1901 == (y - 1901) + 400 && y + 400 - 1601 == (y - 1601) + 400;
  }

  lemma Shift4(x: int)
    ensures Quotient(x + 400, 4) == Quotient(x, 4) + 100 && Multiple(x + 400, 4) == Multiple(x, 4)
  {
  }

  lemma Shift100(x: int)
    ensures Quotient(x + 400, 100) == Quotient(x, 100) + 4 && Multiple(x + 400, 100) == Multiple(x, 100)
  {
  }

  lemma Shift400(x: int)
    ensures Quotient(x + 400, 400) == Quotient(x, 400) + 1 && Multiple(x + 400, 400) == Multiple(x, 400)
  {
  }

  /** Days of the year before the first of month `m` (0 to 11). */
  function DayOfMonthStart(m: int, leap: bool): int
    requires 0 <= m <= 12
  {
    var l := if leap then 1 else 0;
    match m
    case 0 => 0 case 1 => 31 case 2 => 59 + l case 3 => 90 + l case 4 => 120 + l case 5 => 151 + l
    case 6 => 181 + l case 7 => 212 + l case 8 => 243 + l case 9 => 273 + l case 10 => 304 + l
    case 11 => 334 + l case _ => 365 + l
  }

  /** MakeDay of section 21.4.1.28: months outside 0 to 11 carry into the year. */
  function MakeDay(y: int, month: int, date: int): int
  {
    var ym := y + month / 12;
    DayFromYear(ym) + DayOfMonthStart(month % 12, Leap(ym)) + date - 1
  }

  function MakeTime(h: int, mi: int, s: int, ms: int): int
  {
    ((h * 60 + mi) * 60 + s) * 1000 + ms
  }

  /** The instant of a date and time of day in year `y`; `month` counts from 0. */
  function Instant(y: int, month: int, date: int, h: int, mi: int, s: int, ms: int): int
  {
    MakeDay(y, month, date) * MS_PER_DAY + MakeTime(h, mi, s, ms)
  }

  /** Date.UTC (section 21.4.3.4): years 0 to 99 are taken for 1900 to 1999; None is NaN. */
  function DateUtc(y: int, month: int, date: int, h: int, mi: int, s: int, ms: int): Option<int>
  {
    var t := Instant(if 0 <= y <= 99 then 1900 + y else y, month, date, h, mi, s, ms);
    if -MAX_TIME <= t <= MAX_TIME then Some(t) else None
  }

  lemma InstantFourCenturies(y: int, month: int, date: int, h: int, mi: int, s: int, ms: int)
    ensures Instant(y + 400, month, date, h, mi, s, ms) == Instant(y, month, date, h, mi, s, ms) + 12622780800000
  {
    FourCenturies(y + month / 12);
    assert (y + 400) + month / 12 == (y + month / 12) + 400;
  }

  // ---- fields of an instant ----

  /** The year that a day lies in. */
  function YearOf(day: int): (y: int)
    ensures DayFromYear(y) <= day < DayFromYear(y + 1)
  {
    var y := 1970 + day * 400 / 146097;
    YearGuess(day);
    if day < DayFromYear(y) then y - 1 else if DayFromYear(y + 1) <= day then y + 1 else y
  }

  lemma YearGuess(day: int)
    ensures var y := 1970 + day * 400 / 146097; DayFromYear(y - 1) <= day < DayFromYear(y + 2)
  {
    var q := day * 400 / 146097;
    assert 146097 * q <= 400 * day < 146097 * q + 146097;
    YearBounds(1970 + q - 1);
    YearBounds(1970 + q + 2);
  }

  /** January 1 lies within two days of the mean year length times the years. */
  lemma YearBounds(y: int)
    ensures 146097 * (y - 1970) - 800 <= 400 * DayFromYear(y) <= 146097 * (y - 1970) + 800
  {
    var a, b, c := (y - 1969) / 4, (y - 1901) / 100, (y - 1601) / 400;
    assert 4 * a <= y - 1969 < 4 * a + 4;
    assert 100 * b <= y - 1901 < 100 * b + 100;
    assert 400 * c <= y - 1601 < 400 * c + 400;
  }

  /** The month (0 to 11) that day `d` of a year lies in. */
  function MonthOf(d: int, leap: bool): (m: int)
    requires 0 <= d < 365 + (if leap then 1 else 0)
    ensures 0 <= m < 12 && DayOfMonthStart(m, leap) <= d < DayOfMonthStart(m + 1, leap)
  {
    var l := if leap then 1 else 0;
    if d < 31 then 0 else if d < 59 + l then 1 else if d < 90 + l then 2 else if d < 120 + l then 3
    else if d < 151 + l then 4 else if d < 181 + l then 5 else if d < 212 + l then 6 else if d < 243 + l then 7
    else if d < 273 + l then 8 else if d < 304 + l then 9 else if d < 334 + l then 10 else 11
  }

  lemma MonthLength(m: int, leap: bool)
    requires 0 <= m < 12
    ensures DayOfMonthStart(m + 1, leap) - DayOfMonthStart(m, leap) <= 31
  {
  }

  /** `month` counts from 0. */
  datatype Fields = Fields(year: int, month: int, date: int, h: int, mi: int, s: int, ms: int)

  lemma TimeOfDay(r: int)
    requires 0 <= r < MS_PER_DAY
    ensures 0 <= r / 3600000 < 24
    ensures MakeTime(r / 3600000, r / 60000 % 60, r / 1000 % 60, r % 1000) == r
  {
    var a, b := r / 1000, r / 60000;
    assert r / 60000 == a / 60 && r / 3600000 == b / 60;
  }

  function DateOf(day: int): (f: Fields)
    ensures 0 <= f.month < 12 && 1 <= f.date <= 31
    ensures f == Fields(f.year, f.month, f.date, 0, 0, 0, 0)
    ensures DayFromYear(f.year) + DayOfMonthStart(f.month, Leap(f.year)) + f.date - 1 == day
  {
    var y := YearOf(day);
    YearLength(y);
    var d := day - DayFromYear(y);
    var m := MonthOf(d, Leap(y));
    MonthLength(m, Leap(y));
    Fields(y, m, d - DayOfMonthStart(m, Leap(y)) + 1, 0, 0, 0, 0)
  }

  /** The UTC fields of an instant. */
  function FieldsOf(t: int): (f: Fields)
    ensures 0 <= f.month < 12 && 1 <= f.date <= 31
    ensures 0 <= f.h < 24 && 0 <= f.mi < 60 && 0 <= f.s < 60 && 0 <= f.ms < 1000
  {
    var r := t % MS_PER_DAY;
    TimeOfDay(r);
    DateOf(t / MS_PER_DAY).(h := r / 3600000, mi := r / 60000 % 60, s := r / 1000 % 60, ms := r % 1000)
  }

  /** The fields name the instant they were taken from. */
  lemma FieldsName(t: int)
    ensures var f := FieldsOf(t); Instant(f.year, f.month, f.date, f.h, f.mi, f.s, f.ms) == t
  {
    hide DateOf, MakeDay, MakeTime;
    DateMakesDay(t / MS_PER_DAY);
    TimeOfDay(t % MS_PER_DAY);
  }

  lemma DateMakesDay(day: int)
    ensures var f := DateOf(day); MakeDay(f.year, f.month, f.date) == day
  {
    hide DateOf, DayFromYear, DayOfMonthStart, Leap;
    SmallMonth(DateOf(day).month);
  }

  lemma SmallMonth(m: int)
    requires 0 <= m < 12
    ensures m / 12 == 0 && m % 12 == m
  {
  }
}
