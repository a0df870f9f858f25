/** Calendar dates as the scheduler handles them: JavaScript `Date` values at local
    midnight, represented by their day number (days since Thursday 1970-01-01), and
    the "MM/DD/YYYY" strings the reservations carry. */
module Dates {
  import opened Common
  import opened Text

  /** `date.getDay()`: 0 is Sunday, 1 is Monday, ... 6 is Saturday. */
  function Weekday(d: int): (w: int)
    ensures 0 <= w < 7
  {
    (d + 4) % 7
  }

  /** `toLocaleString("en-US", { weekday: "long" })`. */
  function WeekdayName(d: int): (name: string)
    ensures name in ["Sunday", "Monday", "Tuesday", "Wednesday", "Thursday", "Friday", "Saturday"]
  {
    ["Sunday", "Monday", "Tuesday", "Wednesday", "Thursday", "Friday", "Saturday"][Weekday(d)]
  }

  datatype Civil = Civil(year: int, month: int, day: int)

  /** Days from 0000-03-01 to 1970-01-01 in the proleptic Gregorian calendar. */
  const EpochShift := 719468
  const DaysPer400Years := 146097

  /** The first day (0400-03-01) from which on every date has a year of at least 400. */
  const FirstSupportedDay := DaysPer400Years - EpochShift

  /** The year of the era (counted from March) and the day of that year, for a day of a
      400-year era. The era is split into centuries of 36524 days (the last one a day
      longer), four-year groups of 1461 days (the last of a century a day shorter) and
      years of 365 days (the last of a group a day longer), so leap days come last. */
  function YearOfEra(doe: int): (r: (int, int))
    requires 0 <= doe < DaysPer400Years
    ensures 0 <= r.0 < 400 && 0 <= r.1 <= 365
    ensures doe == r.0 * 365 + r.0 / 4 - r.0 / 100 + r.1
  {
    var cent := if doe / 36524 > 3 then 3 else doe / 36524;
    var r1 := doe - 36524 * cent;
    var quad := r1 / 1461;
    var r2 := r1 - 1461 * quad;
    var yr := if r2 / 365 > 3 then 3 else r2 / 365;
    EraSplit(cent, quad, yr);
    (100 * cent + 4 * quad + yr, r2 - 365 * yr)
  }

  lemma EraSplit(cent: int, quad: int, yr: int)
    requires 0 <= cent <= 3 && 0 <= quad <= 24 && 0 <= yr <= 3
    ensures (100 * cent + 4 * quad + yr) / 4 == 25 * cent + quad
    ensures (100 * cent + 4 * quad + yr) / 100 == cent
  {
  }

  /** Month (1..12) and day of the month for a day of a year counted from March. */
  function MonthDay(doy: int): (r: (int, int))
    requires 0 <= doy <= 365
    ensures 1 <= r.0 <= 12 && 1 <= r.1 <= 31
    ensures (153 * ((r.0 + 9) % 12) + 2) / 5 + r.1 - 1 == doy
  {
    var mp := (5 * doy + 2) / 153;
    var day := doy - (153 * mp + 2) / 5 + 1;
    (if mp < 10 then mp + 3 else mp - 9, day)
  }

  /** Year, month and day of a day number. */
  function CivilFromDays(z: int): (c: Civil)
    ensures 1 <= c.month <= 12 && 1 <= c.day <= 31
  {
    var era := (z + EpochShift) / DaysPer400Years;
    var yd := YearOfEra((z + EpochShift) % DaysPer400Years);
    var md := MonthDay(yd.1);
    Civil(yd.0 + 400 * era + (if md.0 <= 2 then 1 else 0), md.0, md.1)
  }

  /** The day number of a calendar date whose month is in range (`Date.UTC` arithmetic). */
  function DaysFromCivil(y: int, m: int, d: int): int
    requires 1 <= m <= 12
  {
    var y1 := if m <= 2 then y - 1 else y;
    var era := y1 / 400;
    var yoe := y1 - 400 * era;
    var doy := (153 * ((m + 9) % 12) + 2) / 5 + d - 1;
    var doe := yoe * 365 + yoe / 4 - yoe / 100 + doy;
    era * DaysPer400Years + doe - EpochShift
  }

  lemma EraOfYear(yoe: int, era: int)
    requires 0 <= yoe < 400
    ensures (yoe + 400 * era) / 400 == era
  {
  }

  /** Converting a day to its calendar date and back gives the same day. */
  lemma {:induction false} CivilRoundTrip(z: int)
    ensures var c := CivilFromDays(z); DaysFromCivil(c.year, c.month, c.day) == z
  {
    var era := (z + EpochShift) / DaysPer400Years;
    var doe := (z + EpochShift) % DaysPer400Years;
    var yd := YearOfEra(doe);
    EraOfYear(yd.0, era);
    assert z + EpochShift == era * DaysPer400Years + doe;
  }

  /** Days from the epoch are monotone in the day of the month. */
  lemma DaysFromCivilDay(y: int, m: int, d: int)
    requires 1 <= m <= 12
    ensures DaysFromCivil(y, m, d) == DaysFromCivil(y, m, 1) + d - 1
  {
  }

  lemma YearFloor(z: int)
    requires z >= FirstSupportedDay
    ensures CivilFromDays(z).year >= 400
  {
    assert (z + EpochShift) / DaysPer400Years >= 1;
  }

  /** `new Date(y, m, d)` at local midnight: two-digit years mean 1900 + y, months outside
      0..11 carry into the year, and the day of the month may run over either end. */
  function MakeDay(y: int, m: int, d: int): int {
    var year := if 0 <= y <= 99 then 1900 + y else y;
    DaysFromCivil(year + m / 12, m % 12 + 1, 1) + d - 1
  }

  /** `parseDate`: split "MM/DD/YYYY" on '/', convert each part with `Number` and build
      the date; a missing or non-numeric part gives an Invalid Date (`None`). */
  function ParseDate(s: string): (r: Option<int>)
  {
    PartsToDay(Split(s, "/"))
  }

  function PartsToDay(parts: seq<string>): Option<int> {
    if |parts| < 3 then None
    else match (ToNumber(parts[0]), ToNumber(parts[1]), ToNumber(parts[2]))
      case (Some(month), Some(day), Some(year)) => Some(MakeDay(year, month - 1, day))
      case _ => None
  }

  /** `formatDate`: "MM/DD/YYYY" with a two-digit month and day. */
  function FormatDate(z: int): (s: string)
  {
    var c := CivilFromDays(z);
    PadStart(ShowNat(c.month), 2, '0') + "/" + PadStart(ShowNat(c.day), 2, '0') + "/" + ShowInt(c.year)
  }

  lemma SplitDate(mm: string, dd: string, yy: string, s: string)
    requires AllDigits(mm) && AllDigits(dd) && AllDigits(yy)
    requires s == mm + ['/'] + (dd + ['/'] + yy)
    ensures Split(s, "/") == [mm, dd, yy]
  {
    DigitsHaveNoSeparator(mm, '/');
    DigitsHaveNoSeparator(dd, '/');
    DigitsHaveNoSeparator(yy, '/');
    SplitAtSeparator(mm, '/', dd + ['/'] + yy);
    SplitAtSeparator(dd, '/', yy);
    SplitNoSeparator(yy, '/');
  }

  lemma PartsOfDigits(mm: string, dd: string, yy: string)
    requires AllDigits(mm) && AllDigits(dd) && AllDigits(yy)
    ensures PartsToDay([mm, dd, yy]) ==
      Some(MakeDay(DigitsValue(yy), DigitsValue(mm) - 1, DigitsValue(dd)))
  {
  }

  lemma ParseDigitsDate(s: string, mm: string, dd: string, yy: string)
    requires AllDigits(mm) && AllDigits(dd) && AllDigits(yy)
    requires s == mm + ['/'] + (dd + ['/'] + yy)
    ensures ParseDate(s) == Some(MakeDay(DigitsValue(yy), DigitsValue(mm) - 1, DigitsValue(dd)))
  {
    SplitDate(mm, dd, yy, s);
    PartsOfDigits(mm, dd, yy);
  }

  /** A date in range with a year from 100 on is built back to its day. */
  lemma MakeDayOfCivil(z: int)
    requires CivilFromDays(z).year >= 100
    ensures var c := CivilFromDays(z); MakeDay(c.year, c.month - 1, c.day) == z
  {
    var c := CivilFromDays(z);
    assert (c.month - 1) / 12 == 0 && (c.month - 1) % 12 + 1 == c.month;
    DaysFromCivilDay(c.year, c.month, c.day);
    CivilRoundTrip(z);
  }

  /** Reading back a date the scheduler formatted gives the same day, for years from 100 on
      (earlier years would be read as 19xx). */
  lemma FormatDateRoundTrip(z: int)
    requires CivilFromDays(z).year >= 100
    ensures ParseDate(FormatDate(z)) == Some(z)
  {
    var c := CivilFromDays(z);
    var mm := PadStart(ShowNat(c.month), 2, '0');
    var dd := PadStart(ShowNat(c.day), 2, '0');
    var yy := ShowNat(c.year);
    ShowNatValue(c.month);
    PadZeroValue(ShowNat(c.month), 2);
    ShowNatValue(c.day);
    PadZeroValue(ShowNat(c.day), 2);
    ShowNatValue(c.year);
    assert FormatDate(z) == mm + ['/'] + (dd + ['/'] + yy);
    ParseDigitsDate(FormatDate(z), mm, dd, yy);
    MakeDayOfCivil(z);
  }

  lemma SupportedRoundTrip(z: int)
    requires z >= FirstSupportedDay
    ensures ParseDate(FormatDate(z)) == Some(z)
  {
    YearFloor(z);
    FormatDateRoundTrip(z);
  }

  /** The days `getWeekRange` computes for a day `d`: back to the Monday (`(day + 6) % 7`
      days) and forward `6 - day` days, which is the Saturday of that week. */
  function WeekBounds(d: int): (b: (int, int))
    ensures b.0 <= d <= b.1
    ensures Weekday(b.0) == 1 && Weekday(b.1) == 6
    ensures d - b.0 < 7 && b.1 - d < 7
    ensures Weekday(d) != 0 ==> b.1 - b.0 == 5
    ensures Weekday(d) == 0 ==> b.0 == d - 6 && b.1 == d + 6
  {
    var w := Weekday(d);
    (d - (w + 6) % 7, d + (6 - w))
  }

  /** `getWeekRange`: the bounds of the week of `d`, formatted. */
  function GetWeekRange(d: int): (r: (string, string))
    ensures d - 6 >= FirstSupportedDay ==>
      ParseDate(r.0) == Some(WeekBounds(d).0) && ParseDate(r.1) == Some(WeekBounds(d).1)
  {
    var b := WeekBounds(d);
    if d - 6 >= FirstSupportedDay then
      SupportedRoundTrip(b.0);
      SupportedRoundTrip(b.1);
      (FormatDate(b.0), FormatDate(b.1))
    else
      (FormatDate(b.0), FormatDate(b.1))
  }
}
