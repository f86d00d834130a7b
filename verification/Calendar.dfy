/** The run recorder's clock: days since 1970-01-01 as Gregorian dates. */
module Calendar {
  import opened LittleEndian
  import opened Wrappers

  type I64 = x: int | -0x8000_0000_0000_0000 <= x < 0x8000_0000_0000_0000

  const EPOCH_SHIFT_DAYS: I64 := 719_468
  const DAYS_PER_ERA: I64 := 146_097

  // ---------------------------------------------------------------- checked arithmetic

  function Fit(n: int): Option<I64> {
    if -0x8000_0000_0000_0000 <= n < 0x8000_0000_0000_0000 then Some(n) else None
  }

  function Add(a: I64, b: I64): Option<I64> { Fit(a + b) }

  function Sub(a: I64, b: I64): Option<I64> { Fit(a - b) }

  function Mul(a: I64, b: I64): Option<I64> { Fit(a * b) }

  /** Division that truncates toward zero; the divisors here are positive constants. */
  function Div(a: I64, b: I64): Option<I64>
    requires b > 0
  {
    Fit(if a >= 0 then a / b else -((0 - a as int) / b))
  }

  datatype Date = Date(year: int, month: int, day: int)

  /** The 400-year era a shifted day lies in, and its day inside that era. */
  function SplitEra(shifted: I64): Option<(I64, I64)> {
    var eraLess :- Sub(DAYS_PER_ERA, 1);
    var eraBase :- if shifted >= 0 then Some(shifted) else Sub(shifted, eraLess);
    var era :- Div(eraBase, DAYS_PER_ERA);
    var eraDays :- Mul(era, DAYS_PER_ERA);
    var dayOfEra :- Sub(shifted, eraDays);
    Some((era, dayOfEra))
  }

  function YearInEra(dayOfEra: I64): Option<I64> {
    var q1 :- Div(dayOfEra, 1_460);
    var y1 :- Sub(dayOfEra, q1);
    var q2 :- Div(dayOfEra, 36_524);
    var y2 :- Add(y1, q2);
    var q3 :- Div(dayOfEra, 146_096);
    var y3 :- Sub(y2, q3);
    Div(y3, 365)
  }

  /** The year a day of an era lies in, and its day inside that year. */
  function SplitYear(dayOfEra: I64): Option<(I64, I64)> {
    var yearOfEra :- YearInEra(dayOfEra);
    var fours :- Div(yearOfEra, 4);
    var hundreds :- Div(yearOfEra, 100);
    var leapDays :- Sub(fours, hundreds);
    var commonDays :- Mul(yearOfEra, 365);
    var yearDays :- Add(commonDays, leapDays);
    var dayOfYear :- Sub(dayOfEra, yearDays);
    Some((yearOfEra, dayOfYear))
  }

  /** The date a day of a March-based year lies on. */
  function SplitMonth(shiftedYear: I64, dayOfYear: I64): Option<Date> {
    var fivefold :- Mul(dayOfYear, 5);
    var scaled :- Add(fivefold, 2);
    var monthPosition :- Div(scaled, 153);
    var m1 :- Mul(monthPosition, 153);
    var m2 :- Add(m1, 2);
    var monthStart :- Div(m2, 5);
    var dayBefore :- Sub(dayOfYear, monthStart);
    var day :- Add(dayBefore, 1);
    var month :- if monthPosition < 10 then Add(monthPosition, 3) else Sub(monthPosition, 9);
    var year :- if month <= 2 then Add(shiftedYear, 1) else Some(shiftedYear);
    if 0 <= month < 0x1_0000_0000 && 0 <= day < 0x1_0000_0000 then Some(Date(year, month, day)) else None
  }

  /** The conversion, with every intermediate checked. */
  function CivilFromDays(days: I64): Option<Date> {
    var shifted :- Add(days, EPOCH_SHIFT_DAYS);
    var (era, dayOfEra) :- SplitEra(shifted);
    DateInEra(era, SplitYear(dayOfEra))
  }

  function DateInEra(era: I64, split: Option<(I64, I64)>): Option<Date> {
    var (yearOfEra, dayOfYear) :- split;
    var shiftedYear :- ShiftedYear(era, yearOfEra);
    SplitMonth(shiftedYear, dayOfYear)
  }

  function ShiftedYear(era: I64, yearOfEra: I64): Option<I64> {
    var eraYears :- Mul(era, 400);
    Add(yearOfEra, eraYears)
  }

  function Civil(seconds: U64): Option<Date> {
    var days :- Fit(seconds / 86_400);
    CivilFromDays(days)
  }

  // ---------------------------------------------------------------- the calendar itself

  predicate IsLeap(year: int) {
    year % 4 == 0 && (year % 100 != 0 || year % 400 == 0)
  }

  function YearLength(year: int): int {
    if IsLeap(year) then 366 else 365
  }

  function MonthLength(year: int, month: int): int {
    if month == 2 then (if IsLeap(year) then 29 else 28)
    else if month in {4, 6, 9, 11} then 30
    else 31
  }

  predicate Valid(d: Date) {
    1 <= d.month <= 12 && 1 <= d.day <= MonthLength(d.year, d.month)
  }

  /** Days from 1970-01-01 to the first day of a year, counted year by year. */
  function DaysBeforeYear(year: int): int
    decreases if year >= 1970 then year - 1970 else 1970 - year
  {
    if year == 1970 then 0
    else if year > 1970 then DaysBeforeYear(year - 1) + YearLength(year - 1)
    else DaysBeforeYear(year + 1) - YearLength(year)
  }

  /** Days from the first day of a year to the first day of a month, counted month by month. */
  function DaysBeforeMonth(year: int, month: int): int
    requires 1 <= month <= 13
    decreases month
  {
    if month == 1 then 0 else DaysBeforeMonth(year, month - 1) + MonthLength(year, month - 1)
  }

  /** The day a date is, counting from 1970-01-01 as day 0. */
  function DayNumber(d: Date): int
    requires Valid(d)
  {
    DaysBeforeYear(d.year) + DaysBeforeMonth(d.year, d.month) + d.day - 1
  }

  /** The calendar's next date. */
  function NextDate(d: Date): Date
    requires Valid(d)
  {
    if d.day < MonthLength(d.year, d.month) then Date(d.year, d.month, d.day + 1)
    else if d.month < 12 then Date(d.year, d.month + 1, 1)
    else Date(d.year + 1, 1, 1)
  }

  // ---------------------------------------------------------------- dates and day numbers

  lemma MonthTable(year: int)
    ensures DaysBeforeMonth(year, 2) == 31
    ensures DaysBeforeMonth(year, 3) == YearLength(year) - 306
    ensures forall p | 0 <= p <= 9 :: DaysBeforeMonth(year, p + 3) == YearLength(year) - 306 + (153 * p + 2) / 5
    ensures DaysBeforeMonth(year, 13) == YearLength(year)
  {
    assert DaysBeforeMonth(year, 1) == 0;
    assert DaysBeforeMonth(year, 4) == YearLength(year) - 275;
    assert DaysBeforeMonth(year, 5) == YearLength(year) - 245;
    assert DaysBeforeMonth(year, 6) == YearLength(year) - 214;
    assert DaysBeforeMonth(year, 7) == YearLength(year) - 184;
    assert DaysBeforeMonth(year, 8) == YearLength(year) - 153;
    assert DaysBeforeMonth(year, 9) == YearLength(year) - 122;
    assert DaysBeforeMonth(year, 10) == YearLength(year) - 92;
    assert DaysBeforeMonth(year, 11) == YearLength(year) - 61;
    assert DaysBeforeMonth(year, 12) == YearLength(year) - 31;
    forall p | 0 <= p <= 9 ensures DaysBeforeMonth(year, p + 3) == YearLength(year) - 306 + (153 * p + 2) / 5 {
      assert p == 0 || p == 1 || p == 2 || p == 3 || p == 4 || p == 5 || p == 6 || p == 7 || p == 8 || p == 9;
    }
  }

  lemma YearStep(year: int)
    ensures DaysBeforeYear(year + 1) == DaysBeforeYear(year) + YearLength(year)
  {
  }

  /** The first of March in closed form, for every year. */
  lemma {:induction false} MarchFirst(year: int)
    ensures DaysBeforeYear(year) + YearLength(year) - 306
            == 365 * year + year / 4 - year / 100 + year / 400 - EPOCH_SHIFT_DAYS
    decreases if year >= 1970 then year - 1970 else 1970 - year
  {
    if year > 1970 {
      MarchFirst(year - 1);
      YearStep(year - 1);
      LeapCount(year - 1);
    } else if year < 1970 {
      MarchFirst(year + 1);
      YearStep(year);
      LeapCount(year);
    }
  }

  /** One more leap day is counted exactly when the year that follows is leap. */
  lemma LeapCount(year: int)
    ensures (year + 1) / 4 - (year + 1) / 100 + (year + 1) / 400
            == year / 4 - year / 100 + year / 400 + (if IsLeap(year + 1) then 1 else 0)
  {
    Carry(year, 4);
    Carry(year, 100);
    Carry(year, 400);
    Multiple(year + 1, 25, 4);
    Multiple(year + 1, 4, 100);
  }

  lemma Carry(n: int, m: int)
    requires m == 4 || m == 100 || m == 400
    ensures (n + 1) / m == n / m + (if (n + 1) % m == 0 then 1 else 0)
  {
  }

  lemma Multiple(n: int, a: int, b: int)
    requires (a == 25 && b == 4) || (a == 4 && b == 100)
    ensures n % (a * b) == 0 ==> n % b == 0
  {
  }

  /** Day numbers tell valid dates apart. */
  lemma DayNumberInjective(a: Date, b: Date)
    requires Valid(a) && Valid(b) && DayNumber(a) == DayNumber(b)
    ensures a == b
  {
    if a.year < b.year { YearOrder(a, b); }
    if b.year < a.year { YearOrder(b, a); }
    if a.year == b.year && a.month < b.month { MonthOrder(a, b); }
    if a.year == b.year && b.month < a.month { MonthOrder(b, a); }
  }

  lemma YearOrder(a: Date, b: Date)
    requires Valid(a) && Valid(b) && a.year < b.year
    ensures DayNumber(a) < DayNumber(b)
  {
    InYear(a);
    InYear(b);
    YearsAscend(a.year + 1, b.year);
    YearStep(a.year);
  }

  lemma MonthOrder(a: Date, b: Date)
    requires Valid(a) && Valid(b) && a.year == b.year && a.month < b.month
    ensures DayNumber(a) < DayNumber(b)
  {
    MonthsAscend(a.year, a.month + 1, b.month);
  }

  lemma InYear(d: Date)
    requires Valid(d)
    ensures DaysBeforeYear(d.year) <= DayNumber(d) < DaysBeforeYear(d.year) + YearLength(d.year)
  {
    MonthsAscend(d.year, 1, d.month);
    MonthsAscend(d.year, d.month + 1, 13);
    MonthTable(d.year);
  }

  lemma {:induction false} YearsAscend(a: int, b: int)
    requires a <= b
    ensures DaysBeforeYear(a) <= DaysBeforeYear(b)
    decreases b - a
  {
    if a < b { YearsAscend(a, b - 1); YearStep(b - 1); }
  }

  lemma {:induction false} MonthsAscend(year: int, a: int, b: int)
    requires 1 <= a <= b <= 13
    ensures DaysBeforeMonth(year, a) <= DaysBeforeMonth(year, b)
    decreases b - a
  {
    if a < b { MonthsAscend(year, a, b - 1); }
  }

  lemma NextDateNumber(d: Date)
    requires Valid(d)
    ensures Valid(NextDate(d)) && DayNumber(NextDate(d)) == DayNumber(d) + 1
  {
    MonthTable(d.year);
    YearStep(d.year);
  }

  // ---------------------------------------------------------------- the conversion's arithmetic

  /** The year of a day of an era, by the closed formula. */
  function EraYearOf(day: int): int {
    (day - day / 1_460 + day / 36_524 - day / 146_096) / 365
  }

  function YearDayOf(day: int): int {
    var y := EraYearOf(day);
    day - (365 * y + y / 4 - y / 100)
  }

  /** The formula gives the year a day of a March-based era lies in. */
  lemma YearOfEra(day: int)
    requires 0 <= day < 146_097
    ensures 0 <= EraYearOf(day) <= 399 && 0 <= YearDayOf(day) <= 365
    ensures YearDayOf(day) == 365 ==> IsLeap(EraYearOf(day) + 1)
  {
    var c := if day / 36_524 < 3 then day / 36_524 else 3;
    var r := day - 36_524 * c;
    var q := r / 1_461;
    var t := r - 1_461 * q;
    var y := if t / 365 < 3 then t / 365 else 3;
    EraSplit(day, c, q, t, y);
  }

  lemma EraSplit(day: int, c: int, q: int, t: int, y: int)
    requires 0 <= c <= 3 && 0 <= q <= 24 && 0 <= t <= 1_460 && day == 36_524 * c + 1_461 * q + t < 146_097
    requires c < 3 ==> 1_461 * q + t < 36_524
    requires y == if t / 365 < 3 then t / 365 else 3
    ensures var n := 100 * c + 4 * q + y;
            && EraYearOf(day) == n
            && n / 4 == 25 * c + q && n / 100 == c
            && (t - 365 * y == 365 ==> IsLeap(n + 1))
  {
    var e := if 24 * c + q + t >= 1_460 then 1 else 0;
    Quotient(day, 1_460, 25 * c + q + e);
    CenturyOf(day, c);
    YearInCycle(t, y, e);
    Quotient(day - day / 1_460 + day / 36_524 - day / 146_096, 365, 100 * c + 4 * q + y);
    LeapInCycle(c, q, y);
  }

  lemma Quotient(n: int, d: int, k: int)
    requires d == 1_460 || d == 36_524 || d == 146_096 || d == 365
    requires d * k <= n < d * (k + 1)
    ensures n / d == k
  {
  }

  lemma CenturyOf(day: int, c: int)
    requires 0 <= c <= 3 && 36_524 * c <= day < 146_097 && (c < 3 ==> day < 36_524 * (c + 1))
    ensures day / 36_524 - day / 146_096 == c
  {
    Quotient(day, 36_524, if day == 146_096 then 4 else c);
    Quotient(day, 146_096, if day == 146_096 then 1 else 0);
  }

  lemma YearInCycle(t: int, y: int, e: int)
    requires 0 <= t <= 1_460 && 0 <= e <= 1 && y == if t / 365 < 3 then t / 365 else 3
    ensures 0 <= y <= 3 && 365 * y <= t <= 365 * y + 365 && (t == 365 * y + 365 ==> y == 3)
  {
  }

  /** The last year of a four-year cycle is the leap one, but for a century that does not close an era. */
  lemma LeapInCycle(c: int, q: int, y: int)
    requires 0 <= c <= 3 && 0 <= q <= 24 && 0 <= y <= 3
    ensures var n := 100 * c + 4 * q + y;
            && n / 4 == 25 * c + q && n / 100 == c
            && (y == 3 && (q < 24 || c == 3) ==> IsLeap(n + 1))
  {
  }

  /** The month and day of a day inside such a year. */
  lemma MonthOfYear(doy: int)
    requires 0 <= doy <= 365
    ensures var p := (5 * doy + 2) / 153;
            0 <= p <= 11 && (153 * p + 2) / 5 <= doy && (p < 11 ==> doy < (153 * (p + 1) + 2) / 5)
  {
  }

  /** The year, month and day that a day of an era lies on. */
  function Assembled(era: int, yoe: int, doy: int): Date {
    var p := (5 * doy + 2) / 153;
    var month := if p < 10 then p + 3 else p - 9;
    Date(yoe + 400 * era + (if month <= 2 then 1 else 0), month, doy - (153 * p + 2) / 5 + 1)
  }

  lemma AssembledNumber(era: int, yoe: int, doy: int)
    requires 0 <= yoe <= 399 && 0 <= doy <= 365 && (doy == 365 ==> IsLeap(yoe + 400 * era + 1))
    ensures var d := Assembled(era, yoe, doy);
            && Valid(d) && 1 <= d.day <= 31
            && DayNumber(d) == 146_097 * era + 365 * yoe + yoe / 4 - yoe / 100 + doy - EPOCH_SHIFT_DAYS
  {
    AssembledValid(era, yoe, doy);
    AssembledFromMarch(era, yoe, doy);
    MarchFirst(yoe + 400 * era);
    EraYear(era, yoe);
  }

  /** The assembled date lies `doy` days after the first of March of its March-based year. */
  lemma AssembledFromMarch(era: int, yoe: int, doy: int)
    requires 0 <= yoe <= 399 && 0 <= doy <= 365 && Valid(Assembled(era, yoe, doy))
    ensures var y := yoe + 400 * era;
            DayNumber(Assembled(era, yoe, doy)) == DaysBeforeYear(y) + YearLength(y) - 306 + doy
  {
    var y := yoe + 400 * era;
    MonthOfYear(doy);
    if (5 * doy + 2) / 153 < 10 {
      MonthTable(y);
    } else {
      MonthTable(y + 1);
      YearStep(y);
    }
  }

  lemma EraYear(era: int, yoe: int)
    requires 0 <= yoe <= 399
    ensures var y := yoe + 400 * era;
            365 * y + y / 4 - y / 100 + y / 400 == 146_097 * era + 365 * yoe + yoe / 4 - yoe / 100
  {
    var y := yoe + 400 * era;
    assert y / 4 == yoe / 4 + 100 * era;
    assert y / 100 == yoe / 100 + 4 * era;
    assert y / 400 == era;
  }

  lemma AssembledValid(era: int, yoe: int, doy: int)
    requires 0 <= yoe <= 399 && 0 <= doy <= 365 && (doy == 365 ==> IsLeap(yoe + 400 * era + 1))
    ensures Valid(Assembled(era, yoe, doy))
  {
    MonthOfYear(doy);
    var p := (5 * doy + 2) / 153;
    assert p == 0 || p == 1 || p == 2 || p == 3 || p == 4 || p == 5
        || p == 6 || p == 7 || p == 8 || p == 9 || p == 10 || p == 11;
  }

  lemma EraExact(shifted: I64)
    requires shifted >= -0x8000_0000_0000_0000 + EPOCH_SHIFT_DAYS
    ensures SplitEra(shifted) == Some((shifted / DAYS_PER_ERA, shifted % DAYS_PER_ERA))
  {
    var era, day := shifted / DAYS_PER_ERA, shifted % DAYS_PER_ERA;
    assert shifted == era * DAYS_PER_ERA + day;
  }

  lemma Quotients(day: int)
    requires 0 <= day < DAYS_PER_ERA
    ensures 0 <= day / 1_460 <= 100 && 0 <= day / 146_096 <= day / 36_524 <= 4
    ensures day / 1_460 <= day
  {
  }

  lemma YearNumberExact(day: I64)
    requires 0 <= day < DAYS_PER_ERA
    ensures YearInEra(day) == Some(EraYearOf(day))
  {
    Quotients(day);
    var q1, q2, q3 := day / 1_460, day / 36_524, day / 146_096;
    DivExact(day, 1_460);
    DivExact(day, 36_524);
    DivExact(day, 146_096);
    DivExact(day - q1 + q2 - q3, 365);
    YearChained(day, q1, q2, q3, EraYearOf(day));
  }

  lemma DivExact(a: I64, b: I64)
    requires 0 <= a <= DAYS_PER_ERA + 4 && (b == 1_460 || b == 36_524 || b == 146_096 || b == 365)
    ensures Div(a, b) == Some(a / b)
  {
  }

  lemma YearChained(day: I64, q1: I64, q2: I64, q3: I64, year: I64)
    requires 0 <= day < DAYS_PER_ERA && 0 <= q1 <= 100 && q1 <= day && 0 <= q3 <= q2 <= 4
    requires Div(day, 1_460) == Some(q1) && Div(day, 36_524) == Some(q2) && Div(day, 146_096) == Some(q3)
    requires Div(day - q1 + q2 - q3, 365) == Some(year)
    ensures YearInEra(day) == Some(year)
  {
  }

  lemma YearExact(day: I64)
    requires 0 <= day < DAYS_PER_ERA
    ensures SplitYear(day) == Some((EraYearOf(day), YearDayOf(day)))
  {
    YearNumberExact(day);
    YearOfEra(day);
    YearRest(day, EraYearOf(day));
  }

  lemma YearRest(day: I64, y: I64)
    requires YearInEra(day) == Some(y) && 0 <= y <= 399 && 0 <= day < DAYS_PER_ERA
    ensures SplitYear(day) == Some((y, day - (365 * y + y / 4 - y / 100)))
  {
  }

  lemma MonthExact(era: int, yoe: int, doy: I64)
    requires 0 <= yoe <= 399 && 0 <= doy <= 365 && -0x1_0000_0000_0000 < era < 0x1_0000_0000_0000
    ensures SplitMonth(yoe + 400 * era, doy) == Some(Assembled(era, yoe, doy))
  {
    MonthOfYear(doy);
  }

  lemma ConversionAssembles(days: I64)
    requires days + EPOCH_SHIFT_DAYS < 0x8000_0000_0000_0000
    ensures var s := days + EPOCH_SHIFT_DAYS;
            var era, day := s / DAYS_PER_ERA, s % DAYS_PER_ERA;
            CivilFromDays(days) == Some(Assembled(era, EraYearOf(day), YearDayOf(day)))
  {
    var s := days + EPOCH_SHIFT_DAYS;
    EraExact(s);
    EraBounds(s);
    ConvertsInEra(days, s / DAYS_PER_ERA, s % DAYS_PER_ERA);
  }

  lemma ConvertsInEra(days: I64, era: I64, day: I64)
    requires days + EPOCH_SHIFT_DAYS < 0x8000_0000_0000_0000
    requires SplitEra(days + EPOCH_SHIFT_DAYS) == Some((era, day)) && 0 <= day < DAYS_PER_ERA
    requires -0x1_0000_0000_0000 < era < 0x1_0000_0000_0000
    ensures CivilFromDays(days) == Some(Assembled(era, EraYearOf(day), YearDayOf(day)))
  {
    YearExact(day);
    YearOfEra(day);
    MonthExact(era, EraYearOf(day), YearDayOf(day));
    Chained(days, era, day, EraYearOf(day), YearDayOf(day));
  }

  lemma EraBounds(s: I64)
    ensures -0x1_0000_0000_0000 < s / DAYS_PER_ERA < 0x1_0000_0000_0000
  {
  }

  lemma Chained(days: I64, era: I64, day: I64, yoe: I64, doy: I64)
    requires days + EPOCH_SHIFT_DAYS < 0x8000_0000_0000_0000
    requires SplitEra(days + EPOCH_SHIFT_DAYS) == Some((era, day)) && SplitYear(day) == Some((yoe, doy))
    requires 0 <= yoe <= 399 && -0x1_0000_0000_0000 < era < 0x1_0000_0000_0000
    ensures CivilFromDays(days) == SplitMonth(yoe + 400 * era, doy)
  {
    FromYear(era, SplitYear(day), yoe, doy);
    FromEra(days, SplitEra(days + EPOCH_SHIFT_DAYS), era, day);
  }

  lemma FromEra(days: I64, split: Option<(I64, I64)>, era: I64, day: I64)
    requires days + EPOCH_SHIFT_DAYS < 0x8000_0000_0000_0000
    requires split == SplitEra(days + EPOCH_SHIFT_DAYS) && split == Some((era, day))
    ensures CivilFromDays(days) == DateInEra(era, SplitYear(day))
  {
  }

  lemma FromYear(era: I64, split: Option<(I64, I64)>, yoe: I64, doy: I64)
    requires split == Some((yoe, doy)) && 0 <= yoe <= 399 && -0x1_0000_0000_0000 < era < 0x1_0000_0000_0000
    ensures DateInEra(era, split) == SplitMonth(yoe + 400 * era, doy)
  {
    YearShifts(era, yoe);
  }

  lemma YearShifts(era: I64, yoe: I64)
    requires 0 <= yoe <= 399 && -0x1_0000_0000_0000 < era < 0x1_0000_0000_0000
    ensures ShiftedYear(era, yoe) == Some(yoe + 400 * era)
  {
  }

  // ---------------------------------------------------------------- what the clock promises

  /** The conversion fails exactly where its first sum leaves 64 bits. Everywhere else it gives the
      one valid date whose day number it was asked for. */
  lemma CivilExact(days: I64)
    ensures CivilFromDays(days).Some? <==> days + EPOCH_SHIFT_DAYS < 0x8000_0000_0000_0000
    ensures CivilFromDays(days).Some? ==>
              Valid(CivilFromDays(days).value) && DayNumber(CivilFromDays(days).value) == days
  {
    if days + EPOCH_SHIFT_DAYS < 0x8000_0000_0000_0000 {
      ConversionAssembles(days);
      var s := days + EPOCH_SHIFT_DAYS;
      var era, day := s / DAYS_PER_ERA, s % DAYS_PER_ERA;
      DateOfEraDay(era, day);
    }
  }

  lemma DateOfEraDay(era: int, day: int)
    requires 0 <= day < DAYS_PER_ERA
    ensures Valid(Assembled(era, EraYearOf(day), YearDayOf(day)))
    ensures DayNumber(Assembled(era, EraYearOf(day), YearDayOf(day))) == 146_097 * era + day - EPOCH_SHIFT_DAYS
  {
    YearOfEra(day);
    LeapInEra(era, EraYearOf(day) + 1);
    AssembledNumber(era, EraYearOf(day), YearDayOf(day));
  }

  lemma LeapInEra(era: int, y: int)
    ensures IsLeap(y + 400 * era) <==> IsLeap(y)
  {
    Period4(y, era);
    Period100(y, era);
    Period400(y, era);
  }

  lemma Period4(y: int, n: int)
    ensures (y + 400 * n) % 4 == y % 4
  {
    assert y + 400 * n == 4 * (y / 4 + 100 * n) + y % 4;
  }

  lemma Period100(y: int, n: int)
    ensures (y + 400 * n) % 100 == y % 100
  {
    assert y + 400 * n == 100 * (y / 100 + 4 * n) + y % 100;
  }

  lemma Period400(y: int, n: int)
    ensures (y + 400 * n) % 400 == y % 400
  {
    assert y + 400 * n == 400 * (y / 400 + n) + y % 400;
  }

  /** The hour, minute and second of a second of the day. */
  function SplitDay(secondsOfDay: nat): (nat, nat, nat) {
    (secondsOfDay / 3_600, secondsOfDay % 3_600 / 60, secondsOfDay % 3_600 % 60)
  }

  /** No clock value fails: each gives the valid date of its own day and a time of day within it, and
      date and time together give the clock value back. */
  lemma ClockNeverFails(seconds: U64)
    ensures Civil(seconds).Some? && Valid(Civil(seconds).value)
    ensures var (hour, minute, second) := SplitDay(seconds % 86_400);
            && hour < 24 && minute < 60 && second < 60
            && seconds == 86_400 * DayNumber(Civil(seconds).value) + 3_600 * hour + 60 * minute + second
  {
    CivilExact(seconds / 86_400);
  }

  /** Consecutive days are consecutive dates, and day 0 is 1970-01-01. */
  lemma ConsecutiveDays(days: I64)
    requires days + 1 + EPOCH_SHIFT_DAYS < 0x8000_0000_0000_0000
    ensures CivilFromDays(days).Some? && Valid(CivilFromDays(days).value)
    ensures CivilFromDays(days + 1) == Some(NextDate(CivilFromDays(days).value))
    ensures CivilFromDays(0) == Some(Date(1970, 1, 1))
  {
    CivilExact(days);
    CivilExact(days + 1);
    NextDateNumber(CivilFromDays(days).value);
    DayNumberInjective(CivilFromDays(days + 1).value, NextDate(CivilFromDays(days).value));
    CivilExact(0);
    DayNumberInjective(CivilFromDays(0).value, Date(1970, 1, 1));
  }

  /** Converting the day number of any valid date in range gives the date back. */
  lemma DateRoundTrip(d: Date)
    requires Valid(d)
    requires -0x8000_0000_0000_0000 <= DayNumber(d) && DayNumber(d) + EPOCH_SHIFT_DAYS < 0x8000_0000_0000_0000
    ensures CivilFromDays(DayNumber(d)) == Some(d)
  {
    CivilExact(DayNumber(d));
    DayNumberInjective(CivilFromDays(DayNumber(d)).value, d);
  }
}
