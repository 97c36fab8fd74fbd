/**
 Calendar arithmetic of the battery-backed clock: the closed-form day count and its
 inverse, and the conversions between civil time and Unix time.

 The reference is a calendar that only knows how long each month is and steps one day at
 a time (`Next`, `Previous`); the closed forms are proved to count its days.
 */
module Calendar {
  import Division

  datatype Date = Date(year: int, month: int, day: int)

  // ---- C integer division (truncates toward zero) ------------------------------------

  function Quotient(a: int, b: int): int
    requires b > 0
  {
    if a >= 0 then a / b else -((-a) / b)
  }

  function Remainder(a: int, b: int): int
    requires b > 0
  {
    a - b * Quotient(a, b)
  }

  // ---- The reference calendar ---------------------------------------------------------

  predicate LeapYear(year: int) {
    year % 4 == 0 && (year % 100 != 0 || year % 400 == 0)
  }

  function DaysInMonth(year: int, month: int): int {
    if month == 2 then (if LeapYear(year) then 29 else 28)
    else if month in {4, 6, 9, 11} then 30
    else 31
  }

  predicate ValidDate(date: Date) {
    1 <= date.month <= 12 && 1 <= date.day <= DaysInMonth(date.year, date.month)
  }

  function Next(date: Date): Date {
    if date.day < DaysInMonth(date.year, date.month) then date.(day := date.day + 1)
    else if date.month < 12 then Date(date.year, date.month + 1, 1)
    else Date(date.year + 1, 1, 1)
  }

  function Previous(date: Date): Date {
    if date.day > 1 then date.(day := date.day - 1)
    else if date.month > 1 then Date(date.year, date.month - 1, DaysInMonth(date.year, date.month - 1))
    else Date(date.year - 1, 12, 31)
  }

  const EPOCH := Date(1970, 1, 1)

  /** The date `n` days after 1970-01-01 (before it when `n` is negative), counted day by day. */
  function Counted(n: int): Date
    decreases if n >= 0 then n else -n
  {
    if n == 0 then EPOCH
    else if n > 0 then Next(Counted(n - 1))
    else Previous(Counted(n + 1))
  }

  // ---- The closed forms ---------------------------------------------------------------

  /** `rtc_days_from_civil`; its header asks for months 1-12 and days 1-31. */
  function DaysFromCivil(date: Date): int {
    var y := if date.month <= 2 then date.year - 1 else date.year;
    var era := Quotient(if y >= 0 then y else y - 399, 400);
    var yoe := y - era * 400;
    var doy := (153 * (if date.month > 2 then date.month - 3 else date.month + 9) + 2) / 5 + date.day - 1;
    var doe := yoe * 365 + yoe / 4 - yoe / 100 + doy;
    era * 146097 + doe - 719468
  }

  /** `rtc_civil_from_days`. */
  function CivilFromDays(days: int): Date {
    var z := days + 719468;
    var era := Quotient(if z >= 0 then z else z - 146096, 146097);
    CivilInEra(era, z - era * 146097)
  }

  function CivilInEra(era: int, doe: int): Date {
    var yoe := YearOfEra(doe);
    var doy := doe - (365 * yoe + yoe / 4 - yoe / 100);
    var mp := (5 * doy + 2) / 153;
    var day := doy - (153 * mp + 2) / 5 + 1;
    var month := if mp < 10 then mp + 3 else mp - 9;
    Date(yoe + era * 400 + (if month <= 2 then 1 else 0), month, day)
  }

  function YearOfEra(doe: int): int {
    (doe - doe / 1460 + doe / 36524 - doe / 146096) / 365
  }

  // ---- The closed form grows by one a day ---------------------------------------------

  /** The year that starts in March, as both closed forms see it. */
  function MarchYear(date: Date): int {
    if date.month <= 2 then date.year - 1 else date.year
  }

  /** Days from 1 March of the March year to `date`. */
  function DayOfMarchYear(date: Date): int {
    (153 * (if date.month > 2 then date.month - 3 else date.month + 9) + 2) / 5 + date.day - 1
  }

  function DaysBeforeMarchYear(year: int): int {
    365 * year + year / 4 - year / 100 + year / 400
  }

  /** The era division rounds down, so the day count is a plain formula in the March year. */
  lemma DaysByMarchYear(date: Date)
    ensures var y := MarchYear(date);
            DaysFromCivil(date) == DaysBeforeMarchYear(y) + DayOfMarchYear(date) - 719468
  {
    var y := MarchYear(date);
    var era := Quotient(if y >= 0 then y else y - 399, 400);
    assert era == y / 400;
    var yoe := y - era * 400;
    assert yoe / 4 == y / 4 - 100 * era;
    assert yoe / 100 == y / 100 - 4 * era;
  }

  lemma LeapDayInMarchYear(year: int)
    ensures DaysBeforeMarchYear(year)
         == DaysBeforeMarchYear(year - 1) + 365 + (if LeapYear(year) then 1 else 0)
  {
    FloorStep(year, year / 4, year % 4, 4);
    FloorStep(year, year / 100, year % 100, 100);
    FloorStep(year, year / 400, year % 400, 400);
    CenturiesAreMultiplesOfFour(year);
  }

  lemma FloorStep(n: int, q: int, r: int, d: int)
    requires d > 0 && n == q * d + r && 0 <= r < d
    ensures (n - 1) / d == if r == 0 then q - 1 else q
  {
    Division.Unique(n - 1, d, if r == 0 then q - 1 else q, if r == 0 then d - 1 else r - 1);
  }

  lemma CenturiesAreMultiplesOfFour(year: int)
    ensures year % 400 == 0 ==> year % 100 == 0
    ensures year % 100 == 0 ==> year % 4 == 0
  {
  }

  /** Every month ends where the next one begins; February ends the March year. */
  lemma NextDayOfMarchYear(date: Date)
    requires ValidDate(date)
    ensures ValidDate(Next(date))
    ensures if MarchYear(Next(date)) == MarchYear(date)
            then DayOfMarchYear(Next(date)) == DayOfMarchYear(date) + 1
            else (&& MarchYear(Next(date)) == date.year == MarchYear(date) + 1
                  && DayOfMarchYear(Next(date)) == 0
                  && DayOfMarchYear(date) == if LeapYear(date.year) then 365 else 364)
  {
    assert date.month in {1, 2, 3, 4, 5, 6, 7, 8, 9, 10, 11, 12};
  }

  /** 1970-01-01 is day 0, and each following date is one day later. */
  lemma SuccessiveDays(date: Date)
    requires ValidDate(date)
    ensures DaysFromCivil(EPOCH) == 0
    ensures ValidDate(Next(date)) && DaysFromCivil(Next(date)) == DaysFromCivil(date) + 1
  {
    hide DaysBeforeMarchYear, DayOfMarchYear, LeapYear;
    NextDayOfMarchYear(date);
    assert DaysFromCivil(EPOCH) == 0;
    hide DaysFromCivil;
    DaysByMarchYear(date);
    DaysByMarchYear(Next(date));
    LeapDayInMarchYear(date.year);
  }

  lemma PreviousUndoesNext(date: Date)
    requires ValidDate(date)
    ensures ValidDate(Previous(date)) && Next(Previous(date)) == date
  {
  }

  // ---- The inverse --------------------------------------------------------------------

  /**
   Within an era the year is recovered exactly from the day number, on every day including
   29 February of a leap year (day 365 of the March year).
   */
  lemma YearOfEraIsExact(yoe: int, doy: int)
    requires 0 <= yoe < 400 && 0 <= doy <= 365
    requires doy == 365 ==> LeapYear(yoe + 1)
    ensures YearOfEra(365 * yoe + yoe / 4 - yoe / 100 + doy) == yoe
    ensures 0 <= 365 * yoe + yoe / 4 - yoe / 100 + doy < 146097
  {
    var c, q, r := yoe / 100, yoe % 100 / 4, yoe % 4;
    YearDigits(yoe);
    assert doy == 365 ==> r == 3 && (q == 24 ==> c == 3);
    YearOfEraByDigits(c, q, r, doy);
  }

  lemma YearDigits(yoe: int)
    requires 0 <= yoe < 400
    ensures var c, q, r := yoe / 100, yoe % 100 / 4, yoe % 4;
            && yoe == 100 * c + 4 * q + r && 0 <= c <= 3 && 0 <= q <= 24 && 0 <= r <= 3
            && yoe / 4 == 25 * c + q
  {
  }

  lemma YearOfEraByDigits(c: int, q: int, r: int, doy: int)
    requires 0 <= c <= 3 && 0 <= q <= 24 && 0 <= r <= 3 && 0 <= doy <= 365
    requires doy == 365 ==> r == 3 && (q == 24 ==> c == 3)
    ensures var doe := 36524 * c + 1461 * q + 365 * r + doy;
            0 <= doe < 146097 && YearOfEra(doe) == 100 * c + 4 * q + r
  {
    var rest := 1461 * q + 365 * r + doy;
    var doe := 36524 * c + rest;
    assert rest <= 36524 && (rest == 36524 ==> c == 3);
    assert doe / 36524 - doe / 146096 == c;
    var over := 24 * c + q + 365 * r + doy;
    assert doe == 1460 * (25 * c + q) + over && over < 2920;
    var carry := if over >= 1460 then 1 else 0;
    assert doe / 1460 == 25 * c + q + carry;
    assert doe - doe / 1460 + c == 365 * (100 * c + 4 * q + r) + (doy - carry);
  }

  lemma MonthOfMarchYear(date: Date)
    requires ValidDate(date)
    ensures 0 <= DayOfMarchYear(date) <= 365
    ensures DayOfMarchYear(date) == 365 ==> LeapYear(MarchYear(date) + 1)
    ensures (5 * DayOfMarchYear(date) + 2) / 153 == if date.month > 2 then date.month - 3 else date.month + 9
  {
    var mp := if date.month > 2 then date.month - 3 else date.month + 9;
    assert mp in {0, 1, 2, 3, 4, 5, 6, 7, 8, 9, 10, 11};
  }

  /** Left inverse: the date is recovered from its day number. */
  lemma CivilOfDaysOfCivil(date: Date)
    requires ValidDate(date)
    ensures CivilFromDays(DaysFromCivil(date)) == date
  {
    hide *;
    var era, yoe := MarchYear(date) / 400, MarchYear(date) % 400;
    DayIsInEra(date);
    DaysByEra(date);
    CivilInEraIsExact(era, yoe, date);
    EraQuotient(era, 365 * yoe + yoe / 4 - yoe / 100 + DayOfMarchYear(date));
  }

  lemma DayIsInEra(date: Date)
    requires ValidDate(date)
    ensures var yoe := MarchYear(date) % 400;
            var doe := 365 * yoe + yoe / 4 - yoe / 100 + DayOfMarchYear(date);
            0 <= doe < 146097 && YearOfEra(doe) == yoe
  {
    var y := MarchYear(date);
    MonthOfMarchYear(date);
    LeapYearRepeatsEachEra(y + 1, y % 400 + 1, y / 400);
    hide ValidDate, MarchYear, DayOfMarchYear, YearOfEra, LeapYear;
    YearOfEraIsExact(y % 400, DayOfMarchYear(date));
  }

  lemma CivilInEraIsExact(era: int, yoe: int, date: Date)
    requires ValidDate(date) && MarchYear(date) == 400 * era + yoe
    requires YearOfEra(365 * yoe + yoe / 4 - yoe / 100 + DayOfMarchYear(date)) == yoe
    ensures CivilInEra(era, 365 * yoe + yoe / 4 - yoe / 100 + DayOfMarchYear(date)) == date
  {
    hide YearOfEra;
    MonthOfMarchYear(date);
  }

  lemma LeapYearRepeatsEachEra(y: int, yoe: int, era: int)
    requires y == yoe + 400 * era
    ensures LeapYear(y) <==> LeapYear(yoe)
  {
    hide LeapYear;
    Division.Shift(yoe, 400, era);
    Division.Shift(yoe, 100, 4 * era);
    Division.Shift(yoe, 4, 100 * era);
    LeapYearByRemainders(y, yoe);
  }

  lemma LeapYearByRemainders(y: int, yoe: int)
    requires y % 400 == yoe % 400 && y % 100 == yoe % 100 && y % 4 == yoe % 4
    ensures LeapYear(y) <==> LeapYear(yoe)
  {
  }

  lemma DaysByEra(date: Date)
    requires ValidDate(date)
    ensures var y := MarchYear(date);
            var era, yoe := y / 400, y % 400;
            DaysFromCivil(date) + 719468
              == era * 146097 + (365 * yoe + yoe / 4 - yoe / 100 + DayOfMarchYear(date))
  {
    var y := MarchYear(date);
    assert Quotient(if y >= 0 then y else y - 399, 400) == y / 400;
  }

  lemma EraQuotient(era: int, doe: int)
    requires 0 <= doe < 146097
    ensures CivilFromDays(era * 146097 + doe - 719468) == CivilInEra(era, doe)
  {
    hide CivilInEra;
    var z := era * 146097 + doe;
    assert Quotient(if z >= 0 then z else z - 146096, 146097) == era;
  }

  /**
   The closed forms count the days of the reference calendar, in both directions of time:
   day `n` is the date reached by `n` single-day steps.
   */
  lemma {:induction false} ClosedFormCountsDays(n: int)
    ensures ValidDate(Counted(n))
    ensures DaysFromCivil(Counted(n)) == n
    ensures CivilFromDays(n) == Counted(n)
    decreases if n >= 0 then n else -n
  {
    hide DaysFromCivil, CivilFromDays;
    SuccessiveDays(EPOCH);
    if n > 0 {
      ClosedFormCountsDays(n - 1);
      SuccessiveDays(Counted(n - 1));
    } else if n < 0 {
      ClosedFormCountsDays(n + 1);
      PreviousUndoesNext(Counted(n + 1));
      SuccessiveDays(Counted(n));
    }
    CivilOfDaysOfCivil(Counted(n));
  }

  /** Right inverse: every day number has a valid date that maps back to it. */
  lemma DaysOfCivilOfDays(days: int)
    ensures ValidDate(CivilFromDays(days)) && DaysFromCivil(CivilFromDays(days)) == days
  {
    ClosedFormCountsDays(days);
  }
}
