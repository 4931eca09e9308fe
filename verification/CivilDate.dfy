/** Day numbers since 1970-01-01 turned into dates of the proleptic Gregorian calendar. */
module CivilDate {

  datatype Date = Date(year: int, month: nat, day: nat)

  // ----- The calendar -----

  /** The leap-year rule of RFC 3339, Appendix C. */
  predicate IsLeap(year: int) {
    year % 4 == 0 && (year % 100 != 0 || year % 400 == 0)
  }

  function LeapDay(year: int): nat {
    if IsLeap(year) then 1 else 0
  }

  /** RFC 3339, section 5.7. */
  function DaysInMonth(year: int, month: nat): nat {
    if month == 2 then 28 + LeapDay(year)
    else if month == 4 || month == 6 || month == 9 || month == 11 then 30
    else 31
  }

  predicate IsDate(date: Date) {
    1 <= date.month <= 12 && 1 <= date.day <= DaysInMonth(date.year, date.month)
  }

  /** The next day by the rules of the calendar alone. */
  function Successor(date: Date): Date {
    if date.day < DaysInMonth(date.year, date.month) then date.(day := date.day + 1)
    else if date.month < 12 then Date(date.year, date.month + 1, 1)
    else Date(date.year + 1, 1, 1)
  }

  /** The days of all years before `year`, counted from year 1. */
  function DaysBeforeYear(year: int): int {
    365 * (year - 1) + (year - 1) / 4 - (year - 1) / 100 + (year - 1) / 400
  }

  function DaysBeforeMonth(year: int, month: nat): nat {
    if month <= 1 then 0 else DaysBeforeMonth(year, month - 1) + DaysInMonth(year, month - 1)
  }

  /** The number of a date, counting from 1970-01-01. */
  function DayNumber(date: Date): int {
    DaysBeforeYear(date.year) + DaysBeforeMonth(date.year, date.month) + date.day - 1 - DaysBeforeYear(1970)
  }

  lemma YearLength(year: int)
    ensures DaysBeforeYear(year + 1) == DaysBeforeYear(year) + 365 + LeapDay(year)
  {
    QuotientStep4(year);
    QuotientStep100(year);
    QuotientStep400(year);
    CenturiesAreMultiples(year);
  }

  lemma QuotientStep4(n: int)
    ensures n / 4 == (n - 1) / 4 + if n % 4 == 0 then 1 else 0
  {
  }

  lemma QuotientStep100(n: int)
    ensures n / 100 == (n - 1) / 100 + if n % 100 == 0 then 1 else 0
  {
  }

  lemma QuotientStep400(n: int)
    ensures n / 400 == (n - 1) / 400 + if n % 400 == 0 then 1 else 0
  {
  }

  lemma CenturiesAreMultiples(n: int)
    ensures n % 400 == 0 ==> n % 100 == 0
    ensures n % 100 == 0 ==> n % 4 == 0
  {
  }

  /** The days before each month, month by month. */
  lemma MonthTable(year: int)
    ensures DaysBeforeMonth(year, 1) == 0 && DaysBeforeMonth(year, 2) == 31
    ensures var leap := LeapDay(year);
            DaysBeforeMonth(year, 3) == 59 + leap && DaysBeforeMonth(year, 4) == 90 + leap &&
            DaysBeforeMonth(year, 5) == 120 + leap && DaysBeforeMonth(year, 6) == 151 + leap &&
            DaysBeforeMonth(year, 7) == 181 + leap && DaysBeforeMonth(year, 8) == 212 + leap &&
            DaysBeforeMonth(year, 9) == 243 + leap && DaysBeforeMonth(year, 10) == 273 + leap &&
            DaysBeforeMonth(year, 11) == 304 + leap && DaysBeforeMonth(year, 12) == 334 + leap
  {
    assert DaysBeforeMonth(year, 2) == 31;
    assert DaysBeforeMonth(year, 4) == DaysBeforeMonth(year, 3) + 31;
    assert DaysBeforeMonth(year, 6) == DaysBeforeMonth(year, 5) + 31;
    assert DaysBeforeMonth(year, 8) == DaysBeforeMonth(year, 7) + 31;
    assert DaysBeforeMonth(year, 10) == DaysBeforeMonth(year, 9) + 30;
    assert DaysBeforeMonth(year, 12) == DaysBeforeMonth(year, 11) + 30;
  }

  /** The calendar's next day has the next number. */
  lemma SuccessorIsNext(date: Date)
    requires IsDate(date)
    ensures IsDate(Successor(date)) && DayNumber(Successor(date)) == DayNumber(date) + 1
  {
    MonthTable(date.year);
    YearLength(date.year);
  }

  /** `a` comes before `b` in the calendar. */
  predicate Earlier(a: Date, b: Date) {
    a.year < b.year ||
    (a.year == b.year && (a.month < b.month || (a.month == b.month && a.day < b.day)))
  }

  lemma YearsIncrease(y: int, y': int)
    requires y < y'
    ensures DaysBeforeYear(y) + 365 + LeapDay(y) <= DaysBeforeYear(y')
  {
    YearLength(y);
    var k := y + 1;
    while k < y'
      invariant y + 1 <= k <= y' && DaysBeforeYear(y + 1) <= DaysBeforeYear(k)
    {
      YearLength(k);
      k := k + 1;
    }
  }

  lemma {:induction false} MonthsIncrease(year: int, m: nat, m': nat)
    requires 1 <= m < m'
    ensures DaysBeforeMonth(year, m) + DaysInMonth(year, m) <= DaysBeforeMonth(year, m')
    decreases m'
  {
    if m < m' - 1 {
      MonthsIncrease(year, m, m' - 1);
    }
  }

  /** Earlier dates have smaller numbers, so a number has one date at most. */
  lemma DayNumberIncreases(a: Date, b: Date)
    requires IsDate(a) && IsDate(b)
    ensures Earlier(a, b) <==> DayNumber(a) < DayNumber(b)
    ensures DayNumber(a) == DayNumber(b) <==> a == b
  {
    if Earlier(a, b) { EarlierIsSmaller(a, b); }
    if Earlier(b, a) { EarlierIsSmaller(b, a); }
  }

  lemma EarlierIsSmaller(a: Date, b: Date)
    requires IsDate(a) && IsDate(b) && Earlier(a, b)
    ensures DayNumber(a) < DayNumber(b)
  {
    if a.year < b.year {
      YearsIncrease(a.year, b.year);
      MonthTable(a.year);
    } else if a.month < b.month {
      MonthsIncrease(a.year, a.month, b.month);
    }
  }

  // ----- The algorithm -----

  /** Rust's `/`: the quotient is rounded towards zero. */
  function TruncDiv(a: int, b: int): int
    requires b > 0
  {
    if a >= 0 then a / b else -((-a) / b)
  }

  /** `civil_from_days`. */
  function CivilFromDays(days: int): Date {
    var z := days + 719_468;
    var era := TruncDiv(if z >= 0 then z else z - 146_096, 146_097);
    var doe := z - era * 146_097;
    EraIsFloor(z);
    var yoe := YearOfEra(doe);
    DayOfYear(doe);
    DateOfMarchYear(yoe + era * 400, doe - YearStart(yoe))
  }

  /** The year of its era, counted from 1 March, that a day of the era falls into. */
  function YearOfEra(doe: int): int {
    (doe - doe / 1460 + doe / 36_524 - doe / 146_096) / 365
  }

  /** The days of an era before its `k`-th year. */
  function YearStart(k: int): int {
    365 * k + k / 4 - k / 100
  }

  /** Day `doy` of the year that begins on 1 March of `y`. */
  function DateOfMarchYear(y: int, doy: int): Date
    requires 0 <= doy <= 365
  {
    var mp := (5 * doy + 2) / 153;
    MonthOfYear(doy);
    var d := doy - (153 * mp + 2) / 5 + 1;
    var m := if mp < 10 then mp + 3 else mp - 9;
    Date(if m <= 2 then y + 1 else y, m, d)
  }

  /** The era is rounded down, whatever the sign. */
  lemma EraIsFloor(z: int)
    ensures var era := TruncDiv(if z >= 0 then z else z - 146_096, 146_097);
            era == z / 146_097 && 0 <= z - era * 146_097 < 146_097
  {
  }

  /** A day of an era falls into the year the algorithm computes: at most 365 days after its start. */
  lemma DayOfYear(doe: int)
    requires 0 <= doe < 146_097
    ensures var yoe := YearOfEra(doe);
            0 <= yoe < 400 && 0 <= doe - YearStart(yoe) <= 365 &&
            (doe - YearStart(yoe) == 365 ==> (yoe + 1) % 4 == 0 && ((yoe + 1) % 100 != 0 || yoe + 1 == 400))
  {
    var c := doe / 36_524;
    if c < 4 {
      var q := (doe - 36_524 * c) / 1461;
      YearOfCycle(doe, c, q, doe - 36_524 * c - 1461 * q);
    }
  }

  /** The same with the day split into centuries, four-year cycles and what is left. */
  lemma YearOfCycle(doe: int, c: int, q: int, r: int)
    requires 0 <= c < 4 && 0 <= q < 25 && 0 <= r < 1461 && (q == 24 ==> r < 1460)
    requires doe == 36_524 * c + 1461 * q + r
    ensures var y4 := if r == 1460 then 3 else r / 365;
            YearOfEra(doe) == 100 * c + 4 * q + y4 &&
            doe - YearStart(100 * c + 4 * q + y4) == r - 365 * y4
  {
    var e := if 24 * c + q + r >= 1460 then 1 else 0;
    QuotientsOfCycle(doe, c, q, r, e);
    YearsOfRest(100 * c + 4 * q, r, e);
    var y4 := if r == 1460 then 3 else r / 365;
    CenturyOfYear(c, 4 * q + y4);
  }

  lemma QuotientsOfCycle(doe: int, c: int, q: int, r: int, e: int)
    requires 0 <= c < 4 && 0 <= q < 25 && 0 <= r < 1461 && (q == 24 ==> r < 1460)
    requires doe == 36_524 * c + 1461 * q + r
    requires e == if 24 * c + q + r >= 1460 then 1 else 0
    ensures doe / 36_524 == c && doe / 146_096 == 0 && doe / 1460 == 25 * c + q + e
  {
    assert 1460 * (25 * c + q + e) <= doe < 1460 * (25 * c + q + e) + 1460;
  }

  lemma YearsOfRest(years: int, r: int, e: int)
    requires 0 <= r < 1461 && 0 <= e <= 1 && (r == 1460 ==> e == 1) && (e == 1 ==> r >= 1364)
    ensures (365 * years + (r - e)) / 365 == years + (if r == 1460 then 3 else r / 365)
  {
  }

  lemma CenturyOfYear(c: int, k: int)
    requires 0 <= k < 100
    ensures (100 * c + k) / 100 == c && (100 * c + k) / 4 == 25 * c + k / 4
  {
  }

  /** A day of a March-based year falls into the month the algorithm computes. */
  lemma MonthOfYear(doy: int)
    requires 0 <= doy <= 365
    ensures var mp := (5 * doy + 2) / 153;
            0 <= mp < 12 && (153 * mp + 2) / 5 <= doy < (153 * (mp + 1) + 2) / 5
  {
  }

  /** The days before a March-based year, in the calendar's own count. */
  lemma MarchYear(era: int, yoe: int)
    requires 0 <= yoe < 400
    ensures var y := yoe + era * 400;
            DaysBeforeYear(y) + 59 + LeapDay(y) == 146_097 * era + YearStart(yoe) - 306 &&
            DaysBeforeYear(y + 1) == 146_097 * era + YearStart(yoe)
  {
    var y := yoe + era * 400;
    assert y / 4 == yoe / 4 + 100 * era;
    assert y / 100 == yoe / 100 + 4 * era;
    assert y / 400 == era;
    YearLength(y);
  }

  /** Whether a March-based year has 366 days is decided by the next calendar year. */
  lemma NextYearLeaps(era: int, yoe: int)
    requires 0 <= yoe < 400 && (yoe + 1) % 4 == 0 && ((yoe + 1) % 100 != 0 || yoe + 1 == 400)
    ensures IsLeap(yoe + era * 400 + 1)
  {
    LeapsRepeat(yoe + 1, era);
    assert IsLeap(yoe + 1);
  }

  /** Leap years repeat every 400 years. */
  lemma LeapsRepeat(y: int, era: int)
    ensures IsLeap(y + era * 400) == IsLeap(y)
  {
    ModRepeats4(y, 100 * era);
    ModRepeats100(y, 4 * era);
    ModRepeats400(y, era);
  }

  lemma ModRepeats4(y: int, k: int)
    ensures (y + 4 * k) % 4 == y % 4
  {
  }

  lemma ModRepeats100(y: int, k: int)
    ensures (y + 100 * k) % 100 == y % 100
  {
  }

  lemma ModRepeats400(y: int, k: int)
    ensures (y + 400 * k) % 400 == y % 400
  {
  }

  /** A day of a March-based year is a date, with the number it should have. */
  lemma MarchDateIsExact(y: int, doy: int)
    requires 0 <= doy <= 365 && (doy == 365 ==> IsLeap(y + 1))
    ensures var date := DateOfMarchYear(y, doy);
            IsDate(date) &&
            DayNumber(date) ==
            (if date.month <= 2 then DaysBeforeYear(y + 1) - 306 else DaysBeforeYear(y) + 59 + LeapDay(y)) +
            doy - DaysBeforeYear(1970)
  {
    MonthOfYear(doy);
    MonthTable(y);
    MonthTable(y + 1);
  }

  /** How the algorithm splits a day number. */
  lemma CivilSplits(z: int) returns (era: int, yoe: int, doy: int)
    ensures 0 <= yoe < 400 && 0 <= doy <= 365
    ensures z + 719_468 == 146_097 * era + YearStart(yoe) + doy
    ensures CivilFromDays(z) == DateOfMarchYear(yoe + era * 400, doy)
    ensures doy == 365 ==> IsLeap(yoe + era * 400 + 1)
  {
    EraIsFloor(z + 719_468);
    era := TruncDiv(if z + 719_468 >= 0 then z + 719_468 else z + 719_468 - 146_096, 146_097);
    var doe := z + 719_468 - era * 146_097;
    DayOfYear(doe);
    yoe := YearOfEra(doe);
    doy := doe - YearStart(yoe);
    hide YearOfEra, YearStart, DateOfMarchYear, IsLeap, TruncDiv;
    if doy == 365 {
      NextYearLeaps(era, yoe);
    }
  }

  /** The date computed for day `z` is a date of the calendar, and the one whose number is `z`. */
  lemma CivilIsExact(z: int)
    ensures IsDate(CivilFromDays(z)) && DayNumber(CivilFromDays(z)) == z
  {
    hide *;
    var era, yoe, doy := CivilSplits(z);
    MarchDateIsExact(yoe + era * 400, doy);
    MarchYear(era, yoe);
    EpochDays();
  }

  lemma EpochDays()
    ensures DaysBeforeYear(1970) == 719_162
  {
  }

  /** Every date is reached, from its own number and no other. */
  lemma CivilInverts(date: Date)
    requires IsDate(date)
    ensures CivilFromDays(DayNumber(date)) == date
  {
    hide *;
    CivilIsExact(DayNumber(date));
    DayNumberIncreases(CivilFromDays(DayNumber(date)), date);
  }

  /** The next day number gives the next day of the calendar. */
  lemma CivilAdvances(z: int)
    ensures CivilFromDays(z + 1) == Successor(CivilFromDays(z))
  {
    hide *;
    CivilIsExact(z);
    SuccessorIsNext(CivilFromDays(z));
    CivilInverts(Successor(CivilFromDays(z)));
  }

  /** The computed dates are in calendar order exactly when the day numbers are. */
  lemma CivilKeepsOrder(z: int, z': int)
    ensures Earlier(CivilFromDays(z), CivilFromDays(z')) <==> z < z'
  {
    hide *;
    CivilIsExact(z);
    CivilIsExact(z');
    DayNumberIncreases(CivilFromDays(z), CivilFromDays(z'));
  }
}
