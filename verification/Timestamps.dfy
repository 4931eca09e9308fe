/** Whole-second timestamps as ISO 8601 text in UTC. */
module Timestamps {
  import opened CivilDate
  import opened Decimals
  import opened Orderings

  const DAY := 86_400

  /** `{:0w}` of a signed number: the sign takes one place of the width. */
  function PaddedInt(n: int, w: nat): string
    requires w >= 1
  {
    if n < 0 then "-" + Padded(-n, w - 1) else Padded(n, w)
  }

  function DateText(date: Date): string {
    PaddedInt(date.year, 4) + ("-" + (Padded(date.month, 2) + ("-" + Padded(date.day, 2))))
  }

  function ClockText(second: nat): string {
    Padded(second / 3600, 2) + (":" + (Padded(second % 3600 / 60, 2) + (":" + Padded(second % 60, 2))))
  }

  /** `format_timestamp` of a time without a fraction. */
  function FormatTimestamp(time: int): string {
    DateText(CivilFromDays(time / DAY)) + ("T" + ClockText(time % DAY))
  }

  /** The times whose year has at most four digits and no sign. */
  predicate FourDigitYear(time: int) {
    0 <= CivilFromDays(time / DAY).year <= 9999
  }

  // ----- Reading a text back -----

  /** `text` is a number of at least two digits, here one below a hundred. */
  predicate TwoDigits(text: string, n: int) {
    |text| == 2 && AllDigits(text) && ValueOf(text) == n
  }

  lemma TwoDigitsRead(n: nat)
    requires n < 100
    ensures TwoDigits(Padded(n, 2), n)
  {
    Powers();
    PaddedReads(n, 2);
    PaddedWidth(n, 2);
  }

  /** The year as text: digits, at least four with the sign if it has one. */
  predicate YearText(text: string, year: int) {
    |text| >= 4 &&
    if text[0] == '-' then AllDigits(text[1..]) && year + ValueOf(text[1..]) == 0 && year < 0
    else AllDigits(text) && year == ValueOf(text)
  }

  lemma YearReads(year: int)
    ensures YearText(PaddedInt(year, 4), year)
  {
    if year < 0 {
      PaddedReads(-year, 3);
      assert PaddedInt(year, 4)[1..] == Padded(-year, 3);
    } else {
      PaddedReads(year, 4);
      assert IsDigit(Padded(year, 4)[0]);
    }
  }

  /** `text` says hour, minute and second, and these make up the second of the day. */
  ghost predicate ReadsClock(text: string, second: nat) {
    |text| == 8 && text[2] == ':' && text[5] == ':' &&
    exists h: nat, m: nat, s: nat :: ClockIs(text, h, m, s) && second == 3600 * h + 60 * m + s
  }

  predicate ClockIs(text: string, h: nat, m: nat, s: nat)
    requires |text| == 8
  {
    h < 24 && m < 60 && s < 60 && TwoDigits(text[..2], h) && TwoDigits(text[3..5], m) && TwoDigits(text[6..], s)
  }

  lemma ClockReads(second: nat)
    requires second < DAY
    ensures ReadsClock(ClockText(second), second)
  {
    var h, m, s := second / 3600, second % 3600 / 60, second % 60;
    SecondOfHour(second);
    TwoDigitsRead(h);
    TwoDigitsRead(m);
    TwoDigitsRead(s);
    hide Padded, TwoDigits;
    ClockAssembled(Padded(h, 2), Padded(m, 2), Padded(s, 2), h, m, s);
  }

  lemma ClockAssembled(x: string, y: string, z: string, h: nat, m: nat, s: nat)
    requires h < 24 && m < 60 && s < 60 && TwoDigits(x, h) && TwoDigits(y, m) && TwoDigits(z, s)
    ensures ReadsClock(x + (":" + (y + (":" + z))), 3600 * h + 60 * m + s)
  {
    var text := x + (":" + (y + (":" + z)));
    assert text[..2] == x && text[3..5] == y && text[6..] == z;
    assert ClockIs(text, h, m, s);
  }

  /** `text` says year, month and day of the date. */
  ghost predicate ReadsDate(text: string, date: Date) {
    var n := |text|;
    n >= 10 && text[n - 6] == '-' && text[n - 3] == '-' &&
    YearText(text[..n - 6], date.year) && TwoDigits(text[n - 5..n - 3], date.month) && TwoDigits(text[n - 2..], date.day)
  }

  lemma DateReads(date: Date)
    requires IsDate(date)
    ensures ReadsDate(DateText(date), date)
  {
    YearReads(date.year);
    MonthTable(date.year);
    TwoDigitsRead(date.month);
    TwoDigitsRead(date.day);
    hide *;
    DateAssembled(PaddedInt(date.year, 4), Padded(date.month, 2), Padded(date.day, 2), date);
    DateTextIs(date);
  }

  lemma DateTextIs(date: Date)
    requires date.month >= 0 && date.day >= 0
    ensures DateText(date) ==
            PaddedInt(date.year, 4) + ("-" + (Padded(date.month, 2) + ("-" + Padded(date.day, 2))))
  {
  }

  lemma DateAssembled(x: string, y: string, z: string, date: Date)
    requires YearText(x, date.year) && TwoDigits(y, date.month) && TwoDigits(z, date.day)
    ensures ReadsDate(x + ("-" + (y + ("-" + z))), date)
  {
    hide AllDigits, ValueOf;
    var text := x + ("-" + (y + ("-" + z)));
    var n := |text|;
    assert n == |x| + 6 && text[..n - 6] == x && text[n - 5..n - 3] == y && text[n - 2..] == z;
  }

  ghost predicate ReadsTime(text: string, date: Date, second: nat) {
    var n := |text|;
    n > 9 && text[n - 9] == 'T' && ReadsDate(text[..n - 9], date) && ReadsClock(text[n - 8..], second)
  }

  lemma TimeAssembled(x: string, y: string, date: Date, second: nat)
    requires ReadsDate(x, date) && ReadsClock(y, second)
    ensures ReadsTime(x + ("T" + y), date, second)
  {
    assert |y| == 8;
    hide ReadsDate, ReadsClock;
    var text := x + ("T" + y);
    var n := |text|;
    assert text[n - 8..] == y && text[..n - 9] == x;
  }

  /** A timestamp, whatever its year, reads back as a date of the calendar and a second of that day. */
  lemma TimestampReads(time: int) returns (date: Date, second: nat)
    ensures IsDate(date) && second < DAY && time == DayNumber(date) * DAY + second
    ensures ReadsTime(FormatTimestamp(time), date, second)
  {
    date, second := CivilFromDays(time / DAY), time % DAY;
    CivilIsExact(time / DAY);
    DateReads(date);
    ClockReads(second);
    hide CivilFromDays, DateText, ClockText, IsDate, DayNumber, ReadsTime;
    TimeAssembled(DateText(date), ClockText(second), date, second);
  }

  // ----- Order -----

  /** Text that starts with a fixed-width number is ordered by that number first. */
  lemma FieldFirst(n: nat, m: nat, w: nat, x: string, y: string)
    requires w >= 1 && n < Pow10(w) && m < Pow10(w)
    ensures n < m ==> StrLess(Padded(n, w) + x, Padded(m, w) + y)
    ensures n == m && StrLess(x, y) ==> StrLess(Padded(n, w) + x, Padded(m, w) + y)
  {
    hide *;
    PaddedWidth(n, w);
    PaddedWidth(m, w);
    if n < m {
      PaddedOrder(n, m, w);
      LessBefore(Padded(n, w), Padded(m, w), x, y);
    } else if n == m && StrLess(x, y) {
      LessAfter(Padded(n, w), x, y);
    }
  }

  lemma Powers()
    ensures Pow10(2) == 100 && Pow10(4) == 10_000
  {
    assert Pow10(1) == 10 * Pow10(0) && Pow10(2) == 10 * Pow10(1) && Pow10(3) == 10 * Pow10(2);
  }

  predicate Writable(date: Date) {
    0 <= date.year <= 9999 && IsDate(date)
  }

  lemma FieldsFit(date: Date)
    requires Writable(date)
    ensures date.year < Pow10(4) && date.month < Pow10(2) && date.day < Pow10(2)
    ensures DateText(date) ==
            Padded(date.year, 4) + ("-" + (Padded(date.month, 2) + ("-" + Padded(date.day, 2))))
  {
    Powers();
  }

  lemma DateTextOrder(a: Date, b: Date)
    requires Writable(a) && Writable(b) && Earlier(a, b)
    ensures StrLess(DateText(a), DateText(b))
  {
    FieldsFit(a);
    FieldsFit(b);
    assert a.year <= b.year && (a.year == b.year ==> a.month <= b.month);
    assert a.year == b.year && a.month == b.month ==> a.day < b.day;
    hide *;
    var ad, bd := Padded(a.day, 2), Padded(b.day, 2);
    var am, bm := Padded(a.month, 2) + ("-" + ad), Padded(b.month, 2) + ("-" + bd);
    FieldFirst(a.year, b.year, 4, "-" + am, "-" + bm);
    if a.year == b.year {
      FieldFirst(a.month, b.month, 2, "-" + ad, "-" + bd);
      if a.month == b.month {
        PaddedOrder(a.day, b.day, 2);
        LessAfter("-", ad, bd);
      }
      LessAfter("-", am, bm);
    }
  }

  lemma ClockTextOrder(a: nat, b: nat)
    requires a < b < DAY
    ensures StrLess(ClockText(a), ClockText(b))
  {
    Powers();
    ClockSplits(a, b);
    var as', bs := Padded(a % 60, 2), Padded(b % 60, 2);
    var am, bm := Padded(a % 3600 / 60, 2) + (":" + as'), Padded(b % 3600 / 60, 2) + (":" + bs);
    assert ClockText(a) == Padded(a / 3600, 2) + (":" + am) && ClockText(b) == Padded(b / 3600, 2) + (":" + bm);
    hide *;
    FieldFirst(a / 3600, b / 3600, 2, ":" + am, ":" + bm);
    if a / 3600 == b / 3600 {
      FieldFirst(a % 3600 / 60, b % 3600 / 60, 2, ":" + as', ":" + bs);
      if a % 3600 / 60 == b % 3600 / 60 {
        PaddedOrder(a % 60, b % 60, 2);
        LessAfter(":", as', bs);
      }
      LessAfter(":", am, bm);
    }
  }

  /** The hour, minute and second of a day are ordered like the seconds they stand for. */
  lemma ClockSplits(a: nat, b: nat)
    requires a < b < DAY
    ensures a / 3600 < 100 && b / 3600 < 100 && a % 3600 / 60 < 100 && b % 3600 / 60 < 100
    ensures a / 3600 <= b / 3600
    ensures a / 3600 == b / 3600 ==> a % 3600 / 60 <= b % 3600 / 60
    ensures a / 3600 == b / 3600 && a % 3600 / 60 == b % 3600 / 60 ==> a % 60 < b % 60
  {
    SecondOfHour(a);
    SecondOfHour(b);
  }

  lemma SecondOfHour(a: nat)
    ensures a % 60 == a % 3600 % 60
  {
    var h := a / 3600;
    assert a == 60 * (60 * h) + a % 3600;
    ModShift(a % 3600, 60 * h);
  }

  lemma ModShift(r: nat, k: nat)
    ensures (60 * k + r) % 60 == r % 60
  {
  }

  lemma DateTextWidth(date: Date)
    requires Writable(date)
    ensures |DateText(date)| == 10
  {
    FieldsFit(date);
    PaddedWidth(date.year, 4);
    PaddedWidth(date.month, 2);
    PaddedWidth(date.day, 2);
  }

  lemma FormatParts(t: int)
    requires FourDigitYear(t)
    ensures Writable(CivilFromDays(t / DAY)) && 0 <= t % DAY < DAY
    ensures FormatTimestamp(t) == DateText(CivilFromDays(t / DAY)) + ("T" + ClockText(t % DAY))
  {
    CivilIsExact(t / DAY);
  }

  lemma DaySplits(t: int, t': int)
    requires t < t'
    ensures t / DAY <= t' / DAY
    ensures t / DAY == t' / DAY ==> t % DAY < t' % DAY
  {
  }

  lemma EarlierText(t: int, t': int)
    requires FourDigitYear(t) && FourDigitYear(t') && t < t'
    ensures StrLess(FormatTimestamp(t), FormatTimestamp(t'))
  {
    assert DAY == 86_400;
    hide *;
    var d, d' := CivilFromDays(t / DAY), CivilFromDays(t' / DAY);
    FormatParts(t);
    FormatParts(t');
    var c, c' := ClockText(t % DAY), ClockText(t' % DAY);
    DaySplits(t, t');
    if t / DAY < t' / DAY {
      CivilKeepsOrder(t / DAY, t' / DAY);
      DateTextOrder(d, d');
      DateTextWidth(d);
      DateTextWidth(d');
      LessBefore(DateText(d), DateText(d'), "T" + c, "T" + c');
    } else {
      ClockTextOrder(t % DAY, t' % DAY);
      LessAfter("T", c, c');
      LessAfter(DateText(d), "T" + c, "T" + c');
    }
  }

  /** Within the years 0000 to 9999, sorting the texts sorts the times. */
  lemma TextOrderIsTimeOrder(t: int, t': int)
    requires FourDigitYear(t) && FourDigitYear(t')
    ensures StrLess(FormatTimestamp(t), FormatTimestamp(t')) <==> t < t'
    ensures FormatTimestamp(t) == FormatTimestamp(t') <==> t == t'
  {
    if t < t' {
      EarlierText(t, t');
      StrTotal(FormatTimestamp(t), FormatTimestamp(t'));
    } else if t' < t {
      EarlierText(t', t);
      StrTotal(FormatTimestamp(t), FormatTimestamp(t'));
    }
  }

  /** The four-digit years are one stretch of time: 719,528 days before 1970 up to the end of 9999. */
  lemma FourDigitTimes(time: int)
    ensures FourDigitYear(time) <==> -719_528 * DAY <= time < 2_932_897 * DAY
  {
    var first, after := Date(0, 1, 1), Date(10_000, 1, 1);
    MonthTable(0);
    MonthTable(10_000);
    assert DayNumber(first) == -719_528 && DayNumber(after) == 2_932_897;
    assert IsDate(first) && IsDate(after);
    var date := CivilFromDays(time / DAY);
    CivilIsExact(time / DAY);
    DayNumberIncreases(date, first);
    DayNumberIncreases(date, after);
    assert 0 <= date.year <==> !Earlier(date, first);
    assert date.year <= 9999 <==> Earlier(date, after);
  }

  /** The first second of the year 10000 sorts before the second that precedes it. */
  lemma FiveDigitYearsSortWrong()
    ensures var last := 2_932_897 * DAY - 1;
            FourDigitYear(last) && StrLess(FormatTimestamp(last + 1), FormatTimestamp(last))
  {
    var last := 2_932_897 * DAY - 1;
    assert DAY == 86_400 && last / DAY == 2_932_896 && (last + 1) / DAY == 2_932_897;
    hide *;
    FourDigitTimes(last);
    LastDay();
    FourDigitStart();
    YearFirst(last + 1, "10000");
    YearFirst(last, "9999");
    FirstLess(FormatTimestamp(last + 1), FormatTimestamp(last));
  }

  lemma FirstLess(a: string, b: string)
    requires a != "" && b != "" && a[0] < b[0]
    ensures StrLess(a, b)
  {
  }

  lemma YearFirst(time: int, year: string)
    requires year != "" && CivilFromDays(time / DAY).year >= 0
    requires Padded(CivilFromDays(time / DAY).year, 4) == year
    ensures FormatTimestamp(time) != "" && FormatTimestamp(time)[0] == year[0]
  {
    hide CivilFromDays;
  }

  lemma LastDay()
    ensures CivilFromDays(2_932_896) == Date(9999, 12, 31) && CivilFromDays(2_932_897) == Date(10_000, 1, 1)
  {
    MonthTable(9999);
    MonthTable(10_000);
    assert DayNumber(Date(9999, 12, 31)) == 2_932_896 && DayNumber(Date(10_000, 1, 1)) == 2_932_897;
    CivilInverts(Date(9999, 12, 31));
    CivilInverts(Date(10_000, 1, 1));
  }

  lemma FourDigitStart()
    ensures Padded(10_000, 4) == "10000" && Padded(9999, 4) == "9999"
  {
    assert Digits(10) == "10" && Digits(100) == "100" && Digits(1000) == "1000" && Digits(10_000) == "10000";
    assert Digits(99) == "99" && Digits(999) == "999" && Digits(9999) == "9999";
  }
}
