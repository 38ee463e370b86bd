/**
 The proleptic Gregorian calendar, counted in days from 1 January of year 0: what the
 timestamp encoding and the cron preview take from their languages' date libraries.
 */
module Calendar {
  datatype Date = Date(year: nat, month: nat, day: nat)

  predicate Leap(y: nat) {
    y % 4 == 0 && (y % 100 != 0 || y % 400 == 0)
  }

  function YearLength(y: nat): nat {
    if Leap(y) then 366 else 365
  }

  function MonthLength(y: nat, m: nat): nat {
    if m == 2 then (if Leap(y) then 29 else 28)
    else if m == 4 || m == 6 || m == 9 || m == 11 then 30
    else 31
  }

  predicate ValidDate(d: Date) {
    1 <= d.month <= 12 && 1 <= d.day <= MonthLength(d.year, d.month)
  }

  function YearStart(y: nat): nat {
    if y == 0 then 0 else YearStart(y - 1) + YearLength(y - 1)
  }

  /** Days of the year before its month `m`. */
  function MonthStart(y: nat, m: nat): nat
    requires 1 <= m <= 13
  {
    if m == 1 then 0 else MonthStart(y, m - 1) + MonthLength(y, m - 1)
  }

  function DayNumber(d: Date): nat
    requires ValidDate(d)
  {
    YearStart(d.year) + MonthStart(d.year, d.month) + d.day - 1
  }

  /** The year of day `n`, searched from year `y` on. */
  function YearOf(n: nat, y: nat): (r: nat)
    requires YearStart(y) <= n
    ensures YearStart(r) <= n < YearStart(r + 1)
    decreases n - YearStart(y)
  {
    if n < YearStart(y + 1) then y else YearOf(n, y + 1)
  }

  /** The month of day `n` of year `y`, searched from month `m` on. */
  function MonthOf(y: nat, n: nat, m: nat): (r: nat)
    requires 1 <= m <= 12 && MonthStart(y, m) <= n < YearLength(y)
    ensures 1 <= r <= 12 && MonthStart(y, r) <= n < MonthStart(y, r + 1)
    decreases 12 - m
  {
    TwelveMonths(y);
    if n < MonthStart(y, m + 1) then m else MonthOf(y, n, m + 1)
  }

  lemma TwelveMonths(y: nat)
    ensures MonthStart(y, 13) == YearLength(y)
  {
    assert MonthStart(y, 2) == 31;
    assert MonthStart(y, 3) == 31 + MonthLength(y, 2);
    assert MonthStart(y, 5) == MonthStart(y, 3) + 61;
    assert MonthStart(y, 7) == MonthStart(y, 5) + 61;
    assert MonthStart(y, 9) == MonthStart(y, 7) + 62;
    assert MonthStart(y, 11) == MonthStart(y, 9) + 61;
    assert MonthStart(y, 13) == MonthStart(y, 11) + 61;
  }

  function Civil(n: nat): (d: Date)
    ensures ValidDate(d) && DayNumber(d) == n
  {
    var y := YearOf(n, 0);
    var rest := n - YearStart(y);
    var m := MonthOf(y, rest, 1);
    Date(y, m, rest - MonthStart(y, m) + 1)
  }

  /** Sunday is 0; the first day of year 0 is a Saturday. */
  function Weekday(n: nat): nat {
    (n + 6) % 7
  }

  // ----- anchors

  function OneIf(b: bool): nat {
    if b then 1 else 0
  }

  lemma Multiples(k: nat)
    ensures 100 * k % 100 == 0 && 4 * k % 4 == 0
  {
  }

  lemma LeapCounts(y: nat)
    ensures OneIf(Leap(y)) == OneIf(y % 4 == 0) - OneIf(y % 100 == 0) + OneIf(y % 400 == 0)
  {
    if y % 400 == 0 {
      Multiples(4 * (y / 400));
    }
    if y % 100 == 0 {
      Multiples(25 * (y / 100));
    }
  }

  /** The multiples of a number up to `y` are those up to `y - 1`, and `y` if it is one. */
  lemma FoursGrow(y: nat)
    ensures (y + 4) / 4 - (y + 3) / 4 == OneIf(y % 4 == 0)
  {
  }

  lemma HundredsGrow(y: nat)
    ensures (y + 100) / 100 - (y + 99) / 100 == OneIf(y % 100 == 0)
  {
  }

  lemma FourHundredsGrow(y: nat)
    ensures (y + 400) / 400 - (y + 399) / 400 == OneIf(y % 400 == 0)
  {
  }

  lemma CenturiesOn(y: nat)
    ensures (y + 400 + 3) / 4 == (y + 3) / 4 + 100
    ensures (y + 400 + 99) / 100 == (y + 99) / 100 + 4
    ensures (y + 400 + 399) / 400 == (y + 399) / 400 + 1
  {
  }

  /** Ordinary years, and a day more for every leap year before. */
  lemma {:induction false} YearStartIs(y: nat)
    ensures YearStart(y) == 365 * y + (y + 3) / 4 - (y + 99) / 100 + (y + 399) / 400
  {
    hide Leap;
    if y > 0 {
      YearStartIs(y - 1);
      LeapCounts(y - 1);
      FoursGrow(y - 1);
      HundredsGrow(y - 1);
      FourHundredsGrow(y - 1);
    }
  }

  /** The calendar repeats every 400 years, which are 146097 days and so whole weeks. */
  lemma FourCenturies(y: nat)
    ensures YearStart(y + 400) == YearStart(y) + 146097
  {
    hide YearStart;
    CenturiesOn(y);
    YearStartIs(y);
    YearStartIs(y + 400);
  }

  /** Days of the week follow one another; 1 January 2000 was a Saturday and 1 January 1970 a Thursday. */
  lemma WeekdaysFollow(n: nat, millennium: Date, epoch: Date)
    requires millennium == Date(2000, 1, 1) && epoch == Date(1970, 1, 1)
    ensures Weekday(n) <= 6 && Weekday(n + 1) == (Weekday(n) + 1) % 7
    ensures DayNumber(millennium) == 730485 && Weekday(DayNumber(millennium)) == 6
    ensures DayNumber(epoch) == 719528 && Weekday(DayNumber(epoch)) == 4
  {
    hide YearStart;
    YearStartIs(millennium.year);
    YearStartIs(epoch.year);
  }

  /** Thirty days in four months, 31 in seven, and 28 or 29 in February: 29 in 2024 and 2000, 28 in 2023 and 1900. */
  lemma MonthEnds(y: nat, m: nat)
    ensures ValidDate(Date(y, m, 31)) <==> m in {1, 3, 5, 7, 8, 10, 12}
    ensures ValidDate(Date(y, m, 30)) <==> 1 <= m <= 12 && m != 2
    ensures 1 <= m <= 12 ==> ValidDate(Date(y, m, 28)) && !ValidDate(Date(y, m, 32)) && !ValidDate(Date(y, m, 0))
    ensures y in {2000, 2024} ==> ValidDate(Date(y, 2, 29))
    ensures y in {1900, 2023} ==> !ValidDate(Date(y, 2, 29))
  {
  }

  predicate Earlier(a: Date, b: Date) {
    || a.year < b.year
    || (a.year == b.year && a.month < b.month)
    || (a.year == b.year && a.month == b.month && a.day < b.day)
  }

  lemma {:induction false} YearsAscend(a: nat, b: nat)
    requires a < b
    ensures YearStart(a + 1) <= YearStart(b)
    decreases b
  {
    if a + 1 < b {
      YearsAscend(a, b - 1);
    }
  }

  lemma {:induction false} MonthsAscend(y: nat, a: nat, b: nat)
    requires 1 <= a < b <= 13
    ensures MonthStart(y, a + 1) <= MonthStart(y, b)
    decreases b
  {
    if a + 1 < b {
      MonthsAscend(y, a, b - 1);
    }
  }

  /** Dates compare field by field as their day numbers do. */
  lemma DatesAscend(a: Date, b: Date)
    requires ValidDate(a) && ValidDate(b)
    ensures Earlier(a, b) <==> DayNumber(a) < DayNumber(b)
    ensures a == b <==> DayNumber(a) == DayNumber(b)
  {
    if Earlier(a, b) {
      EarlierIsLess(a, b);
    } else if Earlier(b, a) {
      EarlierIsLess(b, a);
    }
  }

  lemma EarlierIsLess(a: Date, b: Date)
    requires ValidDate(a) && ValidDate(b) && Earlier(a, b)
    ensures DayNumber(a) < DayNumber(b)
  {
    TwelveMonths(a.year);
    if a.month < 12 {
      MonthsAscend(a.year, a.month, 13);
    }
    if a.year < b.year {
      YearsAscend(a.year, b.year);
    } else if a.month < b.month {
      MonthsAscend(a.year, a.month, b.month);
    }
  }

  lemma CivilOfDayNumber(d: Date)
    requires ValidDate(d)
    ensures Civil(DayNumber(d)) == d
  {
    DatesAscend(Civil(DayNumber(d)), d);
  }
}
