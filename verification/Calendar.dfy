/** The month window of the ledger's filter (apps/personal-core/pkg/model/transaction.go): two dates as
    text, the first day printed directly and the last day through time.Date with day zero of the next month. */
module Calendar {
  import opened Lexicographic

  datatype Date = Date(year: int, month: int, day: int)

  predicate Leap(y: int) {
    y % 4 == 0 && (y % 100 != 0 || y % 400 == 0)
  }

  function DaysIn(y: int, m: int): int
    requires 1 <= m <= 12
  {
    if m == 2 then (if Leap(y) then 29 else 28)
    else if m == 4 || m == 6 || m == 9 || m == 11 then 30
    else 31
  }

  predicate ValidDate(d: Date) {
    d.year >= 1 && 1 <= d.month <= 12 && 1 <= d.day <= DaysIn(d.year, d.month)
  }

  // ---------------------------------------------------------------- day numbers

  /** Days from the first day of year 1 to the first day of year y. */
  function DaysBeforeYear(y: int): int
    requires y >= 1
  {
    365 * (y - 1) + (y - 1) / 4 - (y - 1) / 100 + (y - 1) / 400
  }

  function DaysInYear(y: int): int {
    if Leap(y) then 366 else 365
  }

  /** One more multiple of 4, of 100 or of 400 is passed exactly at a multiple. */
  lemma Multiples(y: int)
    requires y >= 1
    ensures y / 4 == (y - 1) / 4 + (if y % 4 == 0 then 1 else 0)
    ensures y / 100 == (y - 1) / 100 + (if y % 100 == 0 then 1 else 0)
    ensures y / 400 == (y - 1) / 400 + (if y % 400 == 0 then 1 else 0)
  {
  }

  lemma CenturyLeap(y: int)
    ensures y % 100 == 0 ==> y % 4 == 0
    ensures y % 400 == 0 ==> y % 100 == 0
  {
  }

  lemma YearStep(y: int)
    requires y >= 1
    ensures DaysBeforeYear(y + 1) == DaysBeforeYear(y) + DaysInYear(y)
  {
    Multiples(y);
    CenturyLeap(y);
  }

  function DaysBeforeMonth(y: int, m: int): int
    requires 1 <= m <= 13
    decreases m
  {
    if m == 1 then 0 else DaysBeforeMonth(y, m - 1) + DaysIn(y, m - 1)
  }

  lemma WholeYear(y: int)
    ensures DaysBeforeMonth(y, 13) == DaysInYear(y)
  {
    assert DaysBeforeMonth(y, 3) == 31 + DaysIn(y, 2);
    assert DaysBeforeMonth(y, 6) == DaysBeforeMonth(y, 3) + 92;
    assert DaysBeforeMonth(y, 9) == DaysBeforeMonth(y, 6) + 92;
    assert DaysBeforeMonth(y, 12) == DaysBeforeMonth(y, 9) + 91;
  }

  function FirstOf(y: int, m: int): int
    requires y >= 1 && 1 <= m <= 12
  {
    DaysBeforeYear(y) + DaysBeforeMonth(y, m)
  }

  function DayNumber(d: Date): int
    requires d.year >= 1 && 1 <= d.month <= 12
  {
    FirstOf(d.year, d.month) + (d.day - 1)
  }

  // ---------------------------------------------------------------- time.Date

  function YearOf(n: int, y: int): (r: int)
    requires y >= 1 && DaysBeforeYear(y) <= n
    ensures r >= y && DaysBeforeYear(r) <= n < DaysBeforeYear(r + 1)
    decreases n - DaysBeforeYear(y)
  {
    YearStep(y);
    if n < DaysBeforeYear(y + 1) then y else YearOf(n, y + 1)
  }

  function MonthOf(y: int, k: int, m: int): (r: int)
    requires 1 <= m <= 12 && DaysBeforeMonth(y, m) <= k < DaysBeforeMonth(y, 13)
    ensures m <= r <= 12 && DaysBeforeMonth(y, r) <= k < DaysBeforeMonth(y, r + 1)
    decreases 12 - m
  {
    if k < DaysBeforeMonth(y, m + 1) then m else MonthOf(y, k, m + 1)
  }

  /** The date with a given day number. */
  function Civil(n: int): (d: Date)
    requires n >= 0
    ensures ValidDate(d) && DayNumber(d) == n
  {
    var y := YearOf(n, 1);
    YearStep(y);
    WholeYear(y);
    var k := n - DaysBeforeYear(y);
    var m := MonthOf(y, k, 1);
    Date(y, m, k - DaysBeforeMonth(y, m) + 1)
  }

  /** The first of a month, where months beyond December carry into the year. */
  function MonthStart(y: int, m: int): int
    requires y >= 1 && m >= 1
  {
    FirstOf(y + (m - 1) / 12, (m - 1) % 12 + 1)
  }

  /** time.Date at midnight UTC: any day is counted from the first of the month. */
  function GoDate(y: int, m: int, d: int): Date
    requires y >= 1 && m >= 1 && MonthStart(y, m) + d >= 1
  {
    Civil(MonthStart(y, m) + d - 1)
  }

  lemma {:induction false} YearsApart(y: int, z: int)
    requires 1 <= y < z
    ensures DaysBeforeYear(y) + DaysInYear(y) <= DaysBeforeYear(z)
    decreases z
  {
    YearStep(z - 1);
    if y < z - 1 {
      YearsApart(y, z - 1);
    }
  }

  lemma {:induction false} MonthsApart(y: int, m: int, n: int)
    requires 1 <= m < n <= 13
    ensures DaysBeforeMonth(y, m) + DaysIn(y, m) <= DaysBeforeMonth(y, n)
    decreases n
  {
    if m < n - 1 {
      MonthsApart(y, m, n - 1);
    }
  }

  predicate Earlier(a: Date, b: Date) {
    a.year < b.year || (a.year == b.year && (a.month < b.month || (a.month == b.month && a.day < b.day)))
  }

  /** Day numbers order valid dates as the calendar does. */
  lemma DayNumberOrder(a: Date, b: Date)
    requires ValidDate(a) && ValidDate(b) && Earlier(a, b)
    ensures DayNumber(a) < DayNumber(b)
  {
    if a.year < b.year {
      YearsApart(a.year, b.year);
      WholeYear(a.year);
      MonthsApart(a.year, a.month, 13);
      if b.month > 1 {
        MonthsApart(b.year, 1, b.month);
      }
    } else if a.month < b.month {
      MonthsApart(a.year, a.month, b.month);
    }
  }

  lemma DayNumberInjective(a: Date, b: Date)
    requires ValidDate(a) && ValidDate(b) && DayNumber(a) == DayNumber(b)
    ensures a == b
  {
    if Earlier(a, b) {
      DayNumberOrder(a, b);
    } else if Earlier(b, a) {
      DayNumberOrder(b, a);
    }
  }

  lemma StartsLater(y: int, m: int)
    requires y >= 1 && 1 <= m <= 13
    ensures DaysBeforeYear(y) >= 0 && DaysBeforeMonth(y, m) >= 0
  {
    if y > 1 {
      YearsApart(1, y);
    }
    if m > 1 {
      MonthsApart(y, 1, m);
    }
  }

  lemma Carry(y: int, m: int)
    requires y >= 1 && 1 <= m <= 13
    ensures MonthStart(y, m) == (if m <= 12 then FirstOf(y, m) else FirstOf(y + 1, 1))
  {
    var q, r := (m - 1) / 12, (m - 1) % 12 + 1;
    assert q == (if m <= 12 then 0 else 1) && r == (if m <= 12 then m else 1);
  }

  lemma FirstOfNext(y: int, m: int)
    requires y >= 1 && 1 <= m <= 12
    ensures (if m < 12 then FirstOf(y, m + 1) else FirstOf(y + 1, 1)) == FirstOf(y, m) + DaysIn(y, m)
  {
    if m == 12 {
      YearStep(y);
      WholeYear(y);
    }
  }

  /** The next month begins where this one ends, the December rollover and leap years included. */
  lemma NextMonth(y: int, m: int)
    requires y >= 1 && 1 <= m <= 12
    ensures FirstOf(y, m) >= 0
    ensures MonthStart(y, m + 1) == FirstOf(y, m) + DaysIn(y, m)
  {
    Carry(y, m + 1);
    FirstOfNext(y, m);
    StartsLater(y, m);
  }

  /** Day zero of a later month is never before the first day of year 1. */
  lemma AfterStart(y: int, m: int)
    requires y >= 1 && m >= 1
    ensures MonthStart(y, m + 1) >= 1
  {
    var z, n := y + m / 12, m % 12 + 1;
    StartsLater(z, n);
    if n > 1 {
      MonthsApart(z, 1, n);
    } else {
      assert m / 12 >= 1;
      YearsApart(1, z);
    }
    assert m + 1 - 1 == m;
    assert MonthStart(y, m + 1) == FirstOf(z, n);
  }

  lemma CivilBack(d: Date)
    requires ValidDate(d) && DayNumber(d) >= 0
    ensures Civil(DayNumber(d)) == d
  {
    DayNumberInjective(Civil(DayNumber(d)), d);
  }

  /** Day zero of the next month is the last day of this one. */
  lemma DayZero(y: int, m: int)
    requires y >= 1 && 1 <= m <= 12
    ensures MonthStart(y, m + 1) >= 1
    ensures GoDate(y, m + 1, 0) == Date(y, m, DaysIn(y, m))
  {
    NextMonth(y, m);
    CivilBack(Date(y, m, DaysIn(y, m)));
  }

  // ---------------------------------------------------------------- dates as text

  /** The layout 2006-01-02. */
  function Text(d: Date): string
    requires d.year >= 0 && d.month >= 0 && d.day >= 0
  {
    Padded(d.year, 4) + "-" + Padded(d.month, 2) + "-" + Padded(d.day, 2)
  }

  function FirstDay(y: int, m: int): string
    requires y >= 0 && m >= 0
  {
    Padded(y, 4) + "-" + Padded(m, 2) + "-01"
  }

  function LastDay(y: int, m: int): string
    requires y >= 1 && m >= 1
  {
    AfterStart(y, m);
    Text(GoDate(y, m + 1, 0))
  }

  function Plain(d: Date): string
    requires d.year >= 0 && d.month >= 0 && d.day >= 0
  {
    Fixed(d.year, 4) + ("-" + (Fixed(d.month, 2) + ("-" + Fixed(d.day, 2))))
  }

  lemma TextIsPlain(d: Date)
    requires 0 <= d.year <= 9999 && 0 <= d.month <= 99 && 0 <= d.day <= 99
    ensures Text(d) == Plain(d)
  {
    assert Pow10(4) == 10000 && Pow10(2) == 100;
    PaddedIsFixed(d.year, 4);
    PaddedIsFixed(d.month, 2);
    PaddedIsFixed(d.day, 2);
  }

  /** Dates of years 1 to 9999 compare as text exactly as in the calendar. */
  lemma TextOrder(a: Date, b: Date)
    requires 0 <= a.year <= 9999 && 0 <= a.month <= 99 && 0 <= a.day <= 99
    requires 0 <= b.year <= 9999 && 0 <= b.month <= 99 && 0 <= b.day <= 99
    ensures Less(Text(a), Text(b)) <==> Earlier(a, b)
    ensures Text(a) == Text(b) <==> a == b
  {
    TextIsPlain(a);
    TextIsPlain(b);
    assert Pow10(4) == 10000 && Pow10(2) == 100;
    FixedOrder(a.year, b.year, 4);
    FixedOrder(a.month, b.month, 2);
    FixedOrder(a.day, b.day, 2);
    var ad, bd := "-" + Fixed(a.day, 2), "-" + Fixed(b.day, 2);
    var am, bm := Fixed(a.month, 2) + ad, Fixed(b.month, 2) + bd;
    DashOrder(Fixed(a.day, 2), Fixed(b.day, 2));
    LessConcat(Fixed(a.month, 2), ad, Fixed(b.month, 2), bd);
    DashOrder(am, bm);
    LessConcat(Fixed(a.year, 4), "-" + am, Fixed(b.year, 4), "-" + bm);
    PlainParts(a);
    PlainParts(b);
  }

  lemma DashOrder(u: string, v: string)
    ensures Less("-" + u, "-" + v) <==> Less(u, v)
  {
    assert ("-" + u)[1..] == u && ("-" + v)[1..] == v;
  }

  lemma PlainParts(d: Date)
    requires d.year >= 0 && d.month >= 0 && d.day >= 0
    ensures var s := Plain(d);
            && |s| == 10 && s[..4] == Fixed(d.year, 4)
            && s[5..7] == Fixed(d.month, 2) && s[8..] == Fixed(d.day, 2)
  {
  }

  /** The layout: ten characters, year, month and day as decimals of four, two and two digits, and dashes between. */
  lemma TextLayout(d: Date)
    requires 0 <= d.year <= 9999 && 0 <= d.month <= 99 && 0 <= d.day <= 99
    ensures var s := Text(d);
            && |s| == 10 && s[4] == '-' && s[7] == '-'
            && IsNumeral(s[..4]) && ReadDecimal(s[..4]) == d.year
            && IsNumeral(s[5..7]) && ReadDecimal(s[5..7]) == d.month
            && IsNumeral(s[8..]) && ReadDecimal(s[8..]) == d.day
  {
    TextIsPlain(d);
    PlainParts(d);
    assert Pow10(4) == 10000 && Pow10(2) == 100;
    FixedReads(d.year, 4);
    FixedReads(d.month, 2);
    FixedReads(d.day, 2);
    PlainDashes(d);
  }

  lemma PlainDashes(d: Date)
    requires d.year >= 0 && d.month >= 0 && d.day >= 0
    ensures |Plain(d)| == 10 && Plain(d)[4] == '-' && Plain(d)[7] == '-'
  {
    var b := Fixed(d.month, 2) + ("-" + Fixed(d.day, 2));
    assert b[2] == '-';
    assert Plain(d) == Fixed(d.year, 4) + ("-" + b);
  }

  /** The Gregorian calendar: four centuries are 146097 days, the days before 1970 are 719162, and of the years
      1900, 2000, 2023 and 2024 the second and the last have a 29th of February. */
  lemma Gregorian()
    ensures DaysBeforeYear(401) == 146097 && DayNumber(Date(1970, 1, 1)) == 719162
    ensures !ValidDate(Date(1900, 2, 29)) && ValidDate(Date(2000, 2, 29))
    ensures !ValidDate(Date(2023, 2, 29)) && ValidDate(Date(2024, 2, 29))
    ensures DayNumber(Date(2024, 12, 31)) - DayNumber(Date(2024, 1, 1)) == 365
    ensures DayNumber(Date(2023, 12, 31)) - DayNumber(Date(2023, 1, 1)) == 364
  {
    WholeYear(2024);
    WholeYear(2023);
  }

  /** The BETWEEN test of the filter. */
  predicate InMonth(date: string, y: int, m: int)
    requires y >= 1 && m >= 1
  {
    LessEq(FirstDay(y, m), date) && LessEq(date, LastDay(y, m))
  }

  lemma FirstDayIsText(y: int, m: int)
    requires 1 <= y <= 9999 && 1 <= m <= 12
    ensures FirstDay(y, m) == Text(Date(y, m, 1))
  {
    assert Digits(1) == "1";
    assert Padded(1, 2) == "01";
    var a := Padded(y, 4) + "-" + Padded(m, 2);
    assert a + "-01" == a + "-" + "01";
  }

  /** For years 1 to 9999 the text range of a month holds exactly the valid dates of that month. */
  lemma MonthWindow(d: Date, y: int, m: int)
    requires ValidDate(d) && d.year <= 9999 && 1 <= y <= 9999 && 1 <= m <= 12
    ensures InMonth(Text(d), y, m) <==> d.year == y && d.month == m
  {
    var first, last := Date(y, m, 1), Date(y, m, DaysIn(y, m));
    DayZero(y, m);
    FirstDayIsText(y, m);
    TextOrder(first, d);
    TextOrder(d, last);
  }

  /** So every date is in exactly one month's window. */
  lemma ExactlyOneMonth(d: Date)
    requires ValidDate(d) && d.year <= 9999
    ensures InMonth(Text(d), d.year, d.month)
    ensures forall y, m :: 1 <= y <= 9999 && 1 <= m <= 12 && InMonth(Text(d), y, m) ==> y == d.year && m == d.month
  {
    MonthWindow(d, d.year, d.month);
    forall y, m | 1 <= y <= 9999 && 1 <= m <= 12 && InMonth(Text(d), y, m)
      ensures y == d.year && m == d.month
    {
      MonthWindow(d, y, m);
    }
  }
}
