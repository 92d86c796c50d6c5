// The Gregorian calendar as clause 3.2.1 of ISO 8601:2004 counts it: a leap-year
// rule, a table of month lengths, and the step from one day to the next.
module Gregorian {

  datatype YearMonthDay = YearMonthDay(year: int, month: int, day: int)

  predicate LeapYear(year: int) {
    year % 400 == 0 || (year % 4 == 0 && year % 100 != 0)
  }

  function DaysInMonth(year: int, month: int): int
    requires 1 <= month <= 12
  {
    if month == 2 then (if LeapYear(year) then 29 else 28)
    else if month in {4, 6, 9, 11} then 30
    else 31
  }

  predicate Valid(date: YearMonthDay) {
    1 <= date.month <= 12 && 1 <= date.day <= DaysInMonth(date.year, date.month)
  }

  function NextDay(date: YearMonthDay): (next: YearMonthDay)
    requires Valid(date)
    ensures Valid(next)
  {
    if date.day < DaysInMonth(date.year, date.month) then date.(day := date.day + 1)
    else if date.month < 12 then YearMonthDay(date.year, date.month + 1, 1)
    else YearMonthDay(date.year + 1, 1, 1)
  }

  // The date n days after the given one, found by counting one day at a time.
  function DaysAfter(date: YearMonthDay, n: nat): (later: YearMonthDay)
    requires Valid(date)
    ensures Valid(later)
  {
    if n == 0 then date else NextDay(DaysAfter(date, n - 1))
  }

  // Lexicographic order on (year, month, day).
  predicate Before(a: YearMonthDay, b: YearMonthDay) {
    a.year < b.year || (a.year == b.year && (a.month < b.month || (a.month == b.month && a.day < b.day)))
  }

  // The first day of the proleptic years on which the closed formulas rest.
  const FIRST := YearMonthDay(-4800, 3, 1)

  predicate InRange(date: YearMonthDay) {
    Valid(date) && !Before(date, FIRST)
  }
}

// The two division formulas of Date.cc and the operators of Date.h.
module DateOp {
  import opened Common
  import opened Gregorian

  // Years counted from 1 March -4800, and months counted from March.
  function MarchYear(date: YearMonthDay): int {
    date.year + 4800 - CDiv(14 - date.month, 12)
  }

  function MarchMonth(date: YearMonthDay): int {
    date.month + 12 * CDiv(14 - date.month, 12) - 3
  }

  function JulianDayNum(date: YearMonthDay): int {
    var y := MarchYear(date);
    var m := MarchMonth(date);
    date.day + CDiv(153 * m + 2, 5) + y * 365 + CDiv(y, 4) - CDiv(y, 100) + CDiv(y, 400) - 32045
  }

  // The locals of getYearMonthDay.
  datatype Stages = Stages(a: int, b: int, c: int, d: int, e: int, m: int)

  function StagesOf(julianDayNumber: int): Stages {
    var a := julianDayNumber + 32044;
    var b := CDiv(4 * a + 3, 146097);
    var c := a - CDiv(b * 146097, 4);
    var d := CDiv(4 * c + 3, 1461);
    var e := c - CDiv(1461 * d, 4);
    Stages(a, b, c, d, e, CDiv(5 * e + 2, 153))
  }

  function YearMonthDayOf(julianDayNumber: int): YearMonthDay {
    var s := StagesOf(julianDayNumber);
    YearMonthDay(s.b * 100 + s.d - 4800 + CDiv(s.m, 10),
                 s.m + 3 - 12 * CDiv(s.m, 10),
                 s.e - CDiv(153 * s.m + 2, 5) + 1)
  }

  function WeekDay(julianDayNumber: int): int {
    CMod(julianDayNumber + 1, 7)
  }

  // Days before the year y, and before the month m, in the count that starts in March.
  function DaysBeforeYear(y: int): int {
    y * 365 + y / 4 - y / 100 + y / 400
  }

  function DaysBeforeMonth(m: int): int {
    (153 * m + 2) / 5
  }

  // The three stages of the inverse formula, with d, e and m nonnegative.
  lemma CenturyStage(b: int, c: int)
    requires 0 <= b && 0 <= c <= 36524 && (c == 36524 ==> b % 4 == 3)
    ensures (4 * (b * 146097 / 4 + c) + 3) / 146097 == b
  {
    assert b * 146097 == 4 * (36524 * b) + b;
    assert b * 146097 / 4 == 36524 * b + b / 4;
    assert 4 * (b * 146097 / 4 + c) + 3 == 146097 * b + (4 * c + 3 - b % 4);
  }

  lemma YearStage(d: int, e: int)
    requires 0 <= d && 0 <= e <= 365 && (e == 365 ==> d % 4 == 3)
    ensures (4 * (1461 * d / 4 + e) + 3) / 1461 == d
  {
    assert 1461 * d / 4 == 365 * d + d / 4;
    assert 4 * (1461 * d / 4 + e) + 3 == 1461 * d + (4 * e + 3 - d % 4);
  }

  lemma CenturySplit(y: int)
    requires y >= 0
    ensures DaysBeforeYear(y) == y / 100 * 146097 / 4 + 1461 * (y % 100) / 4
  {
    var b, d := y / 100, y % 100;
    assert y / 4 == 25 * b + d / 4;
    assert y / 400 == b / 4;
    assert b * 146097 / 4 == 36524 * b + b / 4;
    assert 1461 * d / 4 == 365 * d + d / 4;
  }

  // Where a valid date sits in the March count.
  lemma MarchShape(date: YearMonthDay)
    requires Valid(date)
    ensures 0 <= MarchMonth(date) <= 11
    ensures MarchYear(date) >= 0 <==> InRange(date)
    ensures InRange(date) ==>
      JulianDayNum(date) == DaysBeforeYear(MarchYear(date)) + DaysBeforeMonth(MarchMonth(date)) + date.day - 32045
    ensures
      var e := DaysBeforeMonth(MarchMonth(date)) + date.day - 1;
      0 <= e <= 365 && (e == 365 ==> MarchMonth(date) == 11 && LeapYear(MarchYear(date) - 4799))
  {
    assert date.month <= 2 ==> CDiv(14 - date.month, 12) == 1;
    assert date.month > 2 ==> CDiv(14 - date.month, 12) == 0;
  }

  lemma MonthStage(date: YearMonthDay)
    requires Valid(date)
    ensures var m := MarchMonth(date);
            (5 * (DaysBeforeMonth(m) + date.day - 1) + 2) / 153 == m && m + 3 - 12 * (m / 10) == date.month
  {
    assert date.month <= 2 ==> CDiv(14 - date.month, 12) == 1;
    assert date.month > 2 ==> CDiv(14 - date.month, 12) == 0;
  }

  // Splitting a nonnegative day count into century, year, month and day.
  lemma SplitBounds(a: int)
    requires a >= 0
    ensures
      var b := (4 * a + 3) / 146097;
      var c := a - b * 146097 / 4;
      b >= 0 && 0 <= c <= 36524 && (c == 36524 ==> b % 4 == 3)
  {
    var b := (4 * a + 3) / 146097;
    assert b * 146097 / 4 == 36524 * b + b / 4;
  }

  lemma YearBounds(c: int)
    requires 0 <= c <= 36524
    ensures
      var d := (4 * c + 3) / 1461;
      var e := c - 1461 * d / 4;
      0 <= d <= 99 && 0 <= e <= 365 && (e == 365 ==> d % 4 == 3) && (e == 365 && d == 99 ==> c == 36524)
  {
    var d := (4 * c + 3) / 1461;
    assert 1461 * d / 4 == 365 * d + d / 4;
  }

  lemma MonthBounds(e: int)
    requires 0 <= e <= 365
    ensures
      var m := (5 * e + 2) / 153;
      var day := e - DaysBeforeMonth(m) + 1;
      var month := m + 3 - 12 * (m / 10);
      0 <= m <= 11 && 1 <= month <= 12 && m / 10 == (if m >= 10 then 1 else 0) &&
      1 <= day <= (if month == 2 then (if e == 365 then 29 else 28) else DaysInMonth(2000, month))
  {
  }

  // The inverse formula, with its stages named.
  lemma NameStages(j: int, b: int, c: int, d: int, e: int, m: int)
    requires b == CDiv(4 * (j + 32044) + 3, 146097) && c == j + 32044 - CDiv(b * 146097, 4)
    requires d == CDiv(4 * c + 3, 1461) && e == c - CDiv(1461 * d, 4) && m == CDiv(5 * e + 2, 153)
    ensures YearMonthDayOf(j) ==
      YearMonthDay(100 * b + d - 4800 + CDiv(m, 10), m + 3 - 12 * CDiv(m, 10), e - CDiv(153 * m + 2, 5) + 1)
  {
    hide CDiv;
  }

  // With every stage nonnegative, truncation plays no part in the inverse formula.
  lemma StagesGiveDate(j: int, b: int, c: int, d: int, e: int, m: int)
    requires b == (4 * (j + 32044) + 3) / 146097 && c == j + 32044 - b * 146097 / 4
    requires d == (4 * c + 3) / 1461 && e == c - 1461 * d / 4 && m == (5 * e + 2) / 153
    requires j >= -32044 && b >= 0 && c >= 0 && d >= 0 && e >= 0 && m >= 0
    ensures YearMonthDayOf(j) == YearMonthDay(100 * b + d - 4800 + m / 10, m + 3 - 12 * (m / 10), e - DaysBeforeMonth(m) + 1)
  {
    NameStages(j, b, c, d, e, m);
  }

  lemma CenturyDays(d: int, e: int, b: int, y: int)
    requires 0 <= d < 100 && 0 <= e <= 365 && y == 100 * b + d && b >= 0
    requires e == 365 ==> LeapYear(y - 4799)
    ensures e == 365 ==> d % 4 == 3
    ensures 0 <= 1461 * d / 4 + e <= 36524
    ensures 1461 * d / 4 + e == 36524 ==> b % 4 == 3
  {
    assert 1461 * d / 4 == 365 * d + d / 4;
  }

  // Every valid date from 1 March -4800 comes back from its day number.
  lemma DateRoundTrip(date: YearMonthDay)
    requires InRange(date)
    ensures JulianDayNum(date) >= -32044
    ensures YearMonthDayOf(JulianDayNum(date)) == date
  {
    hide JulianDayNum, YearMonthDayOf, DaysBeforeYear;
    var y, m := MarchYear(date), MarchMonth(date);
    var b, d, e := y / 100, y % 100, DaysBeforeMonth(m) + date.day - 1;
    var c := 1461 * d / 4 + e;
    var j := JulianDayNum(date);
    assert y >= 0 && 0 <= m <= 11 && j + 32044 == DaysBeforeYear(y) + e && 0 <= e <= 365
        && (e == 365 ==> LeapYear(y - 4799)) by { MarchShape(date); }
    assert e == 365 ==> d % 4 == 3 by { CenturyDays(d, e, b, y); }
    assert 0 <= c <= 36524 && (c == 36524 ==> b % 4 == 3) by { CenturyDays(d, e, b, y); }
    assert j + 32044 == b * 146097 / 4 + c by { CenturySplit(y); }
    CenturyStage(b, c);
    YearStage(d, e);
    MonthStage(date);
    StagesGiveDate(j, b, c, d, e, m);
    assert date.year == y - 4800 + m / 10;
  }

  lemma LastDayOfLeapYear(b: int, d: int)
    requires 0 <= d <= 99 && d % 4 == 3 && (d == 99 ==> b % 4 == 3)
    ensures LeapYear(100 * b + d - 4799)
  {
    if d == 99 {
      LeapCentury(b);
    } else {
      LeapWithinCentury(b - 48, d + 1);
    }
  }

  lemma LeapCentury(b: int)
    requires b % 4 == 3
    ensures LeapYear(100 * b - 4700)
  {
    assert 100 * b - 4700 == 400 * (b / 4 - 11);
  }

  lemma LeapWithinCentury(century: int, rest: int)
    requires 0 < rest < 100 && rest % 4 == 0
    ensures LeapYear(100 * century + rest)
  {
    var year := 100 * century + rest;
    assert year % 4 == 0 by {
      assert year == 4 * (25 * century + rest / 4);
    }
    assert year % 100 == rest;
  }

  // The date that the stages name is valid and has the stages as its March count.
  lemma StagesValid(y: int, m: int, e: int)
    requires y >= 0 && 0 <= e <= 365 && m == (5 * e + 2) / 153
    requires e == 365 ==> LeapYear(y - 4799)
    ensures
      var date := YearMonthDay(y - 4800 + m / 10, m + 3 - 12 * (m / 10), e - DaysBeforeMonth(m) + 1);
      Valid(date) && MarchYear(date) == y && MarchMonth(date) == m
  {
    MonthBounds(e);
  }

  // Every day number from -32044 yields a valid date that maps back to it.
  lemma NumberRoundTrip(j: int)
    requires j >= -32044
    ensures InRange(YearMonthDayOf(j))
    ensures JulianDayNum(YearMonthDayOf(j)) == j
  {
    hide JulianDayNum, YearMonthDayOf, DaysBeforeYear, MarchYear, MarchMonth;
    var a := j + 32044;
    var b := (4 * a + 3) / 146097;
    var c := a - b * 146097 / 4;
    var d := (4 * c + 3) / 1461;
    var e := c - 1461 * d / 4;
    var m := (5 * e + 2) / 153;
    var y := 100 * b + d;
    assert b >= 0 && 0 <= c <= 36524 && (c == 36524 ==> b % 4 == 3) by { SplitBounds(a); }
    assert 0 <= d <= 99 && 0 <= e <= 365 && (e == 365 ==> d % 4 == 3) && (e == 365 && d == 99 ==> c == 36524) by {
      YearBounds(c);
    }
    StagesGiveDate(j, b, c, d, e, m);
    assert e == 365 ==> LeapYear(y - 4799) by {
      if e == 365 { LastDayOfLeapYear(b, d); }
    }
    StagesValid(y, m, e);
    MarchCountGivesNumber(j, y, m, e);
    assert y / 100 == b && y % 100 == d;
    CenturySplit(y);
  }

  lemma MarchCountGivesNumber(j: int, y: int, m: int, e: int)
    requires y >= 0 && 0 <= e <= 365
    requires var date := YearMonthDayOf(j);
             Valid(date) && MarchYear(date) == y && MarchMonth(date) == m && date.day == e - DaysBeforeMonth(m) + 1
    ensures InRange(YearMonthDayOf(j))
    ensures JulianDayNum(YearMonthDayOf(j)) == DaysBeforeYear(y) + e - 32044
  {
    MarchShape(YearMonthDayOf(j));
  }

  // How one day further moves the March count.
  lemma MarchOfNextDay(date: YearMonthDay)
    requires Valid(date)
    ensures
      var next := NextDay(date);
      if date.day < DaysInMonth(date.year, date.month) then
        MarchYear(next) == MarchYear(date) && MarchMonth(next) == MarchMonth(date)
      else if date.month == 2 then
        MarchYear(next) == MarchYear(date) + 1 && MarchMonth(next) == 0 && MarchMonth(date) == 11
      else
        MarchYear(next) == MarchYear(date) && MarchMonth(next) == MarchMonth(date) + 1 &&
        DaysBeforeMonth(MarchMonth(next)) == DaysBeforeMonth(MarchMonth(date)) + date.day
  {
    assert date.month <= 2 ==> CDiv(14 - date.month, 12) == 1;
    assert date.month > 2 ==> CDiv(14 - date.month, 12) == 0;
  }

  // Counting one day further raises the day number by one.
  lemma NextDayNumber(date: YearMonthDay)
    requires InRange(date)
    ensures InRange(NextDay(date))
    ensures JulianDayNum(NextDay(date)) == JulianDayNum(date) + 1
  {
    hide JulianDayNum, MarchYear, MarchMonth, DaysBeforeYear;
    MarchShape(date);
    MarchShape(NextDay(date));
    MarchOfNextDay(date);
    YearLength(MarchYear(date));
    if date.month == 2 {
      FebruaryOf(date);
    }
  }

  lemma FebruaryOf(date: YearMonthDay)
    requires date.month == 2
    ensures MarchYear(date) - 4799 == date.year
  {
  }

  lemma YearLength(y: int)
    requires y >= 0
    ensures DaysBeforeYear(y + 1) - DaysBeforeYear(y) == if LeapYear(y - 4799) then 366 else 365
  {
    QuotientStep(y, 4);
    QuotientStep(y, 100);
    QuotientStep(y, 400);
    LeapRuleShifted(y);
    MultiplesNest(y + 1);
  }

  lemma QuotientStep(y: int, k: int)
    requires k in {4, 100, 400}
    ensures (y + 1) / k == y / k + if (y + 1) % k == 0 then 1 else 0
  {
  }

  // 4800 is a multiple of 400, so the leap rule can be read off the March year.
  lemma LeapRuleShifted(y: int)
    ensures LeapYear(y - 4799) <==> (y + 1) % 400 == 0 || ((y + 1) % 4 == 0 && (y + 1) % 100 != 0)
  {
    Shift4800(y, 4);
    Shift4800(y, 100);
    Shift4800(y, 400);
  }

  lemma Shift4800(y: int, k: int)
    requires k in {4, 100, 400}
    ensures (y - 4799) % k == (y + 1) % k
  {
  }

  lemma MultiplesNest(x: int)
    ensures x % 400 == 0 ==> x % 100 == 0
    ensures x % 100 == 0 ==> x % 4 == 0
  {
  }

  // The closed form agrees with counting days one at a time.
  lemma {:induction false} NumberCountsDays(date: YearMonthDay, n: nat)
    requires InRange(date)
    ensures InRange(DaysAfter(date, n))
    ensures JulianDayNum(DaysAfter(date, n)) == JulianDayNum(date) + n
  {
    hide JulianDayNum, YearMonthDayOf;
    if n > 0 {
      NumberCountsDays(date, n - 1);
      NextDayNumber(DaysAfter(date, n - 1));
    }
  }

  lemma FirstNumber()
    ensures InRange(FIRST) && JulianDayNum(FIRST) == -32044
  {
    assert MarchYear(FIRST) == 0 && MarchMonth(FIRST) == 0;
  }

  // The inverse formula names the date that counting from 1 March -4800 reaches.
  lemma DateCountsDays(n: nat)
    ensures YearMonthDayOf(n - 32044) == DaysAfter(FIRST, n)
  {
    hide JulianDayNum, YearMonthDayOf;
    FirstNumber();
    NumberCountsDays(FIRST, n);
    DateRoundTrip(DaysAfter(FIRST, n));
  }

  lemma {:induction false} DaysAfterIsLater(date: YearMonthDay, n: nat)
    requires Valid(date) && n > 0
    ensures Before(date, DaysAfter(date, n))
  {
    if n > 1 {
      DaysAfterIsLater(date, n - 1);
    } else {
      assert DaysAfter(date, 1) == NextDay(DaysAfter(date, 0));
    }
  }

  // The operators < and == on day numbers order and identify calendar dates.
  lemma OrderAgrees(a: YearMonthDay, b: YearMonthDay)
    requires InRange(a) && InRange(b)
    ensures JulianDayNum(a) < JulianDayNum(b) <==> Before(a, b)
    ensures JulianDayNum(a) == JulianDayNum(b) <==> a == b
  {
    hide JulianDayNum, YearMonthDayOf;
    DateRoundTrip(a);
    DateRoundTrip(b);
    if JulianDayNum(a) < JulianDayNum(b) {
      SmallerNumberIsBefore(a, b);
    } else if JulianDayNum(b) < JulianDayNum(a) {
      SmallerNumberIsBefore(b, a);
    }
  }

  lemma SmallerNumberIsBefore(a: YearMonthDay, b: YearMonthDay)
    requires InRange(a) && InRange(b) && JulianDayNum(a) < JulianDayNum(b)
    ensures Before(a, b)
  {
    hide JulianDayNum, YearMonthDayOf;
    var n := JulianDayNum(b) - JulianDayNum(a);
    NumberCountsDays(a, n);
    DateRoundTrip(DaysAfter(a, n));
    DateRoundTrip(b);
    DaysAfterIsLater(a, n);
  }

  // Below the range truncation pulls every stage towards zero, and no day of a month remains.
  lemma NegativeCentury(p: int, q: int)
    requires p >= 1 && q == (4 * p - 3) / 146097
    ensures q >= 0 && p - q * 146097 / 4 >= 1
  {
  }

  lemma NegativeYear(p: int, q: int)
    requires p >= 1 && q == (4 * p - 3) / 1461
    ensures q >= 0 && p - 1461 * q / 4 >= 1
  {
  }

  lemma NegativeMonth(e: int, m: int)
    requires e >= 1 && m == (5 * e - 2) / 153
    ensures m >= 0 && 1 - e - CDiv(153 * -m + 2, 5) <= 0
  {
    assert 153 * m <= 5 * e - 2;
    if m > 0 {
      assert CDiv(153 * -m + 2, 5) == -((153 * m - 2) / 5);
    }
  }

  // The mirror image of StagesGiveDate: every stage is a negated quotient.
  lemma NegatedStagesGiveDay(j: int, b: int, c: int, d: int, e: int, m: int)
    requires c == -(j + 32044) - b * 146097 / 4 && e == c - 1461 * d / 4
    requires j < -32044 && b >= 0 && c >= 1 && d >= 0 && e >= 1 && m >= 0
    requires b == (4 * -(j + 32044) - 3) / 146097 && d == (4 * c - 3) / 1461 && m == (5 * e - 2) / 153
    ensures YearMonthDayOf(j).day == 1 - e - CDiv(153 * -m + 2, 5)
  {
    hide YearMonthDayOf;
    NegatedQuotients(-(j + 32044), b, c, d, e);
    NegatedMonth(e, m);
    NameStages(j, -b, -c, -d, -e, -m);
  }

  lemma NegatedMonth(e: int, m: int)
    requires e >= 1 && m == (5 * e - 2) / 153
    ensures CDiv(5 * -e + 2, 153) == -m
  {
  }

  lemma NegatedQuotients(p: int, b: int, c: int, d: int, e: int)
    requires p >= 1 && b >= 0 && c >= 1 && d >= 0 && e >= 1
    requires b == (4 * p - 3) / 146097 && d == (4 * c - 3) / 1461
    ensures CDiv(4 * -p + 3, 146097) == -b && CDiv(-b * 146097, 4) == -(b * 146097 / 4)
    ensures CDiv(4 * -c + 3, 1461) == -d && CDiv(1461 * -d, 4) == -(1461 * d / 4)
  {
  }

  lemma BelowRangeHasNoDay(j: int)
    requires j < -32044
    ensures YearMonthDayOf(j).day <= 0
  {
    var p := -(j + 32044);
    var b := (4 * p - 3) / 146097;
    NegativeCentury(p, b);
    var c := p - b * 146097 / 4;
    var d := (4 * c - 3) / 1461;
    NegativeYear(c, d);
    var e := c - 1461 * d / 4;
    var m := (5 * e - 2) / 153;
    NegativeMonth(e, m);
    NegatedStagesGiveDay(j, b, c, d, e, m);
  }

  // Without regard to the width of int, the round trip holds on exactly the dates from 1 March
  // -4800, and in the other direction on exactly the numbers from -32044.
  lemma DateComesBack(date: YearMonthDay)
    requires Valid(date)
    ensures YearMonthDayOf(JulianDayNum(date)) == date <==> InRange(date)
  {
    hide JulianDayNum, YearMonthDayOf;
    var j := JulianDayNum(date);
    if InRange(date) {
      DateRoundTrip(date);
    } else if j >= -32044 {
      NumberRoundTrip(j);
    } else {
      BelowRangeHasNoDay(j);
    }
  }

  lemma NumberComesBack(j: int)
    ensures Valid(YearMonthDayOf(j)) && JulianDayNum(YearMonthDayOf(j)) == j <==> j >= -32044
  {
    hide JulianDayNum, YearMonthDayOf;
    if j >= -32044 {
      NumberRoundTrip(j);
    } else {
      BelowRangeHasNoDay(j);
    }
  }

  // Two dates around the first of the range share a number, so neither formula can tell them apart.
  lemma RangeIsNeeded()
    ensures Valid(YearMonthDay(-4800, 2, 29))
    ensures JulianDayNum(YearMonthDay(-4800, 2, 29)) == JulianDayNum(FIRST)
  {
    var date := YearMonthDay(-4800, 2, 29);
    assert MarchYear(date) == -1 && MarchMonth(date) == 11;
    assert CDiv(-1, 4) == CDiv(-1, 100) == CDiv(-1, 400) == 0;
    assert MarchYear(FIRST) == 0 && MarchMonth(FIRST) == 0;
  }

  // weekDay is defined and a day of the week from the number -1 on, except for the last int, and
  // below -1 only on every seventh number.
  lemma WeekDayInRange(j: int)
    requires FitsInt(j)
    ensures FitsInt(j + 1) && 0 <= WeekDay(j) < 7 <==> j < INT_MAX && (j >= -1 || (j + 1) % 7 == 0)
  {
  }

  // It advances by one modulo seven each day up to the last number that has a weekday, except
  // where truncation restarts it below zero.
  lemma WeekDayAdvances(j: int)
    requires FitsInt(j)
    ensures FitsInt(j + 1) && FitsInt(j + 1 + 1) && WeekDay(j + 1) == CMod(WeekDay(j) + 1, 7)
      <==> j < INT_MAX - 1 && (j >= -1 || (j + 1) % 7 != 0)
  {
  }

  // The weekday of a date n days after 1 January 1900, a Monday.
  lemma WeekDayOfDate(n: nat)
    ensures WeekDay(JulianDayNum(DaysAfter(YearMonthDay(1900, 1, 1), n))) == (1 + n) % 7
  {
    hide JulianDayNum, YearMonthDayOf;
    var monday := YearMonthDay(1900, 1, 1);
    var j := JulianDayNum(DaysAfter(monday, n));
    assert j == 2415021 + n by {
      FirstOf1900();
      NumberCountsDays(monday, n);
    }
    WeekDayFromMonday(j, n);
  }

  lemma WeekDayFromMonday(j: int, n: nat)
    requires j == 2415021 + n
    ensures WeekDay(j) == (1 + n) % 7
  {
    assert 2415021 == 7 * 345003;
  }

  lemma FirstOf1900()
    ensures JulianDayNum(YearMonthDay(1900, 1, 1)) == 2415021
  {
    var date := YearMonthDay(1900, 1, 1);
    assert MarchYear(date) == 6699 && MarchMonth(date) == 10;
  }

  // --- 32-bit int -----------------------------------------------------------------------------

  // No value of getYearMonthDay overflows, in the order of its statements.
  predicate NumberComputable(j: int) {
    var s := StagesOf(j);
    && FitsInt(s.a) && FitsInt(4 * s.a) && FitsInt(4 * s.a + 3) && FitsInt(s.b * 146097) && FitsInt(s.c)
    && FitsInt(4 * s.c) && FitsInt(4 * s.c + 3) && FitsInt(1461 * s.d)
    && FitsInt(s.e) && FitsInt(5 * s.e) && FitsInt(5 * s.e + 2)
    && FitsInt(153 * s.m) && FitsInt(153 * s.m + 2) && FitsInt(s.e - CDiv(153 * s.m + 2, 5) + 1)
    && FitsInt(s.m + 3 - 12 * CDiv(s.m, 10)) && FitsInt(s.b * 100 + s.d) && FitsInt(s.b * 100 + s.d - 4800 + CDiv(s.m, 10))
  }

  const FIRST_NUMBER := -536902956
  const LAST_NUMBER := 536838867

  lemma PositiveStages(j: int)
    requires -32044 <= j <= LAST_NUMBER
    ensures NumberComputable(j)
  {
    var a := j + 32044;
    var b := (4 * a + 3) / 146097;
    SplitBounds(a);
    var c := a - b * 146097 / 4;
    YearBounds(c);
    var d := (4 * c + 3) / 1461;
    MonthBounds(c - 1461 * d / 4);
    assert b * 146097 <= 4 * a + 3;
  }

  lemma NegativeBounds(p: int)
    requires p >= 1
    ensures
      var b := (4 * p - 3) / 146097;
      var c := p - b * 146097 / 4;
      var d := (4 * c - 3) / 1461;
      var e := c - 1461 * d / 4;
      var m := (5 * e - 2) / 153;
      b >= 0 && b * 146097 <= 4 * p - 3 && 1 <= c <= 36525 && 0 <= d <= 100 && 1 <= e <= 366 && 0 <= m <= 12
  {
  }

  lemma NegativeStages(j: int)
    requires FIRST_NUMBER <= j < -32044
    ensures NumberComputable(j)
  {
    var p := -(j + 32044);
    NegativeBounds(p);
    var b := (4 * p - 3) / 146097;
    var c := p - b * 146097 / 4;
    var d := (4 * c - 3) / 1461;
    var e := c - 1461 * d / 4;
    NegatedQuotients(p, b, c, d, e);
    NegatedMonth(e, (5 * e - 2) / 153);
  }

  // getYearMonthDay is defined in 32-bit int on exactly these numbers.
  lemma NoOverflowFromNumber(j: int)
    ensures NumberComputable(j) <==> FIRST_NUMBER <= j <= LAST_NUMBER
  {
    if FIRST_NUMBER <= j < -32044 {
      NegativeStages(j);
    } else if -32044 <= j <= LAST_NUMBER {
      PositiveStages(j);
    }
  }

  // No value of getJulianDayNum overflows.
  predicate Computable(date: YearMonthDay) {
    var y := MarchYear(date);
    var days := date.day + DaysBeforeMonth(MarchMonth(date)) + y * 365;
    && FitsInt(date.year + 4800) && FitsInt(y) && FitsInt(y * 365) && FitsInt(days) && FitsInt(days + CDiv(y, 4))
    && FitsInt(days + CDiv(y, 4) - CDiv(y, 100)) && FitsInt(days + CDiv(y, 4) - CDiv(y, 100) + CDiv(y, 400))
    && FitsInt(days + CDiv(y, 4) - CDiv(y, 100) + CDiv(y, 400) - 32045)
  }

  const LAST_COMPUTABLE := YearMonthDay(5874689, 12, 15)

  // getJulianDayNum is defined in 32-bit int exactly up to 15 December 5874689.
  lemma NoOverflowFromDate(date: YearMonthDay)
    requires InRange(date)
    ensures Computable(date) <==> !Before(LAST_COMPUTABLE, date)
  {
    MarchShape(date);
    var y, m := MarchYear(date), MarchMonth(date);
    assert Before(LAST_COMPUTABLE, date) <==>
      y > 5879489 || (y == 5879489 && (m > 9 || (m == 9 && date.day > 15)));
    assert 1 <= date.day + DaysBeforeMonth(m) <= 366;
    assert m > 9 ==> DaysBeforeMonth(m) >= 306;
    assert m < 9 ==> DaysBeforeMonth(m) + date.day <= 275;
  }

  const LAST_DATE := YearMonthDay(1465102, 10, 18)

  // The last date that comes back is the one of the last number.
  lemma LastDate()
    ensures InRange(LAST_DATE) && JulianDayNum(LAST_DATE) == LAST_NUMBER && YearMonthDayOf(LAST_NUMBER) == LAST_DATE
  {
    hide YearMonthDayOf;
    NumberOfLastDate();
    DateRoundTrip(LAST_DATE);
  }

  lemma NumberOfLastDate()
    ensures InRange(LAST_DATE) && JulianDayNum(LAST_DATE) == LAST_NUMBER
  {
    hide YearMonthDayOf;
    assert MarchYear(LAST_DATE) == 1469902 && MarchMonth(LAST_DATE) == 7;
  }

  // What the code computes with 32-bit int: nothing when a value overflows.
  function IntJulianDayNum(date: YearMonthDay): Option<int> {
    if Computable(date) then Some(JulianDayNum(date)) else None
  }

  function IntYearMonthDay(j: int): Option<YearMonthDay> {
    if NumberComputable(j) then Some(YearMonthDayOf(j)) else None
  }

  // The round trip of the code holds on exactly the dates from 1 March -4800 to 18 October 1465102 ...
  lemma DateRoundTripExactly(date: YearMonthDay)
    requires Valid(date)
    ensures IntJulianDayNum(date).Some? && IntYearMonthDay(IntJulianDayNum(date).value) == Some(date)
      <==> InRange(date) && !Before(LAST_DATE, date)
  {
    hide JulianDayNum, YearMonthDayOf, Computable, NumberComputable;
    DateComesBack(date);
    LastDate();
    if InRange(date) {
      DateRoundTrip(date);
      OrderAgrees(LAST_DATE, date);
      NoOverflowFromNumber(JulianDayNum(date));
      NoOverflowFromDate(date);
    }
  }

  // ... and in the other direction on exactly the numbers from -32044 to that of the last date.
  lemma NumberRoundTripExactly(j: int)
    ensures IntYearMonthDay(j).Some? && Valid(IntYearMonthDay(j).value) && IntJulianDayNum(IntYearMonthDay(j).value) == Some(j)
      <==> -32044 <= j <= LAST_NUMBER
  {
    hide JulianDayNum, YearMonthDayOf, Computable, NumberComputable;
    NumberComesBack(j);
    NoOverflowFromNumber(j);
    if -32044 <= j <= LAST_NUMBER {
      NumberRoundTrip(j);
      LastDate();
      OrderAgrees(LAST_DATE, YearMonthDayOf(j));
      NoOverflowFromDate(YearMonthDayOf(j));
    }
  }

  // A valid date that has a day number but does not come back from it.
  lemma TooLateToComeBack()
    ensures
      var date := YearMonthDay(2000000, 1, 1);
      Valid(date) && IntJulianDayNum(date) == Some(732206060) && IntYearMonthDay(732206060).None?
  {
    var date := YearMonthDay(2000000, 1, 1);
    assert MarchYear(date) == 2004799 && MarchMonth(date) == 10;
    assert InRange(date) && !Before(LAST_COMPUTABLE, date);
    NoOverflowFromDate(date);
    NoOverflowFromNumber(732206060);
  }
}
