/**
 The proleptic Gregorian calendar as section 21.4.1 of ECMA-262 defines it: days are numbered from
 1970-01-01, months are counted from year 0 so that month arithmetic that leaves 1..12 is ordinary
 integer arithmetic, and a date is found again from its day number.
*/
module Gregorian {
  import opened Arithmetic

  datatype Civil = Civil(year: int, month: int, day: int) {
    predicate Valid() {
      1 <= month <= 12 && 1 <= day <= DaysInMonth(MonthIndex(year, month))
    }
  }

  predicate IsLeap(y: int) {
    y % 4 == 0 && (y % 100 != 0 || y % 400 == 0)
  }

  /** DayFromYear of section 21.4.1.3; Dafny's `/` by a positive number is the floor it asks for. */
  function DayFromYear(y: int): int {
    365 * (y - 1970) + (y - 1969) / 4 - (y - 1901) / 100 + (y - 1601) / 400
  }

  function MonthIndex(y: int, m: int): int {
    12 * y + m - 1
  }

  /** The day of the year (from 0) on which the 0-based month `m` starts in a common year. */
  function CommonOffset(m: int): int
    requires 0 <= m < 12
  {
    [0, 31, 59, 90, 120, 151, 181, 212, 243, 273, 304, 334][m]
  }

  function DaysInMonth(q: int): (n: int)
    ensures 28 <= n <= 31
  {
    var m := q % 12;
    if m == 1 then (if IsLeap(q / 12) then 29 else 28)
    else if m == 3 || m == 5 || m == 8 || m == 10 then 30
    else 31
  }

  /** The day number of the first of the month with index `q`. */
  function MonthStart(q: int): int {
    var m := q % 12;
    DayFromYear(q / 12) + CommonOffset(m) + (if m > 1 && IsLeap(q / 12) then 1 else 0)
  }

  function DayNumber(c: Civil): int {
    MonthStart(MonthIndex(c.year, c.month)) + c.day - 1
  }

  /** The years 0..99 that `Date.UTC` reads as 1900..1999 (MakeFullYear, section 21.4.1.32). */
  function FullYear(y: int): int {
    if 0 <= y <= 99 then 1900 + y else y
  }

  /** The day number `Date.UTC(year, month0, day)` falls on, for any month and day offset. */
  function UtcDay(year: int, month0: int, day: int): int {
    MonthStart(12 * FullYear(year) + month0) + day - 1
  }

  /** Monday is 0: WeekDay of section 21.4.1.11 with the shift the sources apply. */
  function MondayBased(n: int): (w: int)
    ensures 0 <= w < 7
  {
    ((n + 4) % 7 + 6) % 7
  }

  /** 1 January 1970 is day 0 and a Thursday, three days after Monday, and every next day is the next weekday. */
  lemma WeekdaysFollow(n: int)
    ensures DayNumber(Civil(1970, 1, 1)) == 0 && MondayBased(0) == 3
    ensures MondayBased(n + 1) == (MondayBased(n) + 1) % 7
    ensures MondayBased(n) == (n + 3) % 7
  {
    hide MonthStart;
    assert MonthStart(23640) == 0 by {
      FirstOf1970();
    }
  }

  lemma FirstOf1970()
    ensures MonthStart(23640) == 0
  {
  }

  function Following(c: Civil): Civil {
    if c.day < DaysInMonth(MonthIndex(c.year, c.month)) then c.(day := c.day + 1)
    else if c.month == 12 then Civil(c.year + 1, 1, 1)
    else Civil(c.year, c.month + 1, 1)
  }

  function Preceding(c: Civil): Civil {
    if c.day > 1 then c.(day := c.day - 1)
    else if c.month == 1 then Civil(c.year - 1, 12, 31)
    else Civil(c.year, c.month - 1, DaysInMonth(MonthIndex(c.year, c.month - 1)))
  }

  /** The date with a given day number: the inverse of DayNumber. */
  function CivilFromDay(n: int): (c: Civil)
    ensures c.Valid()
    ensures DayNumber(c) == n
    decreases if n < 0 then -n else n
  {
    if n == 0 then Civil(1970, 1, 1)
    else if n > 0 then
      var p := CivilFromDay(n - 1);
      FollowingCounts(p);
      Following(p)
    else
      var p := CivilFromDay(n + 1);
      PrecedingCounts(p);
      Preceding(p)
  }

  // --- The calendar's arithmetic -------------------------------------------------------------

  lemma YearStep(y: int)
    ensures DayFromYear(y + 1) == DayFromYear(y) + (if IsLeap(y) then 366 else 365)
  {
    FloorStep(y - 1969, 4, y, 492);
    FloorStep(y - 1901, 100, y, 19);
    FloorStep(y - 1601, 400, y, 4);
    LeapNesting(y);
  }

  lemma LeapNesting(y: int)
    ensures y % 400 == 0 ==> y % 100 == 0
    ensures y % 100 == 0 ==> y % 4 == 0
  {
    DivUnique(y, 100, 4 * (y / 400) + (y % 400) / 100, (y % 400) % 100);
    DivUnique(y, 4, 25 * (y / 100) + (y % 100) / 4, (y % 100) % 4);
  }

  /** Adding one raises a floor exactly at the multiples, here told by a shifted argument `y`. */
  lemma FloorStep(a: int, k: int, y: int, j: int)
    requires k > 1 && a + 1 == y - k * j
    ensures (a + 1) / k == a / k + (if y % k == 0 then 1 else 0)
  {
    var q, r := a / k, a % k;
    assert a == k * q + r;
    if r == k - 1 {
      DivUnique(a + 1, k, q + 1, 0);
      assert k * (q + 1) + k * j == k * (q + 1 + j);
      DivUnique(y, k, q + 1 + j, 0);
    } else {
      DivUnique(a + 1, k, q, r + 1);
      assert k * q + k * j == k * (q + j);
      DivUnique(y, k, q + j, r + 1);
    }
  }

  lemma MonthStep(q: int)
    ensures MonthStart(q + 1) == MonthStart(q) + DaysInMonth(q)
  {
    if q % 12 == 11 {
      DivUnique(q + 1, 12, q / 12 + 1, 0);
      YearStep(q / 12);
    } else {
      DivUnique(q + 1, 12, q / 12, q % 12 + 1);
    }
  }

  /** A function whose steps are at least 28 spreads its arguments' distance 28-fold. */
  lemma {:induction false} StepsAdd(f: int -> int, p: int, q: int)
    requires forall i :: f(i + 1) - f(i) >= 28
    requires p <= q
    ensures f(q) - f(p) >= 28 * (q - p)
    decreases q - p
  {
    if p < q {
      StepsAdd(f, p, q - 1);
      assert f(q - 1 + 1) - f(q - 1) >= 28;
    }
  }

  lemma StepsBound(f: int -> int, p: int, q: int)
    requires forall i :: f(i + 1) - f(i) >= 28
    ensures p < q ==> f(q) >= f(p + 1) + 28 * (q - p - 1)
    ensures p >= q ==> f(p) >= f(q) + 28 * (p - q)
  {
    if p < q {
      StepsAdd(f, p + 1, q);
    } else {
      StepsAdd(f, q, p);
    }
  }

  /** Distinct months start at least 28 days apart, in order. */
  lemma MonthsApart(p: int, q: int)
    ensures p < q ==> MonthStart(q) >= MonthStart(p + 1) + 28 * (q - p - 1)
    ensures p >= q ==> MonthStart(p) >= MonthStart(q) + 28 * (p - q)
  {
    forall i ensures MonthStart(i + 1) - MonthStart(i) >= 28 {
      MonthStep(i);
    }
    StepsBound(MonthStart, p, q);
  }

  lemma MonthIndexSplits(y: int, m: int)
    requires 1 <= m <= 12
    ensures MonthIndex(y, m) / 12 == y && MonthIndex(y, m) % 12 == m - 1
  {
    DivUnique(MonthIndex(y, m), 12, y, m - 1);
  }

  lemma FollowingCounts(c: Civil)
    requires c.Valid()
    ensures Following(c).Valid() && DayNumber(Following(c)) == DayNumber(c) + 1
  {
    MonthStep(MonthIndex(c.year, c.month));
    assert c.month == 12 ==> MonthIndex(c.year + 1, 1) == MonthIndex(c.year, c.month) + 1;
  }

  lemma PrecedingCounts(c: Civil)
    requires c.Valid()
    ensures Preceding(c).Valid() && DayNumber(Preceding(c)) == DayNumber(c) - 1
  {
    MonthStep(MonthIndex(c.year, c.month) - 1);
    if c.month == 1 {
      MonthIndexSplits(c.year - 1, 12);
      assert MonthIndex(c.year - 1, 12) == MonthIndex(c.year, c.month) - 1;
    }
  }

  /** Where a date lies relative to the start of any month. */
  lemma MonthBounds(c: Civil, q: int)
    requires c.Valid()
    ensures MonthIndex(c.year, c.month) < q ==> DayNumber(c) < MonthStart(q)
    ensures MonthIndex(c.year, c.month) >= q ==> DayNumber(c) >= MonthStart(q)
  {
    var p := MonthIndex(c.year, c.month);
    MonthStep(p);
    MonthsApart(p, q);
  }

  /** Day numbers order dates exactly as year, then month, then day do. */
  lemma DayNumberOrders(a: Civil, b: Civil)
    requires a.Valid() && b.Valid()
    ensures DayNumber(a) < DayNumber(b) <==>
              a.year < b.year || (a.year == b.year && (a.month < b.month || (a.month == b.month && a.day < b.day)))
    ensures DayNumber(a) == DayNumber(b) <==> a == b
  {
    MonthBounds(a, MonthIndex(b.year, b.month));
    MonthBounds(b, MonthIndex(a.year, a.month));
  }

  /** CivilFromDay inverts DayNumber on every valid date. */
  lemma CivilRoundTrip(c: Civil)
    requires c.Valid()
    ensures CivilFromDay(DayNumber(c)) == c
  {
    DayNumberOrders(CivilFromDay(DayNumber(c)), c);
  }
}
