/**
 The dashboard's daily usage: events are added into pre-seeded day buckets, the buckets are printed to three
 decimals, and the breakdown card reads its figures off the printed series. Quantities are real kWh.
*/
module UsageSeries {
  import opened DateKeys
  import opened Gregorian
  import opened Wrappers

  /** An event: the local day it was synced on, if known, and its kWh. */
  datatype Usage = Usage(day: Option<string>, kwh: real)

  function TotalOf(rows: seq<Usage>): real {
    if rows == [] then 0.0 else TotalOf(rows[..|rows| - 1]) + rows[|rows| - 1].kwh
  }

  /** What the events of one day add up to. */
  function DayTotal(rows: seq<Usage>, day: string): real {
    if rows == [] then 0.0
    else DayTotal(rows[..|rows| - 1], day) + (if rows[|rows| - 1].day == Some(day) then rows[|rows| - 1].kwh else 0.0)
  }

  function SumOver(days: seq<string>, rows: seq<Usage>): real {
    if days == [] then 0.0 else SumOver(days[..|days| - 1], rows) + DayTotal(rows, days[|days| - 1])
  }

  ghost predicate Distinct(days: seq<string>) {
    forall i, j :: 0 <= i < j < |days| ==> days[i] != days[j]
  }

  lemma NoRowsYet()
    ensures TotalOf([]) == 0.0 && forall d :: DayTotal([], d) == 0.0
  {
  }

  lemma NextRow(rows: seq<Usage>, i: nat)
    requires i < |rows|
    ensures TotalOf(rows[..i + 1]) == TotalOf(rows[..i]) + rows[i].kwh
    ensures forall d :: DayTotal(rows[..i + 1], d) == DayTotal(rows[..i], d) + (if rows[i].day == Some(d) then rows[i].kwh else 0.0)
  {
    assert rows[..i + 1][..i] == rows[..i];
  }

  /** The map as the loop leaves it: its keys in insertion order and its values. */
  method Accumulate(seed: seq<string>, rows: seq<Usage>) returns (total: real, order: seq<string>, buckets: map<string, real>)
    requires Distinct(seed)
    ensures total == TotalOf(rows)
    ensures KeysOf(order, seed, rows)
    ensures forall d :: d in buckets <==> d in order
    ensures forall d :: d in order ==> buckets[d] == DayTotal(rows, d)
  {
    hide TotalOf, DayTotal;
    NoRowsYet();
    total, order, buckets := 0.0, seed, map d | d in seed :: 0.0;
    for i := 0 to |rows|
      invariant total == TotalOf(rows[..i])
      invariant seed <= order && Distinct(order)
      invariant forall d :: d in order <==> d in seed || exists k :: 0 <= k < i && rows[k].day == Some(d)
      invariant forall d :: d in buckets <==> d in order
      invariant forall d :: d in order ==> buckets[d] == DayTotal(rows[..i], d)
      invariant forall d :: d !in order ==> DayTotal(rows[..i], d) == 0.0
    {
      NextRow(rows, i);
      var r := rows[i];
      total := total + r.kwh;
      if r.day.Some? {
        var key := r.day.value;
        var soFar := if key in buckets then buckets[key] else 0.0;
        if key !in buckets {
          order := order + [key];
        }
        buckets := buckets[key := soFar + r.kwh];
      }
    }
    assert rows[..|rows|] == rows;
  }

  // --- Seeding and conservation -----------------------------------------------------------------------

  /** `enumerateDays` from local midnight to local midnight: the keys of the days in between, none if the window is empty. */
  function SeedKeys(from: int, to: int): seq<string> {
    seq(if from < to then to - from else 0, i requires 0 <= i => CellKey(CivilFromDay(from + i)))
  }

  method EnumerateDays(from: int, to: int) returns (days: seq<string>)
    ensures days == SeedKeys(from, to)
  {
    hide CellKey, CivilFromDay;
    days := [];
    var cur := from;
    while cur < to
      invariant from <= cur && (cur <= to || cur == from) && |days| == cur - from
      invariant forall i :: 0 <= i < |days| ==> days[i] == CellKey(CivilFromDay(from + i))
    {
      days := days + [CellKey(CivilFromDay(cur))];
      cur := cur + 1;
    }
  }

  lemma SeedIsDistinct(from: int, to: int)
    ensures Distinct(SeedKeys(from, to))
  {
    hide CellKey, CivilFromDay;
    var s := SeedKeys(from, to);
    forall i, j | 0 <= i < j < |s|
      ensures s[i] != s[j]
    {
      DifferentDays(from + i, from + j);
    }
  }

  lemma DifferentDays(d: int, e: int)
    requires d != e
    ensures CellKey(CivilFromDay(d)) != CellKey(CivilFromDay(e))
  {
    hide CellKey, CivilFromDay, MonthStart;
    KeysIdentify(CivilFromDay(d), CivilFromDay(e));
  }

  /** What the accumulated keys are: the seed, then whatever else the events named. */
  ghost predicate KeysOf(order: seq<string>, seed: seq<string>, rows: seq<Usage>) {
    && seed <= order && Distinct(order)
    && forall d :: d in order <==> d in seed || exists i :: 0 <= i < |rows| && rows[i].day == Some(d)
  }

  ghost predicate DayInWindow(day: Option<string>, from: int, to: int) {
    exists d :: from <= d < to && day == Some(CellKey(CivilFromDay(d)))
  }

  /** Every event falls on a day of the window. */
  ghost predicate InWindow(rows: seq<Usage>, from: int, to: int) {
    forall i :: 0 <= i < |rows| ==> DayInWindow(rows[i].day, from, to)
  }

  /** The days of the window are the seeds. */
  lemma WindowDaysAreSeeded(day: Option<string>, from: int, to: int)
    requires DayInWindow(day, from, to)
    ensures day.Some? && day.value in SeedKeys(from, to)
  {
    hide CellKey, CivilFromDay;
    var d :| from <= d < to && day == Some(CellKey(CivilFromDay(d)));
    assert SeedKeys(from, to)[d - from] == day.value;
  }

  ghost predicate AllSeeded(rows: seq<Usage>, seed: seq<string>) {
    forall i :: 0 <= i < |rows| ==> rows[i].day.Some? && rows[i].day.value in seed
  }

  lemma WindowIsSeeded(rows: seq<Usage>, from: int, to: int)
    requires InWindow(rows, from, to)
    ensures AllSeeded(rows, SeedKeys(from, to))
  {
    hide SeedKeys, DayInWindow;
    forall i | 0 <= i < |rows|
      ensures rows[i].day.Some? && rows[i].day.value in SeedKeys(from, to)
    {
      WindowDaysAreSeeded(rows[i].day, from, to);
    }
  }

  /** Events on seeded days add no bucket: the keys are the seeds, once each, in order. */
  lemma NoKeyAdded(seed: seq<string>, rows: seq<Usage>, order: seq<string>)
    requires AllSeeded(rows, seed) && KeysOf(order, seed, rows)
    ensures order == seed
  {
    if |order| > 0 {
      var n := |order| - 1;
      assert order[n] in order;
      var j :| 0 <= j < |seed| && seed[j] == order[n];
      assert order[j] == seed[j];
    }
  }

  lemma {:induction false} OneMoreRow(days: seq<string>, rows: seq<Usage>)
    requires rows != [] && Distinct(days)
    ensures var r := rows[|rows| - 1];
            SumOver(days, rows) == SumOver(days, rows[..|rows| - 1]) + (if r.day.Some? && r.day.value in days then r.kwh else 0.0)
  {
    if days != [] {
      var n := |days| - 1;
      OneMoreRow(days[..n], rows);
      assert days == days[..n] + [days[n]] && days[n] !in days[..n];
    }
  }

  lemma {:induction false} NoRows(days: seq<string>)
    ensures SumOver(days, []) == 0.0
  {
    if days != [] {
      NoRows(days[..|days| - 1]);
    }
  }

  /** With every event dated, the period's total is exactly the sum of its buckets. */
  lemma {:induction false} TotalIsSumOfBuckets(days: seq<string>, rows: seq<Usage>)
    requires Distinct(days) && AllSeeded(rows, days)
    ensures SumOver(days, rows) == TotalOf(rows)
  {
    if rows == [] {
      NoRows(days);
    } else {
      OneMoreRow(days, rows);
      TotalIsSumOfBuckets(days, rows[..|rows| - 1]);
    }
  }

  // --- Printing to three decimals ---------------------------------------------------------------------------

  /** `Number(x.toFixed(3))`: the nearest thousandth, the larger on a tie, by magnitude. */
  function Fixed3(x: real): real {
    if x < 0.0 then -Fixed3Up(-x) else Fixed3Up(x)
  }

  function Fixed3Up(x: real): real {
    (x * 1000.0 + 0.5).Floor as real / 1000.0
  }

  lemma Fixed3Near(x: real)
    ensures -0.0005 <= Fixed3(x) - x <= 0.0005
    ensures x >= 0.0 ==> Fixed3(x) >= 0.0
  {
    var y := if x < 0.0 then -x else x;
    var n := (y * 1000.0 + 0.5).Floor as real;
    assert n <= y * 1000.0 + 0.5 < n + 1.0;
    assert n / 1000.0 * 1000.0 == n;
  }

  /** The result is a whole number of thousandths, a tie being rounded away from zero. */
  lemma Fixed3IsThousandths(x: real) returns (n: int)
    ensures Fixed3(x) == n as real / 1000.0
    ensures x >= 0.0 ==> -0.5 < n as real - x * 1000.0 <= 0.5
    ensures x <= 0.0 ==> -0.5 <= n as real - x * 1000.0 < 0.5
  {
    var y := if x < 0.0 then -x else x;
    n := (y * 1000.0 + 0.5).Floor;
    if x < 0.0 {
      n := -n;
    }
  }

  datatype Point = Point(date: string, kwh: real)

  function Series(days: seq<string>, rows: seq<Usage>): seq<Point> {
    seq(|days|, i requires 0 <= i < |days| => Point(days[i], Fixed3(DayTotal(rows, days[i]))))
  }

  function SeriesSum(points: seq<Point>): real {
    if points == [] then 0.0 else SeriesSum(points[..|points| - 1]) + points[|points| - 1].kwh
  }

  lemma {:induction false} SeriesNearBuckets(days: seq<string>, rows: seq<Usage>)
    ensures var e := 0.0005 * |days| as real; -e <= SeriesSum(Series(days, rows)) - SumOver(days, rows) <= e
  {
    if days != [] {
      var n := |days| - 1;
      SeriesNearBuckets(days[..n], rows);
      assert Series(days, rows)[..n] == Series(days[..n], rows);
      Fixed3Near(DayTotal(rows, days[n]));
    }
  }

  // --- The breakdown ---------------------------------------------------------------------------------------------

  datatype Breakdown = Breakdown(daysCharged: nat, totalKwh: real, avgActive: real, peak: Point)

  function Active(points: seq<Point>): seq<Point> {
    if points == [] then []
    else
      var n := |points| - 1;
      Active(points[..n]) + (if points[n].kwh > 0.0 then [points[n]] else [])
  }

  /** The reduce that keeps the first largest point, from nothing. */
  function Peak(points: seq<Point>): Point {
    if points == [] then Point("", 0.0)
    else
      var acc := Peak(points[..|points| - 1]);
      var p := points[|points| - 1];
      if p.kwh > acc.kwh then p else acc
  }

  function BreakdownOf(points: seq<Point>): Breakdown {
    var active := Active(points);
    var total := SeriesSum(active);
    Breakdown(|active|, total, if |active| > 0 then total / |active| as real else 0.0, Peak(active))
  }

  lemma {:induction false} PeakIsLargest(points: seq<Point>)
    ensures Peak(points).kwh >= 0.0
    ensures forall p :: p in points ==> p.kwh <= Peak(points).kwh
    ensures Peak(points).kwh > 0.0 ==> Peak(points) in points
  {
    if points != [] {
      var n := |points| - 1;
      PeakIsLargest(points[..n]);
      OneMorePoint(points);
      hide Peak;
      forall p | p in points
        ensures p.kwh <= Peak(points).kwh
      {
        assert p in points[..n] || p == points[n];
      }
      assert points[n] in points && forall p :: p in points[..n] ==> p in points;
    }
  }

  lemma {:induction false} PeakBoundsTotal(points: seq<Point>)
    ensures SeriesSum(points) <= |points| as real * Peak(points).kwh
  {
    if points != [] {
      var n := |points| - 1;
      PeakBoundsTotal(points[..n]);
      OneMorePoint(points);
      hide Peak, SeriesSum;
      OneMoreBounded(SeriesSum(points[..n]), n, Peak(points[..n]).kwh, points[n].kwh, Peak(points).kwh);
    }
  }

  lemma OneMorePoint(points: seq<Point>)
    requires points != []
    ensures var n := |points| - 1;
            && SeriesSum(points) == SeriesSum(points[..n]) + points[n].kwh
            && Peak(points[..n]).kwh <= Peak(points).kwh && points[n].kwh <= Peak(points).kwh
            && (Peak(points) == Peak(points[..n]) || Peak(points) == points[n])
  {
  }

  lemma OneMoreBounded(s: real, n: nat, p: real, k: real, q: real)
    requires s <= n as real * p && p <= q && k <= q
    ensures s + k <= (n + 1) as real * q
  {
    assert n as real * p <= n as real * q by {
      assert n as real * (q - p) >= 0.0;
    }
    assert (n + 1) as real * q == n as real * q + q;
  }

  /** The days with a charge, by position. */
  function ActiveDays(points: seq<Point>): set<int> {
    set i | 0 <= i < |points| && points[i].kwh > 0.0
  }

  /** What they add up to. */
  function Charged(points: seq<Point>): real {
    if points == [] then 0.0
    else
      var n := |points| - 1;
      Charged(points[..n]) + (if points[n].kwh > 0.0 then points[n].kwh else 0.0)
  }

  /** The first of the largest days with a charge, or the empty point. */
  ghost predicate IsPeak(points: seq<Point>, peak: Point) {
    && (forall p :: p in points ==> p.kwh <= peak.kwh)
    && (ActiveDays(points) == {} ==> peak == Point("", 0.0))
    && (ActiveDays(points) != {} ==>
          exists i :: 0 <= i < |points| && points[i] == peak && peak.kwh > 0.0 && forall j :: 0 <= j < i ==> points[j].kwh < peak.kwh)
  }

  /**
   The card counts the days with a charge and adds them up; the average is per such day, the peak the first of the
   largest. So the peak bounds every day, the average and, times the active days, the total.
  */
  lemma BreakdownIsConsistent(points: seq<Point>)
    ensures var b := BreakdownOf(points);
            && b.daysCharged == |ActiveDays(points)| && b.totalKwh == Charged(points)
            && b.avgActive * b.daysCharged as real == b.totalKwh && (b.daysCharged == 0 ==> b.avgActive == 0.0)
            && IsPeak(points, b.peak)
            && b.avgActive <= b.peak.kwh
            && b.totalKwh <= b.daysCharged as real * b.peak.kwh
  {
    hide Active, Peak, SeriesSum, Charged, ActiveDays, IsPeak;
    var b, active := BreakdownOf(points), Active(points);
    PeakIsLargest(active);
    PeakBoundsTotal(active);
    ActiveCounts(points);
    ActivePeak(points);
    if |active| > 0 {
      Quotient(b.totalKwh, |active| as real, b.peak.kwh);
      assert b.totalKwh / |active| as real * |active| as real == b.totalKwh;
    } else {
      NothingSums(active);
    }
  }

  lemma NothingSums(points: seq<Point>)
    requires points == []
    ensures SeriesSum(points) == 0.0
  {
  }

  lemma ActiveCounts(points: seq<Point>)
    ensures |Active(points)| == |ActiveDays(points)| && SeriesSum(Active(points)) == Charged(points)
  {
    ActiveSize(points);
    ActiveCharged(points);
  }

  lemma OneMoreActive(points: seq<Point>)
    requires points != []
    ensures var n := |points| - 1;
            Active(points) == (if points[n].kwh > 0.0 then Active(points[..n]) + [points[n]] else Active(points[..n]))
  {
    assert Active(points[..|points| - 1]) + [] == Active(points[..|points| - 1]);
  }

  lemma OneMoreDay(points: seq<Point>)
    requires points != []
    ensures var n := |points| - 1;
            && ActiveDays(points) == (if points[n].kwh > 0.0 then ActiveDays(points[..n]) + {n} else ActiveDays(points[..n]))
            && n !in ActiveDays(points[..n])
  {
    var n := |points| - 1;
    assert forall i :: 0 <= i < n ==> points[..n][i] == points[i];
  }

  lemma {:induction false} ActiveSize(points: seq<Point>)
    ensures |Active(points)| == |ActiveDays(points)|
  {
    if points != [] {
      OneMoreActive(points);
      OneMoreDay(points);
      ActiveSize(points[..|points| - 1]);
      hide Active, ActiveDays;
    }
  }

  lemma {:induction false} ActiveCharged(points: seq<Point>)
    ensures SeriesSum(Active(points)) == Charged(points)
  {
    if points != [] {
      var n := |points| - 1;
      OneMoreActive(points);
      ActiveCharged(points[..n]);
      hide Active;
      assert (Active(points[..n]) + [points[n]])[..|Active(points[..n])|] == Active(points[..n]);
    }
  }

  lemma {:induction false} ActivePeak(points: seq<Point>)
    ensures IsPeak(points, Peak(Active(points)))
  {
    if points != [] {
      var n := |points| - 1;
      ActivePeak(points[..n]);
      PeakOfActive(points);
      hide Peak, Active;
      OneMorePeak(points, Peak(Active(points[..n])));
    } else {
      assert Active(points) == [];
    }
  }

  /** The reduce's choice between the largest so far and one more day. */
  lemma OneMorePeak(points: seq<Point>, before: Point)
    requires points != [] && IsPeak(points[..|points| - 1], before)
    ensures var n := |points| - 1;
            IsPeak(points, if points[n].kwh > 0.0 && points[n].kwh > before.kwh then points[n] else before)
  {
    var n := |points| - 1;
    OneMoreDay(points);
    hide ActiveDays;
    assert points == points[..n] + [points[n]];
    if ActiveDays(points[..n]) != {} {
      var i :| 0 <= i < n && points[i] == before && before.kwh > 0.0 && forall j :: 0 <= j < i ==> points[..n][j].kwh < before.kwh;
      assert forall j :: 0 <= j < n ==> points[..n][j] == points[j] && points[j] in points[..n];
    } else {
      assert forall j :: 0 <= j < n ==> points[j] in points[..n];
    }
  }

  lemma PeakOfActive(points: seq<Point>)
    requires points != []
    ensures var n := |points| - 1;
            var before := Peak(Active(points[..n]));
            Peak(Active(points)) == if points[n].kwh > 0.0 && points[n].kwh > before.kwh then points[n] else before
  {
    var n := |points| - 1;
    if points[n].kwh > 0.0 {
      assert Active(points)[..|Active(points)| - 1] == Active(points[..n]);
    } else {
      assert Active(points[..n]) + [] == Active(points[..n]);
    }
  }

  lemma Quotient(t: real, n: real, p: real)
    requires n > 0.0 && t <= n * p
    ensures t / n <= p
  {
    assert t / n * n == t;
  }

  lemma {:induction false} ActiveSum(points: seq<Point>)
    requires forall p :: p in points ==> p.kwh >= 0.0
    ensures SeriesSum(Active(points)) == SeriesSum(points)
  {
    if points == [] {
      assert Active(points) == [];
    } else {
      var n := |points| - 1;
      assert points[n] in points && forall p :: p in points[..n] ==> p in points;
      ActiveSum(points[..n]);
      OneMoreActive(points);
      hide Active;
      assert (Active(points[..n]) + [points[n]])[..|Active(points[..n])|] == Active(points[..n]);
    }
  }

  lemma {:induction false} DayTotalNotNegative(rows: seq<Usage>, day: string)
    requires forall i :: 0 <= i < |rows| ==> rows[i].kwh >= 0.0
    ensures DayTotal(rows, day) >= 0.0
  {
    if rows != [] {
      DayTotalNotNegative(rows[..|rows| - 1], day);
    }
  }

  /** End to end: the card's total and the loader's differ by at most half a watt-hour per day of the window. */
  lemma CardTotalNearLoaderTotal(days: seq<string>, rows: seq<Usage>)
    requires Distinct(days) && AllSeeded(rows, days) && forall i :: 0 <= i < |rows| ==> rows[i].kwh >= 0.0
    ensures var e := 0.0005 * |days| as real;
            -e <= BreakdownOf(Series(days, rows)).totalKwh - TotalOf(rows) <= e
  {
    var points := Series(days, rows);
    TotalIsSumOfBuckets(days, rows);
    SeriesNearBuckets(days, rows);
    forall p | p in points
      ensures p.kwh >= 0.0
    {
      var i :| 0 <= i < |points| && points[i] == p;
      DayTotalNotNegative(rows, days[i]);
      Fixed3Near(DayTotal(rows, days[i]));
    }
    ActiveSum(points);
  }

  // --- The loader and the card, end to end -------------------------------------------------------------------------

  /**
   The usage of a window of days, as the dashboard loads it: for events dated in the window one point per day, in
   order, each the day's sum to three decimals, and a total that is the sum of the days before rounding.
  */
  method LoadUsage(from: int, to: int, rows: seq<Usage>) returns (total: real, dailyUsage: seq<Point>)
    requires InWindow(rows, from, to)
    ensures dailyUsage == Series(SeedKeys(from, to), rows)
    ensures total == TotalOf(rows) == SumOver(SeedKeys(from, to), rows)
  {
    hide SeedKeys, InWindow, KeysOf, Fixed3;
    WindowIsSeeded(rows, from, to);
    SeedIsDistinct(from, to);
    var seed := EnumerateDays(from, to);
    var order, buckets;
    total, order, buckets := Accumulate(seed, rows);
    NoKeyAdded(seed, rows, order);
    TotalIsSumOfBuckets(order, rows);
    dailyUsage := seq(|order|, i requires 0 <= i < |order| =>
      Point(order[i], Fixed3(if order[i] in buckets then buckets[order[i]] else 0.0)));
    assert forall i :: 0 <= i < |order| ==> order[i] in order;
    assert dailyUsage == Series(order, rows);
  }

  /** Over such a window the card's total, read off the series, is within half a watt-hour per day of the loader's. */
  lemma WindowTotals(from: int, to: int, rows: seq<Usage>)
    requires InWindow(rows, from, to) && forall i :: 0 <= i < |rows| ==> rows[i].kwh >= 0.0
    ensures var days := if from < to then to - from else 0;
            var e := 0.0005 * days as real;
            -e <= BreakdownOf(Series(SeedKeys(from, to), rows)).totalKwh - TotalOf(rows) <= e
  {
    hide InWindow, BreakdownOf, Series, TotalOf;
    WindowIsSeeded(rows, from, to);
    SeedIsDistinct(from, to);
    CardTotalNearLoaderTotal(SeedKeys(from, to), rows);
  }
}
