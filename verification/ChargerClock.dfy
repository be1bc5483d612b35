/** Editing the window with a `tz`: where `zonedDate` puts an edit, and when a typed end loses the order. */
module ChargerClock {
  import opened Arithmetic
  import opened Clocks
  import opened Gregorian
  import opened MonthGrid
  import opened RangePicker
  import opened TimeText
  import opened Wrappers
  import opened ZonedTime

  /** The date an edit means, with a year in 0..99 read as `Date.UTC` reads it. */
  function Meant(c: Civil): Civil {
    c.(year := FullYear(c.year))
  }

  /** What an edit asks `zonedDate` for. */
  function Asked(s: Setting, c: Civil, t: Time): Request
    requires s.Valid()
  {
    var p := Snap(t.minutes, s.step);
    Request(FullYear(c.year), c.month, c.day, t.hours + p / 60, p % 60)
  }

  lemma AskedIs(s: Setting, c: Civil, t: Time)
    requires s.Valid() && t.Valid() && Meant(c).Valid()
    ensures var q := Asked(s, c, t);
            && q.Valid() && q.Wanted() == DAY_MINUTES * DayNumber(Meant(c)) + 60 * t.hours + Snap(t.minutes, s.step)
    ensures s.clock.Charger? ==> AtSnapped(s, c, t) == MINUTE * Probe(Asked(s, c, t), s.clock.tz, 3)
  {
    hide MonthStart, Probe, Snap, DaysInMonth;
    SnapFacts(t.minutes, s.step);
    var p := Snap(t.minutes, s.step);
    assert p == 60 * (p / 60) + p % 60;
    if s.clock.Charger? {
      ProbeAsRead(Request(c.year, c.month, c.day, t.hours + p / 60, p % 60), s.clock.tz, 3);
    }
  }

  lemma MinuteOf(n: int)
    ensures MINUTE * n / MINUTE == n
  {
  }

  /**
   With one offset change nearby, an edit shows the day and the snapped time it aims at, the next day if that
   rounds to midnight, iff the time exists and no reading leaves the month.
  */
  lemma ChargerLandsIff(s: Setting, c: Civil, t: Time, at: int, a: int, b: int)
    requires s.Valid() && s.clock.Charger? && t.Valid() && Meant(c).Valid()
    requires Bounded(s.clock.tz) && OneChange(s.clock.tz, Asked(s, c, t).Wanted(), at, a, b)
    ensures var u, q := AtSnapped(s, c, t), Asked(s, c, t);
            && DateAt(s.clock, u) == (if RoundsToMidnight(s, t) then Following(Meant(c)) else Meant(c))
            && TimeAt(s.clock, u) == Carried(t, s.step)
            <==>
            Exists(s.clock.tz, q.Wanted()) && ClearOfMonthEnds(q, s.clock.tz)
  {
    hide MonthStart, Probe, Snap, ClearOfMonthEnds, Exists, Bounded, OneChange, PartsOfWall, Asked, Carried, AtSnapped, RoundsToMidnight;
    var z, q := s.clock.tz, Asked(s, c, t);
    AskedIs(s, c, t);
    ExactIff(q, z, at, a, b);
    MinuteOf(Probe(q, z, 3));
    WantedShows(s, c, t);
    PartsIdentify(Wall(z, Probe(q, z, 3)), q.Wanted());
  }

  /** The wanted wall clock, as date and time. */
  lemma WantedShows(s: Setting, c: Civil, t: Time)
    requires s.Valid() && t.Valid() && Meant(c).Valid()
    ensures var p, tm := PartsOfWall(Asked(s, c, t).Wanted()), Carried(t, s.step);
            p == Parts(if RoundsToMidnight(s, t) then Following(Meant(c)) else Meant(c), tm.hours, tm.minutes)
  {
    hide MonthStart, Snap, CivilFromDay, DayNumber;
    AskedIs(s, c, t);
    var n, d := 60 * t.hours + Snap(t.minutes, s.step), Meant(c);
    SnapFacts(t.minutes, s.step);
    CarriedMinutes(t.hours, Snap(t.minutes, s.step));
    FollowingCounts(d);
    CivilRoundTrip(d);
    CivilRoundTrip(Following(d));
    DivUnique(DAY_MINUTES * DayNumber(d) + n, DAY_MINUTES, DayNumber(d) + n / DAY_MINUTES, n % DAY_MINUTES);
    SameMinute(DayNumber(d), n);
  }

  /** Date, hours and minutes determine a wall clock. */
  lemma PartsIdentify(w: int, w': int)
    ensures PartsOfWall(w) == PartsOfWall(w') <==> w == w'
  {
    hide CivilFromDay, MonthStart, DayNumber;
    ZonedTime.ClockSplits(w);
    ZonedTime.ClockSplits(w');
    if CivilFromDay(w / DAY_MINUTES) == CivilFromDay(w' / DAY_MINUTES) {
      assert DayNumber(CivilFromDay(w / DAY_MINUTES)) == w / DAY_MINUTES;
      assert DayNumber(CivilFromDay(w' / DAY_MINUTES)) == w' / DAY_MINUTES;
    }
  }

  // --- Order -----------------------------------------------------------------------------------------------

  /** In a zone with one offset the search ends at the time asked for, later, or exactly a month early. */
  lemma FixedZoneResult(r: Request, z: MinuteZone, off: int)
    requires r.Valid() && -DAY_MINUTES < off < DAY_MINUTES && forall u :: z(u) == off
    ensures var w := r.Wanted();
            if w + off < DAY_MINUTES * MonthStart(r.Month())
            then Probe(r, z, 3) == w - off - DAY_MINUTES * DaysInMonth(r.Month() - 1)
            else Probe(r, z, 3) >= w - off
  {
    hide MonthStart, DaysInMonth, MonthOf, MonthIndex, DayNumber, Probe, DeltaMin, PartsInTz;
    var w, q := r.Wanted(), r.Month();
    FirstProbe(r, z);
    Correction(r, z, 0);
    Correction(r, z, 1);
    Correction(r, z, 2);
    MonthStep(q - 1);
    NotBeforeTheMonth(r);
    MonthOfBounds(w + off, q);
    if w + off < DAY_MINUTES * MonthStart(q) {
      MonthOfBounds(w + off, q - 1);
      var w1 := w - DAY_MINUTES * DaysInMonth(q - 1);
      MonthOfBounds(w1, q - 1);
      MonthOfBounds(w1, q);
      assert MonthOf(w1) == q - 1;
    } else {
      LaterMonth(q, MonthOf(w + off));
      var w1 := w + DAY_MINUTES * (MonthStart(MonthOf(w + off)) - MonthStart(q));
      MonthOfBounds(w1, q);
      LaterMonth(q, MonthOf(w1));
      var w2 := w + DAY_MINUTES * (MonthStart(MonthOf(w1)) - MonthStart(q));
      MonthOfBounds(w2, q);
      LaterMonth(q, MonthOf(w2));
    }
  }

  lemma LaterMonth(q: int, k: int)
    requires q <= k
    ensures MonthStart(q) <= MonthStart(k)
  {
    hide MonthStart;
    MonthsApart(k, q);
  }

  lemma NotBeforeTheMonth(r: Request)
    requires r.Valid()
    ensures r.Wanted() >= DAY_MINUTES * MonthStart(r.Month())
  {
    hide MonthStart, DaysInMonth;
  }

  /** The end of the window as a typed end starts from it. */
  function EndDate(s: Setting, v: Option<Range>): Civil {
    DateAt(s.clock, Effective(s, v).end)
  }

  /** What a typed end asks `zonedDate` for. */
  function AskedEnd(s: Setting, v: Option<Range>, e: Edit): Request
    requires s.Valid() && e.EndTime? && ParseTimeStr(e.text).Some?
  {
    Asked(s, EndDate(s, v), ParseTimeStr(e.text).value)
  }

  /** A readable typed end on a day `Date.UTC` knows: any but 29 February of year 0. */
  ghost predicate TypesEnd(s: Setting, v: Option<Range>, e: Edit) {
    e.EndTime? && ParseTimeStr(e.text).Some? && Meant(EndDate(s, v)).Valid()
  }

  /** The wanted time of a typed end is on the end's day, or 1900 years later. */
  lemma WantedOnTheEndsDay(s: Setting, v: Option<Range>, e: Edit)
    requires s.Valid() && s.clock.Charger? && TypesEnd(s, v, e)
    ensures var q, end := AskedEnd(s, v, e), Effective(s, v).end;
            var shown := end / MINUTE + s.clock.tz(end / MINUTE);
            && q.Valid()
            && q.Wanted() > shown - DAY_MINUTES
            && (if PlainYear(EndDate(s, v).year) then q.Wanted() <= shown + DAY_MINUTES else q.Wanted() > shown + 900 * DAY_MINUTES)
            && TypedEnd(s, Effective(s, v), ParseTimeStr(e.text).value) == MINUTE * Probe(q, s.clock.tz, 3)
  {
    hide MonthStart, DaysInMonth, Probe, Snap, ParseTimeStr, AtSnapped, CivilFromDay, MonthIndex;
    var t, c := ParseTimeStr(e.text).value, EndDate(s, v);
    ReadTimesAreValid(e.text);
    AskedIs(s, c, t);
    SnapFacts(t.minutes, s.step);
    var w := Effective(s, v).end / MINUTE + s.clock.tz(Effective(s, v).end / MINUTE);
    assert c == CivilFromDay(w / DAY_MINUTES) && DayNumber(c) == w / DAY_MINUTES;
    assert DAY_MINUTES * (w / DAY_MINUTES) <= w < DAY_MINUTES * (w / DAY_MINUTES) + DAY_MINUTES;
    CenturyLater(c);
  }

  lemma CenturyLater(c: Civil)
    requires c.Valid() && Meant(c).Valid()
    ensures if PlainYear(c.year) then DayNumber(Meant(c)) == DayNumber(c) else DayNumber(Meant(c)) > DayNumber(c) + 1000
  {
    hide MonthStart, DaysInMonth;
    if !PlainYear(c.year) {
      MonthStep(MonthIndex(c.year, c.month));
      MonthsApart(MonthIndex(c.year + 1900, c.month), MonthIndex(c.year, c.month));
    }
  }

  /** In a zone that changes its offset at most once, from `a` to `b` at `at`. */
  ghost predicate ChangesAt(z: MinuteZone, at: int, a: int, b: int) {
    && -DAY_MINUTES < a < DAY_MINUTES && -DAY_MINUTES < b < DAY_MINUTES
    && forall u :: z(u) == if u < at then a else b
  }

  /** The clock goes back, the end is typed for a time before that, and the start shows a day more by the old offset. */
  predicate FallsShort(w: int, start: int, at: int, a: int, b: int) {
    b < a && w < at + a && (w < at + b || w < at) && w * MINUTE + DAY <= start + a * MINUTE
  }

  /** The search, read in its month throughout, ends a day or more before the start iff the end falls short. */
  lemma FallsShortIff(z: MinuteZone, w: int, start: int, end: int, at: int, a: int, b: int)
    requires ChangesAt(z, at, a, b) && start < end
    requires var shown := end / MINUTE + z(end / MINUTE);
             shown - DAY_MINUTES < w && (w <= shown + DAY_MINUTES || w > shown + 900 * DAY_MINUTES)
    ensures (w - z(w - z(w - z(w)))) * MINUTE + DAY <= start <==> FallsShort(w, start, at, a, b)
  {
    assert z(w) == if w < at then a else b;
    assert z(w - a) == if w - a < at then a else b;
    assert z(w - b) == if w - b < at then a else b;
    assert z(end / MINUTE) == if end / MINUTE < at then a else b;
  }

  /** A correction never takes more than 32 days off. */
  lemma {:induction false} ProbesStayClose(r: Request, z: MinuteZone, i: nat)
    requires r.Valid()
    ensures Probe(r, z, i) >= Probe(r, z, 0) - 32 * DAY_MINUTES * i
  {
    hide MonthStart, CivilFromDay;
    if i > 0 {
      ProbesStayClose(r, z, i - 1);
      CorrectionIsSmall(r, Wall(z, Probe(r, z, i - 1)));
      hide PartsOfWall, DeltaMin;
      assert 32 * DAY_MINUTES * i == 32 * DAY_MINUTES * (i - 1) + 32 * DAY_MINUTES;
    }
  }

  lemma CorrectionIsSmall(r: Request, w: int)
    requires r.Valid()
    ensures DeltaMin(r, PartsOfWall(w)) <= 32 * DAY_MINUTES
  {
    hide MonthStart, DayNumber;
  }

  /**
   A typed end falls short iff a reading is in an earlier month, or all are in its own and the clock is put back
   so. The first is only sure of windows of up to twenty days; without such a reading the window may be any. (An
   end in the years 0..99 is put 1900 years later, where nothing falls short.)
  */
  lemma ChargerBreaksIff(s: Setting, v: Option<Range>, e: Edit, at: int, a: int, b: int)
    requires s.Valid() && s.clock.Charger? && ChangesAt(s.clock.tz, at, a, b) && Ordered(v) && TypesEnd(s, v, e)
    requires var r := Effective(s, v); r.end - r.start <= 20 * DAY || !ReadsAnEarlierMonth(AskedEnd(s, v, e), s.clock.tz)
    ensures var z, q := s.clock.tz, AskedEnd(s, v, e);
            Breaks(s, v, e) <==>
              || (ReadsAnEarlierMonth(q, z) && PlainYear(EndDate(s, v).year))
              || (ReadsItsMonth(q, z) && FallsShort(q.Wanted(), Effective(s, v).start, at, a, b))
  {
    hide Probe, AskedEnd, ParseTimeStr, EndDate, Meant, ReadsItsMonth, ReadsAnEarlierMonth, FallsShort, Stays, TypedEnd;
    var z, q, r := s.clock.tz, AskedEnd(s, v, e), Effective(s, v);
    WantedOnTheEndsDay(s, v, e);
    StaysIff(q, z);
    assert Bounded(z);
    if Stays(q, z) {
      StayingIterates(q, z);
      FallsShortIff(z, q.Wanted(), r.start, r.end, at, a, b);
    } else {
      LeavingTheMonthIsFatal(q, z);
      ProbesStayClose(q, z, 3);
      FirstProbe(q, z);
      assert -DAY_MINUTES < z(Probe(q, z, 3)) < DAY_MINUTES && -DAY_MINUTES < z(r.end / MINUTE) < DAY_MINUTES;
    }
  }

  /** With a `tz` whose clock is never put back a run keeps the order while no typed end is read in an earlier month. */
  lemma {:induction false} ChargerRunKeepsOrder(s: Setting, v: Option<Range>, es: seq<Edit>, at: int, a: int, b: int)
    requires s.Valid() && s.clock.Charger? && ChangesAt(s.clock.tz, at, a, b) && a <= b
    requires Ordered(v) && forall i :: 0 <= i < |es| ==> Sensible(es[i])
    requires forall i :: 0 <= i < |es| && es[i].EndTime? && ParseTimeStr(es[i].text).Some? ==>
               var u := Run(s, v, es[..i]); TypesEnd(s, u, es[i]) && !ReadsAnEarlierMonth(AskedEnd(s, u, es[i]), s.clock.tz)
    ensures Ordered(Run(s, v, es))
  {
    hide Apply, Breaks, ParseTimeStr, AskedEnd, EndDate, Meant, ReadsAnEarlierMonth, ReadsItsMonth;
    if es != [] {
      var n := |es| - 1;
      var u := Run(s, v, es[..n]);
      forall i | 0 <= i < n
        ensures es[..n][..i] == es[..i]
      {
      }
      ChargerRunKeepsOrder(s, v, es[..n], at, a, b);
      EditOrderIff(s, u, es[n]);
      if es[n].EndTime? && ParseTimeStr(es[n].text).Some? {
        ChargerBreaksIff(s, u, es[n], at, a, b);
      } else {
        OnlyEndsBreak(s, u, es[n]);
      }
    }
  }

  /** Windows that end on the 3rd of a month or later are read in no earlier month. */
  lemma LaterEndsAreSafe(s: Setting, v: Option<Range>, e: Edit)
    requires s.Valid() && s.clock.Charger? && Bounded(s.clock.tz) && TypesEnd(s, v, e) && EndDate(s, v).day >= 3
    ensures !ReadsAnEarlierMonth(AskedEnd(s, v, e), s.clock.tz)
  {
    hide ParseTimeStr, EndDate;
    ReadTimesAreValid(e.text);
    AskedIs(s, EndDate(s, v), ParseTimeStr(e.text).value);
    LaterDaysReadNoEarlierMonth(AskedEnd(s, v, e), s.clock.tz);
  }

  /**
   In a zone with one offset, for windows of any length: a typed end falls short iff it is read in the month before,
   which puts it a whole month early, and the start still shows at least a day more than that.
  */
  lemma FixedChargerBreaksIff(s: Setting, v: Option<Range>, e: Edit, off: int)
    requires s.Valid() && s.clock.Charger? && -DAY_MINUTES < off < DAY_MINUTES && forall u :: s.clock.tz(u) == off
    requires Ordered(v) && TypesEnd(s, v, e)
    ensures var r, q := Effective(s, v), AskedEnd(s, v, e);
            Breaks(s, v, e) <==>
              && q.Wanted() + off < DAY_MINUTES * MonthStart(q.Month())
              && (q.Wanted() - DAY_MINUTES * DaysInMonth(q.Month() - 1)) * MINUTE + DAY <= r.start + off * MINUTE
  {
    hide MonthStart, DaysInMonth, Probe, ParseTimeStr, AskedEnd, EndDate, Meant, TypedEnd;
    WantedOnTheEndsDay(s, v, e);
    FixedZoneResult(AskedEnd(s, v, e), s.clock.tz, off);
  }

  /**
   So in New York, five hours behind: with a window from 22:00 on the last of February to 01:00 on the first of
   March, a typed end of 02:00 comes out on 2 February, before the start.
  */
  lemma NewYorkLosesTheOrder(s: Setting)
    requires s.Valid() && s.clock.Charger? && forall u :: s.clock.tz(u) == -300
    ensures var day := DayNumber(Civil(2026, 3, 1));
            var r := Range(DAY * day + 3 * HOUR, DAY * day + 6 * HOUR);
            && DateAt(s.clock, r.start) == Civil(2026, 2, 28) && TimeAt(s.clock, r.start) == Time(22, 0)
            && DateAt(s.clock, r.end) == Civil(2026, 3, 1) && TimeAt(s.clock, r.end) == Time(1, 0)
            && !Ordered(Apply(s, Some(r), EndTime(ToTimeStr(Time(2, 0)))))
  {
    hide MonthStart, DaysInMonth, CivilFromDay, ParseTimeStr, ToTimeStr, Probe, Snap, AtSnapped, MonthIndex;
    February2026();
    March2026();
    MonthIndexIs();
    var day := 20513;
    assert DayNumber(Civil(2026, 3, 1)) == day && DayNumber(Civil(2026, 2, 28)) == day - 1;
    var r := Range(DAY * day + 3 * HOUR, DAY * day + 6 * HOUR);
    MinuteOf(DAY_MINUTES * day + 180);
    MinuteOf(DAY_MINUTES * day + 360);
    ReadsAs(s.clock.tz, DAY_MINUTES * day + 180, Civil(2026, 2, 28), 22 * 60);
    ReadsAs(s.clock.tz, DAY_MINUTES * day + 360, Civil(2026, 3, 1), 60);
    TimeRoundTrip(Time(2, 0));
    var e := EndTime(ToTimeStr(Time(2, 0)));
    AskedIs(s, Civil(2026, 3, 1), Time(2, 0));
    SnapFacts(0, s.step);
    assert Meant(Civil(2026, 3, 1)) == Civil(2026, 3, 1);
    hide DateAt, TimeAt;
    assert AskedEnd(s, Some(r), e) == Asked(s, Civil(2026, 3, 1), Time(2, 0)) && TypesEnd(s, Some(r), e);
    hide Asked, AskedEnd, TypesEnd;
    FixedChargerBreaksIff(s, Some(r), e, -300);
    EditOrderIff(s, Some(r), e);
  }

  /**
   And in Berlin, on a Sunday from the 3rd to the 26th on which the clock goes back from 03:00 to 02:00: in a window
   from 23:10 to 23:40 a typed end of 00:00 comes out before the start.
  */
  lemma BerlinLosesTheOrder(s: Setting, sunday: int)
    requires s.Valid() && s.clock.Charger? && ChangesAt(s.clock.tz, sunday * DAY_MINUTES + 60, 120, 60)
    requires PlainYear(CivilFromDay(sunday).year) && 3 <= CivilFromDay(sunday).day <= 26
    ensures var midnight := sunday * DAY_MINUTES;
            var r := Range((midnight + 1330) * MINUTE, (midnight + 1360) * MINUTE);
            && DateAt(s.clock, r.start) == DateAt(s.clock, r.end) == CivilFromDay(sunday)
            && TimeAt(s.clock, r.start) == Time(23, 10) && TimeAt(s.clock, r.end) == Time(23, 40)
            && !Ordered(Apply(s, Some(r), EndTime(ToTimeStr(Time(0, 0)))))
  {
    hide MonthStart, CivilFromDay, ParseTimeStr, ToTimeStr, ChangesAt, Snap, AtSnapped, DateAt, TimeAt, Breaks, PlainYear;
    var midnight := sunday * DAY_MINUTES;
    var r := Range((midnight + 1330) * MINUTE, (midnight + 1360) * MINUTE);
    BerlinWindow(s, sunday);
    TimeRoundTrip(Time(0, 0));
    var e := EndTime(ToTimeStr(Time(0, 0)));
    BerlinFallsShort(s, sunday, r, e);
    EditOrderIff(s, Some(r), e);
  }

  lemma BerlinWindow(s: Setting, sunday: int)
    requires s.clock.Charger? && ChangesAt(s.clock.tz, sunday * DAY_MINUTES + 60, 120, 60)
    ensures var start, end := (sunday * DAY_MINUTES + 1330) * MINUTE, (sunday * DAY_MINUTES + 1360) * MINUTE;
            && DateAt(s.clock, start) == DateAt(s.clock, end) == CivilFromDay(sunday)
            && TimeAt(s.clock, start) == Time(23, 10) && TimeAt(s.clock, end) == Time(23, 40)
  {
    hide MonthStart, CivilFromDay, DayNumber, PartsOfWall;
    var midnight, c := sunday * DAY_MINUTES, CivilFromDay(sunday);
    MinuteOf(midnight + 1330);
    MinuteOf(midnight + 1360);
    ReadsAs(s.clock.tz, midnight + 1330, c, 23 * 60 + 10);
    ReadsAs(s.clock.tz, midnight + 1360, c, 23 * 60 + 40);
  }

  lemma BerlinFallsShort(s: Setting, sunday: int, r: Range, e: Edit)
    requires s.Valid() && s.clock.Charger? && ChangesAt(s.clock.tz, sunday * DAY_MINUTES + 60, 120, 60)
    requires r == Range((sunday * DAY_MINUTES + 1330) * MINUTE, (sunday * DAY_MINUTES + 1360) * MINUTE)
    requires DateAt(s.clock, r.end) == CivilFromDay(sunday) && e.EndTime? && ParseTimeStr(e.text) == Some(Time(0, 0))
    requires PlainYear(CivilFromDay(sunday).year) && 3 <= CivilFromDay(sunday).day <= 26
    ensures Breaks(s, Some(r), e)
  {
    hide MonthStart, DaysInMonth, CivilFromDay, ParseTimeStr, Probe, Snap, DateAt, Breaks, DayNumber, MonthIndex;
    var c, z := CivilFromDay(sunday), s.clock.tz;
    assert Meant(c) == c && Bounded(z);
    AskedIs(s, c, Time(0, 0));
    SnapFacts(0, s.step);
    var q := AskedEnd(s, Some(r), e);
    assert q == Asked(s, c, Time(0, 0)) && q.day == c.day && q.Wanted() == sunday * DAY_MINUTES;
    assert TypesEnd(s, Some(r), e);
    hide Asked, AskedEnd, TypesEnd, ChangesAt, Bounded, InMonth, PlainYear, Meant;
    InteriorProbesStay(q, z);
    StaysIff(q, z);
    hide ReadsItsMonth, ReadsAnEarlierMonth, Stays;
    ChargerBreaksIff(s, Some(r), e, sunday * DAY_MINUTES + 60, 120, 60);
  }

  lemma MonthIndexIs()
    ensures MonthIndex(2026, 2) == 24313 && MonthIndex(2026, 3) == 24314
  {
  }
}
