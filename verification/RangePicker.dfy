/**
 Editing the reservation window, in the viewer's own zone or in the charger's. Instants are milliseconds;
 offsets are whole minutes.
*/
module RangePicker {
  import opened Arithmetic
  import opened Clocks
  import opened Gregorian
  import opened MonthGrid
  import opened TimeText
  import opened Wrappers
  import ZonedTime

  datatype Range = Range(start: int, end: int)

  /** The zone the times are shown in: `tz` absent, a viewer's zone that changes at most once; or a `tz`, any zone. */
  datatype Clock = Viewer(zone: Change) | Charger(tz: ZonedTime.MinuteZone)

  /** What an edit sees besides the current value: the mount time, the zone and the granularity. */
  datatype Setting = Setting(now: int, clock: Clock, step: int) {
    predicate Valid() {
      && (step == 15 || step == 30)
      && (clock.Viewer? ==> clock.zone.before % MINUTE == 0 && clock.zone.after % MINUTE == 0)
    }
  }

  datatype Edit =
    | PickDay(c: Civil)
    | StartTime(text: string)
    | EndTime(text: string)
    | Duration(mins: int)

  // --- Clocks ----------------------------------------------------------------------------------

  /** What the viewer's clock shows, in milliseconds. */
  function Shown(zone: Change, t: int): int {
    t + zone.Offset(t)
  }

  function DateAt(clock: Clock, t: int): (c: Civil)
    ensures c.Valid()
  {
    match clock
    case Viewer(zone) => CivilFromDay(Shown(zone, t) / DAY)
    case Charger(tz) => ZonedTime.PartsInTz(t / MINUTE, tz).date
  }

  function TimeAt(clock: Clock, t: int): (tm: Time)
    ensures tm.Valid()
  {
    match clock
    case Viewer(zone) => ClockTime(Shown(zone, t))
    case Charger(tz) => Time(ZonedTime.PartsInTz(t / MINUTE, tz).hours, ZonedTime.PartsInTz(t / MINUTE, tz).minutes)
  }

  function ClockTime(w: int): (tm: Time)
    ensures tm.Valid()
  {
    var m := w % DAY / MINUTE;
    Time(m / 60, m % 60)
  }

  /**
   The instant of a local time, UTC(t) of section 21.4.1.26 of ECMA-262: of two the earlier; for a time the
   clock skips, the offset before the change.
  */
  function LocalInstant(zone: Change, w: int): int {
    if w - zone.before < zone.at then w - zone.before
    else if w - zone.after >= zone.at then w - zone.after
    else w - zone.before
  }

  /** `zonedDate`: `new Date(year, month - 1, day, hours, minutes, 0, 0)` without `tz`, the search with it. */
  function InstantOf(clock: Clock, c: Civil, hours: int, minutes: int): int {
    match clock
    case Viewer(zone) => LocalInstant(zone, DAY * UtcDay(c.year, c.month - 1, c.day) + hours * HOUR + minutes * MINUTE)
    case Charger(tz) => MINUTE * ZonedTime.Probe(ZonedTime.Request(c.year, c.month, c.day, hours, minutes), tz, 3)
  }

  /** `Math.round(n / step) * step`: halves go up. */
  function Snap(n: int, step: int): int
    requires step > 0
  {
    (2 * n + step) / (2 * step) * step
  }

  /** A date at a time whose minutes are snapped, a 60th minute carried into the hours. */
  function AtSnapped(s: Setting, c: Civil, t: Time): int
    requires s.Valid()
  {
    var snapped := Snap(t.minutes, s.step);
    InstantOf(s.clock, c, t.hours + snapped / 60, snapped % 60)
  }

  // --- The edits ---------------------------------------------------------------------------------

  function Effective(s: Setting, v: Option<Range>): Range {
    if v.Some? then v.value else Range(s.now, s.now + 60 * MINUTE)
  }

  /** `Math.max(1, Math.round((end - start) / 60_000))`. */
  function DurationMin(r: Range): (n: int)
    ensures n >= 1
  {
    var n := (2 * (r.end - r.start) + MINUTE) / (2 * MINUTE);
    if n < 1 then 1 else n
  }

  /** The date `new Date` and `Date.UTC` put a date's parts on: itself, but for a year in 0..99 one 1900 years later. */
  function ReadDate(c: Civil): (d: Civil)
    ensures d.Valid() && DayNumber(d) == UtcDay(c.year, c.month - 1, c.day)
  {
    CivilFromDay(UtcDay(c.year, c.month - 1, c.day))
  }

  lemma ReadDateIs(c: Civil)
    requires c.Valid()
    ensures PlainYear(c.year) ==> ReadDate(c) == c
    ensures !PlainYear(c.year) && c != Civil(0, 2, 29) ==> ReadDate(c) == Civil(c.year + 1900, c.month, c.day)
    ensures ReadDate(Civil(0, 2, 29)) == Civil(1900, 3, 1)
  {
    hide MonthStart, CivilFromDay;
    var d := Civil(FullYear(c.year), c.month, c.day);
    LengthsAsRead(c.year, c.month);
    FebruaryOfYear0(c);
    if c != Civil(0, 2, 29) {
      assert d.Valid();
      DayNumberOrders(ReadDate(c), d);
    }
    LengthsAsRead(0, 2);
    FebruaryOfYear0(Civil(0, 2, 29));
    MonthIndexSplits(1900, 2);
    MonthIndexSplits(1900, 3);
    MonthStep(MonthIndex(1900, 2));
    assert DaysInMonth(MonthIndex(1900, 2)) == 28;
    assert Civil(1900, 3, 1).Valid() && MonthIndex(1900, 3) == MonthIndex(1900, 2) + 1;
    DayNumberOrders(ReadDate(Civil(0, 2, 29)), Civil(1900, 3, 1));
  }

  /** The duration is the window's length to the nearest minute, a half up, and at least one. */
  lemma DurationIsNearest(r: Range)
    ensures var n, d := DurationMin(r), r.end - r.start;
            if d < MINUTE then n == 1 else -MINUTE < 2 * (n * MINUTE - d) <= MINUTE
  {
  }

  /** Where a typed end goes before it is pushed past the start. */
  function TypedEnd(s: Setting, r: Range, t: Time): int
    requires s.Valid()
  {
    AtSnapped(s, DateAt(s.clock, r.end), t)
  }

  function Apply(s: Setting, v: Option<Range>, e: Edit): Option<Range>
    requires s.Valid()
  {
    var r := Effective(s, v);
    match e
    case PickDay(c) =>
      var start := AtSnapped(s, c, TimeAt(s.clock, r.start));
      Some(Range(start, start + DurationMin(r) * MINUTE))
    case StartTime(text) =>
      var p := ParseTimeStr(text);
      if p == None then v else
      var start := AtSnapped(s, DateAt(s.clock, r.start), p.value);
      Some(Range(start, start + DurationMin(r) * MINUTE))
    case EndTime(text) =>
      var p := ParseTimeStr(text);
      if p == None then v else
      var end := TypedEnd(s, r, p.value);
      Some(Range(r.start, if end <= r.start then end + DAY else end))
    case Duration(mins) =>
      Some(Range(r.start, r.start + mins * MINUTE))
  }

  function Run(s: Setting, v: Option<Range>, es: seq<Edit>): Option<Range>
    requires s.Valid()
  {
    if es == [] then v else Apply(s, Run(s, v, es[..|es| - 1]), es[|es| - 1])
  }

  // --- Order ---------------------------------------------------------------------------------------

  ghost predicate Ordered(v: Option<Range>) {
    v.Some? ==> v.value.start < v.value.end
  }

  /** The preset chips carry positive durations. */
  predicate Sensible(e: Edit) {
    e.Duration? ==> e.mins > 0
  }

  /** A typed end that even a day later is not after the start. */
  predicate Breaks(s: Setting, v: Option<Range>, e: Edit)
    requires s.Valid()
  {
    && e.EndTime? && ParseTimeStr(e.text).Some?
    && TypedEnd(s, Effective(s, v), ParseTimeStr(e.text).value) + DAY <= Effective(s, v).start
  }

  /** A text that is no time. */
  predicate Unread(e: Edit) {
    (e.StartTime? || e.EndTime?) && ParseTimeStr(e.text) == None
  }

  /** In either branch an edit leaves the start before the end, whatever it was before, iff no typed end falls a day short. */
  lemma EditOrderIff(s: Setting, v: Option<Range>, e: Edit)
    requires s.Valid() && Sensible(e)
    ensures Ordered(Apply(s, v, e)) <==> if Unread(e) then Ordered(v) else !Breaks(s, v, e)
  {
    hide ParseTimeStr, AtSnapped, DateAt, TimeAt, DurationMin;
  }

  /** Every run without such an end, from no value or an ordered one, keeps the start before the end. */
  lemma {:induction false} RunKeepsOrder(s: Setting, v: Option<Range>, es: seq<Edit>)
    requires s.Valid() && Ordered(v)
    requires forall i :: 0 <= i < |es| ==> Sensible(es[i]) && !Breaks(s, Run(s, v, es[..i]), es[i])
    ensures Ordered(Run(s, v, es))
  {
    hide Apply, Breaks, Unread;
    if es != [] {
      var n := |es| - 1;
      forall i | 0 <= i < n
        ensures Sensible(es[..n][i]) && !Breaks(s, Run(s, v, es[..n][..i]), es[..n][i])
      {
        assert es[..n][..i] == es[..i];
      }
      RunKeepsOrder(s, v, es[..n]);
      EditOrderIff(s, Run(s, v, es[..n]), es[n]);
    }
  }

  lemma SnapFacts(m: int, step: int)
    requires 0 <= m < 60 && (step == 15 || step == 30)
    ensures 0 <= Snap(m, step) <= 60 && Snap(m, step) % step == 0
    ensures -step <= 2 * (Snap(m, step) - m) <= step
    ensures Snap(m, step) == 60 <==> 2 * m + step >= 120
    ensures m % step == 0 ==> Snap(m, step) == m
  {
  }

  // --- Order without `tz` ------------------------------------------------------------------------------

  /** The wall clock an edit of the viewer's aims at: a day and a snapped time of it. */
  function Aim(s: Setting, c: Civil, t: Time): int
    requires s.Valid()
  {
    DAY * UtcDay(c.year, c.month - 1, c.day) + (60 * t.hours + Snap(t.minutes, s.step)) * MINUTE
  }

  /** A snapped time is the day's start plus whole minutes, at most 24 hours of them. */
  lemma AtSnappedIs(s: Setting, c: Civil, t: Time)
    requires s.Valid() && s.clock.Viewer? && t.Valid()
    ensures 0 <= 60 * t.hours + Snap(t.minutes, s.step) <= 1440
    ensures AtSnapped(s, c, t) == LocalInstant(s.clock.zone, Aim(s, c, t))
  {
    hide MonthStart, UtcDay, LocalInstant;
    SnapFacts(t.minutes, s.step);
    var p := Snap(t.minutes, s.step);
    assert p == 60 * (p / 60) + p % 60;
  }

  /** The first two-digit years only move a date later. */
  lemma UtcDayNotEarlier(c: Civil)
    requires c.Valid()
    ensures UtcDay(c.year, c.month - 1, c.day) >= DayNumber(c)
    ensures PlainYear(c.year) ==> UtcDay(c.year, c.month - 1, c.day) == DayNumber(c)
  {
    hide MonthStart;
    MonthsApart(MonthIndex(FullYear(c.year), c.month), MonthIndex(c.year, c.month));
  }

  /** A typed end is on the end's day or after it. */
  lemma TypedEndNotBeforeItsDay(s: Setting, r: Range, t: Time)
    requires s.Valid() && s.clock.Viewer? && t.Valid()
    ensures var w := Aim(s, DateAt(s.clock, r.end), t);
            w > Shown(s.clock.zone, r.end) - DAY && TypedEnd(s, r, t) == LocalInstant(s.clock.zone, w)
  {
    hide MonthStart, UtcDay, LocalInstant, AtSnapped, Snap, CivilFromDay;
    var c := DateAt(s.clock, r.end);
    AtSnappedIs(s, c, t);
    UtcDayNotEarlier(c);
    assert DayNumber(c) == Shown(s.clock.zone, r.end) / DAY;
    DayHolds(Shown(s.clock.zone, r.end));
  }

  lemma DayHolds(w: int)
    ensures DAY * (w / DAY) <= w < DAY * (w / DAY) + DAY
  {
  }

  /**
   Without `tz` a typed end falls short iff the clock goes back, the end is typed for a time before that, and
   the start shows at least a day more; if the start is after the change, a day less the hours put back.
  */
  lemma ViewerBreaksIff(s: Setting, v: Option<Range>, e: Edit)
    requires s.Valid() && s.clock.Viewer? && Ordered(v) && e.EndTime? && ParseTimeStr(e.text).Some?
    ensures var zone, r := s.clock.zone, Effective(s, v);
            var w := Aim(s, DateAt(s.clock, r.end), ParseTimeStr(e.text).value);
            Breaks(s, v, e) <==>
              && zone.after < zone.before
              && w < zone.at + zone.before
              && w + DAY <= Shown(zone, r.start) + (if r.start >= zone.at then zone.before - zone.after else 0)
  {
    hide ParseTimeStr, DateAt, TypedEnd, Aim;
    ReadTimesAreValid(e.text);
    var zone, r, t := s.clock.zone, Effective(s, v), ParseTimeStr(e.text).value;
    TypedEndNotBeforeItsDay(s, r, t);
  }

  /** In a zone whose clock is never put back no run breaks the order. */
  lemma {:induction false} ViewerRunKeepsOrder(s: Setting, v: Option<Range>, es: seq<Edit>)
    requires s.Valid() && s.clock.Viewer? && s.clock.zone.before <= s.clock.zone.after
    requires Ordered(v) && forall i :: 0 <= i < |es| ==> Sensible(es[i])
    ensures Ordered(Run(s, v, es))
  {
    hide Apply, Breaks, DateAt, Aim, ParseTimeStr;
    if es != [] {
      var n := |es| - 1;
      var u := Run(s, v, es[..n]);
      ViewerRunKeepsOrder(s, v, es[..n]);
      EditOrderIff(s, u, es[n]);
      if es[n].EndTime? && ParseTimeStr(es[n].text).Some? {
        ViewerBreaksIff(s, u, es[n]);
      } else {
        OnlyEndsBreak(s, u, es[n]);
      }
    }
  }

  lemma OnlyEndsBreak(s: Setting, v: Option<Range>, e: Edit)
    requires s.Valid()
    ensures Breaks(s, v, e) ==> e.EndTime? && ParseTimeStr(e.text).Some?
  {
    hide TypedEnd, ParseTimeStr;
  }

  /**
   Where it is put back the promise fails: on the Sunday Central Europe returns from 03:00 to 02:00, with a window
   from 23:10 to 23:40, a typed end of 00:00 comes out at 23:00, before the start.
  */
  lemma FallBackBreaksTheOrder(s: Setting, sunday: int)
    requires s.Valid() && s.clock == Viewer(Change(sunday * DAY + HOUR, 2 * HOUR, HOUR)) && PlainYear(CivilFromDay(sunday).year)
    ensures var r := Range(sunday * DAY + 22 * HOUR + 10 * MINUTE, sunday * DAY + 22 * HOUR + 40 * MINUTE);
            && TimeAt(s.clock, r.start) == Time(23, 10) && TimeAt(s.clock, r.end) == Time(23, 40)
            && DateAt(s.clock, r.start) == DateAt(s.clock, r.end) == CivilFromDay(sunday)
            && Apply(s, Some(r), EndTime(ToTimeStr(Time(0, 0)))) == Some(Range(r.start, sunday * DAY + 22 * HOUR))
            && TimeAt(s.clock, sunday * DAY + 22 * HOUR) == Time(23, 0)
  {
    hide CivilFromDay, MonthStart, UtcDay, ParseTimeStr, ToTimeStr, AtSnapped, Snap;
    var r := Range(sunday * DAY + 22 * HOUR + 10 * MINUTE, sunday * DAY + 22 * HOUR + 40 * MINUTE);
    var c := CivilFromDay(sunday);
    ClockSplits(sunday, 23 * 60, sunday * DAY + 23 * HOUR);
    ClockSplits(sunday, 23 * 60 + 10, sunday * DAY + 23 * HOUR + 10 * MINUTE);
    ClockSplits(sunday, 23 * 60 + 40, sunday * DAY + 23 * HOUR + 40 * MINUTE);
    hide ClockTime;
    TimeRoundTrip(Time(0, 0));
    UtcDayNotEarlier(c);
    AtSnappedIs(s, c, Time(0, 0));
    SnapFacts(0, s.step);
    assert Aim(s, c, Time(0, 0)) == DAY * sunday;
  }

  // --- Whole minutes and the duration -----------------------------------------------------------------

  /** The edits that place the start anew. */
  ghost predicate Anchors(e: Edit) {
    e.PickDay? || (e.StartTime? && ParseTimeStr(e.text).Some?)
  }

  ghost predicate Whole(v: Option<Range>) {
    v.Some? && v.value.start % MINUTE == 0 && v.value.end % MINUTE == 0
  }

  lemma WholeMinutes(n: int)
    ensures n * MINUTE % MINUTE == 0
  {
    DivUnique(n * MINUTE, MINUTE, n, 0);
  }

  lemma SumsAreWhole(a: int, n: int)
    requires a % MINUTE == 0
    ensures (a + n * MINUTE) % MINUTE == 0
  {
    DivUnique(a + n * MINUTE, MINUTE, a / MINUTE + n, 0);
  }

  lemma SnappedIsWhole(s: Setting, c: Civil, t: Time)
    requires s.Valid() && t.Valid()
    ensures AtSnapped(s, c, t) % MINUTE == 0
  {
    hide MonthStart, UtcDay, Snap, ZonedTime.Probe;
    match s.clock {
      case Viewer(zone) =>
        hide AtSnapped;
        AtSnappedIs(s, c, t);
        var n := 1440 * UtcDay(c.year, c.month - 1, c.day) + 60 * t.hours + Snap(t.minutes, s.step);
        assert Aim(s, c, t) == n * MINUTE;
        LessWhole(n, zone.before);
        LessWhole(n, zone.after);
      case Charger(tz) =>
        var p := Snap(t.minutes, s.step);
        WholeMinutes(ZonedTime.Probe(ZonedTime.Request(c.year, c.month, c.day, t.hours + p / 60, p % 60), tz, 3));
    }
  }

  lemma LessWhole(n: int, off: int)
    requires off % MINUTE == 0
    ensures (n * MINUTE - off) % MINUTE == 0
  {
    DivUnique(n * MINUTE - off, MINUTE, n - off / MINUTE, 0);
  }

  lemma EditMakesOrKeepsWhole(s: Setting, v: Option<Range>, e: Edit)
    requires s.Valid() && (Anchors(e) || Whole(v))
    ensures Whole(Apply(s, v, e))
  {
    hide Apply, Whole;
    match e
    case PickDay(c) => PickIsWhole(s, v, c);
    case StartTime(text) => StartEditIsWhole(s, v, text);
    case EndTime(text) => EndEditIsWhole(s, v, text);
    case Duration(mins) => DurationEditIsWhole(s, v, mins);
  }

  lemma PickIsWhole(s: Setting, v: Option<Range>, c: Civil)
    requires s.Valid()
    ensures Whole(Apply(s, v, PickDay(c)))
  {
    hide TimeAt, AtSnapped, DurationMin, Whole;
    var r := Effective(s, v);
    AnchoredIsWhole(s, r, c, TimeAt(s.clock, r.start));
  }

  lemma StartEditIsWhole(s: Setting, v: Option<Range>, text: string)
    requires s.Valid() && (ParseTimeStr(text).Some? || Whole(v))
    ensures Whole(Apply(s, v, StartTime(text)))
  {
    hide DateAt, AtSnapped, DurationMin, ParseTimeStr, Whole;
    var r, p := Effective(s, v), ParseTimeStr(text);
    if p.Some? {
      ReadTimesAreValid(text);
      AnchoredIsWhole(s, r, DateAt(s.clock, r.start), p.value);
    }
  }

  lemma EndEditIsWhole(s: Setting, v: Option<Range>, text: string)
    requires s.Valid() && Whole(v)
    ensures Whole(Apply(s, v, EndTime(text)))
  {
    hide DateAt, AtSnapped, ParseTimeStr;
    var r, p := v.value, ParseTimeStr(text);
    if p.Some? {
      ReadTimesAreValid(text);
      EndIsWhole(s, r, DateAt(s.clock, r.end), p.value);
    }
  }

  lemma DurationEditIsWhole(s: Setting, v: Option<Range>, mins: int)
    requires s.Valid() && Whole(v)
    ensures Whole(Apply(s, v, Duration(mins)))
  {
    DurationIsWhole(v.value, mins);
  }

  lemma DurationIsWhole(r: Range, mins: int)
    requires Whole(Some(r))
    ensures Whole(Some(Range(r.start, r.start + mins * MINUTE)))
  {
    SumsAreWhole(r.start, mins);
  }

  lemma EndIsWhole(s: Setting, r: Range, c: Civil, t: Time)
    requires s.Valid() && t.Valid() && Whole(Some(r))
    ensures Whole(Some(Range(r.start, AtSnapped(s, c, t)))) && Whole(Some(Range(r.start, AtSnapped(s, c, t) + DAY)))
  {
    hide AtSnapped;
    SnappedIsWhole(s, c, t);
    SumsAreWhole(AtSnapped(s, c, t), 1440);
  }

  lemma AnchoredIsWhole(s: Setting, r: Range, c: Civil, t: Time)
    requires s.Valid() && t.Valid()
    ensures var start := AtSnapped(s, c, t); Whole(Some(Range(start, start + DurationMin(r) * MINUTE)))
  {
    hide AtSnapped, DurationMin;
    SnappedIsWhole(s, c, t);
    SumsAreWhole(AtSnapped(s, c, t), DurationMin(r));
  }

  /** In either branch, once some day pick or readable start edit has happened both ends stay on whole minutes. */
  lemma {:induction false} RunIsWholeAfterAnchor(s: Setting, v: Option<Range>, es: seq<Edit>, k: nat)
    requires s.Valid() && k < |es| && Anchors(es[k])
    ensures Whole(Run(s, v, es))
  {
    var n := |es| - 1;
    if k < n {
      RunIsWholeAfterAnchor(s, v, es[..n], k);
    }
    EditMakesOrKeepsWhole(s, Run(s, v, es[..n]), es[n]);
  }

  /** Placing the start anew keeps the duration exactly iff it is a positive number of whole minutes. */
  lemma AnchorKeepsDurationIff(s: Setting, v: Option<Range>, e: Edit)
    requires s.Valid() && Anchors(e)
    ensures var r, r' := Effective(s, v), Apply(s, v, e).value;
            r'.end - r'.start == r.end - r.start <==> r.end > r.start && (r.end - r.start) % MINUTE == 0
  {
    hide ParseTimeStr, AtSnapped, DateAt, TimeAt;
    var r := Effective(s, v);
    var d := r.end - r.start;
    WholeMinutes(DurationMin(r));
    if d > 0 && d % MINUTE == 0 {
      DivUnique(2 * d + MINUTE, 2 * MINUTE, d / MINUTE, MINUTE);
    }
  }

  lemma WholeDifference(a: int, b: int)
    requires a % MINUTE == 0 && b % MINUTE == 0
    ensures (a - b) % MINUTE == 0
  {
    DivUnique(a - b, MINUTE, a / MINUTE - b / MINUTE, 0);
  }

  lemma AnchorGivesRange(s: Setting, v: Option<Range>, e: Edit)
    requires s.Valid() && Anchors(e)
    ensures Apply(s, v, e).Some?
  {
  }

  /** So after an anchor every later day pick or start edit leaves the duration as it is iff the range is in order. */
  lemma LaterAnchorsKeepDurationIff(s: Setting, v: Option<Range>, es: seq<Edit>, k: nat, e: Edit)
    requires s.Valid() && k < |es| && Anchors(es[k]) && Anchors(e)
    ensures var r, r' := Run(s, v, es), Run(s, v, es + [e]);
            && r.Some? && r'.Some?
            && (r'.value.end - r'.value.start == r.value.end - r.value.start <==> Ordered(r))
  {
    hide Apply, Anchors;
    RunIsWholeAfterAnchor(s, v, es, k);
    assert (es + [e])[..|es|] == es;
    var r := Run(s, v, es).value;
    WholeDifference(r.end, r.start);
    AnchorGivesRange(s, Some(r), e);
    AnchorKeepsDurationIff(s, Some(r), e);
  }

  // --- Where an edit without `tz` lands -------------------------------------------------------------------

  /** The current time of day rounds up to midnight. */
  predicate RoundsToMidnight(s: Setting, t: Time) {
    t.hours == 23 && 2 * t.minutes + s.step >= 120
  }

  /** Of the instants at which the clock shows a time, the earliest is taken. */
  lemma LocalInstantIsEarliest(zone: Change, w: int, t: int)
    requires Shown(zone, t) == w
    ensures LocalInstant(zone, w) <= t
  {
  }

  /** Without a value yet the first pick takes the time of day of the mount, and an hour. */
  lemma FirstPickLastsAnHour(s: Setting, c: Civil)
    requires s.Valid()
    ensures var r := Apply(s, None, PickDay(c)).value; r.end - r.start == HOUR && r.start == AtSnapped(s, c, TimeAt(s.clock, s.now))
  {
    hide AtSnapped, TimeAt;
    ExactMinutes(60);
  }

  /** A wall clock the zone passes over when its clock goes forward. */
  predicate SkipsOver(zone: Change, w: int) {
    zone.at + zone.before <= w < zone.at + zone.after
  }

  /** The clock shows the time aimed at iff it is not skipped; a skipped one comes out later by the skip. */
  lemma LocalInstantShows(zone: Change, w: int)
    ensures Shown(zone, LocalInstant(zone, w)) == if SkipsOver(zone, w) then w + (zone.after - zone.before) else w
  {
  }

  /** The time of day a snapped time shows. */
  function Carried(t: Time, step: int): Time
    requires step > 0
  {
    Time((t.hours + Snap(t.minutes, step) / 60) % 24, Snap(t.minutes, step) % 60)
  }

  /** The day and the time aimed at: the given ones, or the next day's start if the time rounds to midnight. */
  lemma AimIs(s: Setting, c: Civil, t: Time)
    requires s.Valid() && t.Valid()
    ensures Aim(s, c, t) / DAY == DayNumber(ReadDate(c)) + (if RoundsToMidnight(s, t) then 1 else 0)
    ensures ClockTime(Aim(s, c, t)) == Carried(t, s.step)
  {
    hide MonthStart, UtcDay, Snap, ClockTime, CivilFromDay;
    var n := 60 * t.hours + Snap(t.minutes, s.step);
    SnapFacts(t.minutes, s.step);
    ClockSplits(DayNumber(ReadDate(c)), n, Aim(s, c, t));
    CarriedMinutes(t.hours, Snap(t.minutes, s.step));
  }

  lemma ClockSplits(day: int, n: int, w: int)
    requires 0 <= n <= 1440 && w == DAY * day + n * MINUTE
    ensures w / DAY == day + n / 1440
    ensures ClockTime(w) == Time(n % 1440 / 60, n % 60)
  {
    var d, m := n / 1440, n % 1440;
    DivUnique(w, DAY, day + d, m * MINUTE);
    DivUnique(m * MINUTE, MINUTE, m, 0);
  }

  lemma CarriedMinutes(h: int, p: int)
    requires 0 <= h < 24 && 0 <= p <= 60
    ensures (60 * h + p) % 1440 / 60 == (h + p / 60) % 24 && (60 * h + p) % 60 == p % 60
  {
  }

  /**
   A snapped time that is not skipped shows on the given day, or on the next if it rounds to midnight; a
   skipped one shows later by the skip.
  */
  lemma SnappedLands(s: Setting, c: Civil, t: Time)
    requires s.Valid() && s.clock.Viewer? && t.Valid()
    ensures var zone, w, u := s.clock.zone, Aim(s, c, t), AtSnapped(s, c, t);
            if SkipsOver(zone, w) then Shown(zone, u) == w + (zone.after - zone.before)
            else
              && DateAt(s.clock, u) == (if RoundsToMidnight(s, t) then Following(ReadDate(c)) else ReadDate(c))
              && TimeAt(s.clock, u) == Carried(t, s.step)
  {
    hide MonthStart, UtcDay, ClockTime, Carried, AtSnapped, LocalInstant, CivilFromDay, Aim;
    AtSnappedIs(s, c, t);
    LocalInstantShows(s.clock.zone, Aim(s, c, t));
    AimIs(s, c, t);
    var d := ReadDate(c);
    hide ReadDate;
    FollowingCounts(d);
    CivilRoundTrip(d);
    CivilRoundTrip(Following(d));
  }

  /** A pick lands on the picked day, or on the next if the time of day rounds to midnight, unless the zone skips that time. */
  lemma PickLands(s: Setting, v: Option<Range>, c: Civil)
    requires s.Valid() && s.clock.Viewer?
    ensures var zone, t := s.clock.zone, TimeAt(s.clock, Effective(s, v).start);
            var w, r := Aim(s, c, t), Apply(s, v, PickDay(c)).value;
            if SkipsOver(zone, w) then Shown(zone, r.start) == w + (zone.after - zone.before)
            else
              && DateAt(s.clock, r.start) == (if RoundsToMidnight(s, t) then Following(ReadDate(c)) else ReadDate(c))
              && TimeAt(s.clock, r.start) == Carried(t, s.step)
  {
    hide TimeAt, DateAt, DurationMin, AtSnapped, Aim, Carried, ReadDate;
    SnappedLands(s, c, TimeAt(s.clock, Effective(s, v).start));
  }

  /** A typed start goes on the start's own day, or the next if it rounds to midnight, at the typed time snapped. */
  lemma StartEditLands(s: Setting, v: Option<Range>, text: string)
    requires s.Valid() && s.clock.Viewer? && ParseTimeStr(text).Some?
    ensures var zone, t, c := s.clock.zone, ParseTimeStr(text).value, DateAt(s.clock, Effective(s, v).start);
            var w, r := Aim(s, c, t), Apply(s, v, StartTime(text)).value;
            if SkipsOver(zone, w) then Shown(zone, r.start) == w + (zone.after - zone.before)
            else
              && DateAt(s.clock, r.start) == (if RoundsToMidnight(s, t) then Following(ReadDate(c)) else ReadDate(c))
              && TimeAt(s.clock, r.start) == Carried(t, s.step)
  {
    hide TimeAt, DateAt, DurationMin, AtSnapped, Aim, Carried, ReadDate, ParseTimeStr;
    ReadTimesAreValid(text);
    SnappedLands(s, DateAt(s.clock, Effective(s, v).start), ParseTimeStr(text).value);
  }

  /**
   A typed end shows on the end's own day, or the next if it rounds to midnight, at the typed time snapped; if it
   would not come after the start it is put 24 hours on, which is the same time a day later unless the clock moves.
  */
  lemma EndEditLands(s: Setting, v: Option<Range>, text: string)
    requires s.Valid() && s.clock.Viewer? && ParseTimeStr(text).Some?
    ensures var zone, t, c := s.clock.zone, ParseTimeStr(text).value, DateAt(s.clock, Effective(s, v).end);
            var w, r, r' := Aim(s, c, t), Effective(s, v), Apply(s, v, EndTime(text)).value;
            var u := TypedEnd(s, r, t);
            && r' == Range(r.start, if u > r.start then u else u + DAY)
            && (if SkipsOver(zone, w) then Shown(zone, u) == w + (zone.after - zone.before)
                else
                  && DateAt(s.clock, u) == (if RoundsToMidnight(s, t) then Following(ReadDate(c)) else ReadDate(c))
                  && TimeAt(s.clock, u) == Carried(t, s.step))
            && (zone.Offset(u) == zone.Offset(u + DAY) ==>
                  DateAt(s.clock, u + DAY) == Following(DateAt(s.clock, u)) && TimeAt(s.clock, u + DAY) == TimeAt(s.clock, u))
  {
    hide TimeAt, DateAt, DurationMin, AtSnapped, Aim, Carried, ReadDate, ParseTimeStr, RoundsToMidnight, SkipsOver;
    ReadTimesAreValid(text);
    var r, t := Effective(s, v), ParseTimeStr(text).value;
    SnappedLands(s, DateAt(s.clock, r.end), t);
    var u := TypedEnd(s, r, t);
    if s.clock.zone.Offset(u) == s.clock.zone.Offset(u + DAY) {
      ADayLater(s.clock, u);
    }
  }

  lemma ADayLater(clock: Clock, t: int)
    requires clock.Viewer? && clock.zone.Offset(t) == clock.zone.Offset(t + DAY)
    ensures DateAt(clock, t + DAY) == Following(DateAt(clock, t)) && TimeAt(clock, t + DAY) == TimeAt(clock, t)
  {
    hide CivilFromDay, MonthStart;
    var w, c := Shown(clock.zone, t), DateAt(clock, t);
    DivUnique(w + DAY, DAY, w / DAY + 1, w % DAY);
    FollowingCounts(c);
    CivilRoundTrip(Following(c));
  }

  /**
   Picking the same day again changes nothing iff the first pick did not round to midnight; or, if the zone skips
   the time picked, iff the time shown instead snaps to itself or back to the skipped one, on the same day.
  */
  lemma PickTwiceIff(s: Setting, v: Option<Range>, c: Civil)
    requires s.Valid() && s.clock.Viewer? && -DAY < s.clock.zone.after - s.clock.zone.before < DAY
    ensures var zone, t, once := s.clock.zone, TimeAt(s.clock, Effective(s, v).start), Apply(s, v, PickDay(c));
            var w := Aim(s, c, t);
            var shown := w + (zone.after - zone.before);
            Apply(s, once, PickDay(c)) == once <==>
              if SkipsOver(zone, w) then Aim(s, c, ClockTime(shown)) == shown || Aim(s, c, ClockTime(shown)) == w
              else !RoundsToMidnight(s, t)
  {
    hide MonthStart, DateAt, AtSnapped, Aim, DurationMin, Whole, LocalInstant, SkipsOver, ReadDate, Snap, ClockTime;
    var t := TimeAt(s.clock, Effective(s, v).start);
    var once := Apply(s, v, PickDay(c));
    PickLands(s, v, c);
    var t' := TimeAt(s.clock, once.value.start);
    assert t' == ClockTime(Shown(s.clock.zone, once.value.start));
    hide TimeAt;
    AtSnappedIs(s, c, t);
    AtSnappedIs(s, c, t');
    SnapAgain(s, c, t);
    EditMakesOrKeepsWhole(s, v, PickDay(c));
    EditOrderIff(s, v, PickDay(c));
    RepickKeepsDuration(s, once.value, c);
    SameInstant(s.clock.zone, Aim(s, c, t), Aim(s, c, t'));
  }

  /** Two wall clocks are one instant iff they are the same, or one is skipped and the other what is shown for it. */
  lemma SameInstant(zone: Change, w: int, w': int)
    ensures SkipsOver(zone, w) ==>
              (LocalInstant(zone, w) == LocalInstant(zone, w') <==> w' == w || w' == w + (zone.after - zone.before))
    ensures -DAY < zone.after - zone.before < DAY && w' == w - DAY ==> LocalInstant(zone, w) != LocalInstant(zone, w')
  {
  }

  /** The time a pick shows is already snapped; if the pick rounded to midnight, it is the start of the day. */
  lemma SnapAgain(s: Setting, c: Civil, t: Time)
    requires s.Valid() && t.Valid()
    ensures var t' := Carried(t, s.step);
            Aim(s, c, t') == if RoundsToMidnight(s, t) then Aim(s, c, t) - DAY else Aim(s, c, t)
  {
    hide UtcDay, Snap;
    SnapFacts(t.minutes, s.step);
    SnappedMinutesAreOnGrid(t.minutes, s.step);
    CarriedTime(t.hours, Snap(t.minutes, s.step));
    assert Carried(t, s.step).hours == (t.hours + Snap(t.minutes, s.step) / 60) % 24;
    assert Snap(Carried(t, s.step).minutes, s.step) == Snap(t.minutes, s.step) % 60;
    hide Carried;
  }

  lemma CarriedTime(h: int, p: int)
    requires 0 <= h < 24 && 0 <= p <= 60
    ensures 60 * ((h + p / 60) % 24) + p % 60 == if h == 23 && p == 60 then 0 else 60 * h + p
  {
    assert p / 60 == if p == 60 then 1 else 0;
  }

  lemma RepickKeepsDuration(s: Setting, r: Range, c: Civil)
    requires s.Valid() && Whole(Some(r)) && r.start < r.end
    ensures var r' := Apply(s, Some(r), PickDay(c)).value; r'.end - r'.start == r.end - r.start
  {
    hide Apply;
    WholeDifference(r.end, r.start);
    AnchorKeepsDurationIff(s, Some(r), PickDay(c));
  }

  lemma SnappedMinutesAreOnGrid(m: int, step: int)
    requires 0 <= m < 60 && (step == 15 || step == 30)
    ensures Snap(m, step) % 60 % step == 0
    ensures Snap(Snap(m, step) % 60, step) == Snap(m, step) % 60
  {
    SnapFacts(m, step);
    var p := Snap(m, step);
    hide Snap;
    GridMinutes(p, step);
    SnapFacts(p % 60, step);
  }

  lemma GridMinutes(p: int, step: int)
    requires 0 <= p <= 60 && (step == 15 || step == 30) && p % step == 0
    ensures p % 60 % step == 0
  {
    assert p % 60 == if p == 60 then 0 else p;
  }

  /** The duration chip that was pressed is the one shown pressed, and stays so through later picks and start edits. */
  lemma {:induction false} ChipStaysPressed(s: Setting, v: Option<Range>, mins: nat, es: seq<Edit>)
    requires s.Valid() && mins > 0 && forall i :: 0 <= i < |es| ==> Anchors(es[i])
    ensures var r := Run(s, Apply(s, v, Duration(mins)), es);
            r.Some? && DurationMin(r.value) == mins && r.value.end - r.value.start == mins * MINUTE
  {
    hide ParseTimeStr, AtSnapped, TimeAt, DateAt;
    ExactMinutes(mins);
    if es != [] {
      var n := |es| - 1;
      ChipStaysPressed(s, v, mins, es[..n]);
    }
  }

  lemma ExactMinutes(mins: nat)
    ensures (2 * (mins * MINUTE) + MINUTE) / (2 * MINUTE) == mins
  {
    DivUnique(2 * (mins * MINUTE) + MINUTE, 2 * MINUTE, mins, MINUTE);
  }

  // --- Overlap ------------------------------------------------------------------------------------------

  /** `cs < e && ce > s`. */
  predicate HasOverlap(r: Range, conflicts: seq<Range>) {
    exists i :: 0 <= i < |conflicts| && conflicts[i].start < r.end && conflicts[i].end > r.start
  }

  predicate Covers(r: Range, t: int) {
    r.start <= t < r.end
  }

  /** For proper windows the banner shows iff some instant lies in both the window and a conflict. */
  lemma OverlapIsSharedInstant(r: Range, conflicts: seq<Range>)
    requires r.start < r.end && forall i :: 0 <= i < |conflicts| ==> conflicts[i].start < conflicts[i].end
    ensures HasOverlap(r, conflicts) <==>
              exists i, t :: 0 <= i < |conflicts| && Covers(r, t) && Covers(conflicts[i], t)
  {
    if HasOverlap(r, conflicts) {
      var i :| 0 <= i < |conflicts| && conflicts[i].start < r.end && conflicts[i].end > r.start;
      var t := if conflicts[i].start < r.start then r.start else conflicts[i].start;
      assert Covers(r, t) && Covers(conflicts[i], t);
    }
  }
}
