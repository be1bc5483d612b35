/**
 Turning a wall-clock time in a zone into an instant. Instants and offsets are whole minutes: a zone is
 any function from instants to offsets, which is all `Intl.DateTimeFormat` tells the code about it.
*/
module ZonedTime {
  import opened Arithmetic
  import opened Gregorian
  import opened MonthGrid

  const DAY_MINUTES := 24 * 60

  /** A zone's offset in minutes at each whole minute. */
  type MinuteZone = int -> int

  datatype Request = Request(year: int, month: int, day: int, hours: int, minutes: int) {
    /** Hours reach 24 because callers carry a snapped 60th minute into them. */
    predicate Valid() {
      && Civil(year, month, day).Valid() && PlainYear(year)
      && 0 <= hours && 0 <= minutes && 60 * hours + minutes <= DAY_MINUTES
    }

    function Month(): int { MonthIndex(year, month) }

    /** The wall clock asked for, as minutes on a clock that runs like UTC. */
    function Wanted(): int {
      DAY_MINUTES * DayNumber(Civil(year, month, day)) + 60 * hours + minutes
    }
  }

  datatype Parts = Parts(date: Civil, hours: int, minutes: int)

  function Wall(z: MinuteZone, utc: int): int {
    utc + z(utc)
  }

  function PartsOfWall(w: int): Parts {
    Parts(CivilFromDay(w / DAY_MINUTES), w % DAY_MINUTES / 60, w % 60)
  }

  function PartsInTz(utc: int, z: MinuteZone): Parts {
    PartsOfWall(Wall(z, utc))
  }

  /** The code's distance from the request: it compares the day of the month, not the date. */
  function DeltaMin(r: Request, got: Parts): int {
    (got.hours - r.hours) * 60 + (got.minutes - r.minutes) + (got.date.day - r.day) * 24 * 60
  }

  /** The instant the loop holds after `i` corrections; a zero correction leaves it where it is. */
  function Probe(r: Request, z: MinuteZone, i: nat): int {
    if i == 0 then DAY_MINUTES * UtcDay(r.year, r.month - 1, r.day) + 60 * r.hours + r.minutes
    else var u := Probe(r, z, i - 1); u - DeltaMin(r, PartsInTz(u, z))
  }

  method ZonedDate(r: Request, z: MinuteZone) returns (utc: int)
    ensures utc == Probe(r, z, 3)
  {
    utc := DAY_MINUTES * UtcDay(r.year, r.month - 1, r.day) + 60 * r.hours + r.minutes;
    var i := 0;
    while i < 3
      invariant 0 <= i <= 3
      invariant utc == Probe(r, z, i)
    {
      var deltaMin := DeltaMin(r, PartsInTz(utc, z));
      if deltaMin == 0 {
        ProbeStops(r, z, i, 3);
        break;
      }
      utc := utc - deltaMin;
      i := i + 1;
    }
  }

  lemma {:induction false} ProbeStops(r: Request, z: MinuteZone, i: nat, n: nat)
    requires i <= n && DeltaMin(r, PartsInTz(Probe(r, z, i), z)) == 0
    ensures Probe(r, z, n) == Probe(r, z, i)
    decreases n
  {
    hide DeltaMin, PartsInTz;
    if i < n {
      ProbeStops(r, z, i, n - 1);
    }
  }

  // --- One correction ------------------------------------------------------------------------

  /** The month, counted from year 0, that a wall clock shows. */
  function MonthOf(w: int): int {
    var c := CivilFromDay(w / DAY_MINUTES);
    MonthIndex(c.year, c.month)
  }

  lemma MonthOfBounds(w: int, q: int)
    ensures MonthOf(w) >= q <==> w >= DAY_MINUTES * MonthStart(q)
  {
    hide MonthStart, DayNumber;
    MonthBounds(CivilFromDay(w / DAY_MINUTES), q);
    if w / DAY_MINUTES >= MonthStart(q) {
      assert w >= DAY_MINUTES * (w / DAY_MINUTES) >= DAY_MINUTES * MonthStart(q);
    } else {
      assert w < DAY_MINUTES * (w / DAY_MINUTES + 1) <= DAY_MINUTES * MonthStart(q);
    }
  }

  /** What a correction does: exact within the month, off by whole months' days outside it. */
  lemma Correction(r: Request, z: MinuteZone, i: nat)
    ensures var u := Probe(r, z, i);
            Probe(r, z, i + 1) == r.Wanted() - z(u) + DAY_MINUTES * (MonthStart(MonthOf(Wall(z, u))) - MonthStart(r.Month()))
  {
    hide MonthStart, MonthOf, DeltaMin, PartsOfWall;
    Distance(r, Wall(z, Probe(r, z, i)));
  }

  lemma Distance(r: Request, w: int)
    ensures DeltaMin(r, PartsOfWall(w)) == w - r.Wanted() - DAY_MINUTES * (MonthStart(MonthOf(w)) - MonthStart(r.Month()))
  {
    hide MonthStart, CivilFromDay;
    var c := CivilFromDay(w / DAY_MINUTES);
    assert DayNumber(c) == MonthStart(MonthOf(w)) + c.day - 1;
    ClockSplits(w);
  }

  lemma ClockSplits(w: int)
    ensures w == DAY_MINUTES * (w / DAY_MINUTES) + 60 * (w % DAY_MINUTES / 60) + w % 60
  {
    var n, m := w / DAY_MINUTES, w % DAY_MINUTES;
    SameMinute(n, m);
  }

  lemma SameMinute(n: int, m: int)
    ensures (DAY_MINUTES * n + m) % 60 == m % 60
  {
    assert DAY_MINUTES * n + m == 60 * (24 * n + m / 60) + m % 60;
    DivUnique(DAY_MINUTES * n + m, 60, 24 * n + m / 60, m % 60);
  }

  lemma FirstProbe(r: Request, z: MinuteZone)
    requires r.Valid()
    ensures Probe(r, z, 0) == r.Wanted()
  {
  }

  // --- Leaving the month ---------------------------------------------------------------------

  ghost predicate Bounded(z: MinuteZone) {
    forall u :: -DAY_MINUTES < z(u) < DAY_MINUTES
  }

  ghost predicate InMonth(r: Request, w: int) {
    MonthOf(w) == r.Month()
  }

  /** A probe before the month, with the request near its start. */
  ghost predicate Behind(r: Request, w: int) {
    MonthOf(w) < r.Month() && r.Wanted() < DAY_MINUTES * MonthStart(r.Month()) + 2 * DAY_MINUTES
  }

  /** A probe after the month, with the request near its end. */
  ghost predicate Ahead(r: Request, w: int) {
    MonthOf(w) > r.Month() && r.Wanted() > DAY_MINUTES * MonthStart(r.Month() + 1) - 2 * DAY_MINUTES
  }

  predicate Near(r: Request, w: int) {
    -2 * DAY_MINUTES < w - r.Wanted() < 2 * DAY_MINUTES
  }

  /** A probe within two days of the request is in its month or astray. */
  lemma NearProbe(r: Request, w: int)
    requires Near(r, w)
    ensures InMonth(r, w) || Behind(r, w) || Ahead(r, w)
  {
    hide MonthStart, MonthOf, DayNumber, MonthIndex;
    MonthOfBounds(w, r.Month());
    MonthOfBounds(w, r.Month() + 1);
  }

  /** Once behind or ahead the loop never comes back, and is weeks from the requested wall clock. */
  lemma StaysAstray(r: Request, z: MinuteZone, i: nat)
    requires Bounded(z)
    ensures var w, w' := Wall(z, Probe(r, z, i)), Wall(z, Probe(r, z, i + 1));
            && (Behind(r, w) ==> Behind(r, w') && w' < r.Wanted() - 26 * DAY_MINUTES)
            && (Ahead(r, w) ==> Ahead(r, w') && w' > r.Wanted() + 26 * DAY_MINUTES)
  {
    hide MonthStart, Probe, DeltaMin, MonthOf, PartsInTz;
    var q, k := r.Month(), MonthOf(Wall(z, Probe(r, z, i)));
    var next := Probe(r, z, i + 1);
    Correction(r, z, i);
    if k > q {
      MonthStep(q);
      assert MonthStart(k) - MonthStart(q) >= 28 by { MonthsApart(k, q); }
      assert Wall(z, next) > r.Wanted() - 2 * DAY_MINUTES + 28 * DAY_MINUTES;
      MonthOfBounds(Wall(z, next), q + 1);
    } else if k < q {
      assert MonthStart(q) - MonthStart(k) >= 28 by { MonthsApart(q, k); }
      assert Wall(z, next) < r.Wanted() + 2 * DAY_MINUTES - 28 * DAY_MINUTES;
      MonthOfBounds(Wall(z, next), q);
    }
  }

  /** While every earlier probe read the right month, the next is the request less the offset read. */
  lemma InMonthStep(r: Request, z: MinuteZone, i: nat)
    requires InMonth(r, Wall(z, Probe(r, z, i)))
    ensures Probe(r, z, i + 1) == r.Wanted() - z(Probe(r, z, i))
  {
    hide MonthStart, MonthOf, Probe;
    Correction(r, z, i);
  }

  ghost predicate Stays(r: Request, z: MinuteZone) {
    && InMonth(r, Wall(z, Probe(r, z, 0)))
    && InMonth(r, Wall(z, Probe(r, z, 1)))
    && InMonth(r, Wall(z, Probe(r, z, 2)))
  }

  /** The first of the three readings that leaves the month is in an earlier one. */
  ghost predicate ReadsAnEarlierMonth(r: Request, z: MinuteZone) {
    var w, q := r.Wanted(), r.Month();
    var u := w - z(w);
    var v := w - z(u);
    || MonthOf(Wall(z, w)) < q
    || (InMonth(r, Wall(z, w)) && MonthOf(Wall(z, u)) < q)
    || (InMonth(r, Wall(z, w)) && InMonth(r, Wall(z, u)) && MonthOf(Wall(z, v)) < q)
  }

  /** If any probe leaves the month the result is off by weeks, to the side of the first reading outside it, whatever the zone. */
  lemma LeavingTheMonthIsFatal(r: Request, z: MinuteZone)
    requires r.Valid() && Bounded(z) && !Stays(r, z)
    ensures !Near(r, Wall(z, Probe(r, z, 3)))
    ensures if ReadsAnEarlierMonth(r, z) then Wall(z, Probe(r, z, 3)) < r.Wanted() - 26 * DAY_MINUTES
            else Wall(z, Probe(r, z, 3)) > r.Wanted() + 26 * DAY_MINUTES
  {
    hide MonthStart, Probe, DeltaMin, MonthOf, PartsInTz;
    FirstProbe(r, z);
    NearProbe(r, Wall(z, Probe(r, z, 0)));
    StaysAstray(r, z, 0);
    StaysAstray(r, z, 1);
    StaysAstray(r, z, 2);
    if InMonth(r, Wall(z, Probe(r, z, 0))) {
      InMonthStep(r, z, 0);
      NearProbe(r, Wall(z, Probe(r, z, 1)));
      if InMonth(r, Wall(z, Probe(r, z, 1))) {
        InMonthStep(r, z, 1);
        NearProbe(r, Wall(z, Probe(r, z, 2)));
      }
    }
  }

  /** The three readings are in the month asked for: what Stays says, told by the zone alone. */
  ghost predicate ReadsItsMonth(r: Request, z: MinuteZone) {
    var w := r.Wanted();
    var u := w - z(w);
    var v := w - z(u);
    InMonth(r, Wall(z, w)) && InMonth(r, Wall(z, u)) && InMonth(r, Wall(z, v))
  }

  lemma StaysIff(r: Request, z: MinuteZone)
    requires r.Valid()
    ensures Stays(r, z) <==> ReadsItsMonth(r, z)
    ensures Stays(r, z) ==> !ReadsAnEarlierMonth(r, z)
  {
    hide MonthStart, Probe, DeltaMin, MonthOf, PartsInTz;
    FirstProbe(r, z);
    if InMonth(r, Wall(z, Probe(r, z, 0))) {
      InMonthStep(r, z, 0);
      if InMonth(r, Wall(z, Probe(r, z, 1))) {
        InMonthStep(r, z, 1);
      }
    }
  }

  /** A year in 0..99 is searched for as the one 1900 years later. */
  lemma {:induction false} ProbeAsRead(r: Request, z: MinuteZone, i: nat)
    ensures Probe(r.(year := FullYear(r.year)), z, i) == Probe(r, z, i)
  {
    hide MonthStart, PartsInTz;
    if i > 0 {
      ProbeAsRead(r, z, i - 1);
    }
  }

  /** From the 3rd on no reading can be in an earlier month. */
  lemma LaterDaysReadNoEarlierMonth(r: Request, z: MinuteZone)
    requires r.Valid() && Bounded(z) && r.day >= 3
    ensures !ReadsAnEarlierMonth(r, z)
  {
    hide MonthStart, MonthOf, DaysInMonth;
    var w := r.Wanted();
    MonthOfBounds(Wall(z, w), r.Month());
    MonthOfBounds(Wall(z, w - z(w)), r.Month());
    MonthOfBounds(Wall(z, w - z(w - z(w))), r.Month());
  }

  /** While no probe leaves the month the loop is the plain fixed-point iteration. */
  lemma StayingIterates(r: Request, z: MinuteZone)
    requires r.Valid() && Stays(r, z)
    ensures var w := r.Wanted(); Probe(r, z, 3) == w - z(w - z(w - z(w)))
  {
    hide MonthStart, Probe, DeltaMin, MonthOf, PartsInTz, InMonth;
    FirstProbe(r, z);
    InMonthStep(r, z, 0);
    InMonthStep(r, z, 1);
    InMonthStep(r, z, 2);
  }

  // --- The theorems ----------------------------------------------------------------------------

  /** Within a day of the wanted time the zone changes offset at most once, from `a` to `b` at `t`. */
  ghost predicate OneChange(z: MinuteZone, w: int, t: int, a: int, b: int) {
    forall u :: w - DAY_MINUTES < u < w + DAY_MINUTES ==> z(u) == if u < t then a else b
  }

  ghost predicate Exists(z: MinuteZone, w: int) {
    exists u :: Wall(z, u) == w
  }

  /** The check a caller can make: two readings of the zone, and the request itself, in its own month. */
  ghost predicate ClearOfMonthEnds(r: Request, z: MinuteZone) {
    var w := r.Wanted();
    InMonth(r, w) && InMonth(r, w + z(w)) && InMonth(r, w + z(w - z(w)) - z(w))
  }

  /** The result reads exactly the requested wall clock iff that time exists and no reading leaves the month. */
  lemma ExactIff(r: Request, z: MinuteZone, t: int, a: int, b: int)
    requires r.Valid() && Bounded(z) && OneChange(z, r.Wanted(), t, a, b)
    ensures Wall(z, Probe(r, z, 3)) == r.Wanted() <==> Exists(z, r.Wanted()) && ClearOfMonthEnds(r, z)
  {
    hide MonthStart, MonthIndex, DayNumber, Probe, DeltaMin, MonthOf, PartsInTz, InMonth, Bounded, OneChange, Behind, Ahead;
    var w := r.Wanted();
    FirstProbe(r, z);
    if Exists(z, w) {
      var u :| Wall(z, u) == w;
      assert u == w - z(u);
      Settles(z, w, u, t, a, b);
    }
    if Stays(r, z) {
      StayingIterates(r, z);
      InMonthStep(r, z, 0);
      InMonthStep(r, z, 1);
    } else {
      LeavingTheMonthIsFatal(r, z);
      if ClearOfMonthEnds(r, z) {
        InMonthStep(r, z, 0);
        InMonthStep(r, z, 1);
      }
    }
  }

  /** For a time that exists, the second or the third iterate is a solution. */
  lemma Settles(z: MinuteZone, w: int, u: int, t: int, a: int, b: int)
    requires Bounded(z) && OneChange(z, w, t, a, b) && Wall(z, u) == w
    ensures var u1 := w - z(w); var u2 := w - z(u1);
            && Wall(z, u2) == w
            && (Wall(z, u1) == w ==> u2 == u1)
  {
    assert u == w - z(u);
  }

  /** No day from the 3rd to the 26th can go wrong in any zone. */
  lemma InteriorDaysAreClear(r: Request, z: MinuteZone)
    requires r.Valid() && Bounded(z) && 3 <= r.day <= 26
    ensures ClearOfMonthEnds(r, z)
  {
    hide MonthStart, MonthOf;
    var w := r.Wanted();
    MonthStep(r.Month());
    InteriorStays(r, w);
    InteriorStays(r, w + z(w));
    InteriorStays(r, w + z(w - z(w)) - z(w));
  }

  lemma InteriorStays(r: Request, v: int)
    requires r.Valid() && 3 <= r.day <= 26 && Near(r, v)
    ensures InMonth(r, v)
  {
    hide MonthStart, MonthOf, DaysInMonth;
    MonthStep(r.Month());
    MonthOfBounds(v, r.Month());
    MonthOfBounds(v, r.Month() + 1);
  }

  /** In a zone that never changes, one reading decides. */
  lemma FixedZoneExactIff(r: Request, z: MinuteZone, off: int)
    requires r.Valid() && -DAY_MINUTES < off < DAY_MINUTES && forall u :: z(u) == off
    ensures Wall(z, Probe(r, z, 3)) == r.Wanted() <==> InMonth(r, r.Wanted()) && InMonth(r, r.Wanted() + off)
  {
    hide MonthStart, Probe, DeltaMin, MonthOf, PartsInTz, InMonth;
    var w := r.Wanted();
    assert Wall(z, w - off) == w;
    ExactIff(r, z, 0, off, off);
  }

  /**
   Inside a skipped hour the result misses by exactly the size of the skip, to the side the reading at the guess
   decides, iff the three readings it rests on are in the month.
  */
  lemma SkippedHour(r: Request, z: MinuteZone, t: int, a: int, b: int)
    requires r.Valid() && Bounded(z) && OneChange(z, r.Wanted(), t, a, b) && !Exists(z, r.Wanted())
    ensures a < b && t + a <= r.Wanted() < t + b
    ensures var w := r.Wanted();
            Wall(z, Probe(r, z, 3)) == (if w < t then w + (b - a) else w - (b - a)) <==>
              InMonth(r, w + z(w)) && InMonth(r, w + (b - a)) && InMonth(r, w - (b - a))
  {
    hide MonthStart, Probe, DeltaMin, MonthOf, PartsInTz, InMonth;
    var w := r.Wanted();
    assert Wall(z, w - a) != w && Wall(z, w - b) != w;
    assert z(w) == if w < t then a else b;
    BoundedAt(z, w, t, a, b);
    FirstProbe(r, z);
    if InMonth(r, w + z(w)) {
      InMonthStep(r, z, 0);
      if InMonth(r, Wall(z, Probe(r, z, 1))) {
        InMonthStep(r, z, 1);
      }
    }
    if Stays(r, z) {
      StayingIterates(r, z);
    } else {
      LeavingTheMonthIsFatal(r, z);
    }
  }

  lemma BoundedAt(z: MinuteZone, w: int, t: int, a: int, b: int)
    requires Bounded(z) && OneChange(z, w, t, a, b)
    ensures w < t || w - z(w) < t ==> -DAY_MINUTES < a < DAY_MINUTES
    ensures w >= t || w - z(w) >= t ==> -DAY_MINUTES < b < DAY_MINUTES
  {
    assert z(w) == if w < t then a else b;
    assert z(w - z(w)) == if w - z(w) < t then a else b;
  }

  /** A repeated hour resolves to the occurrence whose offset is the one read at the guess, iff the readings are in the month. */
  lemma RepeatedHour(r: Request, z: MinuteZone, t: int, a: int, b: int)
    requires r.Valid() && Bounded(z) && OneChange(z, r.Wanted(), t, a, b)
    requires t + b <= r.Wanted() < t + a
    ensures Probe(r, z, 3) == r.Wanted() - z(r.Wanted()) <==> ClearOfMonthEnds(r, z)
    ensures Wall(z, r.Wanted() - z(r.Wanted())) == r.Wanted()
  {
    hide MonthStart, Probe, DeltaMin, MonthOf, PartsInTz, InMonth;
    var w := r.Wanted();
    assert z(w) == if w < t then a else b;
    assert z(w - z(w)) == if w - z(w) < t then a else b;
    ExactIff(r, z, t, a, b);
    if ClearOfMonthEnds(r, z) {
      FirstProbe(r, z);
      InMonthStep(r, z, 0);
      InMonthStep(r, z, 1);
      InMonthStep(r, z, 2);
    }
  }

  /** On the 3rd to the 26th no month end is near: both hours come out as the two lemmas say. */
  lemma InteriorDaysStay(r: Request, z: MinuteZone, t: int, a: int, b: int)
    requires r.Valid() && Bounded(z) && OneChange(z, r.Wanted(), t, a, b) && 3 <= r.day <= 26
    ensures Stays(r, z)
    ensures !Exists(z, r.Wanted()) ==>
              Wall(z, Probe(r, z, 3)) == if r.Wanted() < t then r.Wanted() + (b - a) else r.Wanted() - (b - a)
    ensures t + b <= r.Wanted() < t + a ==> Probe(r, z, 3) == r.Wanted() - z(r.Wanted())
  {
    hide MonthStart, Probe, DeltaMin, MonthOf, PartsInTz, InMonth, Bounded;
    InteriorProbesStay(r, z);
    InteriorDaysAreClear(r, z);
    if !Exists(z, r.Wanted()) {
      SkippedHour(r, z, t, a, b);
      assert Wall(z, r.Wanted() - a) != r.Wanted();
      SkipIsSmall(r.Wanted(), z, t, a, b);
      InteriorStays(r, r.Wanted() + (b - a));
      InteriorStays(r, r.Wanted() - (b - a));
    }
    if t + b <= r.Wanted() < t + a {
      RepeatedHour(r, z, t, a, b);
    }
  }

  lemma SkipIsSmall(w: int, z: MinuteZone, t: int, a: int, b: int)
    requires Bounded(z) && OneChange(z, w, t, a, b) && a < b && t + a <= w < t + b
    ensures b - a < 2 * DAY_MINUTES
  {
    BoundedAt(z, w, t, a, b);
  }

  lemma InteriorProbesStay(r: Request, z: MinuteZone)
    requires r.Valid() && Bounded(z) && 3 <= r.day <= 26
    ensures Stays(r, z)
  {
    hide MonthStart, Probe, DeltaMin, MonthOf, PartsInTz, InMonth;
    FirstProbe(r, z);
    InteriorStays(r, Wall(z, Probe(r, z, 0)));
    InMonthStep(r, z, 0);
    InteriorStays(r, Wall(z, Probe(r, z, 1)));
    InMonthStep(r, z, 1);
    InteriorStays(r, Wall(z, Probe(r, z, 2)));
  }

  /** 31 January 2026, 23:00 in a zone two hours ahead of UTC: the picker's answer is 31 March. */
  lemma MonthEndGoesAstray(z: MinuteZone)
    requires forall u :: z(u) == 120
    ensures var r := Request(2026, 1, 31, 23, 0);
            PartsInTz(Probe(r, z, 3), z) == Parts(Civil(2026, 3, 31), 23, 0)
  {
    var r := Request(2026, 1, 31, 23, 0);
    January2026();
    February2026();
    March2026();
    hide MonthStart, DaysInMonth, CivilFromDay;
    assert Probe(r, z, 0) == DAY_MINUTES * 20484 + 1380;
    ReadsAs(z, DAY_MINUTES * 20484 + 1380, Civil(2026, 2, 1), 60);
    assert Probe(r, z, 1) == DAY_MINUTES * 20515 + 1260;
    ReadsAs(z, DAY_MINUTES * 20515 + 1260, Civil(2026, 3, 3), 1380);
    assert Probe(r, z, 2) == DAY_MINUTES * 20543 + 1260;
    ReadsAs(z, DAY_MINUTES * 20543 + 1260, Civil(2026, 3, 31), 1380);
    assert Probe(r, z, 3) == DAY_MINUTES * 20543 + 1260;
  }

  lemma ReadsAs(z: MinuteZone, u: int, c: Civil, m: int)
    requires c.Valid() && 0 <= m < DAY_MINUTES && Wall(z, u) == DAY_MINUTES * DayNumber(c) + m
    ensures PartsInTz(u, z) == Parts(c, m / 60, m % 60)
  {
    hide MonthStart, CivilFromDay, DayNumber;
    CivilRoundTrip(c);
    DivUnique(Wall(z, u), DAY_MINUTES, DayNumber(c), m);
    SameMinute(DayNumber(c), m);
  }

  lemma January2026()
    ensures MonthStart(24312) == 20454 && DaysInMonth(24312) == 31
  {
  }

  lemma February2026()
    ensures MonthStart(24313) == 20485 && DaysInMonth(24313) == 28
  {
  }

  lemma March2026()
    ensures MonthStart(24314) == 20513 && DaysInMonth(24314) == 31
  {
  }
}
