/**
 The bell's unread count: a stream of events with polling to fall back on. Each callback of the effect is
 one step; the browser's live intervals and timers are part of the state, as is its clock, which never
 runs past a timer that is due.
*/
module NotificationBell {
  import opened Runs
  import opened Wrappers

  datatype Kind = Stop | Resume

  /** A live timeout and when it is due, in milliseconds since the mount. */
  datatype Timer = Timer(kind: Kind, due: nat)

  datatype Bell = Bell(
    // the effect's variables
    cancelled: bool,
    intervalId: Option<nat>,
    pollStopTimer: Option<nat>,
    pollResumeTimer: Option<nat>,
    unread: int,
    // the browser
    intervals: set<nat>,
    timers: map<nat, Timer>,
    nextId: nat,
    subscribed: bool,
    fetches: nat,
    // the stream's connection: its state, since when, and whether it was ever up
    connected: bool,
    since: nat,
    everConnected: bool,
    now: nat)
  {
    function StartPolling(): Bell {
      if intervalId != None || cancelled then this
      else this.(intervalId := Some(nextId), intervals := intervals + {nextId}, nextId := nextId + 1)
    }

    function StopPolling(): Bell {
      if intervalId == None then this
      else this.(intervalId := None, intervals := intervals - {intervalId.value})
    }

    function Clear(timer: Option<nat>): Bell {
      if timer == None then this else this.(timers := timers - {timer.value})
    }

    function ArmStop(): Bell {
      this.(pollStopTimer := Some(nextId), timers := timers[nextId := Timer(Stop, now + 2_000)], nextId := nextId + 1)
    }

    /** The subscription's callback. */
    function OnConnection(c: bool): Bell {
      if cancelled then this
      else if c then
        var b := Clear(pollResumeTimer).(pollResumeTimer := None).StopPolling();
        b.(fetches := b.fetches + 1)
      else if pollResumeTimer != None then this
      else this.(pollResumeTimer := Some(nextId), timers := timers[nextId := Timer(Resume, now + 10_000)], nextId := nextId + 1)
    }
  }

  datatype Event =
    | Connection(up: bool)
    | Pass(ms: nat)
    | Fire(id: nat)
    | Tick(id: nat)
    | Visible
    | Fetched(count: int)
    | Created
    | Read(count: int)
    | Unmount

  function Initial(up: bool): Bell {
    Bell(false, None, None, None, 0, {}, map[], 0, false, 1, up, 0, up, 0)
  }

  /** The effect's own run: count, poll, arm the 2 s timer, subscribe; a signal calls its subscriber at once. */
  function Mount(up: bool): Bell {
    Initial(up).StartPolling().ArmStop().(subscribed := true).OnConnection(up)
  }

  function Step(b: Bell, e: Event): Bell {
    match e
    case Connection(up) =>
      if up == b.connected then b
      else
        var b' := b.(connected := up, since := b.now, everConnected := b.everConnected || up);
        if b.subscribed then b'.OnConnection(up) else b'
    case Pass(ms) =>
      if forall id :: id in b.timers ==> b.now + ms <= b.timers[id].due then b.(now := b.now + ms) else b
    case Fire(id) =>
      if id !in b.timers || b.timers[id].due > b.now then b
      else
        var b' := b.(timers := b.timers - {id});
        if b.timers[id].kind == Stop then (if b'.connected then b'.StopPolling() else b')
        else b'.(pollResumeTimer := None).StartPolling()
    case Tick(id) => if id in b.intervals then b.(fetches := b.fetches + 1) else b
    case Visible => if b.subscribed then b.(fetches := b.fetches + 1) else b
    case Fetched(count) => if b.cancelled then b else b.(unread := count)
    case Created => if b.subscribed then b.(unread := b.unread + 1) else b
    case Read(n) => if b.subscribed then b.(unread := if b.unread - n < 0 then 0 else b.unread - n) else b
    case Unmount =>
      if b.cancelled then b
      else b.(cancelled := true).StopPolling().Clear(b.pollStopTimer).Clear(b.pollResumeTimer).(subscribed := false)
  }

  function Run(b: Bell, es: seq<Event>): Bell {
    Fold(Step, b, es)
  }

  // --- The invariant ---------------------------------------------------------------------------------

  ghost predicate Inv(b: Bell) {
    && Bookkeeping(b)
    && (b.cancelled ==> b.intervals == {} && b.timers == map[])
    && (!b.cancelled && b.connected ==> b.intervals == {} && NoResumeArmed(b))
    && (!b.cancelled && !b.connected ==> b.intervals != {} || !NoResumeArmed(b))
    && (!b.cancelled && !b.connected && b.now > b.since + 10_000 ==> b.intervals != {})
    && (!b.cancelled && !b.connected && b.everConnected && b.now < b.since + 10_000 ==> b.intervals == {})
  }

  ghost predicate NoResumeArmed(b: Bell) {
    forall id :: id in b.timers ==> b.timers[id].kind == Stop
  }

  /** The variables name exactly the live interval and timers; nothing live is overdue; ids are fresh. */
  ghost predicate Bookkeeping(b: Bell) {
    && b.intervals == (if b.intervalId.Some? then {b.intervalId.value} else {})
    && b.subscribed == !b.cancelled
    && b.since <= b.now
    && (forall id :: id in b.timers ==> id < b.nextId && b.now <= b.timers[id].due)
    && (forall id :: id in b.timers ==> Some(id) == if b.timers[id].kind == Stop then b.pollStopTimer else b.pollResumeTimer)
    && (!b.cancelled && b.pollResumeTimer.Some? ==>
          b.pollResumeTimer.value in b.timers && b.timers[b.pollResumeTimer.value] == Timer(Resume, b.since + 10_000))
  }

  lemma MountEstablishes(up: bool)
    ensures Inv(Mount(up))
  {
    assert Initial(up).StartPolling().ArmStop().timers == map[1 := Timer(Stop, 2_000)];
  }

  lemma ConnectionKeeps(b: Bell, up: bool)
    requires Inv(b)
    ensures Inv(Step(b, Connection(up)))
  {
  }

  lemma FireKeeps(b: Bell, id: nat)
    requires Inv(b)
    ensures Inv(Step(b, Fire(id)))
  {
  }

  lemma UnmountKeeps(b: Bell)
    requires Inv(b)
    ensures Inv(Step(b, Unmount))
  {
  }

  lemma StepKeeps(b: Bell, e: Event)
    requires Inv(b)
    ensures Inv(Step(b, e))
  {
    match e
    case Connection(up) => ConnectionKeeps(b, up);
    case Fire(id) => FireKeeps(b, id);
    case Unmount => UnmountKeeps(b);
    case Pass(ms) =>
    case Tick(id) =>
    case Visible =>
    case Fetched(count) =>
    case Created =>
    case Read(n) =>
  }

  /** In every run of the page, whatever the stream, the clock and the user do, the invariant holds. */
  lemma {:induction false} EveryRunKeeps(up: bool, es: seq<Event>)
    ensures Inv(Run(Mount(up), es))
  {
    if es == [] {
      MountEstablishes(up);
    } else {
      EveryRunKeeps(up, es[..|es| - 1]);
      StepKeeps(Run(Mount(up), es[..|es| - 1]), es[|es| - 1]);
    }
  }

  // --- What follows ------------------------------------------------------------------------------------

  /** Never two intervals; none while connected; one after ten seconds without the stream. */
  lemma PollingIsTheFallback(up: bool, es: seq<Event>)
    ensures var b := Run(Mount(up), es);
            && |b.intervals| <= 1
            && (!b.cancelled && b.connected ==> b.intervals == {})
            && (!b.cancelled && !b.connected && b.now > b.since + 10_000 ==> |b.intervals| == 1)
  {
    EveryRunKeeps(up, es);
  }

  /** The 2 s timer is redundant: whenever it fires, polling is already as it would leave it. */
  lemma StopTimerChangesNothing(up: bool, es: seq<Event>, id: nat)
    requires var b := Run(Mount(up), es); id in b.timers && b.timers[id].kind == Stop
    ensures var b := Run(Mount(up), es);
            Step(b, Fire(id)).(timers := b.timers) == b
  {
    EveryRunKeeps(up, es);
  }

  /** What the cleanup leaves: nothing live. */
  ghost predicate Dead(b: Bell) {
    b.cancelled && b.intervals == {} && b.timers == map[] && !b.subscribed
  }

  lemma {:induction false} DeadStaysDead(b: Bell, es: seq<Event>)
    requires Dead(b)
    ensures var b' := Run(b, es);
            Dead(b') && b'.nextId == b.nextId && b'.fetches == b.fetches && b'.unread == b.unread
  {
    if es != [] {
      DeadStaysDead(b, es[..|es| - 1]);
    }
  }

  /** From the cleanup on nothing is live, nothing is started or fetched and the count stands still. */
  lemma NothingAfterUnmount(up: bool, before: seq<Event>, after: seq<Event>)
    ensures var b, b' := Run(Mount(up), before), Run(Mount(up), before + [Unmount] + after);
            b'.intervals == {} && b'.timers == map[] && b'.nextId == b.nextId && b'.fetches == b.fetches && b'.unread == b.unread
  {
    hide Step, Mount, Inv;
    var b := Run(Mount(up), before);
    EveryRunKeeps(up, before);
    StepKeeps(b, Unmount);
    FoldAround(Step, Mount(up), before, Unmount, after);
    UnmountKills(b);
    DeadStaysDead(Step(b, Unmount), after);
  }

  lemma UnmountKills(b: Bell)
    requires Inv(b)
    ensures var b' := Step(b, Unmount); Dead(b') && b'.nextId == b.nextId && b'.fetches == b.fetches && b'.unread == b.unread
  {
    StepKeeps(b, Unmount);
  }

  /** With non-negative counts from the server the badge's count is never negative. */
  lemma {:induction false} UnreadNeverNegative(up: bool, es: seq<Event>)
    requires forall i :: 0 <= i < |es| && es[i].Fetched? ==> es[i].count >= 0
    ensures Run(Mount(up), es).unread >= 0
  {
    hide Step, Mount;
    if es == [] {
      MountCountsNothing(up);
    } else {
      UnreadNeverNegative(up, es[..|es| - 1]);
      StepCounts(Run(Mount(up), es[..|es| - 1]), es[|es| - 1]);
    }
  }

  lemma MountCountsNothing(up: bool)
    ensures Mount(up).unread == 0
  {
  }

  lemma StepCounts(b: Bell, e: Event)
    requires b.unread >= 0 && (e.Fetched? ==> e.count >= 0)
    ensures Step(b, e).unread >= 0
  {
    hide Bell.StartPolling, Bell.ArmStop;
    match e
    case Connection(up) => ConnectionCountsNothing(b, up);
    case Fire(id) => FireCountsNothing(b, id);
    case _ =>
  }

  lemma ConnectionCountsNothing(b: Bell, up: bool)
    ensures Step(b, Connection(up)).unread == b.unread
  {
  }

  lemma FireCountsNothing(b: Bell, id: nat)
    ensures Step(b, Fire(id)).unread == b.unread
  {
  }

  lemma OneMore(up: bool, es: seq<Event>, e: Event)
    ensures Run(Mount(up), es + [e]) == Step(Run(Mount(up), es), e)
  {
    hide Step;
    assert (es + [e])[..|es|] == es;
  }

  /** Notifications created less those read, over some events. */
  function Net(es: seq<Event>): int {
    if es == [] then 0
    else
      var e := es[|es| - 1];
      Net(es[..|es| - 1]) + match e { case Created => 1 case Read(n) => -n case _ => 0 }
  }

  /** Nothing counted by the server, and the page stays. */
  ghost predicate Undisturbed(es: seq<Event>) {
    forall i :: 0 <= i < |es| ==> !es[i].Fetched? && !es[i].Unmount?
  }

  /** No read takes off more than there is. */
  ghost predicate Covered(count: int, es: seq<Event>) {
    forall i :: 0 <= i <= |es| ==> count + Net(es[..i]) >= 0
  }

  /**
   While the page stays, the badge shows the server's last count, plus what has been created and less what has been
   read since, as long as the reads do not exceed it.
  */
  lemma UnreadSinceTheLastCount(up: bool, before: seq<Event>, count: int, after: seq<Event>)
    requires Unmount !in before && Undisturbed(after) && Covered(count, after)
    ensures Run(Mount(up), before + [Fetched(count)] + after).unread == count + Net(after)
  {
    hide Step, Mount;
    FoldAround(Step, Mount(up), before, Fetched(count), after);
    NotCancelled(up, before);
    var b := Run(Mount(up), before);
    CountIsTaken(b, count);
    Since(Step(b, Fetched(count)), count, after);
  }

  lemma CountIsTaken(b: Bell, count: int)
    requires !b.cancelled
    ensures Step(b, Fetched(count)).unread == count && !Step(b, Fetched(count)).cancelled
    ensures Step(b, Fetched(count)).subscribed == b.subscribed
  {
  }

  lemma {:induction false} NotCancelled(up: bool, es: seq<Event>)
    requires Unmount !in es
    ensures !Run(Mount(up), es).cancelled && Run(Mount(up), es).subscribed
  {
    hide Step, Mount;
    if es == [] {
      MountedAlive(up);
    } else {
      var n := |es| - 1;
      NotCancelled(up, es[..n]);
      StepStaysAlive(Run(Mount(up), es[..n]), es[n]);
    }
  }

  lemma MountedAlive(up: bool)
    ensures !Mount(up).cancelled && Mount(up).subscribed
  {
  }

  lemma StepStaysAlive(b: Bell, e: Event)
    requires !b.cancelled && b.subscribed && e != Unmount
    ensures !Step(b, e).cancelled && Step(b, e).subscribed
  {
  }

  lemma {:induction false} Since(b: Bell, count: int, es: seq<Event>)
    requires !b.cancelled && b.subscribed && b.unread == count && Undisturbed(es) && Covered(count, es)
    ensures var b' := Run(b, es); b'.unread == count + Net(es) && !b'.cancelled && b'.subscribed
  {
    hide Step;
    if es != [] {
      var n := |es| - 1;
      forall i | 0 <= i <= n
        ensures es[..n][..i] == es[..i]
      {
      }
      assert es[..|es|] == es;
      Since(b, count, es[..n]);
      StepStaysAlive(Run(b, es[..n]), es[n]);
      UnreadStep(Run(b, es[..n]), es[n]);
    }
  }

  lemma UnreadStep(b: Bell, e: Event)
    requires b.subscribed
    ensures match e
            case Created => Step(b, e).unread == b.unread + 1
            case Read(n) => Step(b, e).unread == if b.unread - n < 0 then 0 else b.unread - n
            case Fetched(count) => true
            case _ => Step(b, e).unread == b.unread
  {
    match e
    case Connection(up) => ConnectionCountsNothing(b, up);
    case Fire(id) => FireCountsNothing(b, id);
    case _ =>
  }

  /** A read that exceeds the count leaves none. */
  lemma ReadsStopAtZero(up: bool, es: seq<Event>, n: nat)
    requires Unmount !in es && Run(Mount(up), es).unread <= n
    ensures Run(Mount(up), es + [Read(n)]).unread == 0
  {
    hide Step, Mount;
    NotCancelled(up, es);
    OneMore(up, es, Read(n));
    UnreadStep(Run(Mount(up), es), Read(n));
  }

  /** The server is asked at every tick of the interval, when the page is shown again and when the stream comes up. */
  lemma WhatFetches(up: bool, es: seq<Event>, e: Event)
    requires Unmount !in es
    ensures var b := Run(Mount(up), es);
            Run(Mount(up), es + [e]).fetches == b.fetches +
              (if e == Visible || (e.Tick? && e.id in b.intervals) || (e == Connection(true) && !b.connected) then 1 else 0)
  {
    hide Mount;
    NotCancelled(up, es);
    OneMore(up, es, e);
    FetchStep(Run(Mount(up), es), e);
    hide Step;
  }

  lemma FetchStep(b: Bell, e: Event)
    requires !b.cancelled && b.subscribed
    ensures Step(b, e).fetches == b.fetches +
              (if e == Visible || (e.Tick? && e.id in b.intervals) || (e == Connection(true) && !b.connected) then 1 else 0)
  {
  }

  /** Mounting asks once, and once more if the stream is up. */
  lemma MountFetches(up: bool)
    ensures Mount(up).fetches == (if up then 2 else 1)
  {
  }

  // --- The effect, callback by callback --------------------------------------------------------------------

  class Effect {
    var cancelled: bool
    var intervalId: Option<nat>
    var pollStopTimer: Option<nat>
    var pollResumeTimer: Option<nat>
    var unread: int
    var intervals: set<nat>
    var timers: map<nat, Timer>
    var nextId: nat
    var subscribed: bool
    var fetches: nat
    var connected: bool
    var since: nat
    var everConnected: bool
    var now: nat

    function State(): Bell
      reads this
    {
      Bell(cancelled, intervalId, pollStopTimer, pollResumeTimer, unread, intervals, timers, nextId, subscribed,
           fetches, connected, since, everConnected, now)
    }

    constructor (up: bool)
      ensures State() == Mount(up)
    {
      cancelled, intervalId, pollStopTimer, pollResumeTimer, unread := false, None, None, None, 0;
      intervals, timers, nextId, subscribed, fetches := {}, map[], 0, false, 1;
      connected, since, everConnected, now := up, 0, up, 0;
      new;
      hide Bell.StartPolling, Bell.OnConnection;
      assert State() == Initial(up);
      StartPolling();
      ArmStopAndSubscribe();
      OnConnection(up);
    }

    method ArmStopAndSubscribe()
      modifies this`pollStopTimer, this`timers, this`nextId, this`subscribed
      ensures State() == old(State()).ArmStop().(subscribed := true)
    {
      pollStopTimer := SetTimeout(Stop, 2_000);
      subscribed := true;
    }

    method SetTimeout(kind: Kind, delay: nat) returns (id: Option<nat>)
      modifies this`timers, this`nextId
      ensures id == Some(old(nextId)) && nextId == old(nextId) + 1
      ensures timers == old(timers)[old(nextId) := Timer(kind, now + delay)]
    {
      id := Some(nextId);
      timers := timers[nextId := Timer(kind, now + delay)];
      nextId := nextId + 1;
    }

    method StartPolling()
      modifies this`intervalId, this`intervals, this`nextId
      ensures State() == old(State()).StartPolling()
    {
      if intervalId != None || cancelled {
        return;
      }
      intervalId := Some(nextId);
      intervals := intervals + {nextId};
      nextId := nextId + 1;
    }

    method StopPolling()
      modifies this`intervalId, this`intervals
      ensures State() == old(State()).StopPolling()
    {
      if intervalId != None {
        intervals := intervals - {intervalId.value};
        intervalId := None;
      }
    }

    method OnConnection(up: bool)
      modifies this
      ensures State() == old(State()).OnConnection(up)
    {
      if cancelled {
        return;
      }
      if up {
        if pollResumeTimer != None {
          timers := timers - {pollResumeTimer.value};
          pollResumeTimer := None;
        }
        StopPolling();
        fetches := fetches + 1;
      } else {
        if pollResumeTimer != None {
          return;
        }
        pollResumeTimer := SetTimeout(Resume, 10_000);
      }
    }

    /** The stream's signal changes; the effect hears of it while subscribed. */
    method SetConnected(up: bool)
      requires up != connected
      modifies this
      ensures State() == Step(old(State()), Connection(up))
    {
      connected, since, everConnected := up, now, everConnected || up;
      if subscribed {
        OnConnection(up);
      }
    }

    method TimerFires(id: nat)
      requires id in timers && timers[id].due <= now
      modifies this
      ensures State() == Step(old(State()), Fire(id))
    {
      var kind := timers[id].kind;
      timers := timers - {id};
      match kind
      case Stop =>
        if connected {
          StopPolling();
        }
      case Resume =>
        pollResumeTimer := None;
        StartPolling();
    }

    /** The interval's tick, and a return to the page. */
    method FetchCount()
      requires subscribed
      modifies this`fetches
      ensures State() == Step(old(State()), Visible)
      ensures forall id :: id in intervals ==> State() == Step(old(State()), Tick(id))
    {
      fetches := fetches + 1;
    }

    method CountArrives(count: int)
      modifies this`unread
      ensures State() == Step(old(State()), Fetched(count))
    {
      if !cancelled {
        unread := count;
      }
    }

    method Cleanup()
      requires !cancelled
      modifies this
      ensures State() == Step(old(State()), Unmount)
    {
      cancelled := true;
      StopPolling();
      if pollStopTimer != None {
        timers := timers - {pollStopTimer.value};
      }
      if pollResumeTimer != None {
        timers := timers - {pollResumeTimer.value};
      }
      subscribed := false;
    }
  }
}
