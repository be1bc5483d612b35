/**
 The sync worker's handler, its LISTEN connection and its shutdown, as steps that interleave freely: a
 handler call runs to its first await, a run ends, its continuation evaluates the cadence, a notification
 arrives, its database update settles, signals arrive.
*/
module SyncWorker {
  import opened Runs
  import opened Wrappers

  /** A shutdown handler: the promise it found, and how many runs had started when its signal came. */
  datatype Shutdown = Shutdown(awaits: Option<nat>, startedBefore: nat, ending: bool)

  datatype Worker = Worker(
    // module variables
    isSyncing: bool,
    isShuttingDown: bool,
    currentSync: Option<nat>,
    // what is going on: runs in flight, runs whose continuation has not run, notifications that have yet to
    // call the handler, shutdown handlers
    live: set<nat>,
    finished: set<nat>,
    pending: nat,
    shutdowns: seq<Shutdown>,
    schedulerOn: bool,
    exitedBy: Option<nat>,
    // what has happened
    calls: nat,
    started: nat,
    skips: nat,
    evaluations: nat,
    listenClients: nat)
  {
    /** `handleSync` up to its await. */
    function Handle(): Worker {
      if isSyncing then this.(calls := calls + 1, skips := skips + 1)
      else this.(calls := calls + 1, started := started + 1, isSyncing := true, currentSync := Some(started), live := live + {started})
    }
  }

  datatype Event =
    | Tick
    | Notify
    | Notified
    | RunEnds(run: nat)
    | Evaluate(run: nat)
    | ConnectionCloses
    | Signal
    | Proceed(i: nat)
    | Exit(i: nat)

  const START := Worker(false, false, None, {}, {}, 0, [], true, None, 0, 0, 0, 0, 1)

  /**
   The scheduler stops at the first signal; notifications go on until the process exits. A notification first
   updates the schedule and calls the handler when that has settled, well or badly.
  */
  function Step(w: Worker, e: Event): Worker {
    if w.exitedBy.Some? then w
    else
      match e
      case Tick => if w.schedulerOn then w.Handle() else w
      case Notify => w.(pending := w.pending + 1)
      case Notified => if w.pending > 0 then w.(pending := w.pending - 1).Handle() else w
      case RunEnds(r) =>
        if r in w.live then w.(live := w.live - {r}, finished := w.finished + {r}, isSyncing := false, currentSync := None) else w
      case Evaluate(r) =>
        if r in w.finished then w.(finished := w.finished - {r}, evaluations := w.evaluations + 1) else w
      case ConnectionCloses =>
        if w.isShuttingDown then w else w.(listenClients := w.listenClients + 1)
      case Signal =>
        w.(isShuttingDown := true, schedulerOn := false, shutdowns := w.shutdowns + [Shutdown(w.currentSync, w.started, false)])
      case Proceed(i) =>
        if i < |w.shutdowns| && (w.shutdowns[i].awaits.Some? ==> w.shutdowns[i].awaits.value !in w.live)
        then w.(shutdowns := w.shutdowns[i := w.shutdowns[i].(ending := true)]) else w
      case Exit(i) =>
        if i < |w.shutdowns| && w.shutdowns[i].ending then w.(exitedBy := Some(i)) else w
  }

  function Run(w: Worker, es: seq<Event>): Worker {
    Fold(Step, w, es)
  }

  // --- The invariant -------------------------------------------------------------------------------------

  ghost predicate Inv(w: Worker) {
    && w.live == (if w.currentSync.Some? then {w.currentSync.value} else {})
    && (w.isSyncing <==> w.currentSync.Some?)
    && (forall r :: r in w.live || r in w.finished ==> r < w.started)
    && w.live !! w.finished
    && w.calls == w.started + w.skips
    && w.started == w.evaluations + |w.finished| + |w.live|
    && (w.isShuttingDown <==> w.shutdowns != [])
    && (w.isShuttingDown ==> !w.schedulerOn)
    && (forall i :: 0 <= i < |w.shutdowns| ==> ShutdownInv(w, w.shutdowns[i]))
    && (w.exitedBy.Some? ==> w.exitedBy.value < |w.shutdowns| && w.shutdowns[w.exitedBy.value].ending)
  }

  /** The run a handler awaits is the only older one that can be in flight; once past the await none is. */
  ghost predicate ShutdownInv(w: Worker, s: Shutdown) {
    && s.startedBefore <= w.started
    && (s.awaits.Some? ==> s.awaits.value < s.startedBefore)
    && forall r :: r in w.live ==> r >= s.startedBefore || (!s.ending && s.awaits == Some(r))
  }

  lemma StepKeeps(w: Worker, e: Event)
    requires Inv(w)
    ensures Inv(Step(w, e))
  {
    match e
    case Tick => HandleKeeps(w);
    case Notified =>
      if w.pending > 0 {
        HandleKeeps(w.(pending := w.pending - 1));
      }
    case RunEnds(r) => RunEndKeeps(w, r);
    case Signal => SignalKeeps(w);
    case Proceed(i) => ProceedKeeps(w, i);
    case Evaluate(r) => EvaluateKeeps(w, r);
    case Notify =>
    case ConnectionCloses =>
    case Exit(i) =>
  }

  lemma RunEndKeeps(w: Worker, r: nat)
    requires Inv(w)
    ensures Inv(Step(w, RunEnds(r)))
  {
    if r in w.live {
      assert w.live == {r} && w.live - {r} == {};
    }
  }

  lemma SignalKeeps(w: Worker)
    requires Inv(w)
    ensures Inv(Step(w, Signal))
  {
  }

  lemma EvaluateKeeps(w: Worker, r: nat)
    requires Inv(w)
    ensures Inv(Step(w, Evaluate(r)))
  {
  }

  lemma ProceedKeeps(w: Worker, i: nat)
    requires Inv(w)
    ensures Inv(Step(w, Proceed(i)))
  {
    if w.exitedBy == None && i < |w.shutdowns| {
      assert ShutdownInv(w, w.shutdowns[i]);
    }
  }

  lemma HandleKeeps(w: Worker)
    requires Inv(w)
    ensures Inv(w.Handle())
  {
    if !w.isSyncing {
      assert w.live == {} && w.started !in w.finished && w.live + {w.started} == {w.started};
    }
  }

  lemma {:induction false} EveryRunKeeps(es: seq<Event>)
    ensures Inv(Run(START, es))
  {
    if es != [] {
      EveryRunKeeps(es[..|es| - 1]);
      StepKeeps(Run(START, es[..|es| - 1]), es[|es| - 1]);
    }
  }

  // --- What follows ----------------------------------------------------------------------------------------

  /** At most one sync is in flight; the flag, the promise and the run coincide. */
  lemma OneSyncAtATime(es: seq<Event>)
    ensures var w := Run(START, es);
            && |w.live| <= 1
            && (w.isSyncing <==> |w.live| == 1)
            && (w.currentSync.Some? <==> |w.live| == 1)
            && (w.currentSync.Some? ==> w.currentSync.value in w.live)
  {
    EveryRunKeeps(es);
  }

  /** Every call starts a run or is skipped; every run is in flight, awaits its evaluation or had exactly one. */
  lemma CallsAndEvaluations(es: seq<Event>)
    ensures var w := Run(START, es);
            && w.calls == w.started + w.skips
            && w.evaluations == w.started - |w.live| - |w.finished|
  {
    EveryRunKeeps(es);
  }

  lemma OneMore(es: seq<Event>, e: Event)
    ensures Run(START, es + [e]) == Step(Run(START, es), e)
  {
    hide Step;
    assert (es + [e])[..|es|] == es;
  }

  /** From `w` to `w'` one call of the handler: it starts a run if none is in flight, and is skipped if one is. */
  ghost predicate Called(w: Worker, w': Worker) {
    && w'.calls == w.calls + 1
    && w'.skips == w.skips + (if w.live != {} then 1 else 0)
    && w'.started == w.started + (if w.live == {} then 1 else 0)
    && (w.live == {} ==> w'.live == {w.started})
    && (w.live != {} ==> w'.live == w.live)
    && w'.finished == w.finished && w'.evaluations == w.evaluations
  }

  /** The scheduler calls until a signal stops it. */
  lemma TicksCall(es: seq<Event>)
    requires Run(START, es).exitedBy == None
    ensures var w, w' := Run(START, es), Run(START, es + [Tick]);
            if Signal in es then w' == w else Called(w, w')
  {
    EveryRunKeeps(es);
    OneMore(es, Tick);
    ScheduledUntilSignal(es);
    HandleCalls(Run(START, es));
    hide Inv, Called, Worker.Handle;
  }

  lemma HandleCalls(w: Worker)
    requires Inv(w)
    ensures Called(w, w.Handle()) && w.Handle().pending == w.pending
  {
  }

  lemma {:induction false} ScheduledUntilSignal(es: seq<Event>)
    requires Run(START, es).exitedBy == None
    ensures Run(START, es).schedulerOn <==> Signal !in es
    ensures Run(START, es).isShuttingDown <==> Signal in es
  {
    if es != [] {
      var n := |es| - 1;
      assert es == es[..n] + [es[n]];
      ScheduledUntilSignal(es[..n]);
    }
  }

  /** A notification's update that settles calls, before and after a signal. */
  lemma NotificationsCall(es: seq<Event>)
    requires Run(START, es).exitedBy == None && Run(START, es).pending > 0
    ensures var w, w' := Run(START, es), Run(START, es + [Notified]); Called(w, w') && w'.pending == w.pending - 1
  {
    var w := Run(START, es);
    EveryRunKeeps(es);
    OneMore(es, Notified);
    HandleCalls(w.(pending := w.pending - 1));
    hide Worker.Handle, Inv;
  }

  /** Each notification is kept until its update settles; arriving, it calls nobody. */
  lemma NotificationsArePending(es: seq<Event>)
    requires Run(START, es).exitedBy == None
    ensures var w := Run(START, es); Run(START, es + [Notify]) == w.(pending := w.pending + 1)
  {
    OneMore(es, Notify);
  }

  /**
   A shutdown handler goes on as soon as the run it found has ended, whatever has been started since, and then, and
   only then, may end the process.
  */
  lemma ShutdownGoesOnIff(es: seq<Event>, i: nat)
    requires Run(START, es).exitedBy == None && i < |Run(START, es).shutdowns| && !Run(START, es).shutdowns[i].ending
    ensures var w, w' := Run(START, es), Run(START, es + [Proceed(i)]);
            && i < |w'.shutdowns|
            && (w'.shutdowns[i].ending <==> w.shutdowns[i].awaits == None || w.shutdowns[i].awaits.value !in w.live)
    ensures Run(START, es + [Exit(i)]) == Run(START, es)
    ensures var w' := Run(START, es + [Proceed(i)]);
            Run(START, es + [Proceed(i)] + [Exit(i)]).exitedBy == if i < |w'.shutdowns| && w'.shutdowns[i].ending then Some(i) else None
  {
    OneMore(es, Proceed(i));
    OneMore(es, Exit(i));
    OneMore(es + [Proceed(i)], Exit(i));
  }

  /** A run that ends leaves none in flight, and then has its one evaluation. */
  lemma RunsEndAndAreEvaluated(es: seq<Event>, r: nat)
    requires Run(START, es).exitedBy == None && r in Run(START, es).live
    ensures var w, w' := Run(START, es), Run(START, es + [RunEnds(r)] + [Evaluate(r)]);
            w'.live == {} && !w'.isSyncing && w'.finished == w.finished && w'.evaluations == w.evaluations + 1
  {
    EveryRunKeeps(es);
    OneMore(es, RunEnds(r));
    OneMore(es + [RunEnds(r)], Evaluate(r));
  }

  /** A lost LISTEN connection is replaced by one new client iff no signal has come. */
  lemma LostConnectionIsReplacedIff(es: seq<Event>)
    requires Run(START, es).exitedBy == None
    ensures Run(START, es + [ConnectionCloses]).listenClients == Run(START, es).listenClients + (if Signal in es then 0 else 1)
  {
    OneMore(es, ConnectionCloses);
    ScheduledUntilSignal(es);
  }

  lemma {:induction false} ShuttingDownStays(w: Worker, es: seq<Event>)
    requires w.isShuttingDown
    ensures Run(w, es).isShuttingDown && Run(w, es).listenClients == w.listenClients
  {
    if es != [] {
      ShuttingDownStays(w, es[..|es| - 1]);
    }
  }

  /** No LISTEN client is created once a signal has arrived. */
  lemma NoClientAfterSignal(before: seq<Event>, after: seq<Event>)
    requires Run(START, before).exitedBy == None
    ensures Run(START, before + [Signal] + after).listenClients == Run(START, before).listenClients
  {
    FoldAround(Step, START, before, Signal, after);
    ShuttingDownStays(Step(Run(START, before), Signal), after);
  }

  /** When a handler ends the process, no run older than its signal is in flight: the one it found has ended. */
  lemma ExitWaitsForTheRunInFlight(es: seq<Event>)
    requires Run(START, es).exitedBy.Some?
    ensures var w := Run(START, es);
            && w.exitedBy.value < |w.shutdowns|
            && var s := w.shutdowns[w.exitedBy.value];
               && (s.awaits.Some? ==> s.awaits.value !in w.live)
               && (w.live != {} <==> exists r :: r in w.live && r >= s.startedBefore)
  {
    EveryRunKeeps(es);
    var w := Run(START, es);
    var s := w.shutdowns[w.exitedBy.value];
    if w.live != {} {
      var r :| r in w.live;
      assert ShutdownInv(w, s);
    }
  }

  /**
   If no notification is pending at the first signal and none follows it, the exit cuts nothing off: a run in
   flight at the exit always comes from such a notification.
  */
  lemma ExitWithoutLateNotification(before: seq<Event>, after: seq<Event>)
    requires Signal !in before && Notify !in after
    requires Run(START, before).exitedBy == None && Run(START, before).pending == 0
    requires Run(START, before + [Signal] + after).exitedBy.Some?
    ensures Run(START, before + [Signal] + after).live == {}
  {
    hide Step;
    var w := Run(START, before);
    FoldAround(Step, START, before, Signal, after);
    EveryRunKeeps(before);
    NoSignalNoShutdown(before);
    FirstSignal(w);
    StepKeeps(w, Signal);
    QuietStays(Step(w, Signal), after);
    EveryRunKeeps(before + [Signal] + after);
    var w' := Run(START, before + [Signal] + after);
    assert ShutdownInv(w', w'.shutdowns[w'.exitedBy.value]);
  }

  lemma {:induction false} NoSignalNoShutdown(es: seq<Event>)
    requires Signal !in es
    ensures Run(START, es).shutdowns == []
  {
    if es != [] {
      NoSignalNoShutdown(es[..|es| - 1]);
    }
  }

  /** Every signal found the same runs started, the scheduler is off and no notification is pending. */
  ghost predicate Quiet(w: Worker) {
    w.pending == 0 && w.isShuttingDown && !w.schedulerOn && forall i :: 0 <= i < |w.shutdowns| ==> w.shutdowns[i].startedBefore == w.started
  }

  lemma FirstSignal(w: Worker)
    requires w.exitedBy == None && w.shutdowns == [] && w.pending == 0
    ensures Quiet(Step(w, Signal))
  {
  }

  lemma {:induction false} QuietStays(w: Worker, es: seq<Event>)
    requires Quiet(w) && Notify !in es
    ensures Quiet(Run(w, es))
  {
    hide Step, Quiet;
    if es != [] {
      QuietStays(w, es[..|es| - 1]);
      QuietStep(Run(w, es[..|es| - 1]), es[|es| - 1]);
    }
  }

  lemma QuietStep(w: Worker, e: Event)
    requires Quiet(w) && e != Notify
    ensures Quiet(Step(w, e))
  {
  }

  /** A run that a notification starts after the signal is not waited for: the exit cuts it off. */
  lemma LateNotificationIsCutOff()
    ensures var w := Run(START, [Signal, Proceed(0), Notify, Notified, Exit(0)]); w.exitedBy == Some(0) && w.live == {0}
  {
    var es := [Signal, Proceed(0), Notify, Notified, Exit(0)];
    FiveSteps(es);
    var w4 := Step(Step(Step(Step(START, es[0]), es[1]), es[2]), es[3]);
    assert w4.live == {0} && w4.shutdowns == [Shutdown(None, 0, true)];
  }

  /** So is one whose notification came before the signal but was still updating the schedule. */
  lemma PendingNotificationIsCutOff()
    ensures var w := Run(START, [Notify, Signal, Proceed(0), Notified, Exit(0)]); w.exitedBy == Some(0) && w.live == {0}
  {
    var es := [Notify, Signal, Proceed(0), Notified, Exit(0)];
    FiveSteps(es);
    var w4 := Step(Step(Step(Step(START, es[0]), es[1]), es[2]), es[3]);
    assert w4.live == {0} && w4.shutdowns == [Shutdown(None, 0, true)];
  }

  lemma FiveSteps(es: seq<Event>)
    requires |es| == 5
    ensures Run(START, es) == Step(Step(Step(Step(Step(START, es[0]), es[1]), es[2]), es[3]), es[4])
  {
    hide Step;
    assert es == [es[0]] + [es[1]] + [es[2]] + [es[3]] + [es[4]];
    FoldConcat(Step, START, [es[0]] + [es[1]] + [es[2]] + [es[3]], [es[4]]);
    FoldConcat(Step, START, [es[0]] + [es[1]] + [es[2]], [es[3]]);
    FoldConcat(Step, START, [es[0]] + [es[1]], [es[2]]);
    FoldConcat(Step, START, [es[0]], [es[1]]);
    forall w, e ensures Fold(Step, w, [e]) == Step(w, e) {
      assert [e][..0] == [];
    }
  }

  // --- The worker's functions ----------------------------------------------------------------------------------

  class Process {
    var isSyncing: bool
    var isShuttingDown: bool
    var currentSync: Option<nat>
    var live: set<nat>
    var finished: set<nat>
    var pending: nat
    var shutdowns: seq<Shutdown>
    var schedulerOn: bool
    var exitedBy: Option<nat>
    var calls: nat
    var started: nat
    var skips: nat
    var evaluations: nat
    var listenClients: nat

    function State(): Worker
      reads this
    {
      Worker(isSyncing, isShuttingDown, currentSync, live, finished, pending, shutdowns, schedulerOn, exitedBy,
             calls, started, skips, evaluations, listenClients)
    }

    constructor ()
      ensures State() == START
    {
      isSyncing, isShuttingDown, currentSync := false, false, None;
      live, finished, pending, shutdowns, schedulerOn, exitedBy := {}, {}, 0, [], true, None;
      calls, started, skips, evaluations, listenClients := 0, 0, 0, 0, 1;
    }

    method HandleSync()
      modifies this
      ensures State() == old(State()).Handle()
    {
      calls := calls + 1;
      if isSyncing {
        skips := skips + 1;
        return;
      }
      isSyncing := true;
      currentSync := Some(started);
      live := live + {started};
      started := started + 1;
    }

    /** The LISTEN callback: the update of the schedule is on its way. */
    method OnNotify()
      requires exitedBy == None
      modifies this`pending
      ensures State() == Step(old(State()), Notify)
    {
      pending := pending + 1;
    }

    /** The update has settled: its `finally` calls the handler. */
    method OnNotified()
      requires exitedBy == None && pending > 0
      modifies this
      ensures State() == Step(old(State()), Notified)
    {
      pending := pending - 1;
      HandleSync();
    }

    /** The run settles, well or badly: its `finally` runs before anything that awaits it. */
    method OnRunEnd(r: nat)
      requires exitedBy == None && r in live
      modifies this
      ensures State() == Step(old(State()), RunEnds(r))
    {
      live := live - {r};
      finished := finished + {r};
      isSyncing := false;
      currentSync := None;
    }

    /** The rest of `handleSync` after its await. */
    method AfterRun(r: nat)
      requires exitedBy == None && r in finished
      modifies this
      ensures State() == Step(old(State()), Evaluate(r))
    {
      finished := finished - {r};
      evaluations := evaluations + 1;
    }

    method OnClose()
      requires exitedBy == None
      modifies this`listenClients
      ensures State() == Step(old(State()), ConnectionCloses)
    {
      if isShuttingDown {
        return;
      }
      listenClients := listenClients + 1;
    }

    method OnSignal()
      requires exitedBy == None
      modifies this
      ensures State() == Step(old(State()), Signal)
    {
      isShuttingDown := true;
      schedulerOn := false;
      shutdowns := shutdowns + [Shutdown(currentSync, started, false)];
    }

    /** The `i`-th shutdown handler gets past its await of the sync it found. */
    method PastAwait(i: nat)
      requires exitedBy == None && i < |shutdowns|
      requires shutdowns[i].awaits.Some? ==> shutdowns[i].awaits.value !in live
      modifies this`shutdowns
      ensures State() == Step(old(State()), Proceed(i))
    {
      shutdowns := shutdowns[i := shutdowns[i].(ending := true)];
    }

    /** The LISTEN connection has closed: `Deno.exit(0)`. */
    method End(i: nat)
      requires exitedBy == None && i < |shutdowns| && shutdowns[i].ending
      modifies this`exitedBy
      ensures State() == Step(old(State()), Exit(i))
    {
      exitedBy := Some(i);
    }
  }
}
