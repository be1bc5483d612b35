/**
 The per-invoice event stream: one source at a time, reconnected with exponential backoff until the hook
 is cleaned up. Callbacks are steps; the browser's live sources and timers are part of the state.
*/
module InvoiceSse {
  import opened Runs
  import opened Wrappers

  const BASE := 1_000
  const MAX := 30_000

  function Pow2(k: nat): (p: nat)
    ensures p >= 1
  {
    if k == 0 then 1 else 2 * Pow2(k - 1)
  }

  /** `Math.min(RECONNECT_BASE_MS * Math.pow(2, attempt), RECONNECT_MAX_MS)`. */
  function Delay(attempt: nat): nat {
    if BASE * Pow2(attempt) < MAX then BASE * Pow2(attempt) else MAX
  }

  datatype Hook = Hook(
    // the effect's variables
    cancelled: bool,
    es: Option<nat>,
    attempt: nat,
    reconnectTimer: Option<nat>,
    connected: bool,
    // the browser: live sources, live timers with their delays, the next id, sources opened so far
    sources: set<nat>,
    timers: map<nat, nat>,
    nextId: nat,
    openCount: nat,
    // the delays armed since the last open
    waits: seq<nat>)
  {
    function Connect(): Hook {
      if cancelled then this
      else this.(es := Some(nextId), sources := sources + {nextId}, nextId := nextId + 1, openCount := openCount + 1)
    }

    /** `es?.close(); es = null`. */
    function CloseSource(): Hook {
      this.(es := None, sources := if es == None then sources else sources - {es.value})
    }
  }

  datatype Event =
    | Open(source: nat)
    | Heartbeat(source: nat)
    | Error(source: nat)
    | Fire(timer: nat)
    | Cleanup

  const MOUNT := Hook(false, None, 0, None, false, {}, map[], 0, 0, []).Connect()

  /** A closed source and a cleared timer call nobody back. */
  function Step(h: Hook, e: Event): Hook {
    match e
    case Open(s) => if s in h.sources then h.(attempt := 0, connected := true, waits := []) else h
    case Heartbeat(s) => if s in h.sources then h.(connected := true) else h
    case Error(s) =>
      if s !in h.sources then h
      else
        var c := h.CloseSource();
        if c.cancelled then c
        else
          var a := c.attempt + 1;
          c.(connected := false, attempt := a, waits := c.waits + [Delay(a)],
             reconnectTimer := Some(c.nextId), timers := c.timers[c.nextId := Delay(a)], nextId := c.nextId + 1)
    case Fire(t) => if t in h.timers then h.(timers := h.timers - {t}).Connect() else h
    case Cleanup =>
      var c := h.(cancelled := true, reconnectTimer := None,
                  timers := if h.reconnectTimer == None then h.timers else h.timers - {h.reconnectTimer.value});
      c.CloseSource().(connected := false)
  }

  function Run(h: Hook, es: seq<Event>): Hook {
    Fold(Step, h, es)
  }

  // --- The invariant -----------------------------------------------------------------------------------

  ghost predicate Inv(h: Hook) {
    && h.sources == (if h.es.Some? then {h.es.value} else {})
    && (h.cancelled ==> h.es == None && h.timers == map[])
    && (!h.cancelled ==> (h.es.Some? <==> h.timers == map[]))
    && (!h.cancelled && h.es == None ==> h.reconnectTimer.Some? && h.timers == map[h.reconnectTimer.value := Delay(h.attempt)])
    && (h.connected ==> h.es.Some?)
    && |h.waits| == h.attempt
    && (forall i :: 0 <= i < |h.waits| ==> h.waits[i] == Delay(i + 1))
  }

  lemma StepKeeps(h: Hook, e: Event)
    requires Inv(h)
    ensures Inv(Step(h, e))
  {
    hide Delay;
    match e
    case Open(s) =>
    case Heartbeat(s) =>
    case Error(s) =>
      if s in h.sources {
        assert h.sources - {s} == {} && !h.cancelled && h.timers == map[];
        var h' := Step(h, e);
        assert h'.timers == map[h.nextId := Delay(h.attempt + 1)] && h.nextId in h'.timers;
        assert h'.waits == h.waits + [Delay(h.attempt + 1)];
      }
    case Fire(t) =>
    case Cleanup =>
  }

  lemma {:induction false} EveryRunKeeps(es: seq<Event>)
    ensures Inv(Run(MOUNT, es))
  {
    if es != [] {
      EveryRunKeeps(es[..|es| - 1]);
      StepKeeps(Run(MOUNT, es[..|es| - 1]), es[|es| - 1]);
    }
  }

  /** Until cleanup there is exactly one live source or exactly one armed timer, never both; after it neither. */
  lemma OneSourceOrOneTimer(es: seq<Event>)
    ensures var h := Run(MOUNT, es);
            && |h.sources| + |h.timers| == (if h.cancelled then 0 else 1)
            && (h.connected ==> |h.sources| == 1)
  {
    EveryRunKeeps(es);
  }

  // --- The backoff ----------------------------------------------------------------------------------------

  lemma {:induction false} PowGrows(k: nat)
    ensures k >= 5 ==> Pow2(k) >= 32
  {
    if k > 5 {
      PowGrows(k - 1);
    } else {
      assert Pow2(3) == 2 * Pow2(2) && Pow2(2) == 2 * Pow2(1) && Pow2(4) == 2 * Pow2(3);
    }
  }

  /** The k-th wait of a losing streak is 2, 4, 8 or 16 seconds and from the fifth on the cap. */
  lemma WaitsOfAStreak(es: seq<Event>, k: nat)
    requires k < |Run(MOUNT, es).waits|
    ensures Run(MOUNT, es).waits[k] == [2_000, 4_000, 8_000, 16_000, 30_000][if k < 4 then k else 4]
    ensures k > 0 ==> Run(MOUNT, es).waits[k - 1] <= Run(MOUNT, es).waits[k]
  {
    EveryRunKeeps(es);
    PowGrows(k);
    PowGrows(k + 1);
    assert Pow2(1) == 2 && Pow2(2) == 4 && Pow2(3) == 2 * Pow2(2) && Pow2(4) == 2 * Pow2(3);
  }

  function Sum(s: seq<nat>): nat {
    if s == [] then 0 else Sum(s[..|s| - 1]) + s[|s| - 1]
  }

  function DelaysUpTo(k: nat): seq<nat> {
    seq(k, i requires 0 <= i < k => Delay(i + 1))
  }

  lemma {:induction false} TotalDelay(k: nat)
    requires k >= 4
    ensures Sum(DelaysUpTo(k)) == 30_000 * (k - 3)
  {
    if k == 4 {
      assert Pow2(1) == 2 && Pow2(2) == 4 && Pow2(3) == 2 * Pow2(2) && Pow2(4) == 2 * Pow2(3);
      var d := DelaysUpTo(4);
      assert d == [2_000, 4_000, 8_000, 16_000];
      assert d[..3] == [2_000, 4_000, 8_000] && d[..3][..2] == [2_000, 4_000] && [2_000, 4_000][..1] == [2_000] && [2_000][..0] == [];
      assert Sum([2_000]) == 2_000 && Sum([2_000, 4_000]) == 6_000 && Sum(d[..3]) == 14_000;
    } else {
      assert DelaysUpTo(k)[..k - 1] == DelaysUpTo(k - 1);
      TotalDelay(k - 1);
      PowGrows(k);
    }
  }

  /** After `k >= 4` failures in a row the hook has waited, or is about to have waited, 30 s times k - 3. */
  lemma TotalWaitOfAStreak(es: seq<Event>)
    requires Run(MOUNT, es).attempt >= 4
    ensures Sum(Run(MOUNT, es).waits) == 30_000 * (Run(MOUNT, es).attempt - 3)
  {
    var h := Run(MOUNT, es);
    EveryRunKeeps(es);
    assert h.waits == DelaysUpTo(h.attempt);
    TotalDelay(h.attempt);
  }

  /** An open ends the streak: the next failure waits two seconds again. */
  lemma OpenResetsTheStreak(es: seq<Event>, s: nat)
    requires s in Run(MOUNT, es).sources
    ensures var h := Step(Step(Run(MOUNT, es), Open(s)), Error(s));
            !h.cancelled ==> h.waits == [2_000] && h.reconnectTimer.Some? && h.timers == map[h.reconnectTimer.value := 2_000]
  {
    EveryRunKeeps(es);
    StepKeeps(Run(MOUNT, es), Open(s));
    StepKeeps(Step(Run(MOUNT, es), Open(s)), Error(s));
    assert Pow2(1) == 2;
  }

  /** Connected as the hook reports it: from an open or a heartbeat of the live source to its next error or the cleanup. */
  lemma ConnectedFollowsTheSource(es: seq<Event>, s: nat)
    requires s in Run(MOUNT, es).sources
    ensures var h := Run(MOUNT, es + [Open(s)]); h.connected && h.attempt == 0 && h.sources == {s} && h.timers == map[]
    ensures var h := Run(MOUNT, es + [Heartbeat(s)]); h.connected && h.attempt == Run(MOUNT, es).attempt
    ensures var h := Run(MOUNT, es + [Error(s)]);
            !h.connected && h.sources == {} && h.attempt == Run(MOUNT, es).attempt + 1 && |h.timers| == 1
    ensures !Run(MOUNT, es + [Cleanup]).connected
  {
    hide Delay;
    EveryRunKeeps(es);
    OneMore(es, Open(s));
    OneMore(es, Heartbeat(s));
    OneMore(es, Error(s));
    OneMore(es, Cleanup);
    StepKeeps(Run(MOUNT, es), Error(s));
  }

  lemma OneMore(es: seq<Event>, e: Event)
    ensures Run(MOUNT, es + [e]) == Step(Run(MOUNT, es), e)
  {
    hide Step;
    assert (es + [e])[..|es|] == es;
  }

  /** A reconnect timer that fires opens exactly one source, and a new one; the streak goes on. */
  lemma TimerReconnects(es: seq<Event>, t: nat)
    requires t in Run(MOUNT, es).timers
    ensures var h, h' := Run(MOUNT, es), Run(MOUNT, es + [Fire(t)]);
            && h'.timers == map[] && h'.openCount == h.openCount + 1 && h'.attempt == h.attempt
            && h'.sources == {h.nextId} && h.nextId < h'.nextId && !h'.connected
  {
    hide Delay;
    EveryRunKeeps(es);
    OneMore(es, Fire(t));
  }

  // --- After the cleanup -------------------------------------------------------------------------------------

  ghost predicate Dead(h: Hook) {
    h.cancelled && h.sources == {} && h.timers == map[] && !h.connected && h.es == None
  }

  lemma {:induction false} DeadStaysDead(h: Hook, es: seq<Event>)
    requires Dead(h)
    ensures Dead(Run(h, es)) && Run(h, es).openCount == h.openCount
  {
    if es != [] {
      DeadStaysDead(h, es[..|es| - 1]);
    }
  }

  /** No source is ever opened after the cleanup, and none is left. */
  lemma NothingAfterCleanup(before: seq<Event>, after: seq<Event>)
    ensures var h, h' := Run(MOUNT, before), Run(MOUNT, before + [Cleanup] + after);
            h'.sources == {} && h'.timers == map[] && !h'.connected && h'.openCount == h.openCount
  {
    var h := Run(MOUNT, before);
    EveryRunKeeps(before);
    StepKeeps(h, Cleanup);
    FoldAround(Step, MOUNT, before, Cleanup, after);
    DeadStaysDead(Step(h, Cleanup), after);
  }

  // --- The hook, callback by callback ----------------------------------------------------------------------------

  class Effect {
    var cancelled: bool
    var es: Option<nat>
    var attempt: nat
    var reconnectTimer: Option<nat>
    var connected: bool
    var sources: set<nat>
    var timers: map<nat, nat>
    var nextId: nat
    var openCount: nat
    ghost var waits: seq<nat>

    ghost function State(): Hook
      reads this
    {
      Hook(cancelled, es, attempt, reconnectTimer, connected, sources, timers, nextId, openCount, waits)
    }

    constructor ()
      ensures State() == MOUNT
    {
      cancelled, es, attempt, reconnectTimer, connected := false, None, 0, None, false;
      sources, timers, nextId, openCount, waits := {}, map[], 0, 0, [];
      new;
      Connect();
    }

    method Connect()
      modifies this`es, this`sources, this`nextId, this`openCount
      ensures State() == old(State()).Connect()
    {
      if cancelled {
        return;
      }
      es := Some(nextId);
      sources := sources + {nextId};
      nextId := nextId + 1;
      openCount := openCount + 1;
    }

    method OnOpen(s: nat)
      requires s in sources
      modifies this`attempt, this`connected, this`waits
      ensures State() == Step(old(State()), Open(s))
    {
      attempt := 0;
      waits := [];
      connected := true;
    }

    method OnHeartbeat(s: nat)
      requires s in sources
      modifies this`connected
      ensures State() == Step(old(State()), Heartbeat(s))
    {
      connected := true;
    }

    method OnError(s: nat)
      requires s in sources
      modifies this
      ensures State() == Step(old(State()), Error(s))
    {
      if es != None {
        sources := sources - {es.value};
      }
      es := None;
      if cancelled {
        return;
      }
      connected := false;
      attempt := attempt + 1;
      var delay := Delay(attempt);
      waits := waits + [delay];
      reconnectTimer := Some(nextId);
      timers := timers[nextId := delay];
      nextId := nextId + 1;
    }

    method OnTimer(t: nat)
      requires t in timers
      modifies this
      ensures State() == Step(old(State()), Fire(t))
    {
      timers := timers - {t};
      Connect();
    }

    method Close()
      modifies this
      ensures State() == Step(old(State()), Cleanup)
    {
      cancelled := true;
      if reconnectTimer != None {
        timers := timers - {reconnectTimer.value};
        reconnectTimer := None;
      }
      if es != None {
        sources := sources - {es.value};
      }
      es := None;
      connected := false;
    }
  }
}
