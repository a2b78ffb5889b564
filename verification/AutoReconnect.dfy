/**
 * The auto-reconnect manager: overlapping callers and retry timers share one
 * retry counter, one in-progress flag and one timer handle.
 */
module AutoReconnect {
  import opened Bytes

  const MAX_DELAY := 2147483647

  datatype Config = Config(enabled: bool, maxRetries: nat, retryDelay: nat)

  /** The manager's fields; sessions and timers are named by numbers. */
  datatype Core = Core(lastSession: Option<nat>, retryCount: nat, isReconnecting: bool, retryTimeout: Option<nat>)

  // ---- Segments as functions ----------------------------------------------

  predicate Starts(f: Config, c: Core) {
    f.enabled && c.lastSession.Some? && !c.isReconnecting
  }

  function Begins(f: Config, c: Core): Core {
    if Starts(f, c) then c.(isReconnecting := true) else c
  }

  function Succeeds(c: Core): Core {
    c.(isReconnecting := false, retryCount := 0)
  }

  predicate Exhausted(f: Config, c: Core) {
    c.retryCount >= f.maxRetries
  }

  /** What the k-th consecutive failure waits: linear, capped at the longest timer. */
  function Delay(f: Config, k: nat): nat {
    if f.retryDelay * k <= MAX_DELAY then f.retryDelay * k else MAX_DELAY
  }

  function Cancelled(c: Core): Core {
    c.(isReconnecting := false, retryTimeout := None)
  }

  function Cleared(c: Core): Core {
    Cancelled(c.(lastSession := None, retryCount := 0))
  }

  /** A failed attempt gives up or arms `timer`, dropping the handle of an earlier one. */
  function Fails(f: Config, c: Core, timer: nat): Core {
    if Exhausted(f, c) then Cleared(c)
    else c.(isReconnecting := false, retryCount := c.retryCount + 1, retryTimeout := Some(timer))
  }

  // ---- The class ----------------------------------------------------------

  class AutoReconnectManager {
    const config: Config
    var lastSession: Option<nat>
    var retryCount: nat
    var isReconnecting: bool
    var retryTimeout: Option<nat>

    ghost function State(): Core
      reads this
    {
      Core(lastSession, retryCount, isReconnecting, retryTimeout)
    }

    constructor (config: Config)
      ensures this.config == config && State() == Core(None, 0, false, None)
    {
      this.config := config;
      lastSession := None;
      retryCount := 0;
      isReconnecting := false;
      retryTimeout := None;
    }

    method SetLastSession(session: nat)
      modifies this
      ensures State() == old(State()).(lastSession := Some(session), retryCount := 0)
    {
      lastSession := Some(session);
      retryCount := 0;
    }

    /** reconnect up to the call of the reconnect function; false when it returns early. */
    method Begin() returns (start: bool)
      modifies this
      ensures State() == Begins(config, old(State())) && start == Starts(config, old(State()))
    {
      if !config.enabled || lastSession.None? { return false; }
      if isReconnecting { return false; }
      isReconnecting := true;
      return true;
    }

    method Succeed()
      modifies this
      ensures State() == Succeeds(old(State()))
    {
      isReconnecting := false;
      retryCount := 0;
    }

    /** The rejection path: the delay of the retry armed as `timer`, or None when it gives up. */
    method Fail(timer: nat) returns (delay: Option<nat>, stopped: Option<nat>)
      modifies this
      ensures State() == Fails(config, old(State()), timer)
      ensures delay == if Exhausted(config, old(State())) then None else Some(Delay(config, old(retryCount) + 1))
      ensures stopped == if Exhausted(config, old(State())) then old(retryTimeout) else None
    {
      isReconnecting := false;
      if retryCount >= config.maxRetries {
        stopped := ClearSession();
        return None, stopped;
      }
      retryCount := retryCount + 1;
      var wait := config.retryDelay * retryCount;
      retryTimeout := Some(timer);
      return Some(if wait <= MAX_DELAY then wait else MAX_DELAY), None;
    }

    /** The timer it stops: only the latest one is known. */
    method Cancel() returns (stopped: Option<nat>)
      modifies this
      ensures State() == Cancelled(old(State())) && stopped == old(retryTimeout)
    {
      stopped := None;
      if retryTimeout.Some? {
        stopped := retryTimeout;
        retryTimeout := None;
      }
      isReconnecting := false;
    }

    method ClearSession() returns (stopped: Option<nat>)
      modifies this
      ensures State() == Cleared(old(State())) && stopped == old(retryTimeout)
    {
      lastSession := None;
      retryCount := 0;
      isReconnecting := false;
      stopped := Cancel();
    }
  }

  // ---- Overlapping callers and timers -------------------------------------

  /**
   * `timers` are armed and `nextTimer` is the next handle. `attempts` counts every
   * started attempt and `inFlight` those not yet settled; `failures` and
   * `scheduled` (the delays armed) restart at a success or a new session,
   * `notified` (calls of onFailed) at a new session.
   */
  datatype System = System(
    core: Core,
    timers: set<nat>,
    nextTimer: nat,
    attempts: nat,
    inFlight: nat,
    failures: nat,
    scheduled: seq<nat>,
    notified: nat)

  datatype Event =
    | SetSession(session: nat)
    | Call
    | TimerFires(timer: nat)
    | AttemptSucceeds
    | AttemptFails
    | CancelCalled
    | ClearCalled

  predicate Enabled(y: System, e: Event) {
    match e
    case TimerFires(timer) => timer in y.timers
    case AttemptSucceeds => y.inFlight > 0
    case AttemptFails => y.inFlight > 0
    case _ => true
  }

  function Reconnect(f: Config, y: System): System {
    if Starts(f, y.core) then
      y.(core := Begins(f, y.core), attempts := y.attempts + 1, inFlight := y.inFlight + 1)
    else y
  }

  function Stopped(timers: set<nat>, handle: Option<nat>): set<nat> {
    if handle.Some? then timers - {handle.value} else timers
  }

  function Failed(f: Config, y: System): System
    requires y.inFlight > 0
  {
    var z := y.(core := Fails(f, y.core, y.nextTimer), inFlight := y.inFlight - 1, failures := y.failures + 1);
    if Exhausted(f, y.core) then z.(notified := y.notified + 1, timers := Stopped(y.timers, y.core.retryTimeout))
    else
      z.(timers := y.timers + {y.nextTimer}, nextTimer := y.nextTimer + 1, scheduled := y.scheduled + [Delay(f, z.core.retryCount)])
  }

  function Step(f: Config, y: System, e: Event): System
    requires Enabled(y, e)
  {
    match e
    case SetSession(session) =>
      y.(core := y.core.(lastSession := Some(session), retryCount := 0), failures := 0, scheduled := [], notified := 0)
    case Call => Reconnect(f, y)
    case TimerFires(timer) => Reconnect(f, y.(timers := y.timers - {timer}))
    case AttemptSucceeds =>
      y.(core := Succeeds(y.core), inFlight := y.inFlight - 1, failures := 0, scheduled := [])
    case AttemptFails => Failed(f, y)
    case CancelCalled => y.(core := Cancelled(y.core), timers := Stopped(y.timers, y.core.retryTimeout))
    case ClearCalled => y.(core := Cleared(y.core), timers := Stopped(y.timers, y.core.retryTimeout))
  }

  predicate ValidRun(f: Config, y: System, es: seq<Event>)
    decreases |es|
  {
    es == [] || (Enabled(y, es[0]) && ValidRun(f, Step(f, y, es[0]), es[1..]))
  }

  function Run(f: Config, y: System, es: seq<Event>): System
    requires ValidRun(f, y, es)
    decreases |es|
  {
    if es == [] then y else Run(f, Step(f, y, es[0]), es[1..])
  }

  const INITIAL := System(Core(None, 0, false, None), {}, 0, 0, 0, 0, [], 0)

  // ---- One attempt at a time ----------------------------------------------

  /** The flag counts the attempts in flight. */
  predicate Exclusive(y: System) {
    y.inFlight == if y.core.isReconnecting then 1 else 0
  }

  /** Cancelling while an attempt is in flight: a caller can see it in `isReconnecting`. */
  predicate Disturbs(y: System, e: Event) {
    (e.CancelCalled? || e.ClearCalled?) && y.core.isReconnecting
  }

  /** Every step keeps the flag right exactly when it does not cancel under an attempt. */
  lemma ExclusiveStep(f: Config, y: System, e: Event)
    requires Exclusive(y) && Enabled(y, e)
    ensures Exclusive(Step(f, y, e)) <==> !Disturbs(y, e)
  {
  }

  predicate Undisturbed(f: Config, y: System, es: seq<Event>)
    requires ValidRun(f, y, es)
    decreases |es|
  {
    es == [] || (!Disturbs(y, es[0]) && Undisturbed(f, Step(f, y, es[0]), es[1..]))
  }

  predicate ExclusiveThroughout(f: Config, y: System, es: seq<Event>)
    requires ValidRun(f, y, es)
    decreases |es|
  {
    Exclusive(y) && (es == [] || ExclusiveThroughout(f, Step(f, y, es[0]), es[1..]))
  }

  lemma {:induction false} ExclusiveFrom(f: Config, y: System, es: seq<Event>)
    requires Exclusive(y) && ValidRun(f, y, es)
    ensures ExclusiveThroughout(f, y, es) <==> Undisturbed(f, y, es)
    decreases |es|
  {
    hide Exclusive, Disturbs, Step;
    if es != [] {
      var z := Step(f, y, es[0]);
      ExclusiveStep(f, y, es[0]);
      if Exclusive(z) {
        ExclusiveFrom(f, z, es[1..]);
      } else {
        assert !ExclusiveThroughout(f, z, es[1..]);
      }
    }
  }

  /** Along every run, the flag counts the attempts in flight exactly when nobody cancels under one. */
  lemma ExclusiveExactly(f: Config, es: seq<Event>)
    requires ValidRun(f, INITIAL, es)
    ensures ExclusiveThroughout(f, INITIAL, es) <==> Undisturbed(f, INITIAL, es)
  {
    ExclusiveFrom(f, INITIAL, es);
  }

  /** After such a cancel, the next call starts a second attempt beside the first. */
  lemma CancelAllowsSecondAttempt(f: Config, y: System, e: Event)
    requires Exclusive(y) && e.CancelCalled? && Disturbs(y, e) && f.enabled && y.core.lastSession.Some?
    ensures ValidRun(f, y, [e, Call]) && Run(f, y, [e, Call]).inFlight == 2
  {
    var z := Step(f, y, e);
    assert [e, Call][1..] == [Call] && [Call][1..] == [];
    assert Run(f, z, [Call]) == Reconnect(f, z);
  }

  // ---- Retries are bounded ------------------------------------------------

  predicate DelaysGrow(f: Config, scheduled: seq<nat>) {
    forall i | 0 <= i < |scheduled| :: scheduled[i] == Delay(f, i + 1)
  }

  /** Each delay is at least the one before, and none is longer than a timer can be. */
  lemma DelaysNeverShrink(f: Config, k: nat)
    ensures Delay(f, k) <= Delay(f, k + 1) <= MAX_DELAY
    ensures f.retryDelay * k <= MAX_DELAY ==> Delay(f, k) == f.retryDelay * k
  {
    assert f.retryDelay * (k + 1) == f.retryDelay * k + f.retryDelay;
  }

  /** What holds between any two events of an undisturbed run. */
  predicate Bounded(f: Config, y: System) {
    && Exclusive(y)
    && y.failures <= f.maxRetries + 1
    && y.notified <= 1
    && (y.notified == 1 <==> y.failures == f.maxRetries + 1)
    && (y.notified == 1 ==> |y.scheduled| == f.maxRetries)
    && (y.notified == 0 ==> |y.scheduled| == y.failures)
    && DelaysGrow(f, y.scheduled)
    && (y.core.lastSession.None? ==> y.inFlight == 0)
    && (y.core.lastSession.Some? ==> y.core.retryCount == y.failures && y.notified == 0)
  }

  lemma BoundedStep(f: Config, y: System, e: Event)
    requires Bounded(f, y) && Enabled(y, e) && !Disturbs(y, e)
    ensures Bounded(f, Step(f, y, e))
  {
    ExclusiveStep(f, y, e);
  }

  lemma {:induction false} BoundedRun(f: Config, y: System, es: seq<Event>)
    requires Bounded(f, y) && ValidRun(f, y, es) && Undisturbed(f, y, es)
    ensures Bounded(f, Run(f, y, es))
    decreases |es|
  {
    if es != [] {
      BoundedStep(f, y, es[0]);
      BoundedRun(f, Step(f, y, es[0]), es[1..]);
    }
  }

  lemma InitiallyBounded(f: Config)
    ensures Bounded(f, INITIAL)
  {
  }

  /**
   * In every undisturbed run, with any number of overlapping callers and
   * timers: one attempt at a time, at most maxRetries + 1 consecutive
   * failures, linearly growing delays, and onFailed once, exactly when the
   * retries are used up and the session is gone.
   */
  lemma RetriesAreBounded(f: Config, es: seq<Event>)
    requires ValidRun(f, INITIAL, es) && Undisturbed(f, INITIAL, es)
    ensures Bounded(f, Run(f, INITIAL, es))
    ensures Run(f, INITIAL, es).inFlight <= 1 && Run(f, INITIAL, es).notified <= 1
  {
    InitiallyBounded(f);
    BoundedRun(f, INITIAL, es);
  }

  /** Once the session is gone, no caller and no leftover timer starts an attempt until a new session is set. */
  lemma {:induction false} NoAttemptAfterGivingUp(f: Config, y: System, es: seq<Event>)
    requires Bounded(f, y) && y.core.lastSession.None? && ValidRun(f, y, es)
    requires forall i | 0 <= i < |es| :: !es[i].SetSession?
    ensures var z := Run(f, y, es); z.attempts == y.attempts && z.inFlight == 0 && z.notified == y.notified
    decreases |es|
  {
    if es != [] {
      assert !es[0].SetSession? && !Disturbs(y, es[0]);
      BoundedStep(f, y, es[0]);
      NoAttemptAfterGivingUp(f, Step(f, y, es[0]), es[1..]);
    }
  }

  lemma GivingUpIsFinal(f: Config, before: seq<Event>, after: seq<Event>)
    requires ValidRun(f, INITIAL, before) && Undisturbed(f, INITIAL, before)
    requires Run(f, INITIAL, before).failures > f.maxRetries
    requires ValidRun(f, Run(f, INITIAL, before), after) && forall i | 0 <= i < |after| :: !after[i].SetSession?
    ensures var y, z := Run(f, INITIAL, before), Run(f, Run(f, INITIAL, before), after);
      y.notified == 1 && z.notified == 1 && z.attempts == y.attempts && z.inFlight == 0
  {
    RetriesAreBounded(f, before);
    NoAttemptAfterGivingUp(f, Run(f, INITIAL, before), after);
  }

  // ---- Disabled managers and cancelled timers -----------------------------

  /** A disabled manager never starts an attempt, whoever calls and whatever fires. */
  lemma {:induction false} DisabledNeverAttempts(f: Config, y: System, es: seq<Event>)
    requires !f.enabled && ValidRun(f, y, es)
    ensures Run(f, y, es).attempts == y.attempts && Run(f, y, es).inFlight <= y.inFlight
    decreases |es|
  {
    if es != [] { DisabledNeverAttempts(f, Step(f, y, es[0]), es[1..]); }
  }

  /** An enabled one with a session and nothing in progress starts one at the first call. */
  lemma CallStartsAttempt(f: Config, y: System)
    ensures Step(f, y, Call).attempts == y.attempts + 1 <==>
      f.enabled && y.core.lastSession.Some? && !y.core.isReconnecting
    ensures Step(f, y, Call).attempts != y.attempts ==>
      Step(f, y, Call).inFlight == y.inFlight + 1 && Step(f, y, Call).core.isReconnecting
  {
  }

  /** Handles are given out once, and the latest armed timer is the one the manager knows. */
  predicate KnowsLatest(y: System) {
    && (forall t | t in y.timers :: t < y.nextTimer)
    && (y.core.retryTimeout.Some? ==> y.core.retryTimeout.value < y.nextTimer)
    && (y.nextTimer - 1 in y.timers ==> y.core.retryTimeout == Some(y.nextTimer - 1))
  }

  lemma KnowsLatestStep(f: Config, y: System, e: Event)
    requires KnowsLatest(y) && Enabled(y, e)
    ensures KnowsLatest(Step(f, y, e))
  {
  }

  lemma {:induction false} KnowsLatestRun(f: Config, y: System, es: seq<Event>)
    requires KnowsLatest(y) && ValidRun(f, y, es)
    ensures KnowsLatest(Run(f, y, es))
    decreases |es|
  {
    if es != [] {
      KnowsLatestStep(f, y, es[0]);
      KnowsLatestRun(f, Step(f, y, es[0]), es[1..]);
    }
  }

  lemma {:induction false} NothingFires(f: Config, y: System, es: seq<Event>)
    requires y.timers == {} && y.inFlight == 0 && ValidRun(f, y, es) && Call !in es
    ensures Run(f, y, es).attempts == y.attempts && Run(f, y, es).timers == {} && Run(f, y, es).inFlight == 0
    decreases |es|
  {
    if es != [] {
      assert es[0] in es && forall e | e in es[1..] :: e in es;
      NothingFires(f, Step(f, y, es[0]), es[1..]);
    }
  }

  /** Cancelling stops the latest timer; when it was the only one and nothing is in flight, no attempt starts until the next call. */
  lemma CancelStopsLatest(f: Config, before: seq<Event>, after: seq<Event>)
    requires ValidRun(f, INITIAL, before) && ValidRun(f, Step(f, Run(f, INITIAL, before), CancelCalled), after)
    ensures var y, z := Run(f, INITIAL, before), Step(f, Run(f, INITIAL, before), CancelCalled);
      && y.nextTimer - 1 !in z.timers
      && (|y.timers - {y.nextTimer - 1}| == 0 && y.inFlight == 0 && Call !in after ==> Run(f, z, after).attempts == y.attempts)
  {
    var y := Run(f, INITIAL, before);
    var z := Step(f, y, CancelCalled);
    KnowsLatestRun(f, INITIAL, before);
    if |y.timers - {y.nextTimer - 1}| == 0 && y.inFlight == 0 && Call !in after {
      assert z.timers <= y.timers - {y.nextTimer - 1};
      NothingFires(f, z, after);
    }
  }

  /** The k-th consecutive failure arms a timer of k times the delay, at most the longest one; a manager out of retries arms none. */
  lemma FailureArms(f: Config, y: System)
    requires Enabled(y, AttemptFails)
    ensures var z := Step(f, y, AttemptFails);
      if y.core.retryCount < f.maxRetries then
        z.timers == y.timers + {y.nextTimer} && z.core.retryTimeout == Some(y.nextTimer) && z.nextTimer == y.nextTimer + 1
        && |z.scheduled| == |y.scheduled| + 1
        && z.scheduled[|y.scheduled|] == Min(f.retryDelay * (y.core.retryCount + 1), 2147483647)
      else z.timers <= y.timers && z.scheduled == y.scheduled && z.core.lastSession.None?
  {
  }

  function Min(a: nat, b: nat): (r: nat)
    ensures r <= a && r <= b && (r == a || r == b)
  {
    if a <= b then a else b
  }
}
