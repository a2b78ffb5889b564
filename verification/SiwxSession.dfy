/**
 * The sign-in session protocol. Each async operation is cut at its awaits into
 * atomic segments; the class methods are those segments, and a state machine
 * over their specifications interleaves any number of pending operations.
 */
module SiwxSession {
  import opened Bytes

  /**
   * A session record. `epoch` is bookkeeping of the model: the number of
   * sign-outs that preceded the sign-in the record descends from.
   */
  datatype Session = Session(id: nat, signature: nat, epoch: nat) {
    /** What the undo compares. */
    function Key(): (nat, nat) { (id, signature) }
  }

  /** What one atomic segment can see and change. */
  datatype Core = Core(generation: nat, session: Option<Session>, storage: Option<Session>)

  // ---- Segments as functions ----------------------------------------------

  /** The storage read takes effect when called; an expired record is evicted. */
  function StorageGet(c: Core, expired: bool): (Core, Option<Session>) {
    if expired then (c.(storage := None), None) else (c, c.storage)
  }

  function SignInBegins(c: Core): Core {
    c.(generation := c.generation + 1)
  }

  function SignOutBegins(c: Core): Core {
    Core(c.generation + 1, None, None)
  }

  /** The check and the write; the flag says whether the write was started. */
  function PersistBegins(c: Core, s: Session, generation: nat): (Core, bool) {
    if generation != c.generation then (c, false) else (c.(storage := Some(s)), true)
  }

  /** After the write: publish, or read storage back in order to undo. */
  function PersistEnds(c: Core, s: Session, generation: nat, expired: bool): (Core, Option<Option<Session>>) {
    if generation == c.generation then (c.(session := Some(s)), None)
    else
      var (d, snapshot) := StorageGet(c, expired);
      (d, Some(snapshot))
  }

  predicate Holds(snapshot: Option<Session>, s: Session) {
    snapshot.Some? && snapshot.value.Key() == s.Key()
  }

  /** The undo removes whatever is stored when the snapshot was this session. */
  function UndoDecides(c: Core, s: Session, snapshot: Option<Session>): (Core, bool) {
    if Holds(snapshot, s) then (c.(storage := None), true) else (c, false)
  }

  /** After the read of a restore; Some(g) when it awaits the removal at generation g. */
  function RestoreReads(c: Core, generation: nat, snapshot: Option<Session>, expired: bool): (Core, Option<nat>) {
    if generation != c.generation then (c, None)
    else if snapshot.Some? && expired then (Core(c.generation + 1, c.session, None), Some(c.generation + 1))
    else (Core(c.generation + 1, snapshot, c.storage), None)
  }

  function RestoreClears(c: Core, cleared: nat): Core {
    if cleared != c.generation then c else c.(session := None)
  }

  // ---- The class ----------------------------------------------------------

  /** One stored entry; every operation takes effect when it is called. */
  class SessionStorage {
    var entry: Option<Session>

    constructor (entry: Option<Session>)
      ensures this.entry == entry
    {
      this.entry := entry;
    }

    method Get(expired: bool) returns (r: Option<Session>)
      modifies this
      ensures r == (if expired then None else old(entry)) && entry == r
    {
      if entry.None? { return None; }
      if expired {
        entry := None;
        return None;
      }
      return entry;
    }

    method Set(s: Session)
      modifies this
      ensures entry == Some(s)
    {
      entry := Some(s);
    }

    method Remove()
      modifies this
      ensures entry == None
    {
      entry := None;
    }
  }

  class SiwxSessionManager {
    const storage: SessionStorage
    var generation: nat
    var session: Option<Session>

    ghost function State(): Core
      reads this, storage
    {
      Core(generation, session, storage.entry)
    }

    constructor (storage: SessionStorage)
      ensures State() == Core(0, None, storage.entry) && this.storage == storage
    {
      this.storage := storage;
      generation := 0;
      session := None;
    }

    /** signIn up to the signer call: the generation it captures. */
    method SignInBegin() returns (captured: nat)
      modifies this
      ensures State() == SignInBegins(old(State())) && captured == generation
    {
      generation := generation + 1;
      captured := generation;
    }

    method SignOutBegin()
      modifies this, storage
      ensures State() == SignOutBegins(old(State()))
    {
      generation := generation + 1;
      session := None;
      storage.Remove();
    }

    /** persistIfCurrent up to the pending write; false when it throws. */
    method PersistBegin(s: Session, captured: nat) returns (writing: bool)
      modifies storage
      ensures (State(), writing) == PersistBegins(old(State()), s, captured)
    {
      if captured != generation { return false; }
      storage.Set(s);
      return true;
    }

    /** After the write, with the caller's publish; Some when it awaits the read of the undo. */
    method PersistEnd(s: Session, captured: nat, expired: bool) returns (undo: Option<Option<Session>>)
      modifies this, storage
      ensures (State(), undo) == PersistEnds(old(State()), s, captured, expired)
    {
      if captured == generation {
        session := Some(s);
        return None;
      }
      var snapshot := storage.Get(expired);
      return Some(snapshot);
    }

    method UndoDecide(s: Session, snapshot: Option<Session>) returns (removing: bool)
      modifies storage
      ensures (State(), removing) == UndoDecides(old(State()), s, snapshot)
    {
      if snapshot.Some? && snapshot.value.id == s.id && snapshot.value.signature == s.signature {
        storage.Remove();
        return true;
      }
      return false;
    }

    method RestoreBegin(expired: bool) returns (captured: nat, snapshot: Option<Session>)
      modifies storage
      ensures (State(), snapshot) == StorageGet(old(State()), expired) && captured == generation
    {
      captured := generation;
      snapshot := storage.Get(expired);
    }

    method RestoreRead(captured: nat, snapshot: Option<Session>, expired: bool) returns (cleared: Option<nat>)
      modifies this, storage
      ensures (State(), cleared) == RestoreReads(old(State()), captured, snapshot, expired)
    {
      if captured != generation { return None; }
      generation := generation + 1;
      if snapshot.Some? && expired {
        storage.Remove();
        return Some(generation);
      }
      session := snapshot;
      return None;
    }

    method RestoreClear(cleared: nat)
      modifies this
      ensures State() == RestoreClears(old(State()), cleared)
    {
      if cleared != generation { return; }
      session := None;
    }
  }

  // ---- The protocol: pending operations and their interleavings -----------

  /** An operation waiting at one of its awaits. */
  datatype Op =
    | SigningIn(generation: nat, epoch: nat)
    | Refreshing(generation: nat, current: Session)
    | Writing(s: Session, generation: nat)
    | Checking(s: Session, snapshot: Option<Session>)
    | Undoing(s: Session)
    | Restoring(generation: nat, snapshot: Option<Session>)
    | Clearing(generation: nat)

  /**
   * `signOuts` counts sign-outs, `issued` holds the keys of all records that
   * ever existed and `discarded` those of operations that ended superseded.
   */
  datatype System = System(
    core: Core,
    pending: map<nat, Op>,
    signOuts: nat,
    issued: set<(nat, nat)>,
    discarded: set<(nat, nat)>)

  datatype Event =
    | CallSignIn(op: nat)
    | CallRefresh(op: nat)
    | CallRestore(op: nat, expired: bool)
    | CallSignOut
    | Fails(op: nat)                                  // the signer rejects
    | Signed(op: nat, id: nat, signature: nat)
    | Written(op: nat, expired: bool)
    | ReadBack(op: nat)
    | Removed(op: nat)
    | RestoreDone(op: nat, expired: bool)
    | ClearDone(op: nat)

  /** Which events can happen. A produced record's key has not been used before. */
  predicate Enabled(y: System, e: Event) {
    match e
    case CallSignIn(op) => op !in y.pending
    case CallRefresh(op) => op !in y.pending && y.core.session.Some?
    case CallRestore(op, _) => op !in y.pending
    case CallSignOut => true
    case Fails(op) => op in y.pending && (y.pending[op].SigningIn? || y.pending[op].Refreshing?)
    case Signed(op, id, signature) =>
      && op in y.pending && (id, signature) !in y.issued
      && (y.pending[op].SigningIn? || (y.pending[op].Refreshing? && id == y.pending[op].current.id))
    case Written(op, _) => op in y.pending && y.pending[op].Writing?
    case ReadBack(op) => op in y.pending && y.pending[op].Checking?
    case Removed(op) => op in y.pending && y.pending[op].Undoing?
    case RestoreDone(op, _) => op in y.pending && y.pending[op].Restoring?
    case ClearDone(op) => op in y.pending && y.pending[op].Clearing?
  }

  function Finish(y: System, op: nat): System {
    y.(pending := y.pending - {op})
  }

  function Discard(y: System, op: nat, s: Session): System {
    Finish(y, op).(discarded := y.discarded + {s.Key()})
  }

  function Await(y: System, op: nat, next: Op): System {
    y.(pending := y.pending[op := next])
  }

  /** The record an operation produces from the signature. */
  function Produced(o: Op, id: nat, signature: nat): Session
    requires o.SigningIn? || o.Refreshing?
  {
    Session(id, signature, if o.SigningIn? then o.epoch else o.current.epoch)
  }

  function Step(y: System, e: Event): System
    requires Enabled(y, e)
  {
    match e
    case CallSignIn(op) =>
      var core := SignInBegins(y.core);
      Await(y.(core := core), op, SigningIn(core.generation, y.signOuts))
    case CallRefresh(op) => Await(y, op, Refreshing(y.core.generation, y.core.session.value))
    case CallRestore(op, expired) =>
      var (core, snapshot) := StorageGet(y.core, expired);
      Await(y.(core := core), op, Restoring(core.generation, snapshot))
    case CallSignOut => y.(core := SignOutBegins(y.core), signOuts := y.signOuts + 1)
    case Fails(op) => Finish(y, op)
    case Signed(op, id, signature) =>
      var s := Produced(y.pending[op], id, signature);
      var (core, writing) := PersistBegins(y.core, s, y.pending[op].generation);
      var z := y.(core := core, issued := y.issued + {s.Key()});
      if writing then Await(z, op, Writing(s, y.pending[op].generation)) else Discard(z, op, s)
    case Written(op, expired) =>
      var Writing(s, generation) := y.pending[op];
      var (core, undo) := PersistEnds(y.core, s, generation, expired);
      if undo.None? then Finish(y.(core := core), op) else Await(y.(core := core), op, Checking(s, undo.value))
    case ReadBack(op) =>
      var Checking(s, snapshot) := y.pending[op];
      var (core, removing) := UndoDecides(y.core, s, snapshot);
      if removing then Await(y.(core := core), op, Undoing(s)) else Discard(y.(core := core), op, s)
    case Removed(op) => Discard(y, op, y.pending[op].s)
    case RestoreDone(op, expired) =>
      var (core, cleared) := RestoreReads(y.core, y.pending[op].generation, y.pending[op].snapshot, expired);
      if cleared.Some? then Await(y.(core := core), op, Clearing(cleared.value)) else Finish(y.(core := core), op)
    case ClearDone(op) => Finish(y.(core := RestoreClears(y.core, y.pending[op].generation)), op)
  }

  predicate ValidRun(y: System, es: seq<Event>)
    decreases |es|
  {
    es == [] || (Enabled(y, es[0]) && ValidRun(Step(y, es[0]), es[1..]))
  }

  function Run(y: System, es: seq<Event>): System
    requires ValidRun(y, es)
    decreases |es|
  {
    if es == [] then y else Run(Step(y, es[0]), es[1..])
  }

  /** A fresh page: nothing pending, nothing in memory, perhaps a stored record. */
  function Initial(stored: Option<Session>): System {
    System(Core(0, None, stored), map[], 0, if stored.Some? then {stored.value.Key()} else {}, {})
  }

  predicate FreshPage(stored: Option<Session>) {
    stored.Some? ==> stored.value.epoch == 0
  }

  // ---- No signed-out identity returns -------------------------------------

  predicate Current(y: System, r: Option<Session>) {
    r.Some? ==> r.value.epoch == y.signOuts
  }

  /** An operation that can still act belongs to the current sign-out epoch. */
  predicate OpOfEpoch(y: System, o: Op) {
    match o
    case SigningIn(g, epoch) => g <= y.core.generation && (g == y.core.generation ==> epoch == y.signOuts)
    case Refreshing(g, current) => g <= y.core.generation && (g == y.core.generation ==> Current(y, Some(current)))
    case Writing(s, g) => g <= y.core.generation && (g == y.core.generation ==> Current(y, Some(s)))
    case Restoring(g, snapshot) => g <= y.core.generation && (g == y.core.generation ==> Current(y, snapshot))
    case _ => true
  }

  ghost predicate EpochInvariant(y: System) {
    Current(y, y.core.session) && Current(y, y.core.storage) && forall op | op in y.pending :: OpOfEpoch(y, y.pending[op])
  }

  lemma EpochStep(y: System, e: Event)
    requires EpochInvariant(y) && Enabled(y, e)
    ensures EpochInvariant(Step(y, e))
  {
  }

  lemma {:induction false} EpochRun(y: System, es: seq<Event>)
    requires EpochInvariant(y) && ValidRun(y, es)
    ensures EpochInvariant(Run(y, es))
    decreases |es|
  {
    if es != [] {
      EpochStep(y, es[0]);
      EpochRun(Step(y, es[0]), es[1..]);
    }
  }

  /**
   * In every interleaving, whatever is in memory or storage descends from a
   * sign-in, or a record restored, since the last sign-out.
   */
  lemma NoSignedOutIdentityReturns(stored: Option<Session>, es: seq<Event>)
    requires FreshPage(stored) && ValidRun(Initial(stored), es)
    ensures var y := Run(Initial(stored), es); Current(y, y.core.session) && Current(y, y.core.storage)
  {
    EpochRun(Initial(stored), es);
  }

  /** Signed out, and no pending operation can change that. */
  ghost predicate Quiet(y: System) {
    && y.core.session.None? && y.core.storage.None?
    && forall op | op in y.pending :: QuietOp(y.core.generation, y.pending[op])
  }

  predicate QuietOp(generation: nat, o: Op) {
    match o
    case SigningIn(g, _) => g < generation
    case Refreshing(g, _) => g < generation
    case Writing(_, g) => g < generation
    case Restoring(g, snapshot) => g <= generation && (g == generation ==> snapshot.None?)
    case _ => true
  }

  lemma QuietStep(y: System, e: Event)
    requires Quiet(y) && Enabled(y, e) && !e.CallSignIn?
    ensures Quiet(Step(y, e))
  {
  }

  lemma {:induction false} QuietRun(y: System, es: seq<Event>)
    requires Quiet(y) && ValidRun(y, es) && forall i | 0 <= i < |es| :: !es[i].CallSignIn?
    ensures Quiet(Run(y, es))
    decreases |es|
  {
    if es != [] {
      QuietStep(y, es[0]);
      QuietRun(Step(y, es[0]), es[1..]);
    }
  }

  /**
   * After a sign-out at any point of any run, memory and storage are empty and
   * stay empty until the application signs in again, whatever was pending.
   */
  lemma SignedOutStaysSignedOut(stored: Option<Session>, before: seq<Event>, after: seq<Event>)
    requires FreshPage(stored) && ValidRun(Initial(stored), before)
    requires ValidRun(Step(Run(Initial(stored), before), CallSignOut), after)
    requires forall i | 0 <= i < |after| :: !after[i].CallSignIn?
    ensures var y := Run(Step(Run(Initial(stored), before), CallSignOut), after);
      y.core.session.None? && y.core.storage.None?
  {
    EpochRun(Initial(stored), before);
    QuietRun(Step(Run(Initial(stored), before), CallSignOut), after);
  }

  // ---- A discarded operation leaves no residue ----------------------------

  function Keys(r: Option<Session>): set<(nat, nat)> {
    if r.Some? then {r.value.Key()} else {}
  }

  predicate Carries(o: Op) {
    o.Writing? || o.Checking? || o.Undoing?
  }

  predicate ResidueOp(y: System, o: Op) {
    && (Carries(o) ==> o.s.Key() in y.issued)
    && (o.Checking? ==> Holds(o.snapshot, o.s) || Keys(y.core.storage) !! {o.s.Key()})
    && (o.Undoing? ==> Keys(y.core.storage) !! {o.s.Key()})
  }

  ghost predicate ResidueInvariant(y: System) {
    && Keys(y.core.storage) <= y.issued
    && y.discarded <= y.issued
    && Keys(y.core.storage) !! y.discarded
    && forall op | op in y.pending :: ResidueOp(y, y.pending[op])
  }

  lemma ResidueStep(y: System, e: Event)
    requires ResidueInvariant(y) && Enabled(y, e)
    ensures ResidueInvariant(Step(y, e))
  {
  }

  lemma {:induction false} ResidueRun(y: System, es: seq<Event>)
    requires ResidueInvariant(y) && ValidRun(y, es)
    ensures ResidueInvariant(Run(y, es)) && y.discarded <= Run(y, es).discarded
    decreases |es|
  {
    if es != [] {
      ResidueStep(y, es[0]);
      ResidueRun(Step(y, es[0]), es[1..]);
    }
  }

  /**
   * Once an operation has ended with the superseded error, storage does not
   * hold the session it produced, then or at any later point of any run.
   */
  lemma DiscardedLeavesNoResidue(stored: Option<Session>, es: seq<Event>, more: seq<Event>)
    requires ValidRun(Initial(stored), es) && ValidRun(Run(Initial(stored), es), more)
    ensures var y := Run(Initial(stored), es);
      forall s: Session | s.Key() in y.discarded ::
        !Holds(y.core.storage, s) && !Holds(Run(y, more).core.storage, s)
  {
    ResidueRun(Initial(stored), es);
    ResidueRun(Run(Initial(stored), es), more);
  }

  // ---- Memory and discarded operations ------------------------------------

  lemma RunCons(y: System, e: Event, z: System, es: seq<Event>)
    requires Enabled(y, e) && Step(y, e) == z && ValidRun(z, es)
    ensures ValidRun(y, [e] + es) && Run(y, [e] + es) == Run(z, es)
  {
    assert ([e] + es)[1..] == es;
  }

  /** Sign-in 1 is written, sign-in 2 supersedes it, and a restore has read the write. */
  function RestoreInBetween(): System {
    var s := Session(7, 8, 0);
    System(Core(2, None, Some(s)), map[1 := Writing(s, 1), 2 := SigningIn(2, 0), 3 := Restoring(2, Some(s))], 0, {(7, 8)}, {})
  }

  lemma Resurrected() returns (es: seq<Event>)
    ensures ValidRun(RestoreInBetween(), es)
    ensures Holds(Run(RestoreInBetween(), es).core.session, Session(7, 8, 0)) && (7, 8) in Run(RestoreInBetween(), es).discarded
  {
    var s, two := Session(7, 8, 0), SigningIn(2, 0);
    var y4 := RestoreInBetween();
    var y5 := System(Core(3, Some(s), Some(s)), map[1 := Writing(s, 1), 2 := two], 0, {(7, 8)}, {});
    var y6 := System(Core(3, Some(s), Some(s)), map[1 := Checking(s, Some(s)), 2 := two], 0, {(7, 8)}, {});
    var y7 := System(Core(3, Some(s), None), map[1 := Undoing(s), 2 := two], 0, {(7, 8)}, {});
    var y8 := System(Core(3, Some(s), None), map[2 := two], 0, {(7, 8)}, {(7, 8)});
    RunCons(y7, Removed(1), y8, []);
    RunCons(y6, ReadBack(1), y7, [Removed(1)] + []);
    RunCons(y5, Written(1, false), y6, [ReadBack(1)] + ([Removed(1)] + []));
    RunCons(y4, RestoreDone(3, false), y5, [Written(1, false)] + ([ReadBack(1)] + ([Removed(1)] + [])));
    es := [RestoreDone(3, false)] + ([Written(1, false)] + ([ReadBack(1)] + ([Removed(1)] + [])));
  }

  /** A restore that reads between a write and its undo publishes the discarded session. */
  lemma RestoreCanPublishDiscarded() returns (es: seq<Event>, s: Session)
    ensures ValidRun(Initial(None), es)
    ensures Holds(Run(Initial(None), es).core.session, s) && s.Key() in Run(Initial(None), es).discarded
  {
    s := Session(7, 8, 0);
    var y1 := System(Core(1, None, None), map[1 := SigningIn(1, 0)], 0, {}, {});
    var y2 := System(Core(1, None, Some(s)), map[1 := Writing(s, 1)], 0, {(7, 8)}, {});
    var y3 := System(Core(2, None, Some(s)), map[1 := Writing(s, 1), 2 := SigningIn(2, 0)], 0, {(7, 8)}, {});
    var e4 := Resurrected();
    var e3 := [CallRestore(3, false)] + e4;
    RunCons(y3, CallRestore(3, false), RestoreInBetween(), e4);
    var e2 := [CallSignIn(2)] + e3;
    RunCons(y2, CallSignIn(2), y3, e3);
    var e1 := [Signed(1, 7, 8)] + e2;
    RunCons(y1, Signed(1, 7, 8), y2, e2);
    es := [CallSignIn(1)] + e1;
    RunCons(Initial(None), CallSignIn(1), y1, e1);
  }

  /** Every record was issued, and each one being written or undone is carried by one operation. */
  ghost predicate Booked(y: System) {
    && Keys(y.core.session) <= y.issued && Keys(y.core.storage) <= y.issued && y.discarded <= y.issued
    && (forall op | op in y.pending :: BookedOp(y, y.pending[op]))
    && (forall op, other | op in y.pending && other in y.pending && op != other :: Apart(y.pending[op], y.pending[other]))
  }

  predicate BookedOp(y: System, o: Op) {
    && (Carries(o) ==> o.s.Key() in y.issued - y.discarded)
    && (o.Restoring? ==> Keys(o.snapshot) <= y.issued)
  }

  predicate Apart(o: Op, p: Op) {
    Carries(o) && Carries(p) ==> o.s.Key() != p.s.Key()
  }

  lemma ApartStep(y: System, e: Event, op: nat, other: nat)
    requires Booked(y) && Enabled(y, e)
    requires op in Step(y, e).pending && other in Step(y, e).pending && op != other
    ensures Apart(Step(y, e).pending[op], Step(y, e).pending[other])
  {
  }

  lemma BookedStep(y: System, e: Event)
    requires Booked(y) && Enabled(y, e)
    ensures Booked(Step(y, e))
  {
    hide Apart;
    var z := Step(y, e);
    forall op, other | op in z.pending && other in z.pending && op != other ensures Apart(z.pending[op], z.pending[other]) {
      ApartStep(y, e, op, other);
    }
    BookedOps(y, e);
  }

  lemma BookedOps(y: System, e: Event)
    requires Booked(y) && Enabled(y, e)
    ensures forall op | op in Step(y, e).pending :: BookedOp(Step(y, e), Step(y, e).pending[op])
  {
  }

  /** The operation that produced this record was superseded, or has not published it yet. */
  ghost predicate Unsettled(y: System, key: (nat, nat)) {
    key in y.discarded || exists op :: op in y.pending && Carries(y.pending[op]) && y.pending[op].s.Key() == key
  }

  ghost predicate MemorySettled(y: System) {
    y.core.session.Some? ==> !Unsettled(y, y.core.session.value.Key())
  }

  /** A restore publishing a record whose own operation has not published it. */
  ghost predicate PublishesUnsettled(y: System, e: Event)
    requires Enabled(y, e)
  {
    e.RestoreDone? && !e.expired && var o := y.pending[e.op];
    o.generation == y.core.generation && o.snapshot.Some? && Unsettled(y, o.snapshot.value.Key())
  }

  lemma UnsettledShrinks(y: System, e: Event, key: (nat, nat))
    requires Booked(y) && Enabled(y, e) && key in y.issued
    ensures Unsettled(Step(y, e), key) ==> Unsettled(y, key)
    ensures e.RestoreDone? ==> (Unsettled(Step(y, e), key) <==> Unsettled(y, key))
  {
    if e.RestoreDone? && Unsettled(y, key) && key !in y.discarded {
      var op :| op in y.pending && Carries(y.pending[op]) && y.pending[op].s.Key() == key;
      assert op in Step(y, e).pending && Step(y, e).pending[op] == y.pending[op];
    }
  }

  /** A write that publishes settles its record. */
  lemma PublishSettles(y: System, e: Event)
    requires Booked(y) && Enabled(y, e) && e.Written? && y.pending[e.op].generation == y.core.generation
    ensures MemorySettled(Step(y, e))
  {
    var z := Step(y, e);
    assert forall op | op in z.pending :: op in y.pending && op != e.op && z.pending[op] == y.pending[op];
  }

  /** Each step keeps memory free of superseded records if and only if it is no such restore. */
  lemma MemorySettledStep(y: System, e: Event)
    requires Booked(y) && MemorySettled(y) && Enabled(y, e)
    ensures MemorySettled(Step(y, e)) <==> !PublishesUnsettled(y, e)
  {
    if y.core.session.Some? { UnsettledShrinks(y, e, y.core.session.value.Key()); }
    match e
    case RestoreDone(op, _) =>
      if y.pending[op].snapshot.Some? { UnsettledShrinks(y, e, y.pending[op].snapshot.value.Key()); }
    case Written(op, _) =>
      if y.pending[op].generation == y.core.generation { PublishSettles(y, e); }
    case _ =>
  }

  ghost predicate NeverPublishesUnsettled(y: System, es: seq<Event>)
    requires ValidRun(y, es)
    decreases |es|
  {
    es == [] || (!PublishesUnsettled(y, es[0]) && NeverPublishesUnsettled(Step(y, es[0]), es[1..]))
  }

  ghost predicate MemorySettledThroughout(y: System, es: seq<Event>)
    requires ValidRun(y, es)
    decreases |es|
  {
    MemorySettled(y) && (es == [] || MemorySettledThroughout(Step(y, es[0]), es[1..]))
  }

  lemma {:induction false} MemorySettledRun(y: System, es: seq<Event>)
    requires Booked(y) && MemorySettled(y) && ValidRun(y, es)
    ensures MemorySettledThroughout(y, es) <==> NeverPublishesUnsettled(y, es)
    ensures NeverPublishesUnsettled(y, es) ==> MemorySettled(Run(y, es))
    decreases |es|
  {
    hide Booked, MemorySettled, PublishesUnsettled, Step;
    if es != [] {
      var z := Step(y, es[0]);
      BookedStep(y, es[0]);
      MemorySettledStep(y, es[0]);
      if MemorySettled(z) {
        MemorySettledRun(z, es[1..]);
      } else {
        assert !MemorySettledThroughout(z, es[1..]);
      }
    }
  }

  lemma InitiallyBooked(stored: Option<Session>)
    ensures Booked(Initial(stored)) && MemorySettled(Initial(stored))
    ensures ResidueInvariant(Initial(stored)) && RestoresSettled(Initial(stored)) && UndosOwn(Initial(stored))
  {
  }

  /**
   * In every run, memory never holds a superseded or unpublished record
   * exactly when no restore publishes one; then no discarded session is in
   * memory.
   */
  lemma DiscardedIsPublishedOnlyByRestore(stored: Option<Session>, es: seq<Event>)
    requires ValidRun(Initial(stored), es)
    ensures MemorySettledThroughout(Initial(stored), es) <==> NeverPublishesUnsettled(Initial(stored), es)
    ensures NeverPublishesUnsettled(Initial(stored), es) ==>
      var y := Run(Initial(stored), es);
      forall s: Session | s.Key() in y.discarded :: !Holds(y.core.session, s)
  {
    InitiallyBooked(stored);
    MemorySettledRun(Initial(stored), es);
  }

  /** No pending restore has read a superseded or unpublished record. */
  ghost predicate RestoresSettled(y: System) {
    forall op | op in y.pending && y.pending[op].Restoring? && y.pending[op].snapshot.Some? ::
      !Unsettled(y, y.pending[op].snapshot.value.Key())
  }

  ghost predicate ReadsUnsettled(y: System, e: Event) {
    e.CallRestore? && !e.expired && y.core.storage.Some? && Unsettled(y, y.core.storage.value.Key())
  }

  lemma ReadStep(y: System, e: Event)
    requires Booked(y) && Enabled(y, e) && e.CallRestore? && !e.expired && y.core.storage.Some?
    ensures Unsettled(Step(y, e), y.core.storage.value.Key()) <==> Unsettled(y, y.core.storage.value.Key())
  {
    var key, z := y.core.storage.value.Key(), Step(y, e);
    UnsettledShrinks(y, e, key);
    if Unsettled(y, key) && key !in y.discarded {
      var op :| op in y.pending && Carries(y.pending[op]) && y.pending[op].s.Key() == key;
      assert op in z.pending && z.pending[op] == y.pending[op];
    }
  }

  /** Each step keeps the pending restores settled if and only if it reads no such record. */
  lemma RestoresSettledStep(y: System, e: Event)
    requires Booked(y) && RestoresSettled(y) && Enabled(y, e)
    ensures RestoresSettled(Step(y, e)) <==> !ReadsUnsettled(y, e)
  {
    hide Unsettled;
    var z := Step(y, e);
    forall op | op in y.pending && y.pending[op].Restoring? && y.pending[op].snapshot.Some?
      ensures !Unsettled(z, y.pending[op].snapshot.value.Key())
    {
      assert BookedOp(y, y.pending[op]);
      assert y.pending[op].snapshot.value.Key() in Keys(y.pending[op].snapshot);
      UnsettledShrinks(y, e, y.pending[op].snapshot.value.Key());
    }
    if e.CallRestore? && !e.expired && y.core.storage.Some? {
      ReadStep(y, e);
      assert z.pending[e.op] == Restoring(y.core.generation, y.core.storage);
    }
  }

  /** A restore called while no record is being written, checked or undone. */
  predicate RestoresApart(y: System, e: Event) {
    e.CallRestore? ==> forall op | op in y.pending :: !Carries(y.pending[op])
  }

  lemma ApartReadsSettled(y: System, e: Event)
    requires ResidueInvariant(y) && RestoresApart(y, e)
    ensures !ReadsUnsettled(y, e)
  {
    if y.core.storage.Some? { assert y.core.storage.value.Key() in Keys(y.core.storage); }
  }

  predicate AllRestoresApart(y: System, es: seq<Event>)
    requires ValidRun(y, es)
    decreases |es|
  {
    es == [] || (RestoresApart(y, es[0]) && AllRestoresApart(Step(y, es[0]), es[1..]))
  }

  lemma {:induction false} ApartPublishesSettled(y: System, es: seq<Event>)
    requires Booked(y) && ResidueInvariant(y) && RestoresSettled(y) && ValidRun(y, es) && AllRestoresApart(y, es)
    ensures NeverPublishesUnsettled(y, es)
    decreases |es|
  {
    hide Booked, ResidueInvariant, RestoresApart, Step, Unsettled;
    if es != [] {
      BookedStep(y, es[0]);
      ResidueStep(y, es[0]);
      ApartReadsSettled(y, es[0]);
      RestoresSettledStep(y, es[0]);
      ApartPublishesSettled(Step(y, es[0]), es[1..]);
    }
  }

  /** When restores are called only while no record is being written or undone, no discarded session is ever in memory. */
  lemma ApartRestoresNeverPublishDiscarded(stored: Option<Session>, es: seq<Event>)
    requires ValidRun(Initial(stored), es) && AllRestoresApart(Initial(stored), es)
    ensures MemorySettledThroughout(Initial(stored), es)
    ensures var y := Run(Initial(stored), es);
      forall s: Session | s.Key() in y.discarded :: !Holds(y.core.session, s)
  {
    InitiallyBooked(stored);
    ApartPublishesSettled(Initial(stored), es);
    DiscardedIsPublishedOnlyByRestore(stored, es);
  }

  // ---- The undo and newer writes ------------------------------------------

  /** After its read, a superseded sign-in removes the record a newer sign-in has written and published meanwhile. */
  lemma UndoRemovesNewer() returns (es: seq<Event>)
    ensures ValidRun(Initial(None), es)
    ensures var y := Run(Initial(None), es);
      y.pending == map[] && y.core.session == Some(Session(9, 10, 0)) && y.core.storage == None
  {
    var s := Session(7, 8, 0);
    var y1 := System(Core(1, None, None), map[1 := SigningIn(1, 0)], 0, {}, {});
    var y2 := System(Core(1, None, Some(s)), map[1 := Writing(s, 1)], 0, {(7, 8)}, {});
    var y3 := System(Core(2, None, Some(s)), map[1 := Writing(s, 1), 2 := SigningIn(2, 0)], 0, {(7, 8)}, {});
    var e4 := NewerWriteRemoved();
    var e3 := [Written(1, false)] + e4;
    RunCons(y3, Written(1, false), ReadBackWaits(), e4);
    var e2 := [CallSignIn(2)] + e3;
    RunCons(y2, CallSignIn(2), y3, e3);
    var e1 := [Signed(1, 7, 8)] + e2;
    RunCons(y1, Signed(1, 7, 8), y2, e2);
    es := [CallSignIn(1)] + e1;
    RunCons(Initial(None), CallSignIn(1), y1, e1);
  }

  /** Sign-in 1 has read its own record back, sign-in 2 awaits its signature. */
  function ReadBackWaits(): System {
    var s := Session(7, 8, 0);
    System(Core(2, None, Some(s)), map[1 := Checking(s, Some(s)), 2 := SigningIn(2, 0)], 0, {(7, 8)}, {})
  }

  lemma NewerWriteRemoved() returns (es: seq<Event>)
    ensures ValidRun(ReadBackWaits(), es)
    ensures Run(ReadBackWaits(), es).pending == map[] && Run(ReadBackWaits(), es).core == Core(2, Some(Session(9, 10, 0)), None)
  {
    var s, t, issued := Session(7, 8, 0), Session(9, 10, 0), {(7, 8), (9, 10)};
    var y5 := System(Core(2, None, Some(t)), map[1 := Checking(s, Some(s)), 2 := Writing(t, 2)], 0, issued, {});
    var y6 := System(Core(2, Some(t), Some(t)), map[1 := Checking(s, Some(s))], 0, issued, {});
    var y7 := System(Core(2, Some(t), None), map[1 := Undoing(s)], 0, issued, {});
    var y8 := System(Core(2, Some(t), None), map[], 0, issued, {(7, 8)});
    RunCons(y7, Removed(1), y8, []);
    RunCons(y6, ReadBack(1), y7, [Removed(1)] + []);
    RunCons(y5, Written(2, false), y6, [ReadBack(1)] + ([Removed(1)] + []));
    RunCons(ReadBackWaits(), Signed(2, 9, 10), y5, [Written(2, false)] + ([ReadBack(1)] + ([Removed(1)] + [])));
    es := [Signed(2, 9, 10)] + ([Written(2, false)] + ([ReadBack(1)] + ([Removed(1)] + [])));
  }

  /** The step empties storage of a record that its operation did not write. */
  predicate RemovesAnother(y: System, e: Event)
    requires Enabled(y, e)
  {
    e.ReadBack? && y.core.storage.Some? && Step(y, e).core.storage.None? && y.core.storage.value.Key() != y.pending[e.op].s.Key()
  }

  lemma RemovesAnotherExactly(y: System, e: Event)
    requires Enabled(y, e) && e.ReadBack?
    ensures RemovesAnother(y, e) <==>
      var o := y.pending[e.op]; Holds(o.snapshot, o.s) && y.core.storage.Some? && !Holds(y.core.storage, o.s)
  {
  }

  predicate AboutToUndo(o: Op) {
    o.Checking? && Holds(o.snapshot, o.s)
  }

  /** Every undo about to happen finds its own record, or nothing. */
  ghost predicate UndosOwn(y: System) {
    forall op | op in y.pending && AboutToUndo(y.pending[op]) :: y.core.storage.None? || Holds(y.core.storage, y.pending[op].s)
  }

  /** A write that starts while an undo has read storage but not acted on it. */
  ghost predicate WritesUnderUndo(y: System, e: Event)
    requires Enabled(y, e)
  {
    && e.Signed? && y.pending[e.op].generation == y.core.generation
    && exists op :: op in y.pending && AboutToUndo(y.pending[op])
  }

  /** Each step keeps every undo on its own record if and only if it is no such write. */
  lemma UndosOwnStep(y: System, e: Event)
    requires Booked(y) && UndosOwn(y) && Enabled(y, e)
    ensures UndosOwn(Step(y, e)) <==> !WritesUnderUndo(y, e)
  {
    if WritesUnderUndo(y, e) {
      var z := Step(y, e);
      var op :| op in y.pending && AboutToUndo(y.pending[op]);
      assert BookedOp(y, y.pending[op]);
      assert op in z.pending && z.pending[op] == y.pending[op] && !Holds(z.core.storage, z.pending[op].s);
    }
  }

  ghost predicate NeverWritesUnderUndo(y: System, es: seq<Event>)
    requires ValidRun(y, es)
    decreases |es|
  {
    es == [] || (!WritesUnderUndo(y, es[0]) && NeverWritesUnderUndo(Step(y, es[0]), es[1..]))
  }

  ghost predicate UndosOwnThroughout(y: System, es: seq<Event>)
    requires ValidRun(y, es)
    decreases |es|
  {
    UndosOwn(y) && (es == [] || UndosOwnThroughout(Step(y, es[0]), es[1..]))
  }

  predicate NeverRemovesAnother(y: System, es: seq<Event>)
    requires ValidRun(y, es)
    decreases |es|
  {
    es == [] || (!RemovesAnother(y, es[0]) && NeverRemovesAnother(Step(y, es[0]), es[1..]))
  }

  lemma OwnUndoRemovesOwn(y: System, e: Event)
    requires UndosOwn(y) && Enabled(y, e)
    ensures !RemovesAnother(y, e)
  {
    if e.ReadBack? { RemovesAnotherExactly(y, e); }
  }

  lemma {:induction false} UndosOwnRun(y: System, es: seq<Event>)
    requires Booked(y) && UndosOwn(y) && ValidRun(y, es)
    ensures UndosOwnThroughout(y, es) <==> NeverWritesUnderUndo(y, es)
    ensures NeverWritesUnderUndo(y, es) ==> NeverRemovesAnother(y, es)
    decreases |es|
  {
    hide Booked, UndosOwn, WritesUnderUndo, RemovesAnother, Step;
    if es != [] {
      var z := Step(y, es[0]);
      BookedStep(y, es[0]);
      UndosOwnStep(y, es[0]);
      OwnUndoRemovesOwn(y, es[0]);
      if UndosOwn(z) {
        UndosOwnRun(z, es[1..]);
      } else {
        assert !UndosOwnThroughout(z, es[1..]);
      }
    }
  }

  /** In every run, undos stay on their own records exactly when no write starts under one; then none removes another's. */
  lemma UndosRemoveOnlyTheirOwn(stored: Option<Session>, es: seq<Event>)
    requires ValidRun(Initial(stored), es)
    ensures UndosOwnThroughout(Initial(stored), es) <==> NeverWritesUnderUndo(Initial(stored), es)
    ensures NeverWritesUnderUndo(Initial(stored), es) ==> NeverRemovesAnother(Initial(stored), es)
  {
    InitiallyBooked(stored);
    UndosOwnRun(Initial(stored), es);
  }

  // ---- What each operation achieves ---------------------------------------

  predicate Touches(e: Event, op: nat) {
    match e
    case CallSignIn(o) => o == op
    case CallRefresh(o) => o == op
    case CallRestore(o, _) => o == op
    case CallSignOut => false
    case Fails(o) => o == op
    case Signed(o, _, _) => o == op
    case Written(o, _) => o == op
    case ReadBack(o) => o == op
    case Removed(o) => o == op
    case RestoreDone(o, _) => o == op
    case ClearDone(o) => o == op
  }

  /** The events of other operations, in any order. */
  predicate Leaves(es: seq<Event>, op: nat) {
    forall i | 0 <= i < |es| :: !Touches(es[i], op)
  }

  lemma PendingStays(y: System, e: Event, op: nat)
    requires Enabled(y, e) && op in y.pending && !Touches(e, op)
    ensures op in Step(y, e).pending && Step(y, e).pending[op] == y.pending[op]
  {
  }

  lemma {:induction false} PendingThroughout(y: System, es: seq<Event>, op: nat)
    requires ValidRun(y, es) && op in y.pending && Leaves(es, op)
    ensures op in Run(y, es).pending && Run(y, es).pending[op] == y.pending[op]
    decreases |es|
  {
    hide Step;
    if es != [] {
      PendingStays(y, es[0], op);
      PendingThroughout(Step(y, es[0]), es[1..], op);
    }
  }

  /**
   * A restore that nothing supersedes puts into memory what storage held when
   * it was called: a record, nothing when storage was empty, and nothing when
   * the record had expired by either read.
   */
  lemma RestorePublishesWhatItRead(y: System, op: nat, early: bool, es: seq<Event>, late: bool)
    requires op !in y.pending && Leaves(es, op)
    requires ValidRun(Step(y, CallRestore(op, early)), es)
    requires Run(Step(y, CallRestore(op, early)), es).core.generation == y.core.generation
    ensures var called := Step(y, CallRestore(op, early));
      var z, read := Run(called, es), if early then None else y.core.storage;
      && called.core.storage == read && Enabled(z, RestoreDone(op, late))
      && var w := Step(z, RestoreDone(op, late));
      && w.core.generation == z.core.generation + 1
      && (read.None? || !late ==> w.core.session == read && w.core.storage == z.core.storage && op !in w.pending)
      && (read.None? || !late ==> (w.core.session == w.core.storage <==> z.core.storage == read))
      && (read.Some? && late ==> w.core.storage.None? && op in w.pending && w.pending[op] == Clearing(w.core.generation))
  {
    PendingThroughout(Step(y, CallRestore(op, early)), es, op);
  }

  /** With nothing in between, memory agrees with storage at its end, empty or not. */
  lemma RestoreAgrees(y: System, op: nat, early: bool, late: bool)
    requires op !in y.pending
    ensures var called := Step(y, CallRestore(op, early));
      && Enabled(called, RestoreDone(op, late))
      && var w := Step(called, RestoreDone(op, late));
      && w.core.generation == y.core.generation + 1
      && if op in w.pending then Enabled(w, ClearDone(op)) && Step(w, ClearDone(op)).core == Core(y.core.generation + 1, None, None)
         else w.core.session == w.core.storage
  {
    RestorePublishesWhatItRead(y, op, early, [], late);
  }

  /** The end of a restore whose record had expired: memory is emptied unless something superseded it meanwhile. */
  lemma ExpiredRestoreClears(y: System, op: nat, es: seq<Event>)
    requires op in y.pending && y.pending[op] == Clearing(y.core.generation) && ValidRun(y, es) && Leaves(es, op)
    ensures var z := Run(y, es);
      && Enabled(z, ClearDone(op))
      && (z.core.generation == y.core.generation ==> Step(z, ClearDone(op)).core == z.core.(session := None))
      && (z.core.generation != y.core.generation ==> Step(z, ClearDone(op)).core == z.core)
  {
    PendingThroughout(y, es, op);
  }

  /** A sign-in that nothing supersedes stores its session when signed and publishes it when written. */
  lemma SignInCompletes(y: System, op: nat, before: seq<Event>, id: nat, signature: nat, after: seq<Event>, expired: bool)
    requires op !in y.pending && Leaves(before, op) && Leaves(after, op)
    requires ValidRun(Step(y, CallSignIn(op)), before)
    requires var z := Run(Step(y, CallSignIn(op)), before);
      && z.core.generation == y.core.generation + 1 && (id, signature) !in z.issued && Enabled(z, Signed(op, id, signature))
      && ValidRun(Step(z, Signed(op, id, signature)), after)
      && Run(Step(z, Signed(op, id, signature)), after).core.generation == y.core.generation + 1
    ensures var stored := Step(Run(Step(y, CallSignIn(op)), before), Signed(op, id, signature));
      var w, s := Run(stored, after), Session(id, signature, y.signOuts);
      && stored.core.storage == Some(s) && Enabled(w, Written(op, expired))
      && Step(w, Written(op, expired)) == w.(core := w.core.(session := Some(s)), pending := w.pending - {op})
  {
    PendingThroughout(Step(y, CallSignIn(op)), before, op);
    PendingThroughout(Step(Run(Step(y, CallSignIn(op)), before), Signed(op, id, signature)), after, op);
  }

  /** A refresh that nothing supersedes replaces the session by one of the same identity with the new signature. */
  lemma RefreshCompletes(y: System, op: nat, before: seq<Event>, signature: nat, after: seq<Event>, expired: bool)
    requires op !in y.pending && y.core.session.Some? && Leaves(before, op) && Leaves(after, op)
    requires ValidRun(Step(y, CallRefresh(op)), before)
    requires var z, id := Run(Step(y, CallRefresh(op)), before), y.core.session.value.id;
      && z.core.generation == y.core.generation && Enabled(z, Signed(op, id, signature))
      && ValidRun(Step(z, Signed(op, id, signature)), after)
      && Run(Step(z, Signed(op, id, signature)), after).core.generation == y.core.generation
    ensures var id := y.core.session.value.id;
      var stored := Step(Run(Step(y, CallRefresh(op)), before), Signed(op, id, signature));
      var w, s := Run(stored, after), Session(id, signature, y.core.session.value.epoch);
      && stored.core.storage == Some(s) && Enabled(w, Written(op, expired))
      && Step(w, Written(op, expired)) == w.(core := w.core.(session := Some(s)), pending := w.pending - {op})
  {
    PendingThroughout(Step(y, CallRefresh(op)), before, op);
    PendingThroughout(Step(Run(Step(y, CallRefresh(op)), before), Signed(op, y.core.session.value.id, signature)), after, op);
  }

  /** Superseded before it is signed, an operation changes neither memory nor storage and ends discarded. */
  lemma SupersededWritesNothing(y: System, op: nat, id: nat, signature: nat)
    requires Enabled(y, Signed(op, id, signature)) && y.pending[op].generation != y.core.generation
    ensures var z := Step(y, Signed(op, id, signature));
      z.core == y.core && op !in z.pending && (id, signature) in z.discarded
  {
  }

  /** Superseded after it was written, it publishes nothing, and takes its own record back out of storage. */
  lemma SupersededWriteIsTakenBack(y: System, op: nat)
    requires op in y.pending && y.pending[op].Writing? && y.pending[op].generation != y.core.generation
    requires Holds(y.core.storage, y.pending[op].s)
    ensures var key := y.pending[op].s.Key();
      var z := Step(y, Written(op, false));
      && z.core == y.core && Enabled(z, ReadBack(op))
      && var w := Step(z, ReadBack(op));
      && w.core == y.core.(storage := None) && Enabled(w, Removed(op))
      && var v := Step(w, Removed(op));
      v.core == w.core && op !in v.pending && key in v.discarded
  {
  }

  /**
   * Memory and storage can still part for good: a refresh writes between the
   * read of a restore and its end, and is then undone. Memory keeps the
   * session, storage is empty, and nothing is pending.
   */
  lemma RestoreOverRefreshParts() returns (es: seq<Event>)
    ensures ValidRun(Initial(None), es)
    ensures var y := Run(Initial(None), es);
      y.pending == map[] && y.core.session == Some(Session(7, 8, 0)) && y.core.storage == None
  {
    var s := Session(7, 8, 0);
    var y1 := System(Core(1, None, None), map[1 := SigningIn(1, 0)], 0, {}, {});
    var y2 := System(Core(1, None, Some(s)), map[1 := Writing(s, 1)], 0, {(7, 8)}, {});
    var e3 := RefreshUnderRestore();
    var e2 := [Written(1, false)] + e3;
    RunCons(y2, Written(1, false), SignedIn(), e3);
    var e1 := [Signed(1, 7, 8)] + e2;
    RunCons(y1, Signed(1, 7, 8), y2, e2);
    es := [CallSignIn(1)] + e1;
    RunCons(Initial(None), CallSignIn(1), y1, e1);
  }

  function SignedIn(): System {
    var s := Session(7, 8, 0);
    System(Core(1, Some(s), Some(s)), map[], 0, {(7, 8)}, {})
  }

  lemma RefreshUnderRestore() returns (es: seq<Event>)
    ensures ValidRun(SignedIn(), es)
    ensures Run(SignedIn(), es).pending == map[] && Run(SignedIn(), es).core == Core(2, Some(Session(7, 8, 0)), None)
  {
    var s := Session(7, 8, 0);
    var y4 := System(Core(1, Some(s), Some(s)), map[2 := Refreshing(1, s)], 0, {(7, 8)}, {});
    var y5 := System(Core(1, Some(s), Some(s)), map[2 := Refreshing(1, s), 3 := Restoring(1, Some(s))], 0, {(7, 8)}, {});
    var e6 := RefreshTakenBack();
    var e5 := [Signed(2, 7, 9)] + e6;
    RunCons(y5, Signed(2, 7, 9), RefreshWritten(), e6);
    var e4 := [CallRestore(3, false)] + e5;
    RunCons(y4, CallRestore(3, false), y5, e5);
    es := [CallRefresh(2)] + e4;
    RunCons(SignedIn(), CallRefresh(2), y4, e4);
  }

  function RefreshWritten(): System {
    var s, t := Session(7, 8, 0), Session(7, 9, 0);
    System(Core(1, Some(s), Some(t)), map[2 := Writing(t, 1), 3 := Restoring(1, Some(s))], 0, {(7, 8), (7, 9)}, {})
  }

  lemma RefreshTakenBack() returns (es: seq<Event>)
    ensures ValidRun(RefreshWritten(), es)
    ensures Run(RefreshWritten(), es).pending == map[] && Run(RefreshWritten(), es).core == Core(2, Some(Session(7, 8, 0)), None)
  {
    var s, t, issued := Session(7, 8, 0), Session(7, 9, 0), {(7, 8), (7, 9)};
    var y7 := System(Core(2, Some(s), Some(t)), map[2 := Writing(t, 1)], 0, issued, {});
    var y8 := System(Core(2, Some(s), Some(t)), map[2 := Checking(t, Some(t))], 0, issued, {});
    var y9 := System(Core(2, Some(s), None), map[2 := Undoing(t)], 0, issued, {});
    var y10 := System(Core(2, Some(s), None), map[], 0, issued, {(7, 9)});
    RunCons(y9, Removed(2), y10, []);
    RunCons(y8, ReadBack(2), y9, [Removed(2)] + []);
    RunCons(y7, Written(2, false), y8, [ReadBack(2)] + ([Removed(2)] + []));
    RunCons(RefreshWritten(), RestoreDone(3, false), y7, [Written(2, false)] + ([ReadBack(2)] + ([Removed(2)] + [])));
    es := [RestoreDone(3, false)] + ([Written(2, false)] + ([ReadBack(2)] + ([Removed(2)] + [])));
  }
}
