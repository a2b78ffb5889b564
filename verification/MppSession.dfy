/**
 * The MPP session client's metering and channel ownership: closure variables
 * changed by calls that interleave at their awaits.
 */
module MppSession {
  import opened Bytes

  /** The active channel; `acknowledged` says its voucher key is still known. */
  datatype Active = Active(channel: nat, acknowledged: bool, lastVoucher: Option<nat>)

  /** The closure variables. Channels are named by their unique ids; a voucher by the channel it was signed for. */
  datatype Core = Core(pendingUnits: nat, active: Option<Active>, channels: seq<nat>)

  // ---- Segments as functions ----------------------------------------------

  predicate AddOk(c: Core, units: int) {
    units > 0 && c.pendingUnits <= U64_MAX - units
  }

  function MeterAdd(c: Core, units: int): Core {
    if AddOk(c, units) then c.(pendingUnits := c.pendingUnits + units) else c
  }

  /** What a request does before its first await; without an active channel it goes on to open one. */
  datatype Outcome = Refused | OpensChannel | Signs(channel: nat, units: nat)

  function Requested(c: Core, units: Option<int>): (r: Outcome)
    ensures r.Signs? ==> r.units > 0 && IsActive(c, r.channel)
  {
    if units.Some? && (units.value <= 0 || c.pendingUnits != 0) then Refused
    else if c.active.None? then if units.Some? then Refused else OpensChannel
    else if !c.active.value.acknowledged then Refused
    else
      var metered := if units.Some? then units.value else c.pendingUnits;
      if metered <= 0 then Refused else Signs(c.active.value.channel, metered)
  }

  /** The units a paid request will sign for; None when it signs nothing. */
  function Metered(c: Core, units: Option<int>): (r: Option<nat>)
    ensures r.Some? ==> r.value > 0 && c.active.Some?
  {
    var r := Requested(c, units);
    if r.Signs? then Some(r.units) else None
  }

  function VoucherBegins(c: Core, units: Option<int>): Core {
    if units.None? && Metered(c, units).Some? then c.(pendingUnits := c.pendingUnits - Metered(c, units).value) else c
  }

  /** A failed signing gives metered units back. */
  function VoucherFails(c: Core, units: nat, fromMeter: bool): Core {
    if fromMeter then c.(pendingUnits := c.pendingUnits + units) else c
  }

  /** A signed voucher is recorded on whatever channel is active by then; with none, the request fails. */
  function VoucherSigned(c: Core, channel: nat): Core {
    if c.active.None? then c else c.(active := Some(c.active.value.(lastVoucher := Some(channel))))
  }

  function OpenSends(c: Core, channel: nat): Core {
    c.(active := Some(Active(channel, true, None)), channels := c.channels + [channel])
  }

  /** The first occurrence removed, as `indexOf` and `splice` do. */
  function Without(channels: seq<nat>, channel: nat): seq<nat> {
    var i := IndexOf(channels, channel);
    if i < 0 then channels else channels[..i] + channels[i + 1..]
  }

  predicate IsActive(c: Core, channel: nat) {
    c.active.Some? && c.active.value.channel == channel
  }

  /** A failed open keeps a channel the server may have seen, without its key. */
  function OpenFails(c: Core, channel: nat, handedToServer: bool): Core {
    if !IsActive(c, channel) then c
    else if handedToServer then c.(active := Some(c.active.value.(acknowledged := false)))
    else c.(active := None, channels := Without(c.channels, channel))
  }

  /** The end of close and of forceClose, for the channel active when it was called. */
  function CloseEnds(c: Core, channel: nat): Core {
    Core(c.pendingUnits, if IsActive(c, channel) then None else c.active, Without(c.channels, channel))
  }

  predicate CloseAllowed(c: Core, force: bool) {
    c.active.Some? && (force || (c.active.value.acknowledged && c.active.value.lastVoucher.Some?))
  }

  // ---- The closure --------------------------------------------------------

  class MppSessionClient {
    var pendingUnits: nat
    var active: Option<Active>
    var channels: seq<nat>

    ghost function State(): Core
      reads this
    {
      Core(pendingUnits, active, channels)
    }

    constructor ()
      ensures State() == Core(0, None, [])
    {
      pendingUnits := 0;
      active := None;
      channels := [];
    }

    /** meter.add: false when it throws. */
    method Add(units: int) returns (ok: bool)
      modifies this
      ensures State() == MeterAdd(old(State()), units) && ok == AddOk(old(State()), units)
    {
      if units <= 0 || pendingUnits > U64_MAX - units { return false; }
      pendingUnits := pendingUnits + units;
      return true;
    }

    /** A request up to its first await: refused, about to open a channel, or waiting for a voucher signature. */
    method BeginRequest(units: Option<int>) returns (r: Outcome)
      modifies this
      ensures r == Requested(old(State()), units) && State() == VoucherBegins(old(State()), units)
    {
      if units.Some? && units.value <= 0 { return Refused; }
      if units.Some? && pendingUnits != 0 { return Refused; }
      if active.Some? {
        if !active.value.acknowledged { return Refused; }
        var metered: int := if units.Some? then units.value else pendingUnits;
        if metered <= 0 { return Refused; }
        if units.None? { pendingUnits := pendingUnits - metered; }
        return Signs(active.value.channel, metered);
      }
      if units.Some? { return Refused; }
      return OpensChannel;
    }

    method FailVoucher(units: nat, fromMeter: bool)
      modifies this
      ensures State() == VoucherFails(old(State()), units, fromMeter)
    {
      if fromMeter { pendingUnits := pendingUnits + units; }
    }

    /** False when no channel is active any more and the request throws. */
    method FinishVoucher(channel: nat) returns (ok: bool)
      modifies this
      ensures State() == VoucherSigned(old(State()), channel) && ok == old(active).Some?
    {
      if active.None? { return false; }
      active := Some(active.value.(lastVoucher := Some(channel)));
      return true;
    }

    method PublishOpen(channel: nat)
      modifies this
      ensures State() == OpenSends(old(State()), channel)
    {
      active := Some(Active(channel, true, None));
      channels := channels + [channel];
    }

    method Unlist(channel: nat)
      modifies this`channels
      ensures channels == Without(old(channels), channel)
    {
      hide IndexOf;
      var index := IndexOf(channels, channel);
      if index >= 0 { channels := channels[..index] + channels[index + 1..]; }
    }

    method FailOpen(channel: nat, handedToServer: bool)
      modifies this
      ensures State() == OpenFails(old(State()), channel, handedToServer)
    {
      if handedToServer && active.Some? && active.value.channel == channel {
        active := Some(active.value.(acknowledged := false));
        return;
      }
      if active.Some? && active.value.channel == channel {
        active := None;
        Unlist(channel);
      }
    }

    /** Owns only the snapshot's channel, never a replacement. */
    method FinishClose(snapshot: nat)
      modifies this
      ensures State() == CloseEnds(old(State()), snapshot)
    {
      Unlist(snapshot);
      if active.Some? && active.value.channel == snapshot { active := None; }
    }
  }

  // ---- Interleavings ------------------------------------------------------

  /** A request waiting for its voucher signature. */
  datatype Signing = Signing(channel: nat, units: nat, fromMeter: bool)

  /**
   * `accepted` sums the units `meter.add` took, `signed` the metered units
   * whose voucher was signed, `everOpened` the channels ever opened.
   */
  datatype System = System(core: Core, signing: seq<Signing>, closing: seq<nat>, accepted: nat, signed: nat, everOpened: set<nat>)

  datatype Event =
    | Add(units: int)
    | Request(requested: Option<int>)
    | SignatureMade(at: nat)
    | SignatureFailed(at: nat)
    | Open(channel: nat)
    | OpenFailed(channel: nat, handedToServer: bool)
    | CloseCalled(force: bool)
    | CloseDone(at: nat)
    | CloseFailed(at: nat)

  predicate Enabled(y: System, e: Event) {
    match e
    case Add(_) => true
    case Request(units) => Metered(y.core, units).Some?
    case SignatureMade(at) => at < |y.signing|
    case SignatureFailed(at) => at < |y.signing|
    case Open(channel) => channel !in y.everOpened
    case OpenFailed(channel, _) => channel in y.everOpened
    case CloseCalled(force) => CloseAllowed(y.core, force)
    case CloseDone(at) => at < |y.closing|
    case CloseFailed(at) => at < |y.closing|
  }

  function RemoveAt<T>(s: seq<T>, i: nat): seq<T>
    requires i < |s|
  {
    s[..i] + s[i + 1..]
  }

  function Step(y: System, e: Event): System
    requires Enabled(y, e)
  {
    match e
    case Add(units) =>
      y.(core := MeterAdd(y.core, units), accepted := if AddOk(y.core, units) then y.accepted + units else y.accepted)
    case Request(units) =>
      y.(core := VoucherBegins(y.core, units),
         signing := y.signing + [Signing(y.core.active.value.channel, Metered(y.core, units).value, units.None?)])
    case SignatureMade(at) =>
      var s := y.signing[at];
      y.(core := VoucherSigned(y.core, s.channel), signing := RemoveAt(y.signing, at),
         signed := if s.fromMeter then y.signed + s.units else y.signed)
    case SignatureFailed(at) =>
      var s := y.signing[at];
      y.(core := VoucherFails(y.core, s.units, s.fromMeter), signing := RemoveAt(y.signing, at))
    case Open(channel) => y.(core := OpenSends(y.core, channel), everOpened := y.everOpened + {channel})
    case OpenFailed(channel, handed) => y.(core := OpenFails(y.core, channel, handed))
    case CloseCalled(_) => y.(closing := y.closing + [y.core.active.value.channel])
    case CloseDone(at) => y.(core := CloseEnds(y.core, y.closing[at]), closing := RemoveAt(y.closing, at))
    case CloseFailed(at) => y.(closing := RemoveAt(y.closing, at))
  }

  predicate ValidRun(y: System, es: seq<Event>)
    decreases |es|
  {
    es == [] || (Enabled(y, es[0]) && ValidRun(Step(y, es[0]), es[1..]))
  }

  function Run(y: System, es: seq<Event>): System
    requires ValidRun(y, es)
    decreases |es|
  {
    if es == [] then y else Run(Step(y, es[0]), es[1..])
  }

  const INITIAL := System(Core(0, None, []), [], [], 0, 0, {})

  // ---- Conservation of metered units --------------------------------------

  /** Metered units whose voucher is being signed. */
  function InFlight(s: seq<Signing>): nat {
    if s == [] then 0 else (if s[0].fromMeter then s[0].units else 0) + InFlight(s[1..])
  }

  lemma {:induction false} InFlightAppend(s: seq<Signing>, t: seq<Signing>)
    ensures InFlight(s + t) == InFlight(s) + InFlight(t)
  {
    if s == [] {
      assert s + t == t;
    } else {
      InFlightAppend(s[1..], t);
      assert (s + t)[1..] == s[1..] + t;
    }
  }

  lemma InFlightRemove(s: seq<Signing>, i: nat)
    requires i < |s|
    ensures InFlight(s) == InFlight(RemoveAt(s, i)) + (if s[i].fromMeter then s[i].units else 0)
  {
    InFlightAppend(s[..i], s[i..]);
    InFlightAppend(s[..i], s[i + 1..]);
    assert s == s[..i] + s[i..] && s[i..][1..] == s[i + 1..];
  }

  predicate Conserved(y: System) {
    y.accepted == y.core.pendingUnits + InFlight(y.signing) + y.signed
  }

  lemma ConservedStep(y: System, e: Event)
    requires Conserved(y) && Enabled(y, e)
    ensures Conserved(Step(y, e))
  {
    match e
    case Request(units) =>
      var s := Signing(y.core.active.value.channel, Metered(y.core, units).value, units.None?);
      InFlightAppend(y.signing, [s]);
      assert InFlight([s]) == if s.fromMeter then s.units else 0;
    case SignatureMade(at) => InFlightRemove(y.signing, at);
    case SignatureFailed(at) => InFlightRemove(y.signing, at);
    case _ =>
  }

  lemma {:induction false} ConservedRun(y: System, es: seq<Event>)
    requires Conserved(y) && ValidRun(y, es)
    ensures Conserved(Run(y, es))
    decreases |es|
  {
    if es != [] {
      ConservedStep(y, es[0]);
      ConservedRun(Step(y, es[0]), es[1..]);
    }
  }

  lemma InitiallyConserved()
    ensures Conserved(INITIAL)
  {
  }

  /** In every interleaving, accepted units are pending, being signed or signed: none is lost or counted twice. */
  lemma MeteringConservesUnits(es: seq<Event>)
    requires ValidRun(INITIAL, es)
    ensures Conserved(Run(INITIAL, es))
  {
    InitiallyConserved();
    ConservedRun(INITIAL, es);
  }

  // ---- Units a request names itself ---------------------------------------

  /** Explicitly requested units whose voucher is being signed. */
  function ExplicitInFlight(s: seq<Signing>): nat {
    if s == [] then 0 else (if s[0].fromMeter then 0 else s[0].units) + ExplicitInFlight(s[1..])
  }

  /** The units the accepted requests of a run named. */
  function Named(es: seq<Event>): int {
    if es == [] then 0
    else (if es[0].Request? && es[0].requested.Some? then es[0].requested.value else 0) + Named(es[1..])
  }

  predicate SettlesExplicit(y: System, e: Event)
    requires Enabled(y, e)
  {
    (e.SignatureMade? || e.SignatureFailed?) && !y.signing[e.at].fromMeter
  }

  /** The explicit units whose voucher a run signs, or fails to sign. */
  function Settled(y: System, es: seq<Event>, made: bool): nat
    requires ValidRun(y, es)
    decreases |es|
  {
    if es == [] then 0
    else
      (if SettlesExplicit(y, es[0]) && es[0].SignatureMade? == made then y.signing[es[0].at].units else 0)
      + Settled(Step(y, es[0]), es[1..], made)
  }

  lemma {:induction false} ExplicitAppend(s: seq<Signing>, t: seq<Signing>)
    ensures ExplicitInFlight(s + t) == ExplicitInFlight(s) + ExplicitInFlight(t)
  {
    if s == [] {
      assert s + t == t;
    } else {
      ExplicitAppend(s[1..], t);
      assert (s + t)[1..] == s[1..] + t;
    }
  }

  lemma ExplicitRemove(s: seq<Signing>, i: nat)
    requires i < |s|
    ensures ExplicitInFlight(s) == ExplicitInFlight(RemoveAt(s, i)) + (if s[i].fromMeter then 0 else s[i].units)
  {
    ExplicitAppend(s[..i], s[i..]);
    ExplicitAppend(s[..i], s[i + 1..]);
    assert s == s[..i] + s[i..] && s[i..][1..] == s[i + 1..];
  }

  /** A request that names units signs exactly those on an acknowledged channel with an empty meter, and is refused with units on the meter. */
  lemma RequestSignsWhatItNames(y: System, u: int)
    ensures Enabled(y, Request(Some(u))) <==>
      u > 0 && y.core.pendingUnits == 0 && y.core.active.Some? && y.core.active.value.acknowledged
    ensures Enabled(y, Request(Some(u))) ==>
      Step(y, Request(Some(u))) == y.(signing := y.signing + [Signing(y.core.active.value.channel, u, false)])
    ensures u > 0 && y.core.pendingUnits != 0 ==> Requested(y.core, Some(u)) == Refused
  {
  }

  /** A request that names none signs everything on the meter and empties it; without a channel it opens one. */
  lemma RequestSignsTheMeter(y: System)
    ensures Enabled(y, Request(None)) <==>
      y.core.pendingUnits > 0 && y.core.active.Some? && y.core.active.value.acknowledged
    ensures Enabled(y, Request(None)) ==>
      Step(y, Request(None)) == y.(core := y.core.(pendingUnits := 0),
                                   signing := y.signing + [Signing(y.core.active.value.channel, y.core.pendingUnits, true)])
    ensures y.core.active.None? ==> Requested(y.core, None) == OpensChannel
  {
  }

  lemma ExplicitStep(y: System, e: Event)
    requires Enabled(y, e)
    ensures ExplicitInFlight(y.signing) + Named([e]) ==
      ExplicitInFlight(Step(y, e).signing) + (if SettlesExplicit(y, e) then y.signing[e.at].units else 0)
  {
    assert Named([e]) == (if e.Request? && e.requested.Some? then e.requested.value else 0) + Named([]);
    match e
    case Request(units) =>
      if units.Some? { RequestSignsWhatItNames(y, units.value); } else { RequestSignsTheMeter(y); }
      var s := Signing(y.core.active.value.channel, Metered(y.core, units).value, units.None?);
      ExplicitAppend(y.signing, [s]);
      assert ExplicitInFlight([s]) == if s.fromMeter then 0 else s.units;
    case SignatureMade(at) => ExplicitRemove(y.signing, at);
    case SignatureFailed(at) => ExplicitRemove(y.signing, at);
    case _ =>
  }

  /** In every run, the units requests name are being signed, signed or failed: no voucher is for more or less. */
  lemma {:induction false} NamedUnitsAreSigned(y: System, es: seq<Event>)
    requires ValidRun(y, es)
    ensures ExplicitInFlight(y.signing) + Named(es) ==
      ExplicitInFlight(Run(y, es).signing) + Settled(y, es, true) + Settled(y, es, false)
    decreases |es|
  {
    if es != [] {
      ExplicitStep(y, es[0]);
      NamedUnitsAreSigned(Step(y, es[0]), es[1..]);
      assert Named(es) == Named([es[0]]) + Named(es[1..]);
    }
  }

  // ---- The 64-bit bound ---------------------------------------------------

  ghost predicate OnlyFailures(es: seq<Event>) {
    forall i | 0 <= i < |es| :: es[i].SignatureFailed?
  }

  /** From here, signings that fail and nothing else take the meter past 64 bits. */
  ghost predicate FailuresExceed(y: System, es: seq<Event>) {
    OnlyFailures(es) && ValidRun(y, es) && Run(y, es).core.pendingUnits > U64_MAX
  }

  lemma {:induction false} FailuresKeepSum(y: System, es: seq<Event>)
    requires ValidRun(y, es) && OnlyFailures(es)
    ensures var z := Run(y, es);
      z.core.pendingUnits + InFlight(z.signing) == y.core.pendingUnits + InFlight(y.signing)
    decreases |es|
  {
    if es != [] {
      InFlightRemove(y.signing, es[0].at);
      FailuresKeepSum(Step(y, es[0]), es[1..]);
    }
  }

  lemma {:induction false} FailEverything(y: System) returns (es: seq<Event>)
    ensures ValidRun(y, es) && OnlyFailures(es)
    ensures Run(y, es).core.pendingUnits == y.core.pendingUnits + InFlight(y.signing)
    decreases |y.signing|
  {
    if y.signing == [] {
      es := [];
    } else {
      var z := Step(y, SignatureFailed(0));
      InFlightRemove(y.signing, 0);
      var rest := FailEverything(z);
      RunCons(y, SignatureFailed(0), z, rest);
      es := [SignatureFailed(0)] + rest;
    }
  }

  /** Failed signings alone can take the meter past 64 bits exactly when pending and in-flight units together exceed them. */
  lemma FailuresExceedExactly(y: System)
    ensures (exists es :: FailuresExceed(y, es)) <==> y.core.pendingUnits + InFlight(y.signing) > U64_MAX
  {
    if y.core.pendingUnits + InFlight(y.signing) > U64_MAX {
      var es := FailEverything(y);
      assert FailuresExceed(y, es);
    }
    forall es | FailuresExceed(y, es) ensures y.core.pendingUnits + InFlight(y.signing) > U64_MAX {
      FailuresKeepSum(y, es);
    }
  }

  ghost predicate FailureProof(y: System) {
    !exists es :: FailuresExceed(y, es)
  }

  ghost predicate FailureProofThroughout(y: System, es: seq<Event>)
    requires ValidRun(y, es)
    decreases |es|
  {
    FailureProof(y) && (es == [] || FailureProofThroughout(Step(y, es[0]), es[1..]))
  }

  /** What a caller checks before adding: the units it has reported, less those signed for, stay within 64 bits. */
  predicate AddsGuarded(y: System, e: Event) {
    e.Add? && AddOk(y.core, e.units) ==> y.accepted + e.units - y.signed <= U64_MAX
  }

  predicate AllAddsGuarded(y: System, es: seq<Event>)
    requires ValidRun(y, es)
    decreases |es|
  {
    es == [] || (AddsGuarded(y, es[0]) && AllAddsGuarded(Step(y, es[0]), es[1..]))
  }

  predicate WithinBound(y: System) { y.core.pendingUnits <= U64_MAX }

  lemma FailureProofStep(y: System, e: Event)
    requires Conserved(y) && FailureProof(y) && Enabled(y, e)
    ensures FailureProof(Step(y, e)) <==> AddsGuarded(y, e)
  {
    hide FailureProof, FailuresExceed;
    FailureProofIsBound(y);
    ConservedStep(y, e);
    FailureProofIsBound(Step(y, e));
  }

  lemma FailureProofIsBound(y: System)
    requires Conserved(y)
    ensures FailureProof(y) <==> y.accepted - y.signed <= U64_MAX
  {
    FailuresExceedExactly(y);
  }

  lemma {:induction false} GuardedFrom(y: System, es: seq<Event>)
    requires Conserved(y) && FailureProof(y) && ValidRun(y, es)
    ensures FailureProofThroughout(y, es) <==> AllAddsGuarded(y, es)
    ensures AllAddsGuarded(y, es) ==> WithinBound(Run(y, es))
    decreases |es|
  {
    hide FailureProof, AddsGuarded;
    MeterWithinBound(y);
    if es != [] {
      FailureProofStep(y, es[0]);
      ConservedStep(y, es[0]);
      if FailureProof(Step(y, es[0])) {
        GuardedFrom(Step(y, es[0]), es[1..]);
      } else {
        assert !FailureProofThroughout(Step(y, es[0]), es[1..]);
      }
    }
  }

  /**
   * Along every run, no failures can take the meter past 64 bits at any point
   * exactly when every accepted add keeps the reported, unsigned units within
   * them; then the meter itself stays within them, failures included.
   */
  lemma GuardedAddsStayWithinBound(es: seq<Event>)
    requires ValidRun(INITIAL, es)
    ensures FailureProofThroughout(INITIAL, es) <==> AllAddsGuarded(INITIAL, es)
    ensures AllAddsGuarded(INITIAL, es) ==> WithinBound(Run(INITIAL, es))
  {
    hide *;
    InitiallyFailureProof();
    GuardedFrom(INITIAL, es);
  }

  lemma InitiallyFailureProof()
    ensures Conserved(INITIAL) && FailureProof(INITIAL)
  {
    InitiallyConserved();
    FailureProofIsBound(INITIAL);
  }

  lemma MeterWithinBound(y: System)
    requires Conserved(y) && FailureProof(y)
    ensures WithinBound(y)
  {
    FailureProofIsBound(y);
  }

  lemma {:induction false} BoundWithoutFailures(y: System, es: seq<Event>)
    requires ValidRun(y, es) && y.core.pendingUnits <= U64_MAX
    requires forall i | 0 <= i < |es| :: !es[i].SignatureFailed?
    ensures Run(y, es).core.pendingUnits <= U64_MAX
    decreases |es|
  {
    if es != [] { BoundWithoutFailures(Step(y, es[0]), es[1..]); }
  }

  /** A failed signing adds back without the check: from here, one failure takes the meter past 64 bits. */
  lemma RollbackCanExceedBound()
    ensures var y := System(Core(U64_MAX, Some(Active(1, true, None)), [1]), [Signing(1, U64_MAX, true)], [], 2 * U64_MAX, 0, {1});
      Conserved(y) && Step(y, SignatureFailed(0)).core.pendingUnits == 2 * U64_MAX > U64_MAX
  {
    assert InFlight([Signing(1, U64_MAX, true)]) == U64_MAX;
  }

  lemma RunCons(y: System, e: Event, z: System, es: seq<Event>)
    requires Enabled(y, e) && Step(y, e) == z && ValidRun(z, es)
    ensures ValidRun(y, [e] + es) && Run(y, [e] + es) == Run(z, es)
  {
    assert ([e] + es)[1..] == es;
  }

  /** That state is reached: add the maximum, start a request, add the maximum again. */
  lemma BoundaryReached() returns (es: seq<Event>)
    ensures ValidRun(INITIAL, es)
    ensures Run(INITIAL, es) == System(Core(U64_MAX, Some(Active(1, true, None)), [1]), [Signing(1, U64_MAX, true)], [], 2 * U64_MAX, 0, {1})
  {
    var y1 := System(Core(0, Some(Active(1, true, None)), [1]), [], [], 0, 0, {1});
    var rest := FromEmptyMeter(y1, U64_MAX);
    RunCons(INITIAL, Open(1), y1, rest);
    es := [Open(1)] + rest;
  }

  lemma FromEmptyMeter(y: System, m: nat) returns (es: seq<Event>)
    requires y == System(Core(0, Some(Active(1, true, None)), [1]), [], [], 0, 0, {1}) && 0 < m <= U64_MAX
    ensures ValidRun(y, es)
    ensures Run(y, es) == System(Core(m, Some(Active(1, true, None)), [1]), [Signing(1, m, true)], [], m + m, 0, {1})
  {
    var y2 := y.(core := y.core.(pendingUnits := m), accepted := m);
    var y3 := y.(signing := [Signing(1, m, true)], accepted := m);
    var y4 := y3.(core := y3.core.(pendingUnits := m), accepted := m + m);
    assert ValidRun(y4, []) && Run(y4, []) == y4;
    es := [Add(m)] + [];
    RunCons(y3, Add(m), y4, []);
    assert Step(y2, Request(None)) == y3;
    RunCons(y2, Request(None), y3, es);
    es := [Request(None)] + es;
    assert Step(y, Add(m)) == y2;
    RunCons(y, Add(m), y2, es);
    es := [Add(m)] + es;
  }

  // ---- Closes are local ---------------------------------------------------

  /** Listed channels are distinct and were opened; the active one is listed. */
  ghost predicate Owned(y: System) {
    && Distinct(y.core.channels)
    && (forall i | 0 <= i < |y.core.channels| :: y.core.channels[i] in y.everOpened)
    && (y.core.active.Some? ==> y.core.active.value.channel in y.core.channels)
    && (forall i | 0 <= i < |y.closing| :: y.closing[i] in y.everOpened)
  }

  lemma WithoutMembers(channels: seq<nat>, channel: nat)
    requires Distinct(channels)
    ensures Distinct(Without(channels, channel))
    ensures forall x :: x in Without(channels, channel) <==> x in channels && x != channel
  {
    var i := IndexOf(channels, channel);
    if i >= 0 {
      var r := Without(channels, channel);
      assert forall j | 0 <= j < |r| :: r[j] == if j < i then channels[j] else channels[j + 1];
      forall x ensures x in r <==> x in channels && x != channel {
        if x in channels && x != channel {
          var j :| 0 <= j < |channels| && channels[j] == x;
          assert r[if j < i then j else j - 1] == x;
        }
      }
    }
  }

  lemma OwnedOpenFailed(y: System, channel: nat, handed: bool)
    requires Owned(y) && Enabled(y, OpenFailed(channel, handed))
    ensures Owned(Step(y, OpenFailed(channel, handed)))
  {
    hide Without;
    WithoutMembers(y.core.channels, channel);
    var after := OpenFails(y.core, channel, handed).channels;
    assert forall i | 0 <= i < |after| :: after[i] in after && after[i] in y.core.channels;
  }

  lemma OwnedCloseDone(y: System, at: nat)
    requires Owned(y) && Enabled(y, CloseDone(at))
    ensures Owned(Step(y, CloseDone(at)))
  {
    hide Without;
    WithoutMembers(y.core.channels, y.closing[at]);
    var after := Without(y.core.channels, y.closing[at]);
    assert forall i | 0 <= i < |after| :: after[i] in after && after[i] in y.core.channels;
  }

  lemma OwnedOpen(y: System, channel: nat)
    requires Owned(y) && Enabled(y, Open(channel))
    ensures Owned(Step(y, Open(channel)))
  {
  }

  lemma OwnedStep(y: System, e: Event)
    requires Owned(y) && Enabled(y, e)
    ensures Owned(Step(y, e))
  {
    match e
    case Open(channel) => OwnedOpen(y, channel);
    case OpenFailed(channel, handed) => OwnedOpenFailed(y, channel, handed);
    case CloseDone(at) => OwnedCloseDone(y, at);
    case _ =>
  }

  /** The events that may take channel `c` away: its own close, or its own open failing before it was sent. */
  predicate Removes(y: System, e: Event, c: nat)
    requires Enabled(y, e)
  {
    (e.CloseDone? && y.closing[e.at] == c) || (e == OpenFailed(c, false))
  }

  /** No other event removes the channel or deactivates it, except a new open taking its place. */
  lemma OthersKeepChannel(y: System, e: Event, c: nat)
    requires Owned(y) && Enabled(y, e) && !Removes(y, e, c)
    ensures c in y.core.channels ==> c in Step(y, e).core.channels
    ensures IsActive(y.core, c) && !e.Open? ==> IsActive(Step(y, e).core, c)
  {
    if e.CloseDone? { WithoutMembers(y.core.channels, y.closing[e.at]); }
    if e.OpenFailed? { WithoutMembers(y.core.channels, e.channel); }
  }

  ghost predicate NeverRemoved(y: System, es: seq<Event>, c: nat)
    requires ValidRun(y, es)
    decreases |es|
  {
    es == [] || (!Removes(y, es[0], c) && NeverRemoved(Step(y, es[0]), es[1..], c))
  }

  lemma {:induction false} OwnedRun(y: System, es: seq<Event>)
    requires Owned(y) && ValidRun(y, es)
    ensures Owned(Run(y, es))
    decreases |es|
  {
    if es != [] {
      OwnedStep(y, es[0]);
      OwnedRun(Step(y, es[0]), es[1..]);
    }
  }

  lemma {:induction false} KeptRun(y: System, es: seq<Event>, c: nat)
    requires Owned(y) && ValidRun(y, es) && NeverRemoved(y, es, c) && c in y.core.channels
    ensures c in Run(y, es).core.channels
    ensures IsActive(y.core, c) && (forall i | 0 <= i < |es| :: !es[i].Open?) ==> IsActive(Run(y, es).core, c)
    decreases |es|
  {
    if es != [] {
      OthersKeepChannel(y, es[0], c);
      OwnedStep(y, es[0]);
      KeptRun(Step(y, es[0]), es[1..], c);
    }
  }

  /**
   * Closes are local: in every run, however late other closes finish, a
   * channel stays listed until its own close ends or its own unsent open
   * fails, and stays active until then or until another open replaces it.
   */
  lemma ClosesAreLocal(before: seq<Event>, after: seq<Event>, c: nat)
    requires ValidRun(INITIAL, before) && ValidRun(Run(INITIAL, before), after)
    requires c in Run(INITIAL, before).core.channels && NeverRemoved(Run(INITIAL, before), after, c)
    ensures c in Run(Run(INITIAL, before), after).core.channels
    ensures IsActive(Run(INITIAL, before).core, c) && (forall i | 0 <= i < |after| :: !after[i].Open?) ==>
      IsActive(Run(Run(INITIAL, before), after).core, c)
  {
    OwnedRun(INITIAL, before);
    KeptRun(Run(INITIAL, before), after, c);
  }

  /** And a finished close does remove its channel, for good. */
  lemma {:induction false} ClosedStaysClosed(y: System, es: seq<Event>, c: nat)
    requires Owned(y) && ValidRun(y, es) && c in y.everOpened && c !in y.core.channels
    ensures c !in Run(y, es).core.channels && !IsActive(Run(y, es).core, c)
    decreases |es|
  {
    if es != [] {
      if es[0].CloseDone? { WithoutMembers(y.core.channels, y.closing[es[0].at]); }
      if es[0].OpenFailed? { WithoutMembers(y.core.channels, es[0].channel); }
      OwnedStep(y, es[0]);
      ClosedStaysClosed(Step(y, es[0]), es[1..], c);
    }
  }

  lemma CloseRemovesItsChannel(y: System, at: nat, es: seq<Event>)
    requires Owned(y) && at < |y.closing| && ValidRun(Step(y, CloseDone(at)), es)
    ensures var c, z := y.closing[at], Run(Step(y, CloseDone(at)), es); c !in z.core.channels && !IsActive(z.core, c)
  {
    WithoutMembers(y.core.channels, y.closing[at]);
    OwnedStep(y, CloseDone(at));
    ClosedStaysClosed(Step(y, CloseDone(at)), es, y.closing[at]);
  }

  // ---- Failed opens --------------------------------------------------------

  /** An open that fails before it is sent leaves no channel; one the server may have seen stays, to be force-closed. */
  lemma FailedOpenIsForgottenOrKept(y: System, c: nat, handed: bool)
    requires Owned(y) && Enabled(y, OpenFailed(c, handed)) && IsActive(y.core, c)
    ensures var z := Step(y, OpenFailed(c, handed));
      if handed then
        z.core.channels == y.core.channels && IsActive(z.core, c) && !z.core.active.value.acknowledged
        && Enabled(z, CloseCalled(true)) && !Enabled(z, CloseCalled(false))
      else c !in z.core.channels && z.core.active.None?
  {
    WithoutMembers(y.core.channels, c);
  }

  /** The voucher key of `c` is gone for good. */
  predicate KeyGone(y: System, c: nat) {
    c in y.everOpened && (IsActive(y.core, c) ==> !y.core.active.value.acknowledged)
  }

  function SigningsFor(s: seq<Signing>, c: nat): nat {
    if s == [] then 0 else (if s[0].channel == c then 1 else 0) + SigningsFor(s[1..], c)
  }

  lemma {:induction false} SigningsForAppend(s: seq<Signing>, t: seq<Signing>, c: nat)
    ensures SigningsFor(s + t, c) == SigningsFor(s, c) + SigningsFor(t, c)
  {
    if s == [] {
      assert s + t == t;
    } else {
      SigningsForAppend(s[1..], t, c);
      assert (s + t)[1..] == s[1..] + t;
    }
  }

  lemma SigningsForRemove(s: seq<Signing>, i: nat, c: nat)
    requires i < |s|
    ensures SigningsFor(RemoveAt(s, i), c) <= SigningsFor(s, c)
  {
    SigningsForAppend(s[..i], s[i..], c);
    SigningsForAppend(s[..i], s[i + 1..], c);
    assert s == s[..i] + s[i..] && s[i..][1..] == s[i + 1..];
  }

  lemma KeyGoneStep(y: System, e: Event, c: nat)
    requires KeyGone(y, c) && Enabled(y, e)
    ensures KeyGone(Step(y, e), c) && SigningsFor(Step(y, e).signing, c) <= SigningsFor(y.signing, c)
  {
    match e
    case Request(units) =>
      var s := Signing(y.core.active.value.channel, Metered(y.core, units).value, units.None?);
      SigningsForAppend(y.signing, [s], c);
      assert SigningsFor([s], c) == (if s.channel == c then 1 else 0) + SigningsFor([], c);
    case SignatureMade(at) => SigningsForRemove(y.signing, at, c);
    case SignatureFailed(at) => SigningsForRemove(y.signing, at, c);
    case _ =>
  }

  /** Once a sent open has failed, no run ever starts another voucher on that channel. */
  lemma {:induction false} NoVoucherWithoutKey(y: System, es: seq<Event>, c: nat)
    requires KeyGone(y, c) && ValidRun(y, es)
    ensures KeyGone(Run(y, es), c) && SigningsFor(Run(y, es).signing, c) <= SigningsFor(y.signing, c)
    decreases |es|
  {
    hide Step, KeyGone;
    if es != [] {
      KeyGoneStep(y, es[0], c);
      NoVoucherWithoutKey(Step(y, es[0]), es[1..], c);
    }
  }

  // ---- Cooperative closes --------------------------------------------------

  /** A voucher was recorded while `c` was active, somewhere in the run. */
  predicate Vouched(y: System, es: seq<Event>, c: nat)
    requires ValidRun(y, es)
    decreases |es|
  {
    es != [] && ((es[0].SignatureMade? && IsActive(y.core, c)) || Vouched(Step(y, es[0]), es[1..], c))
  }

  predicate Recorded(y: System, c: nat) {
    IsActive(y.core, c) && y.core.active.value.lastVoucher.Some?
  }

  lemma {:induction false} RecordedWasVouched(y: System, es: seq<Event>, c: nat)
    requires ValidRun(y, es) && Recorded(Run(y, es), c)
    ensures Recorded(y, c) || Vouched(y, es, c)
    decreases |es|
  {
    if es != [] { RecordedWasVouched(Step(y, es[0]), es[1..], c); }
  }

  /** A close without force is only ever called for a channel that is acknowledged and has had a voucher recorded. */
  lemma ClosesAreVouched(es: seq<Event>)
    requires ValidRun(INITIAL, es) && Enabled(Run(INITIAL, es), CloseCalled(false))
    ensures var active := Run(INITIAL, es).core.active;
      active.Some? && active.value.acknowledged && Vouched(INITIAL, es, active.value.channel)
  {
    RecordedWasVouched(INITIAL, es, Run(INITIAL, es).core.active.value.channel);
  }

  // ---- Vouchers and replacements ------------------------------------------

  /** The recorded voucher, if any, was signed for the active channel itself. */
  predicate VoucherIsOwn(c: Core) {
    c.active.Some? && c.active.value.lastVoucher.Some? ==> c.active.value.lastVoucher.value == c.active.value.channel
  }

  ghost predicate OnlySignatures(es: seq<Event>) {
    forall i | 0 <= i < |es| :: es[i].SignatureMade?
  }

  /** From here, arriving signatures and nothing else put a foreign voucher on the active channel. */
  ghost predicate SignaturesMisplace(y: System, es: seq<Event>) {
    OnlySignatures(es) && ValidRun(y, es) && !VoucherIsOwn(Run(y, es).core)
  }

  /** Every pending signature is for the active channel, if there is one. */
  predicate SigningsOwn(y: System) {
    y.core.active.Some? ==> forall i | 0 <= i < |y.signing| :: y.signing[i].channel == y.core.active.value.channel
  }

  lemma {:induction false} SignaturesStayOwn(y: System, es: seq<Event>)
    requires ValidRun(y, es) && OnlySignatures(es) && SigningsOwn(y) && VoucherIsOwn(y.core)
    ensures VoucherIsOwn(Run(y, es).core)
    decreases |es|
  {
    if es != [] { SignaturesStayOwn(Step(y, es[0]), es[1..]); }
  }

  /** Arriving signatures alone can misplace a voucher exactly when one is pending for another channel than the active one. */
  lemma SignaturesMisplaceExactly(y: System)
    requires VoucherIsOwn(y.core)
    ensures (exists es :: SignaturesMisplace(y, es)) <==> !SigningsOwn(y)
  {
    if !SigningsOwn(y) {
      var i :| 0 <= i < |y.signing| && y.signing[i].channel != y.core.active.value.channel;
      var z := Step(y, SignatureMade(i));
      RunCons(y, SignatureMade(i), z, []);
      assert SignaturesMisplace(y, [SignatureMade(i)] + []);
    }
    forall es | SignaturesMisplace(y, es) ensures !SigningsOwn(y) {
      if SigningsOwn(y) { SignaturesStayOwn(y, es); }
    }
  }

  predicate SigningsOpened(y: System) {
    && (forall i | 0 <= i < |y.signing| :: y.signing[i].channel in y.everOpened)
    && (y.core.active.Some? ==> y.core.active.value.channel in y.everOpened)
  }

  lemma SigningsOpenedStep(y: System, e: Event)
    requires SigningsOpened(y) && Enabled(y, e)
    ensures SigningsOpened(Step(y, e))
  {
  }

  /** Opening a channel while a signature is pending: the caller still awaits that request. */
  predicate OpensOverSigning(y: System, e: Event) {
    e.Open? && y.signing != []
  }

  /** Each step keeps pending signatures on the active channel if and only if it opens no channel over one. */
  lemma SigningsOwnStep(y: System, e: Event)
    requires SigningsOpened(y) && SigningsOwn(y) && Enabled(y, e)
    ensures SigningsOwn(Step(y, e)) <==> !OpensOverSigning(y, e)
  {
    if OpensOverSigning(y, e) {
      var z := Step(y, e);
      assert z.signing[0].channel != z.core.active.value.channel;
    }
  }

  predicate OpensAlone(y: System, es: seq<Event>)
    requires ValidRun(y, es)
    decreases |es|
  {
    es == [] || (!OpensOverSigning(y, es[0]) && OpensAlone(Step(y, es[0]), es[1..]))
  }

  predicate SigningsOwnThroughout(y: System, es: seq<Event>)
    requires ValidRun(y, es)
    decreases |es|
  {
    SigningsOwn(y) && (es == [] || SigningsOwnThroughout(Step(y, es[0]), es[1..]))
  }

  lemma VoucherOwnStep(y: System, e: Event)
    requires SigningsOwn(y) && VoucherIsOwn(y.core) && Enabled(y, e)
    ensures VoucherIsOwn(Step(y, e).core)
  {
  }

  lemma {:induction false} OpensAloneFrom(y: System, es: seq<Event>)
    requires SigningsOpened(y) && SigningsOwn(y) && VoucherIsOwn(y.core) && ValidRun(y, es)
    ensures SigningsOwnThroughout(y, es) <==> OpensAlone(y, es)
    ensures OpensAlone(y, es) ==> VoucherIsOwn(Run(y, es).core)
    decreases |es|
  {
    hide SigningsOwn, SigningsOpened, VoucherIsOwn;
    if es != [] {
      var z := Step(y, es[0]);
      SigningsOwnStep(y, es[0]);
      SigningsOpenedStep(y, es[0]);
      VoucherOwnStep(y, es[0]);
      if SigningsOwn(z) {
        OpensAloneFrom(z, es[1..]);
      } else {
        assert !SigningsOwnThroughout(z, es[1..]);
      }
    }
  }

  /**
   * Along every run, pending signatures stay on the active channel exactly
   * when no channel is opened while one is pending; then every recorded
   * voucher is the active channel's own.
   */
  lemma OpensAloneKeepVouchers(es: seq<Event>)
    requires ValidRun(INITIAL, es)
    ensures SigningsOwnThroughout(INITIAL, es) <==> OpensAlone(INITIAL, es)
    ensures OpensAlone(INITIAL, es) ==> VoucherIsOwn(Run(INITIAL, es).core)
  {
    OpensAloneFrom(INITIAL, es);
  }

  /** It does happen: the voucher of channel 1 is recorded on channel 2, opened after 1 was force-closed. */
  lemma VoucherCanLandOnReplacement() returns (es: seq<Event>)
    ensures ValidRun(INITIAL, es) && !VoucherIsOwn(Run(INITIAL, es).core)
  {
    var y1 := System(Core(0, Some(Active(1, true, None)), [1]), [], [], 0, 0, {1});
    var y2 := y1.(signing := [Signing(1, 5, false)]);
    var y3 := y2.(closing := [1]);
    var y4 := y2.(core := Core(0, None, []));
    var y5 := y4.(core := Core(0, Some(Active(2, true, None)), [2]), everOpened := {1, 2});
    var y6 := System(Core(0, Some(Active(2, true, Some(1))), [2]), [], [], 0, 0, {1, 2});
    RunCons(y5, SignatureMade(0), y6, []);
    RunCons(y4, Open(2), y5, [SignatureMade(0)] + []);
    assert Without([1], 1) == [];
    RunCons(y3, CloseDone(0), y4, [Open(2)] + ([SignatureMade(0)] + []));
    RunCons(y2, CloseCalled(true), y3, [CloseDone(0)] + ([Open(2)] + ([SignatureMade(0)] + [])));
    RunCons(y1, Request(Some(5)), y2, [CloseCalled(true)] + ([CloseDone(0)] + ([Open(2)] + ([SignatureMade(0)] + []))));
    es := [Request(Some(5))] + ([CloseCalled(true)] + ([CloseDone(0)] + ([Open(2)] + ([SignatureMade(0)] + []))));
    RunCons(INITIAL, Open(1), y1, es);
    es := [Open(1)] + es;
  }
}
