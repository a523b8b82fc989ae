/** The per-host connection protocol of cmd/quil/mcp_hosts.go: single-flight dials that run
    with the mutex released, waiters, backoff, scheduled retries and ownership of connections. */
module HostRouter {
  // `Host` is what one mutex guards. Each critical section of `connect` is one function on it
  // and one method of `HostConn`. `Sys` adds the callers (one program counter each), the links
  // that have died, and what has been dialled, closed and released so far; `Next` interleaves
  // the callers' steps arbitrarily.

  import opened Common

  const BACKOFF: int := 30_000_000_000

  datatype Stamp = Never | At(t: int)

  predicate WithinBackoff(now: int, last: Stamp) {
    last.At? && now - last.t < BACKOFF
  }

  datatype HostError = ConnectionLost | DialError

  // `bridge` is the connection installed (bridge, client and cancel are set together).
  datatype Host = Host(
    bridge: Option<nat>,
    dialing: bool,
    dialDone: nat,
    err: Option<HostError>,
    lastTry: Stamp,
    retryScheduled: bool)

  // How the first critical section of connect leaves its caller.
  datatype Begin =
    | Ready
    | WaitFor(done: nat)
    | Refused(lost: Option<nat>)
    | StartDial(lost: Option<nat>, done: nat)

  predicate Connected(h: Host, dead: set<nat>) {
    h.bridge.Some? && h.bridge.value !in dead
  }

  // Drop a bridge whose link has died; a loss earns one immediate retry.
  function DropLost(h: Host): Host {
    if h.bridge.Some? then h.(bridge := None, err := Some(ConnectionLost), lastTry := Never) else h
  }

  function BeginConnect(h: Host, initial: bool, now: int, dead: set<nat>, newDone: nat): (Host, Begin) {
    if Connected(h, dead) then (h, Ready)
    else if h.dialing then (h, WaitFor(h.dialDone))
    else
      var h1 := DropLost(h);
      if !initial && h1.err.Some? && WithinBackoff(now, h1.lastTry) then (h1, Refused(h.bridge))
      else (h1.(lastTry := At(now), dialing := true, dialDone := newDone), StartDial(h.bridge, newDone))
  }

  function FinishConnect(h: Host, got: Option<nat>): Host {
    match got
    case None => h.(dialing := false, err := Some(DialError))
    case Some(c) => h.(dialing := false, bridge := Some(c), err := None)
  }

  // retryDisconnectedLocked: whether one background retry is scheduled.
  predicate SchedulesRetry(h: Host, now: int) {
    !h.dialing && !h.retryScheduled &&
    !(h.bridge.None? && h.err.Some? && WithinBackoff(now, h.lastTry))
  }

  class HostConn {
    var bridge: Option<nat>
    var dialing: bool
    var dialDone: nat
    var err: Option<HostError>
    var lastTry: Stamp
    var retryScheduled: bool

    function View(): Host
      reads this
    {
      Host(bridge, dialing, dialDone, err, lastTry, retryScheduled)
    }

    method ConnectBegin(initial: bool, now: int, dead: set<nat>, newDone: nat) returns (b: Begin)
      modifies this
      ensures (View(), b) == BeginConnect(old(View()), initial, now, dead, newDone)
    {
      if bridge.Some? && bridge.value !in dead {
        return Ready;
      }
      if dialing {
        return WaitFor(dialDone);
      }
      var oldClient: Option<nat> := None;
      if bridge.Some? {
        oldClient := bridge;
        bridge := None;
        err := Some(ConnectionLost);
        lastTry := Never;
      }
      if !initial && err.Some? && WithinBackoff(now, lastTry) {
        return Refused(oldClient);
      }
      lastTry := At(now);
      dialing := true;
      dialDone := newDone;
      return StartDial(oldClient, newDone);
    }

    method ConnectFinish(got: Option<nat>)
      modifies this
      ensures View() == FinishConnect(old(View()), got)
    {
      dialing := false;
      if got.None? {
        err := Some(DialError);
        return;
      }
      bridge, err := got, None;
    }

    method RetryDisconnectedLocked(now: int) returns (spawn: bool)
      modifies this
      ensures spawn == SchedulesRetry(old(View()), now)
      ensures View() == old(View()).(retryScheduled := old(retryScheduled) || spawn)
    {
      if dialing || retryScheduled {
        return false;
      }
      if bridge.None? && err.Some? && WithinBackoff(now, lastTry) {
        return false;
      }
      retryScheduled := true;
      return true;
    }
  }

  // ---------------------------------------------------------------- the whole system

  datatype After = GiveUp | GoDial(done: nat)

  datatype PC =
    | Calling(initial: bool)
    | Waiting(done: nat)
    | Releasing(lost: Option<nat>, after: After, initial: bool)
    | Dialing(done: nat)
    | Dialled(done: nat, got: Option<nat>)
    | Returned

  datatype Caller = Caller(pc: PC, retry: bool)

  datatype Outcome = Pending | Failed | Connects

  datatype Dial = Dial(start: int, initial: bool, outcome: Outcome)

  datatype Sys = Sys(
    h: Host,
    now: int,
    dead: set<nat>,
    callers: map<nat, Caller>,
    nextDone: nat,
    closed: multiset<nat>,
    nextClient: nat,
    released: multiset<nat>,
    dials: seq<Dial>,
    // History, read by no step: the caller running the dial, the caller that is the
    // background retry, and the caller each connection in hand is held by.
    pilot: Option<nat>,
    retrier: Option<nat>,
    holder: map<nat, nat>)

  // A configured host nobody has dialled yet.
  predicate Initial(s: Sys) {
    && s.h.bridge.None? && !s.h.dialing && s.h.err.None? && s.h.lastTry.Never? && !s.h.retryScheduled
    && s.callers == map[] && s.nextDone == 0 && s.closed == multiset{}
    && s.nextClient == 0 && s.released == multiset{} && s.dials == []
    && s.pilot.None? && s.retrier.None? && s.holder == map[]
  }

  datatype Event =
    | Tick(d: nat)
    | Die(client: nat)
    | Call(c: nat, initial: bool)
    | Status(c: nat)
    | Enter(c: nat)
    | Release(c: nat)
    | DialReturns(c: nat, ok: bool)
    | Finish(c: nat)
    | Wake(c: nat)
    | Leave(c: nat)

  predicate Enabled(s: Sys, e: Event) {
    match e
    case Tick(_) => true
    case Die(_) => true
    case Call(c, _) => c !in s.callers
    case Status(c) => c !in s.callers
    case Enter(c) => c in s.callers && s.callers[c].pc.Calling?
    case Release(c) => c in s.callers && s.callers[c].pc.Releasing?
    case DialReturns(c, _) => c in s.callers && s.callers[c].pc.Dialing?
    case Finish(c) => c in s.callers && s.callers[c].pc.Dialled?
    case Wake(c) => c in s.callers && s.callers[c].pc.Waiting? && s.closed[s.callers[c].pc.done] > 0
    case Leave(c) => c in s.callers && s.callers[c].pc.Returned?
  }

  function SetPC(s: Sys, c: nat, pc: PC): Sys
    requires c in s.callers
  {
    s.(callers := s.callers[c := s.callers[c].(pc := pc)])
  }

  // Caller c now holds the connection, if there is one.
  function Take(s: Sys, c: nat, k: Option<nat>): Sys {
    if k.Some? then s.(holder := s.holder[k.value := c]) else s
  }

  function Drop(s: Sys, k: Option<nat>): Sys {
    if k.Some? then s.(holder := s.holder - {k.value}) else s
  }

  function EnterStep(s: Sys, c: nat): Sys
    requires Enabled(s, Enter(c))
  {
    var initial := s.callers[c].pc.initial;
    var (h, b) := BeginConnect(s.h, initial, s.now, s.dead, s.nextDone);
    var s1 := s.(h := h);
    match b
    case Ready => SetPC(s1, c, Returned)
    case WaitFor(done) => SetPC(s1, c, Waiting(done))
    case Refused(lost) => SetPC(Take(s1, c, lost), c, Releasing(lost, GiveUp, initial))
    case StartDial(lost, done) =>
      SetPC(Take(s1, c, lost).(nextDone := s.nextDone + 1, pilot := Some(c),
                               dials := s.dials + [Dial(s.now, initial, Pending)]),
            c, Releasing(lost, GoDial(done), initial))
  }

  function FinishStep(s: Sys, c: nat): Sys
    requires Enabled(s, Finish(c))
  {
    var pc := s.callers[c].pc;
    var n := |s.dials|;
    SetPC(Drop(s, pc.got).(h := FinishConnect(s.h, pc.got), pilot := None,
             closed := s.closed + multiset{pc.done},
             dials := if n == 0 then s.dials
                      else s.dials[n - 1 := s.dials[n - 1].(outcome := if pc.got.Some? then Connects else Failed)]),
          c, Returned)
  }

  function Next(s: Sys, e: Event): Sys
    requires Enabled(s, e)
  {
    match e
    case Tick(d) => s.(now := s.now + d)
    case Die(k) => s.(dead := s.dead + {k})
    case Call(c, initial) => s.(callers := s.callers[c := Caller(Calling(initial), false)])
    case Status(c) =>
      if !Connected(s.h, s.dead) && SchedulesRetry(s.h, s.now)
      then s.(h := s.h.(retryScheduled := true), callers := s.callers[c := Caller(Calling(false), true)],
               retrier := Some(c))
      else s
    case Enter(c) => EnterStep(s, c)
    case Release(c) =>
      var pc := s.callers[c].pc;
      var s1 := if pc.lost.Some? then Drop(s, pc.lost).(released := s.released + multiset{pc.lost.value}) else s;
      SetPC(s1, c, if pc.after.GiveUp? then Returned else Dialing(pc.after.done))
    case DialReturns(c, ok) =>
      var done := s.callers[c].pc.done;
      if ok then SetPC(Take(s, c, Some(s.nextClient)).(nextClient := s.nextClient + 1), c, Dialled(done, Some(s.nextClient)))
      else SetPC(s, c, Dialled(done, None))
    case Finish(c) => FinishStep(s, c)
    case Wake(c) => SetPC(s, c, Returned)
    case Leave(c) =>
      s.(callers := s.callers - {c},
         h := if s.callers[c].retry then s.h.(retryScheduled := false) else s.h,
         retrier := if s.callers[c].retry then None else s.retrier)
  }

  // ---------------------------------------------------------------- invariants

  // The caller running the dial whose channel is `done`.
  predicate Dials(pc: PC, done: nat) {
    || (pc.Releasing? && pc.after == GoDial(done))
    || (pc.Dialing? && pc.done == done)
    || (pc.Dialled? && pc.done == done)
  }

  predicate IsDialler(pc: PC) {
    (pc.Releasing? && pc.after.GoDial?) || pc.Dialing? || pc.Dialled?
  }

  // The connection a caller has to install or release.
  function InHand(pc: PC): Option<nat> {
    match pc
    case Releasing(lost, _, _) => lost
    case Dialled(_, got) => got
    case _ => None
  }

  // At most one dial in flight; `dialing` says exactly whether there is one, and while it
  // runs no bridge is installed.
  ghost predicate SingleFlight(s: Sys) {
    && (forall c :: c in s.callers ==> (IsDialler(s.callers[c].pc) <==> s.pilot == Some(c)))
    && (s.pilot.Some? ==> s.pilot.value in s.callers && Dials(s.callers[s.pilot.value].pc, s.h.dialDone))
    && (s.h.dialing <==> s.pilot.Some?)
    && (s.h.dialing ==> s.h.bridge.None?)
  }

  // Every channel handed out is closed exactly once, unless its dial is the one in flight.
  ghost predicate Channels(s: Sys) {
    && (s.h.dialing ==> s.h.dialDone < s.nextDone)
    && (forall k: nat :: s.closed[k] == if k < s.nextDone && !(s.h.dialing && s.h.dialDone == k) then 1 else 0)
    && (forall c :: c in s.callers && s.callers[c].pc.Waiting? ==> s.callers[c].pc.done < s.nextDone)
  }

  // Every dialled connection is installed, or in one caller's hands, or released once.
  ghost predicate Ownership(s: Sys) {
    && HoldersHold(s.callers, s.holder)
    && (forall k: nat :: s.released[k] <= 1)
    && (s.h.bridge.Some? ==>
          s.h.bridge.value < s.nextClient && s.h.bridge.value !in s.released && s.h.bridge.value !in s.holder)
    && (forall k: nat :: k in s.holder ==> k < s.nextClient && k !in s.released)
    && (forall k: nat :: k in s.released ==> k < s.nextClient)
    && (forall k: nat :: k < s.nextClient ==> s.h.bridge == Some(k) || k in s.released || k in s.holder)
  }

  ghost predicate HoldersHold(callers: map<nat, Caller>, holder: map<nat, nat>) {
    && (forall k :: k in holder ==> holder[k] in callers && InHand(callers[holder[k]].pc) == Some(k))
    && (forall c :: c in callers && InHand(callers[c].pc).Some? ==>
          InHand(callers[c].pc).value in holder && holder[InHand(callers[c].pc).value] == c)
  }

  // A dial that followed a failure, and was not the startup sweep's, started at least a
  // backoff after the failed one started.
  predicate DialsSpaced(dials: seq<Dial>) {
    forall i :: 0 < i < |dials| && !dials[i].initial && dials[i - 1].outcome.Failed? ==>
      dials[i].start - dials[i - 1].start >= BACKOFF
  }

  ghost predicate Backoff(s: Sys) {
    var n := |s.dials|;
    && (forall i :: 0 <= i < n ==> (s.dials[i].outcome.Pending? <==> s.h.dialing && i == n - 1))
    && (s.h.dialing ==> n > 0)
    && DialsSpaced(s.dials)
    && (n > 0 && s.dials[n - 1].outcome.Failed? ==> s.h.bridge.None? && s.h.err.Some?)
    && (n > 0 && !s.dials[n - 1].outcome.Connects? ==> s.h.lastTry == At(s.dials[n - 1].start))
  }

  // At most one background retry exists, and the flag says exactly whether one does.
  ghost predicate OneRetry(s: Sys) {
    && (forall c :: c in s.callers ==> (s.callers[c].retry <==> s.retrier == Some(c)))
    && (s.retrier.Some? ==> s.retrier.value in s.callers)
    && (s.h.retryScheduled <==> s.retrier.Some?)
  }

  ghost predicate Inv(s: Sys) {
    SingleFlight(s) && Channels(s) && Ownership(s) && Backoff(s) && OneRetry(s)
  }

  lemma StillHolds(callers: map<nat, Caller>, holder: map<nat, nat>, c: nat, pc: PC)
    requires HoldersHold(callers, holder) && c in callers && InHand(pc) == InHand(callers[c].pc)
    ensures HoldersHold(callers[c := callers[c].(pc := pc)], holder)
  {
  }

  lemma NowHolds(callers: map<nat, Caller>, holder: map<nat, nat>, c: nat, pc: PC, k: nat)
    requires HoldersHold(callers, holder) && c in callers && InHand(callers[c].pc).None?
    requires k !in holder && InHand(pc) == Some(k)
    ensures HoldersHold(callers[c := callers[c].(pc := pc)], holder[k := c])
  {
  }

  lemma NoLongerHolds(callers: map<nat, Caller>, holder: map<nat, nat>, c: nat, pc: PC, k: nat)
    requires HoldersHold(callers, holder) && c in callers && InHand(callers[c].pc) == Some(k) && InHand(pc).None?
    ensures HoldersHold(callers[c := callers[c].(pc := pc)], holder - {k})
  {
  }

  lemma EnterOwnership(s: Sys, c: nat)
    requires Ownership(s) && Enabled(s, Enter(c))
    ensures Ownership(Next(s, Enter(c)))
  {
    var s' := Next(s, Enter(c));
    var (h, b) := BeginConnect(s.h, s.callers[c].pc.initial, s.now, s.dead, s.nextDone);
    var pc := s'.callers[c].pc;
    if (b.Refused? || b.StartDial?) && s.h.bridge.Some? {
      NowHolds(s.callers, s.holder, c, pc, s.h.bridge.value);
    } else {
      StillHolds(s.callers, s.holder, c, pc);
    }
  }

  lemma ReleaseOwnership(s: Sys, c: nat)
    requires Ownership(s) && Enabled(s, Release(c))
    ensures Ownership(Next(s, Release(c)))
  {
    var s' := Next(s, Release(c));
    var pc := s'.callers[c].pc;
    var lost := s.callers[c].pc.lost;
    if lost.Some? {
      NoLongerHolds(s.callers, s.holder, c, pc, lost.value);
      assert lost.value in s.holder;
      assert s'.released[lost.value] == 1;
      assert forall k: nat :: k in s'.released <==> k in s.released || k == lost.value;
    } else {
      StillHolds(s.callers, s.holder, c, pc);
    }
  }

  lemma TickKeepsInv(s: Sys, d: nat)
    requires Inv(s) && Enabled(s, Tick(d))
    ensures Inv(Next(s, Tick(d)))
  {
  }

  lemma DieKeepsInv(s: Sys, k: nat)
    requires Inv(s) && Enabled(s, Die(k))
    ensures Inv(Next(s, Die(k)))
  {
  }

  lemma CallOwnership(s: Sys, c: nat, initial: bool)
    requires Ownership(s) && Enabled(s, Call(c, initial))
    ensures Ownership(Next(s, Call(c, initial)))
  {
  }

  lemma CallRest(s: Sys, c: nat, initial: bool)
    requires SingleFlight(s) && Channels(s) && Backoff(s) && OneRetry(s) && Enabled(s, Call(c, initial))
    ensures var s' := Next(s, Call(c, initial)); SingleFlight(s') && Channels(s') && Backoff(s') && OneRetry(s')
  {
  }

  lemma StatusOwnership(s: Sys, c: nat)
    requires Ownership(s) && Enabled(s, Status(c))
    ensures Ownership(Next(s, Status(c)))
  {
  }

  lemma StatusRest(s: Sys, c: nat)
    requires SingleFlight(s) && Channels(s) && Backoff(s) && OneRetry(s) && Enabled(s, Status(c))
    ensures var s' := Next(s, Status(c)); SingleFlight(s') && Channels(s') && Backoff(s') && OneRetry(s')
  {
  }

  lemma EnterFlight(s: Sys, c: nat)
    requires SingleFlight(s) && Enabled(s, Enter(c))
    ensures SingleFlight(Next(s, Enter(c)))
  {
  }

  lemma EnterRetry(s: Sys, c: nat)
    requires OneRetry(s) && Enabled(s, Enter(c))
    ensures OneRetry(Next(s, Enter(c)))
  {
  }

  lemma EnterChannels(s: Sys, c: nat)
    requires SingleFlight(s) && Channels(s) && Enabled(s, Enter(c))
    ensures Channels(Next(s, Enter(c)))
  {
  }

  lemma EnterBackoff(s: Sys, c: nat)
    requires SingleFlight(s) && Backoff(s) && Enabled(s, Enter(c))
    ensures Backoff(Next(s, Enter(c)))
  {
    hide IsDialler, InHand;
  }

  lemma ReleaseFlight(s: Sys, c: nat)
    requires SingleFlight(s) && OneRetry(s) && Enabled(s, Release(c))
    ensures var s' := Next(s, Release(c)); SingleFlight(s') && OneRetry(s')
  {
  }

  lemma ReleaseRest(s: Sys, c: nat)
    requires SingleFlight(s) && Channels(s) && Backoff(s) && Enabled(s, Release(c))
    ensures var s' := Next(s, Release(c)); Channels(s') && Backoff(s')
  {
  }

  lemma DialReturnsFlight(s: Sys, c: nat, ok: bool)
    requires SingleFlight(s) && OneRetry(s) && Enabled(s, DialReturns(c, ok))
    ensures var s' := Next(s, DialReturns(c, ok)); SingleFlight(s') && OneRetry(s')
  {
  }

  lemma DialReturnsRest(s: Sys, c: nat, ok: bool)
    requires SingleFlight(s) && Channels(s) && Backoff(s) && Enabled(s, DialReturns(c, ok))
    ensures var s' := Next(s, DialReturns(c, ok)); Channels(s') && Backoff(s')
  {
  }

  lemma FinishFlight(s: Sys, c: nat)
    requires SingleFlight(s) && OneRetry(s) && Enabled(s, Finish(c))
    ensures var s' := Next(s, Finish(c)); SingleFlight(s') && OneRetry(s')
  {
  }

  lemma FinishRest(s: Sys, c: nat)
    requires SingleFlight(s) && Channels(s) && Backoff(s) && Enabled(s, Finish(c))
    ensures var s' := Next(s, Finish(c)); Channels(s') && Backoff(s')
  {
  }

  lemma WakeRest(s: Sys, c: nat)
    requires SingleFlight(s) && Channels(s) && Backoff(s) && OneRetry(s) && Enabled(s, Wake(c))
    ensures var s' := Next(s, Wake(c)); SingleFlight(s') && Channels(s') && Backoff(s') && OneRetry(s')
  {
  }

  lemma LeaveRest(s: Sys, c: nat)
    requires SingleFlight(s) && Channels(s) && Backoff(s) && OneRetry(s) && Enabled(s, Leave(c))
    ensures var s' := Next(s, Leave(c)); SingleFlight(s') && Channels(s') && Backoff(s') && OneRetry(s')
  {
  }

  lemma DialReturnsOwnership(s: Sys, c: nat, ok: bool)
    requires Ownership(s) && Enabled(s, DialReturns(c, ok))
    ensures Ownership(Next(s, DialReturns(c, ok)))
  {
    var pc := Next(s, DialReturns(c, ok)).callers[c].pc;
    if ok {
      assert s.nextClient !in s.holder;
      NowHolds(s.callers, s.holder, c, pc, s.nextClient);
    } else {
      StillHolds(s.callers, s.holder, c, pc);
    }
  }

  lemma FinishOwnership(s: Sys, c: nat)
    requires Ownership(s) && SingleFlight(s) && Enabled(s, Finish(c))
    ensures Ownership(Next(s, Finish(c)))
  {
    var got := s.callers[c].pc.got;
    assert s.h.bridge.None?;
    if got.Some? {
      NoLongerHolds(s.callers, s.holder, c, Returned, got.value);
      assert got.value in s.holder;
    } else {
      StillHolds(s.callers, s.holder, c, Returned);
    }
  }

  lemma WakeOwnership(s: Sys, c: nat)
    requires Ownership(s) && Enabled(s, Wake(c))
    ensures Ownership(Next(s, Wake(c)))
  {
  }

  lemma LeaveOwnership(s: Sys, c: nat)
    requires Ownership(s) && Enabled(s, Leave(c))
    ensures Ownership(Next(s, Leave(c)))
  {
  }

  lemma StepKeepsInv(s: Sys, e: Event)
    requires Inv(s) && Enabled(s, e)
    ensures Inv(Next(s, e))
  {
    match e
    case Tick(d) => TickKeepsInv(s, d);
    case Die(k) => DieKeepsInv(s, k);
    case Call(c, initial) => CallRest(s, c, initial); CallOwnership(s, c, initial);
    case Status(c) => StatusRest(s, c); StatusOwnership(s, c);
    case Enter(c) =>
      EnterFlight(s, c);
      EnterRetry(s, c);
      EnterChannels(s, c);
      EnterBackoff(s, c);
      EnterOwnership(s, c);
    case Release(c) => ReleaseFlight(s, c); ReleaseRest(s, c); ReleaseOwnership(s, c);
    case DialReturns(c, ok) => DialReturnsFlight(s, c, ok); DialReturnsRest(s, c, ok); DialReturnsOwnership(s, c, ok);
    case Finish(c) => FinishFlight(s, c); FinishRest(s, c); FinishOwnership(s, c);
    case Wake(c) => WakeRest(s, c); WakeOwnership(s, c);
    case Leave(c) => LeaveRest(s, c); LeaveOwnership(s, c);
  }

  predicate Legal(s: Sys, es: seq<Event>)
    decreases |es|
  {
    es == [] || (Enabled(s, es[0]) && Legal(Next(s, es[0]), es[1..]))
  }

  function Exec(s: Sys, es: seq<Event>): Sys
    requires Legal(s, es)
    decreases |es|
  {
    if es == [] then s else Exec(Next(s, es[0]), es[1..])
  }

  lemma {:induction false} RunKeepsInv(s: Sys, es: seq<Event>)
    requires Inv(s) && Legal(s, es)
    ensures Inv(Exec(s, es))
    decreases |es|
  {
    if es != [] {
      StepKeepsInv(s, es[0]);
      RunKeepsInv(Next(s, es[0]), es[1..]);
    }
  }

  // ---------------------------------------------------------------- what every run guarantees

  // Who is responsible for a connection.
  datatype Owner = Installed | HeldBy(caller: nat) | ReleasedFor

  ghost predicate Owns(s: Sys, o: Owner, k: nat) {
    match o
    case Installed => s.h.bridge == Some(k)
    case HeldBy(c) => c in s.callers && InHand(s.callers[c].pc) == Some(k)
    case ReleasedFor => s.released[k] == 1
  }

  // In every interleaving: at most one dial is in flight and then no bridge is installed.
  lemma OneDialAtATime(s: Sys, es: seq<Event>, c: nat, d: nat)
    requires Initial(s) && Legal(s, es)
    requires var t := Exec(s, es);
             c in t.callers && d in t.callers && IsDialler(t.callers[c].pc) && IsDialler(t.callers[d].pc)
    ensures c == d && Exec(s, es).h.dialing && Exec(s, es).h.bridge.None?
  {
    RunKeepsInv(s, es);
  }

  // In every interleaving every connection ever dialled has exactly one owner, and is
  // released at most once.
  lemma OneOwner(s: Sys, es: seq<Event>, k: nat)
    requires Initial(s) && Legal(s, es) && k < Exec(s, es).nextClient
    ensures var t := Exec(s, es);
            && t.released[k] <= 1
            && exists o :: Owns(t, o, k) && forall p :: Owns(t, p, k) ==> p == o
  {
    RunKeepsInv(s, es);
    var t := Exec(s, es);
    var o := if t.h.bridge == Some(k) then Installed else if k in t.released then ReleasedFor else HeldBy(t.holder[k]);
    assert Owns(t, o, k);
    forall p | Owns(t, p, k) ensures p == o {
    }
  }

  // In every interleaving each channel handed out has been closed exactly once, except that of
  // the dial in flight, which has not; a caller left waiting is waiting for that dial, so none
  // is ever stranded.
  lemma ChannelsCloseOnce(s: Sys, es: seq<Event>, c: nat, k: nat)
    requires Initial(s) && Legal(s, es)
    ensures var t := Exec(s, es);
            && t.closed[k] == (if k < t.nextDone && !(t.h.dialing && t.h.dialDone == k) then 1 else 0)
            && (c in t.callers && t.callers[c].pc.Waiting? && !Enabled(t, Wake(c)) ==>
                  t.h.dialing && t.h.dialDone == t.callers[c].pc.done)
  {
    RunKeepsInv(s, es);
  }

  // Dials start in the order they are recorded in.
  predicate InOrder(s: Sys) {
    && (forall i, j :: 0 <= i < j < |s.dials| ==> s.dials[i].start <= s.dials[j].start)
    && (forall i :: 0 <= i < |s.dials| ==> s.dials[i].start <= s.now)
  }

  lemma StepKeepsOrder(s: Sys, e: Event)
    requires InOrder(s) && Enabled(s, e)
    ensures InOrder(Next(s, e))
  {
    match e
    case Enter(c) => EnterKeepsOrder(s, c);
    case Finish(c) =>
    case _ =>
      assert Next(s, e).dials == s.dials && Next(s, e).now >= s.now;
  }

  lemma EnterKeepsOrder(s: Sys, c: nat)
    requires InOrder(s) && Enabled(s, Enter(c))
    ensures InOrder(Next(s, Enter(c)))
  {
  }

  lemma {:induction false} RunKeepsOrder(s: Sys, es: seq<Event>)
    requires InOrder(s) && Legal(s, es)
    ensures InOrder(Exec(s, es))
    decreases |es|
  {
    if es != [] {
      StepKeepsOrder(s, es[0]);
      RunKeepsOrder(Next(s, es[0]), es[1..]);
    }
  }

  // In every interleaving a failed dial holds off every later one but the startup sweep's, until
  // a dial connects: they start at least the backoff after it, however many failed in between.
  lemma FailedDialHoldsOff(s: Sys, es: seq<Event>, i: nat, j: nat)
    requires Initial(s) && Legal(s, es)
    requires var d := Exec(s, es).dials;
             && i < j < |d| && d[i].outcome.Failed? && !d[j].initial
             && forall k :: i < k < j ==> !d[k].outcome.Connects?
    ensures Exec(s, es).dials[j].start - Exec(s, es).dials[i].start >= BACKOFF
  {
    RunKeepsInv(s, es);
    RunKeepsOrder(s, es);
    var t := Exec(s, es);
    hide *;
    HeldOff(t, i, j);
  }

  lemma HeldOff(t: Sys, i: nat, j: nat)
    requires Backoff(t) && InOrder(t)
    requires i < j < |t.dials| && t.dials[i].outcome.Failed? && !t.dials[j].initial
    requires forall k :: i < k < j ==> !t.dials[k].outcome.Connects?
    ensures t.dials[j].start - t.dials[i].start >= BACKOFF
  {
    assert t.dials[j - 1].outcome.Failed?;
  }

  // What a status read reports for a host, in terms of its dials: nothing while a link is
  // installed or none was dialled, the failure of a last dial that failed, and a lost connection
  // after one that connected.
  predicate ErrorExplained(s: Sys) {
    && (s.h.bridge.Some? || s.dials == [] ==> s.h.err.None?)
    && (s.dials != [] && s.h.bridge.None? ==>
          match s.dials[|s.dials| - 1].outcome
          case Pending => true
          case Failed => s.h.err == Some(DialError)
          case Connects => s.h.err == Some(ConnectionLost))
  }

  lemma EnterKeepsError(s: Sys, c: nat)
    requires ErrorExplained(s) && Enabled(s, Enter(c))
    ensures ErrorExplained(Next(s, Enter(c)))
  {
  }

  lemma FinishKeepsError(s: Sys, c: nat)
    requires SingleFlight(s) && Backoff(s) && ErrorExplained(s) && Enabled(s, Finish(c))
    ensures ErrorExplained(Next(s, Finish(c)))
  {
  }

  lemma StepKeepsError(s: Sys, e: Event)
    requires SingleFlight(s) && Backoff(s) && ErrorExplained(s) && Enabled(s, e)
    ensures ErrorExplained(Next(s, e))
  {
    match e
    case Enter(c) => EnterKeepsError(s, c);
    case Finish(c) => FinishKeepsError(s, c);
    case _ =>
      assert Next(s, e).dials == s.dials && Next(s, e).h.bridge == s.h.bridge && Next(s, e).h.err == s.h.err;
  }

  lemma {:induction false} ErrorAlongRun(s: Sys, es: seq<Event>)
    requires Inv(s) && ErrorExplained(s) && Legal(s, es)
    ensures ErrorExplained(Exec(s, es))
    decreases |es|
  {
    if es != [] {
      StepKeepsError(s, es[0]);
      StepKeepsInv(s, es[0]);
      ErrorAlongRun(Next(s, es[0]), es[1..]);
    }
  }

  lemma ErrorReported(s: Sys, es: seq<Event>)
    requires Initial(s) && Legal(s, es)
    ensures ErrorExplained(Exec(s, es))
  {
    ErrorAlongRun(s, es);
  }

  // In every interleaving repeated status reads queue at most one background retry.
  lemma OneRetryQueued(s: Sys, es: seq<Event>, c: nat, d: nat)
    requires Initial(s) && Legal(s, es)
    requires var t := Exec(s, es); c in t.callers && d in t.callers && t.callers[c].retry && t.callers[d].retry
    ensures c == d && Exec(s, es).h.retryScheduled
  {
    RunKeepsInv(s, es);
  }

  // What a refusal's stamp belongs to: with no dial made there is none, and after a dial
  // that connected either the bridge is still there or its loss has cleared the stamp.
  predicate StampExplained(s: Sys) {
    && (s.dials == [] ==> s.h.err.None? && s.h.lastTry.Never? && s.h.bridge.None?)
    && (s.dials != [] && s.dials[|s.dials| - 1].outcome.Connects? ==>
          s.h.bridge.Some? || s.h.lastTry.Never?)
  }

  lemma EnterKeepsStamp(s: Sys, c: nat)
    requires Backoff(s) && StampExplained(s) && Enabled(s, Enter(c))
    ensures StampExplained(Next(s, Enter(c)))
  {
  }

  lemma StepKeepsStampExplained(s: Sys, e: Event)
    requires Inv(s) && StampExplained(s) && Enabled(s, e)
    ensures StampExplained(Next(s, e))
  {
    match e
    case Enter(c) => EnterKeepsStamp(s, c);
    case Finish(c) =>
    case _ =>
      assert Next(s, e).dials == s.dials;
  }

  lemma {:induction false} RunKeepsStampExplained(s: Sys, es: seq<Event>)
    requires Inv(s) && StampExplained(s) && Legal(s, es)
    ensures StampExplained(Exec(s, es))
    decreases |es|
  {
    if es != [] {
      StepKeepsStampExplained(s, es[0]);
      StepKeepsInv(s, es[0]);
      RunKeepsStampExplained(Next(s, es[0]), es[1..]);
    }
  }

  predicate StartsDial(s: Sys, c: nat)
    requires Enabled(s, Enter(c))
  {
    |Next(s, Enter(c)).dials| == |s.dials| + 1
  }

  // The conditions of the branch, in terms of the dials made so far.
  predicate MayDial(s: Sys, c: nat)
    requires Enabled(s, Enter(c))
  {
    && !Connected(s.h, s.dead) && !s.h.dialing
    && (s.callers[c].pc.initial || s.dials == [] || s.dials[|s.dials| - 1].outcome.Connects?
        || s.now - s.dials[|s.dials| - 1].start >= BACKOFF)
  }

  lemma StartsDialHere(s: Sys, c: nat)
    requires Backoff(s) && StampExplained(s) && Enabled(s, Enter(c))
    ensures StartsDial(s, c) <==> MayDial(s, c)
  {
  }

  // Exactly which callers dial, in every interleaving: the link is down, nobody is dialling,
  // and the caller is the startup sweep, or the last dial did not fail (its link was lost
  // since, or none was made), or the backoff has run out.
  lemma StartsDialIff(start: Sys, es: seq<Event>, c: nat)
    requires Initial(start) && Legal(start, es) && Enabled(Exec(start, es), Enter(c))
    ensures StartsDial(Exec(start, es), c) <==> MayDial(Exec(start, es), c)
  {
    RunKeepsInv(start, es);
    RunKeepsStampExplained(start, es);
    StartsDialHere(Exec(start, es), c);
  }

  // Exactly when a status read schedules a background retry, in every interleaving: the link is
  // down, nobody is dialling, none is scheduled, and the last dial did not fail or its backoff
  // has run out; in particular a lost link is retried at once.
  lemma SchedulesRetryIff(start: Sys, es: seq<Event>, c: nat)
    requires Initial(start) && Legal(start, es) && Enabled(Exec(start, es), Status(c))
    ensures var t := Exec(start, es);
            var t' := Next(t, Status(c));
            && (c in t'.callers <==>
                  && !Connected(t.h, t.dead) && !t.h.dialing && t.retrier.None?
                  && (t.dials == [] || t.dials[|t.dials| - 1].outcome.Connects?
                      || t.now - t.dials[|t.dials| - 1].start >= BACKOFF))
            && (c in t'.callers ==> t'.callers[c] == Caller(Calling(false), true))
            && t'.callers - {c} == t.callers && t' == t.(callers := t'.callers, retrier := t'.retrier, h := t'.h)
  {
    RunKeepsInv(start, es);
    RunKeepsStampExplained(start, es);
    var t := Exec(start, es);
    hide Exec, Legal, Initial;
    RetryHere(t, c);
  }

  lemma RetryHere(t: Sys, c: nat)
    requires Backoff(t) && StampExplained(t) && OneRetry(t) && Enabled(t, Status(c))
    ensures var t' := Next(t, Status(c));
            && (c in t'.callers <==>
                  && !Connected(t.h, t.dead) && !t.h.dialing && t.retrier.None?
                  && (t.dials == [] || t.dials[|t.dials| - 1].outcome.Connects?
                      || t.now - t.dials[|t.dials| - 1].start >= BACKOFF))
            && (c in t'.callers ==> t'.callers[c] == Caller(Calling(false), true))
            && t'.callers - {c} == t.callers && t' == t.(callers := t'.callers, retrier := t'.retrier, h := t'.h)
  {
  }

  // What a caller gets, in every interleaving: the link if it is up; else a place among the
  // waiters of the dial in flight; else the dial, or a refusal.
  lemma EnterOutcome(start: Sys, es: seq<Event>, c: nat)
    requires Initial(start) && Legal(start, es) && Enabled(Exec(start, es), Enter(c))
    ensures var t := Exec(start, es);
            var pc := Next(t, Enter(c)).callers[c].pc;
            && (pc.Returned? <==> Connected(t.h, t.dead))
            && (pc.Waiting? <==> !Connected(t.h, t.dead) && t.h.dialing)
            && (pc.Waiting? ==> t.pilot.Some? && t.pilot.value in t.callers && Dials(t.callers[t.pilot.value].pc, pc.done))
            && ((pc.Releasing? && pc.after.GoDial?) <==> MayDial(t, c))
            && (pc.Releasing? ==> pc.lost == t.h.bridge)
  {
    RunKeepsInv(start, es);
    StartsDialIff(start, es, c);
  }

  // Exactly when a failure is forgotten: with the host idle and the link down, a caller other
  // than the startup sweep dials within the backoff of a failed dial if and only if the last
  // dial, hence a later one, connected.
  lemma RedialWithinBackoffIff(start: Sys, es: seq<Event>, c: nat, i: nat)
    requires Initial(start) && Legal(start, es) && Enabled(Exec(start, es), Enter(c))
    requires var t := Exec(start, es);
             && !Connected(t.h, t.dead) && !t.h.dialing && !t.callers[c].pc.initial
             && i < |t.dials| && t.dials[i].outcome.Failed? && t.now - t.dials[i].start < BACKOFF
    ensures var t := Exec(start, es);
            StartsDial(t, c) <==> t.dials[|t.dials| - 1].outcome.Connects?
  {
    StartsDialIff(start, es, c);
    RunKeepsOrder(start, es);
    var t := Exec(start, es);
    hide StartsDial, Exec, Legal, Initial;
    assert t.dials[i].start <= t.dials[|t.dials| - 1].start;
  }

  lemma {:induction false} ExecSnoc(s: Sys, es: seq<Event>, e: Event)
    requires Legal(s, es) && Enabled(Exec(s, es), e)
    ensures Legal(s, es + [e]) && Exec(s, es + [e]) == Next(Exec(s, es), e)
    decreases |es|
  {
    if es == [] {
      assert es + [e] == [e] && [e][1..] == [];
    } else {
      assert (es + [e])[1..] == es[1..] + [e];
      ExecSnoc(Next(s, es[0]), es[1..], e);
    }
  }

  lemma Then(s: Sys, es: seq<Event>, cur: Sys, e: Event) returns (es': seq<Event>, cur': Sys)
    requires Legal(s, es) && Exec(s, es) == cur && Enabled(cur, e)
    ensures Legal(s, es') && Exec(s, es') == cur' == Next(cur, e)
  {
    ExecSnoc(s, es, e);
    es', cur' := es + [e], Next(cur, e);
  }

  lemma DialBegins(s: Sys, es: seq<Event>, cur: Sys, c: nat, initial: bool)
    returns (es': seq<Event>, cur': Sys)
    requires Legal(s, es) && Exec(s, es) == cur
    requires c !in cur.callers && cur.h.bridge.None? && !cur.h.dialing
    requires initial || cur.h.err.None?
    ensures Legal(s, es') && Exec(s, es') == cur'
    ensures cur'.callers == cur.callers[c := Caller(Releasing(None, GoDial(cur.nextDone), initial), false)]
    ensures cur'.h.dialing && cur'.h.bridge.None?
    ensures cur'.now == cur.now && cur'.nextClient == cur.nextClient
    ensures cur'.dials == cur.dials + [Dial(cur.now, initial, Pending)]
  {
    es', cur' := Then(s, es, cur, Call(c, initial));
    es', cur' := Then(s, es', cur', Enter(c));
  }

  lemma DialEnds(s: Sys, es: seq<Event>, cur: Sys, c: nat, ok: bool)
    returns (es': seq<Event>, cur': Sys)
    requires Legal(s, es) && Exec(s, es) == cur
    requires c in cur.callers && cur.callers[c].pc.Releasing? && cur.callers[c].pc.lost.None?
             && cur.callers[c].pc.after.GoDial?
    requires cur.h.bridge.None? && cur.dials != []
    ensures Legal(s, es') && Exec(s, es') == cur'
    ensures cur'.callers.Keys == cur.callers.Keys && !cur'.h.dialing && cur'.now == cur.now
    ensures cur'.h.bridge == if ok then Some(cur.nextClient) else None
    ensures var n := |cur.dials| - 1;
            cur'.dials == cur.dials[n := cur.dials[n].(outcome := if ok then Connects else Failed)]
  {
    var mid;
    es', mid := Then(s, es, cur, Release(c));
    assert mid.callers[c].pc.Dialing? && mid.h == cur.h;
    es', mid := Then(s, es', mid, DialReturns(c, ok));
    es', cur' := FinishDial(s, es', mid, c);
  }

  lemma FinishDial(s: Sys, es: seq<Event>, cur: Sys, c: nat) returns (es': seq<Event>, cur': Sys)
    requires Legal(s, es) && Exec(s, es) == cur
    requires c in cur.callers && cur.callers[c].pc.Dialled? && cur.h.bridge.None? && cur.dials != []
    ensures Legal(s, es') && Exec(s, es') == cur'
    ensures cur'.callers.Keys == cur.callers.Keys && !cur'.h.dialing && cur'.now == cur.now
    ensures cur'.h.bridge == cur.callers[c].pc.got
    ensures var n := |cur.dials| - 1;
            cur'.dials == cur.dials[n := cur.dials[n].(outcome := if cur.callers[c].pc.got.Some? then Connects else Failed)]
  {
    es', cur' := Then(s, es, cur, Finish(c));
  }

  // One caller dials and reports, while nothing is connected and nobody else dials.
  lemma DialThrough(s: Sys, es: seq<Event>, cur: Sys, c: nat, initial: bool, ok: bool)
    returns (es': seq<Event>, cur': Sys)
    requires Legal(s, es) && Exec(s, es) == cur
    requires c !in cur.callers && cur.h.bridge.None? && !cur.h.dialing
    requires initial || cur.h.err.None?
    ensures Legal(s, es') && Exec(s, es') == cur'
    ensures cur'.callers.Keys == cur.callers.Keys + {c} && !cur'.h.dialing && cur'.now == cur.now
    ensures cur'.h.bridge == if ok then Some(cur.nextClient) else None
    ensures cur'.dials == cur.dials + [Dial(cur.now, initial, if ok then Connects else Failed)]
  {
    es', cur' := DialBegins(s, es, cur, c, initial);
    es', cur' := DialEnds(s, es', cur', c, ok);
  }

  // The backoff is counted from the LAST dial only: after a failed dial, a startup dial that
  // connects and is lost lets the next caller dial at once, within the backoff of the failure.
  lemma BackoffForgottenAcrossAConnect(s: Sys) returns (es: seq<Event>)
    requires Initial(s)
    ensures Legal(s, es)
    ensures var d := Exec(s, es).dials;
            |d| == 3 && d[0].outcome.Failed? && !d[2].initial && d[2].start - d[0].start < BACKOFF
  {
    var cur;
    es, cur := DialThrough(s, [], s, 0, false, false);
    es, cur := DialThrough(s, es, cur, 1, true, true);
    es, cur := Then(s, es, cur, Die(cur.h.bridge.value));
    es, cur := Then(s, es, cur, Call(2, false));
    es, cur := Then(s, es, cur, Enter(2));
  }
}
