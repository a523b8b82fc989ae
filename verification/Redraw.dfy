/** The timed redraw protocol of internal/daemon/redraw.go, with the input queue and the
    writer goroutine of internal/daemon/session.go. */
module Redraw {
  // A redraw key ("kick") is input. Two kicks that reach the SAME child within its clear
  // window wipe the conversation, so the daemon holds kicks apart on the child's clock.
  //
  // `State` is one pane seen as a value, `Next` one step of the whole protocol (a sender, the
  // timer, the writer, the process life cycle or the clock), and `Pane` the mutable object
  // whose methods are proved to perform exactly those steps.

  import opened Common

  const COOLDOWN: int := 3_000_000_000
  const CLEAR_WINDOW: int := 2_000_000_000
  const INPUT_QUEUE_SIZE: nat := 256
  // time.Time.Sub saturates; a zero stamp is centuries in the past.
  const MAX_DURATION: int := 0x7fff_ffff_ffff_ffff

  datatype Item = Kick | Other

  datatype Stamp = Never | At(t: int)

  datatype Timer = Timer(fireAt: int, gen: nat)

  // What the writer goroutine holds: nothing, an item it has received, or an item it is
  // writing to the child it found installed (None when no PTY was installed).
  datatype Flight = Idle | Taken(item: Item) | Writing(item: Item, child: Option<nat>)

  datatype State = State(
    now: int,
    last: Stamp,
    timer: Option<Timer>,
    kickSeq: nat,
    gen: nat,
    attached: bool,
    exited: bool,
    stopped: bool,
    enqueued: nat,
    written: nat,
    queue: seq<Item>,
    flight: Flight)

  const Fresh: State := State(0, Never, None, 0, 0, false, false, false, 0, 0, [], Idle)

  function Elapsed(now: int, last: Stamp): int {
    match last
    case Never => MAX_DURATION
    case At(t) => now - t
  }

  predicate Queued(s: State) { s.written < s.kickSeq }

  predicate Immediate(s: State, read: int) {
    Elapsed(read, s.last) >= COOLDOWN && !Queued(s)
  }

  function Wait(elapsed: int): (wait: int)
    ensures wait > 0
  {
    if COOLDOWN - elapsed <= 0 then COOLDOWN else COOLDOWN - elapsed
  }

  // recordRedrawEnqueue, taken as one step.
  function RecordEnqueue(s: State): State {
    if |s.queue| < INPUT_QUEUE_SIZE then
      s.(queue := s.queue + [Kick], enqueued := s.enqueued + 1, kickSeq := s.enqueued + 1)
    else s
  }

  // sendRedrawKey; `read` is the clock value read before the lock was taken.
  function Send(s: State, read: int): State {
    if Immediate(s, read) then RecordEnqueue(s.(last := At(read)))
    else if s.timer.None? then
      s.(timer := Some(Timer(s.now + Wait(Elapsed(read, s.last)), s.gen)))
    else s
  }

  predicate Stale(s: State, gen: nat) {
    !s.attached || s.gen != gen || s.exited || s.stopped
  }

  // deferredRedrawKey, run by the armed timer.
  function Fire(s: State): State
    requires s.timer.Some?
  {
    var gen := s.timer.value.gen;
    var remaining := COOLDOWN - Elapsed(s.now, s.last);
    if Stale(s, gen) || Queued(s) then s.(timer := None)
    else if remaining <= 0 then RecordEnqueue(s.(timer := None, last := At(s.now)))
    else s.(timer := Some(Timer(s.now + remaining, gen)))
  }

  function EnqueueOther(s: State): State {
    if |s.queue| < INPUT_QUEUE_SIZE then
      s.(queue := s.queue + [Other], enqueued := s.enqueued + 1)
    else s
  }

  // markInputWritten: the item left the queue; a kick restarts the cooldown from now.
  function Mark(s: State): State {
    var n := s.written + 1;
    s.(written := n, flight := Idle, last := if s.kickSeq != 0 && n == s.kickSeq then At(s.now) else s.last)
  }

  datatype Event =
    | Tick(d: nat)
    | SendKick(read: int)
    | TimerFires
    | OtherInput
    | Take
    | Bind
    | Complete(ok: bool)
    | Exit
    | Detach
    | Spawn
    | Stop

  // A kick that reached a child, and when.
  datatype Hit = Hit(child: nat, t: int)

  // The pane, what every child has received, and the latest request made of the live child.
  datatype Run = Run(s: State, log: seq<Hit>, asked: Option<int>)

  // A pane just created: no child, nothing sent, queued or asked for.
  predicate Created(r: Run) {
    && r.s.last.Never? && r.s.timer.None? && r.s.kickSeq == 0 && r.s.enqueued == 0 && r.s.written == 0
    && r.s.queue == [] && r.s.flight.Idle? && !r.s.attached && !r.s.exited && !r.s.stopped
    && r.log == [] && r.asked.None?
  }

  predicate Live(s: State) { s.attached && !s.exited && !s.stopped }

  predicate Enabled(r: Run, e: Event) {
    match e
    case Tick(_) => true
    case SendKick(read) => read <= r.s.now
    case TimerFires => r.s.timer.Some? && r.s.timer.value.fireAt <= r.s.now
    case OtherInput => true
    case Take => r.s.flight.Idle? && r.s.queue != []
    case Bind => r.s.flight.Taken?
    case Complete(ok) => r.s.flight.Writing? && (ok ==> r.s.flight.child.Some?)
    case Exit => r.s.attached
    case Detach => r.s.attached
    case Spawn => !r.s.attached
    case Stop => true
  }

  function Next(r: Run, e: Event): Run
    requires Enabled(r, e)
  {
    var s := r.s;
    match e
    case Tick(d) => r.(s := s.(now := s.now + d))
    case SendKick(read) => Run(Send(s, read), r.log, if Live(s) then Some(s.now) else r.asked)
    case TimerFires => r.(s := Fire(s))
    case OtherInput => r.(s := EnqueueOther(s))
    case Take => r.(s := s.(queue := s.queue[1..], flight := Taken(s.queue[0])))
    case Bind => r.(s := s.(flight := Writing(s.flight.item, if s.attached then Some(s.gen) else None)))
    case Complete(ok) =>
      Run(Mark(s),
          if ok && s.flight.item.Kick? then r.log + [Hit(s.flight.child.value, s.now)] else r.log,
          r.asked)
    case Exit => Run(s.(exited := true), r.log, None)
    case Detach => Run(s.(attached := false, exited := false), r.log, None)
    case Spawn =>
      Run(s.(attached := true, last := Never, kickSeq := 0, gen := s.gen + 1), r.log, None)
    case Stop => Run(s.(stopped := true, timer := None), r.log, None)
  }

  predicate Legal(r: Run, es: seq<Event>)
    decreases |es|
  {
    es == [] || (Enabled(r, es[0]) && Legal(Next(r, es[0]), es[1..]))
  }

  function Exec(r: Run, es: seq<Event>): Run
    requires Legal(r, es)
    decreases |es|
  {
    if es == [] then r else Exec(Next(r, es[0]), es[1..])
  }

  // ---------------------------------------------------------------- safety

  predicate Spaced(log: seq<Hit>) {
    forall i, j :: 0 <= i < j < |log| && log[i].child == log[j].child ==>
      log[j].t - log[i].t >= COOLDOWN
  }

  // A kick accepted but not yet handed to any particular child.
  predicate Unbound(s: State) {
    Kick in s.queue || s.flight == Taken(Kick)
  }

  // A kick that the child now installed has yet to receive.
  predicate Pending(s: State) {
    Unbound(s) || s.flight == Writing(Kick, Some(s.gen))
  }

  function Base(s: State): nat { s.written + if s.flight.Idle? then 0 else 1 }

  // What the counters say: an item still waited for, at position kickSeq, is a kick, and one
  // being written is being written to the installed child.
  predicate Counted(s: State) {
    && s.enqueued == Base(s) + |s.queue|
    && s.kickSeq <= s.enqueued
    && (s.flight.Writing? && s.written + 1 == s.kickSeq ==>
          s.flight.child == Some(s.gen) || (s.flight.child.None? && !s.attached))
    && (s.written < s.kickSeq ==>
          if s.kickSeq == s.written + 1 && !s.flight.Idle?
          then s.flight.item.Kick?
          else s.kickSeq > Base(s) && s.queue[s.kickSeq - Base(s) - 1].Kick?)
  }

  // Besides, no other item on its way to the installed child is a kick.
  predicate Positions(s: State) {
    && Counted(s)
    && (forall i :: 0 <= i < |s.queue| && s.queue[i].Kick? ==> Base(s) + i + 1 == s.kickSeq)
    && (s.flight == Taken(Kick) ==> s.written + 1 == s.kickSeq)
    && (s.flight == Writing(Kick, Some(s.gen)) ==> s.written + 1 == s.kickSeq)
  }

  predicate HitsBefore(log: seq<Hit>, child: nat, t: int) {
    forall i :: 0 <= i < |log| && log[i].child == child ==> log[i].t <= t
  }

  predicate Inv(r: Run) {
    var s := r.s;
    && Positions(s)
    && Spaced(r.log)
    && (forall i :: 0 <= i < |r.log| ==> r.log[i].child <= s.gen && r.log[i].t <= s.now)
    && (match s.last
        case Never => HitsBefore(r.log, s.gen, s.now - COOLDOWN)
                      && (forall i :: 0 <= i < |r.log| ==> r.log[i].child != s.gen)
        case At(t) => t <= s.now && HitsBefore(r.log, s.gen, t))
    && (Unbound(s) ==> HitsBefore(r.log, s.gen, s.now - COOLDOWN))
    && (s.flight.Writing? && s.flight.item.Kick? && s.flight.child.Some? ==>
          s.flight.child.value <= s.gen && HitsBefore(r.log, s.flight.child.value, s.now - COOLDOWN))
    && (s.timer.Some? ==> s.timer.value.gen <= s.gen)
    && (r.asked.Some? ==> Live(s) && r.asked.value <= s.now)
  }

  // Spawning over a kick that no child has been chosen for hands it to the new child.
  predicate SafeStep(r: Run, e: Event) {
    e.Spawn? ==> !Unbound(r.s)
  }

  lemma PositionsTake(s: State)
    requires Positions(s) && s.flight.Idle? && s.queue != []
    ensures Positions(s.(queue := s.queue[1..], flight := Taken(s.queue[0])))
  {
    var s' := s.(queue := s.queue[1..], flight := Taken(s.queue[0]));
    forall i | 0 <= i < |s'.queue| && s'.queue[i].Kick? ensures Base(s') + i + 1 == s'.kickSeq {
      assert s.queue[i + 1].Kick?;
    }
    if s.written < s.kickSeq {
      assert s.queue[s.kickSeq - Base(s) - 1].Kick?;
    }
  }

  lemma PositionsRecord(s: State)
    requires Positions(s) && !Queued(s)
    ensures Positions(RecordEnqueue(s))
  {
    if |s.queue| < INPUT_QUEUE_SIZE {
      var s' := RecordEnqueue(s);
      forall i | 0 <= i < |s'.queue| && s'.queue[i].Kick? ensures Base(s') + i + 1 == s'.kickSeq {
        if i < |s.queue| {
          assert false;
        }
      }
    }
  }

  // With every earlier kick drained, none is on its way to the installed child.
  lemma DrainedNotPending(s: State)
    requires Positions(s) && !Queued(s)
    ensures !Pending(s)
  {
  }

  // The queue check of both senders means exactly "a kick is on its way to the child".
  lemma QueuedMeansPending(s: State)
    requires Counted(s)
    ensures Queued(s) ==> Unbound(s) || (s.flight.Writing? && s.flight.item.Kick?)
    ensures Queued(s) && s.attached ==> Pending(s)
    ensures Positions(s) && Pending(s) ==> Queued(s)
  {
    if Queued(s) {
      if s.kickSeq == s.written + 1 && !s.flight.Idle? {
      } else {
        assert s.queue[s.kickSeq - Base(s) - 1].Kick?;
      }
    }
  }

  // Both senders: a kick enqueued a full cooldown after everything the child has received.
  lemma RecordKeepsInv(r: Run, t: int)
    requires Inv(r) && !Queued(r.s) && t <= r.s.now
    requires HitsBefore(r.log, r.s.gen, t - COOLDOWN)
    ensures Inv(r.(s := RecordEnqueue(r.s.(last := At(t)))))
  {
    PositionsRecord(r.s.(last := At(t)));
    DrainedNotPending(r.s);
  }

  lemma DueClearsHits(r: Run, read: int)
    requires Inv(r) && read <= r.s.now && Elapsed(read, r.s.last) >= COOLDOWN
    ensures HitsBefore(r.log, r.s.gen, read - COOLDOWN)
  {
  }

  lemma SendKeepsInv(r: Run, read: int)
    requires Inv(r) && read <= r.s.now
    ensures Inv(Next(r, SendKick(read)))
  {
    var r' := r.(asked := if Live(r.s) then Some(r.s.now) else r.asked);
    if Immediate(r.s, read) {
      DueClearsHits(r, read);
      RecordKeepsInv(r', read);
    }
  }

  lemma FireKeepsInv(r: Run)
    requires Inv(r) && Enabled(r, TimerFires)
    ensures Inv(Next(r, TimerFires))
  {
    var s := r.s;
    var r' := r.(s := s.(timer := None));
    assert Inv(r');
    if !Stale(s, s.timer.value.gen) && !Queued(s) && COOLDOWN - Elapsed(s.now, s.last) <= 0 {
      DueClearsHits(r', s.now);
      RecordKeepsInv(r', s.now);
    }
  }

  lemma PositionsMark(s: State)
    requires Positions(s) && s.flight.Writing?
    ensures Positions(Mark(s))
  {
  }

  lemma CompleteKeepsInv(r: Run, ok: bool)
    requires Inv(r) && Enabled(r, Complete(ok))
    ensures Inv(Next(r, Complete(ok)))
  {
    var s := r.s;
    var r' := Next(r, Complete(ok));
    PositionsMark(s);
    assert Spaced(r'.log);
    if ok && s.flight.item.Kick? {
      var child := s.flight.child.value;
      assert HitsBefore(r.log, child, s.now - COOLDOWN);
      if child == s.gen {
        assert s.written + 1 == s.kickSeq && r'.s.last == At(s.now);
        assert !Unbound(s);
      }
    }
  }

  lemma TakeKeepsInv(r: Run)
    requires Inv(r) && Enabled(r, Take)
    ensures Inv(Next(r, Take))
  {
    PositionsTake(r.s);
    assert r.s.queue[0] in r.s.queue;
  }

  lemma BindKeepsInv(r: Run)
    requires Inv(r) && Enabled(r, Bind)
    ensures Inv(Next(r, Bind))
  {
  }

  lemma OtherKeepsInv(r: Run)
    requires Inv(r)
    ensures Inv(Next(r, OtherInput))
  {
  }

  lemma LifeCycleKeepsInv(r: Run, e: Event)
    requires Inv(r) && Enabled(r, e) && SafeStep(r, e)
    requires e.Tick? || e.Exit? || e.Detach? || e.Stop? || e.Spawn?
    ensures Inv(Next(r, e))
  {
    if e.Spawn? {
      SpawnKeepsInv(r);
    }
  }

  lemma SpawnKeepsInv(r: Run)
    requires Inv(r) && Enabled(r, Spawn) && !Unbound(r.s)
    ensures Inv(Next(r, Spawn))
  {
  }

  lemma StepKeepsInv(r: Run, e: Event)
    requires Inv(r) && Enabled(r, e) && SafeStep(r, e)
    ensures Inv(Next(r, e))
  {
    match e
    case SendKick(read) => SendKeepsInv(r, read);
    case TimerFires => FireKeepsInv(r);
    case Complete(ok) => CompleteKeepsInv(r, ok);
    case Take => TakeKeepsInv(r);
    case Bind => BindKeepsInv(r);
    case OtherInput => OtherKeepsInv(r);
    case _ => LifeCycleKeepsInv(r, e);
  }

  predicate SafeRun(r: Run, es: seq<Event>)
    requires Legal(r, es)
    decreases |es|
  {
    es == [] || (SafeStep(r, es[0]) && SafeRun(Next(r, es[0]), es[1..]))
  }

  lemma {:induction false} RunKeepsInv(r: Run, es: seq<Event>)
    requires Inv(r) && Legal(r, es) && SafeRun(r, es)
    ensures Inv(Exec(r, es))
    decreases |es|
  {
    if es != [] {
      StepKeepsInv(r, es[0]);
      RunKeepsInv(Next(r, es[0]), es[1..]);
    }
  }

  // No two kicks are ever on their way to the same child.
  predicate OnePending(s: State) {
    && (forall i, j :: 0 <= i < j < |s.queue| ==> !(s.queue[i].Kick? && s.queue[j].Kick?))
    && (s.flight == Taken(Kick) || s.flight == Writing(Kick, Some(s.gen)) ==> Kick !in s.queue)
  }

  lemma InvOnePending(r: Run)
    requires Inv(r)
    ensures OnePending(r.s)
  {
    var s := r.s;
    forall i, j | 0 <= i < j < |s.queue| ensures !(s.queue[i].Kick? && s.queue[j].Kick?) {
      assert s.queue[i].Kick? ==> Base(s) + i + 1 == s.kickSeq;
      assert s.queue[j].Kick? ==> Base(s) + j + 1 == s.kickSeq;
    }
  }

  // Safety over every run: whatever the senders, the timer and a stalling writer do, the
  // kicks any one child receives are a full cooldown apart, and never two are in flight.
  lemma {:induction false} KicksAreSpaced(start: Run, es: seq<Event>)
    requires Created(start) && Legal(start, es) && SafeRun(start, es)
    ensures Spaced(Exec(start, es).log)
    ensures var log := Exec(start, es).log;
            forall i, j | 0 <= i < j < |log| && log[i].child == log[j].child ::
              log[j].t - log[i].t > CLEAR_WINDOW
    ensures OnePending(Exec(start, es).s)
  {
    RunKeepsInv(start, es);
    InvOnePending(Exec(start, es));
  }

  // ------------------------------------------------- the restart that breaks spacing

  lemma {:induction false} ExecAppend(r: Run, a: seq<Event>, b: seq<Event>)
    requires Legal(r, a) && Legal(Exec(r, a), b)
    ensures Legal(r, a + b) && Exec(r, a + b) == Exec(Exec(r, a), b)
    ensures SafeRun(r, a + b) <==> SafeRun(r, a) && SafeRun(Exec(r, a), b)
    decreases |a|
  {
    if a == [] {
      assert a + b == b;
    } else {
      ExecAppend(Next(r, a[0]), a[1..], b);
      assert (a + b)[1..] == a[1..] + b;
    }
  }

  lemma ExecOne(r: Run, e: Event)
    requires Enabled(r, e)
    ensures Legal(r, [e]) && Exec(r, [e]) == Next(r, e)
    ensures SafeStep(r, e) ==> SafeRun(r, [e])
  {
  }

  // A pane whose new child has, as far as the pane knows, been sent nothing.
  predicate Blank(s: State) {
    s.attached && s.kickSeq == 0 && s.last.Never?
  }

  function FlushRank(s: State): nat {
    3 * |s.queue| + match s.flight case Idle => 0 case Taken(_) => 2 case Writing(_, _) => 1
  }

  function FlushStep(s: State): Event
    requires FlushRank(s) > 0
  {
    match s.flight
    case Idle => Take
    case Taken(_) => Bind
    case Writing(_, child) => Complete(child.Some?)
  }

  // The writer drains everything at once, handing leftovers to the new child unnoticed.
  lemma {:induction false} Flush(r: Run) returns (es: seq<Event>)
    requires Blank(r.s)
    ensures Legal(r, es) && SafeRun(r, es)
    ensures var r' := Exec(r, es);
            && Blank(r'.s) && r'.s.queue == [] && r'.s.flight.Idle?
            && r'.s.now == r.s.now && r'.s.gen == r.s.gen
            && r.log <= r'.log
            && (Unbound(r.s) || r.s.flight == Writing(Kick, Some(r.s.gen)) ==>
                  Hit(r.s.gen, r.s.now) in r'.log)
    decreases FlushRank(r.s)
  {
    if FlushRank(r.s) == 0 {
      es := [];
    } else {
      var e := FlushStep(r.s);
      var r1 := Next(r, e);
      assert Blank(r1.s) && FlushRank(r1.s) < FlushRank(r.s);
      var rest := Flush(r1);
      es := [e] + rest;
      assert es[1..] == rest;
      if r.s.flight == Writing(Kick, Some(r.s.gen)) {
        assert r1.log[|r.log|] == Hit(r.s.gen, r.s.now);
      }
    }
  }

  lemma UnsafeSpawnPairs(r: Run) returns (es: seq<Event>)
    requires Enabled(r, Spawn) && Unbound(r.s)
    ensures Legal(Next(r, Spawn), es) && SafeRun(Next(r, Spawn), es)
    ensures !Spaced(Exec(Next(r, Spawn), es).log)
  {
    var r1 := Next(r, Spawn);
    var a := Flush(r1);
    var r2 := Exec(r1, a);
    var r3;
    es, r3 := SendAndDeliver(r1, a, r2);
    var i :| 0 <= i < |r2.log| && r2.log[i] == Hit(r1.s.gen, r1.s.now);
    assert r3.log[i] == r3.log[|r2.log|];
  }

  // It happens to every pane: started, sent a key that no writer picks up, and restarted.
  lemma RestartBreaksSpacing(start: Run) returns (before: seq<Event>, after: seq<Event>)
    requires Created(start)
    ensures Legal(start, before) && SafeRun(start, before) && Inv(Exec(start, before))
    ensures Enabled(Exec(start, before), Spawn)
    ensures var next := Next(Exec(start, before), Spawn); Legal(next, after) && SafeRun(next, after)
    ensures Legal(start, before + [Spawn] + after) && !Spaced(Exec(start, before + [Spawn] + after).log)
  {
    var cur;
    before, cur := Snoc(start, [], start, Spawn);
    before, cur := Snoc(start, before, cur, SendKick(cur.s.now));
    assert cur.s.queue[|cur.s.queue| - 1] == Kick;
    before, cur := Snoc(start, before, cur, Detach);
    RunKeepsInv(start, before);
    after := UnsafeSpawnPairs(cur);
    hide *;
    ExecOne(cur, Spawn);
    ExecAppend(start, before, [Spawn]);
    ExecAppend(start, before + [Spawn], after);
  }

  // Exactly when a restart is safe: installing a new child keeps every later run spaced if
  // and only if no kick is still waiting to be handed to a child at that moment.
  lemma SpawnSafeIff(r: Run)
    requires Inv(r) && Enabled(r, Spawn)
    ensures (forall es: seq<Event> :: Legal(Next(r, Spawn), es) && SafeRun(Next(r, Spawn), es) ==>
               Spaced(Exec(Next(r, Spawn), es).log))
            <==> !Unbound(r.s)
  {
    if Unbound(r.s) {
      var es := UnsafeSpawnPairs(r);
    } else {
      StepKeepsInv(r, Spawn);
      forall es: seq<Event> | Legal(Next(r, Spawn), es) && SafeRun(Next(r, Spawn), es)
        ensures Spaced(Exec(Next(r, Spawn), es).log)
      {
        RunKeepsInv(Next(r, Spawn), es);
      }
    }
  }

  // ---------------------------------------------------------------- no request is lost

  predicate Served(r: Run) {
    r.asked.Some? &&
    exists i :: 0 <= i < |r.log| && r.log[i].child == r.s.gen && r.log[i].t >= r.asked.value
  }

  predicate Armed(s: State) { s.timer.Some? && s.timer.value.gen == s.gen }

  // The latest request on the live child was painted since, or a kick or a timer will do it.
  predicate Covered(r: Run) {
    r.asked.None? || Served(r) || Pending(r.s) || Armed(r.s)
  }

  predicate Full(s: State) { |s.queue| >= INPUT_QUEUE_SIZE }

  // The guards under which a step drops the only thing standing for a request: a full input
  // queue refuses the kick, the single timer slot is still held for a previous child, or
  // the write itself fails.
  predicate LosesKick(r: Run, e: Event)
    requires Enabled(r, e)
  {
    var s := r.s;
    match e
    case SendKick(read) =>
      && Live(s) && !Armed(s) && !Pending(s) && !Served(r.(asked := Some(s.now)))
      && (if Immediate(s, read) then Full(s) else s.timer.Some?)
    case TimerFires =>
      && r.asked.Some? && Armed(s) && !Queued(s) && Full(s) && !Served(r) && !Pending(s)
      && Elapsed(s.now, s.last) >= COOLDOWN
    case Complete(ok) =>
      && !ok && r.asked.Some? && s.flight == Writing(Kick, Some(s.gen)) && Kick !in s.queue
      && !Armed(s) && !Served(r)
    case _ => false
  }

  // What coverage rests on. Unlike the spacing invariant it survives every restart, also one
  // over a kick that is still waiting for a child.
  predicate Tracked(r: Run) {
    var s := r.s;
    && Counted(s)
    && (s.timer.Some? ==> s.timer.value.gen <= s.gen)
    && (s.flight.Writing? && s.flight.child.Some? ==> s.flight.child.value <= s.gen)
    && (r.asked.Some? ==> Live(s) && r.asked.value <= s.now)
  }

  lemma CountedRecord(s: State)
    requires Counted(s) && !Queued(s)
    ensures Counted(RecordEnqueue(s))
  {
  }

  lemma SendKeepsTracked(r: Run, read: int)
    requires Tracked(r) && Enabled(r, SendKick(read))
    ensures Tracked(Next(r, SendKick(read)))
  {
    if Immediate(r.s, read) {
      CountedRecord(r.s.(last := At(read)));
    }
  }

  lemma FireKeepsTracked(r: Run)
    requires Tracked(r) && Enabled(r, TimerFires)
    ensures Tracked(Next(r, TimerFires))
  {
    if !Queued(r.s) {
      CountedRecord(r.s.(timer := None, last := At(r.s.now)));
    }
  }

  lemma WriterKeepsTracked(r: Run, e: Event)
    requires Tracked(r) && Enabled(r, e) && (e.Take? || e.Bind? || e.Complete?)
    ensures Tracked(Next(r, e))
  {
  }

  lemma OtherKeepsTracked(r: Run)
    requires Tracked(r)
    ensures Tracked(Next(r, OtherInput))
  {
  }

  lemma LifeCycleKeepsTracked(r: Run, e: Event)
    requires Tracked(r) && Enabled(r, e) && (e.Tick? || e.Exit? || e.Detach? || e.Stop? || e.Spawn?)
    ensures Tracked(Next(r, e))
  {
  }

  lemma StepKeepsTracked(r: Run, e: Event)
    requires Tracked(r) && Enabled(r, e)
    ensures Tracked(Next(r, e))
  {
    hide *;
    match e
    case SendKick(read) => SendKeepsTracked(r, read);
    case TimerFires => FireKeepsTracked(r);
    case Take => WriterKeepsTracked(r, e);
    case Bind => WriterKeepsTracked(r, e);
    case Complete(_) => WriterKeepsTracked(r, e);
    case OtherInput => OtherKeepsTracked(r);
    case _ => LifeCycleKeepsTracked(r, e);
  }

  lemma RecordPending(s: State)
    ensures !Full(s) ==> Pending(RecordEnqueue(s))
    ensures Full(s) ==> RecordEnqueue(s) == s
  {
    if !Full(s) {
      assert RecordEnqueue(s).queue[|s.queue|] == Kick;
    }
  }

  lemma SendCover(r: Run, read: int)
    requires Tracked(r) && Covered(r) && Enabled(r, SendKick(read))
    ensures Covered(Next(r, SendKick(read))) <==> !LosesKick(r, SendKick(read))
  {
    var s := r.s;
    var r' := Next(r, SendKick(read));
    if Immediate(s, read) {
      RecordPending(s.(last := At(read)));
    }
    if Live(s) {
      var q := r.(asked := Some(s.now));
      assert Served(r') == Served(q);
    }
  }

  lemma FireCover(r: Run)
    requires Tracked(r) && Covered(r) && Enabled(r, TimerFires)
    ensures Covered(Next(r, TimerFires)) <==> !LosesKick(r, TimerFires)
  {
    var s := r.s;
    var r' := Next(r, TimerFires);
    QueuedMeansPending(s);
    RecordPending(s.(timer := None, last := At(s.now)));
    assert Served(r') == Served(r);
  }

  lemma CompleteCover(r: Run, ok: bool)
    requires Tracked(r) && Covered(r) && Enabled(r, Complete(ok))
    ensures Covered(Next(r, Complete(ok))) <==> !LosesKick(r, Complete(ok))
  {
    var s := r.s;
    var r' := Next(r, Complete(ok));
    if r.asked.Some? && Served(r) {
      var i :| 0 <= i < |r.log| && r.log[i].child == s.gen && r.log[i].t >= r.asked.value;
      assert r'.log[i] == r.log[i];
    }
    if r.asked.Some? && s.flight == Writing(Kick, Some(s.gen)) && ok {
      assert r'.log[|r.log|] == Hit(s.gen, s.now);
    }
  }

  lemma WriterCover(r: Run, e: Event)
    requires Tracked(r) && Covered(r) && Enabled(r, e) && (e.Take? || e.Bind? || e.OtherInput?)
    ensures Covered(Next(r, e))
  {
    var s := r.s;
    var r' := Next(r, e);
    assert Served(r') == Served(r);
    if e.Take? && Kick in s.queue && s.queue[0] != Kick {
      var i :| 0 <= i < |s.queue| && s.queue[i] == Kick;
      assert r'.s.queue[i - 1] == Kick;
    }
    if e.OtherInput? && Kick in s.queue {
      var i :| 0 <= i < |s.queue| && s.queue[i] == Kick;
      assert r'.s.queue[i] == Kick;
    }
  }

  // One step keeps the latest request accounted for if and only if it is not one of the
  // losing guards.
  lemma StepCover(r: Run, e: Event)
    requires Tracked(r) && Covered(r) && Enabled(r, e)
    ensures Covered(Next(r, e)) <==> !LosesKick(r, e)
  {
    match e
    case SendKick(read) => SendCover(r, read);
    case TimerFires => FireCover(r);
    case Complete(ok) => CompleteCover(r, ok);
    case Tick(d) =>
      assert Served(Next(r, e)) == Served(r);
    case Exit =>
    case Detach =>
    case Spawn =>
    case Stop =>
    case _ => WriterCover(r, e);
  }

  predicate NothingLost(r: Run, es: seq<Event>)
    requires Legal(r, es)
    decreases |es|
  {
    es == [] || (!LosesKick(r, es[0]) && NothingLost(Next(r, es[0]), es[1..]))
  }

  // The latest request is accounted for at every moment of a run.
  predicate AlwaysCovered(r: Run, es: seq<Event>)
    requires Legal(r, es)
    decreases |es|
  {
    Covered(r) && (es == [] || AlwaysCovered(Next(r, es[0]), es[1..]))
  }

  lemma {:induction false} CoverAlongRun(r: Run, es: seq<Event>)
    requires Tracked(r) && Covered(r) && Legal(r, es)
    ensures AlwaysCovered(r, es) <==> NothingLost(r, es)
    ensures NothingLost(r, es) ==> Covered(Exec(r, es))
    decreases |es|
  {
    if es != [] {
      StepKeepsTracked(r, es[0]);
      StepCover(r, es[0]);
      if Covered(Next(r, es[0])) {
        CoverAlongRun(Next(r, es[0]), es[1..]);
      }
    }
  }

  // In every run, whatever it restarts over: each request of a live child is at every moment
  // repainted at or after it, or a kick is still queued, or a timer is armed, if and only if no
  // step is a losing one.
  lemma {:induction false} EveryRequestCovered(start: Run, es: seq<Event>)
    requires Created(start) && Legal(start, es)
    ensures AlwaysCovered(start, es) <==> NothingLost(start, es)
    ensures NothingLost(start, es) ==> Covered(Exec(start, es))
  {
    CoverAlongRun(start, es);
  }

  // ---------------------------------------------------------------- how long a request waits

  // Exactly when a request is painted at once: a cooldown has passed since the child's last key,
  // no key is on its way to it, and the queue has room.
  lemma SendsAtOnceIff(r: Run, read: int)
    requires Inv(r) && Live(r.s) && read <= r.s.now
    ensures var s := Send(r.s, read);
            && (s.queue == r.s.queue + [Kick] <==>
                  (r.s.last.At? ==> read - r.s.last.t >= COOLDOWN) && !Pending(r.s) && !Full(r.s))
            && (s.queue == r.s.queue || s.queue == r.s.queue + [Kick])
  {
    QueuedMeansPending(r.s);
  }

  // And when the timer paints: the child it was armed for is the one installed and lives, and the
  // same three hold.
  lemma FiresAtOnceIff(r: Run)
    requires Inv(r) && Enabled(r, TimerFires)
    ensures var s := Fire(r.s);
            && (s.queue == r.s.queue + [Kick] <==>
                  && Live(r.s) && Armed(r.s) && (r.s.last.At? ==> r.s.now - r.s.last.t >= COOLDOWN)
                  && !Pending(r.s) && !Full(r.s))
            && (s.queue == r.s.queue || s.queue == r.s.queue + [Kick])
  {
    QueuedMeansPending(r.s);
  }

  // A held request is held for what is left of the cooldown: with the clock read under the lock,
  // until exactly a cooldown after the child's last key; never less, and never more than a
  // cooldown from now.
  lemma HeldForTheRest(s: State, read: int)
    requires read <= s.now && s.timer.None? && Send(s, read).timer.Some?
    ensures var fireAt := Send(s, read).timer.value.fireAt;
            && (s.last.At? && s.last.t <= read ==> s.last.t + COOLDOWN <= fireAt <= s.now + COOLDOWN)
            && (s.last.At? && read == s.now < s.last.t + COOLDOWN ==> fireAt == s.last.t + COOLDOWN)
            && (s.last.Never? ==> fireAt == s.now + COOLDOWN)
  {
  }

  // A timer that fires too early is armed again for exactly a cooldown after the last key.
  lemma RearmedForTheRest(s: State)
    requires s.timer.Some? && Fire(s).timer.Some?
    ensures s.last.At? && Fire(s).timer.value.fireAt == s.last.t + COOLDOWN > s.now
  {
  }

  // Every sender reads the clock at most `lag` before it gets the lock.
  predicate LagAtMost(r: Run, es: seq<Event>, lag: nat)
    requires Legal(r, es)
    decreases |es|
  {
    es == [] || ((es[0].SendKick? ==> r.s.now - es[0].read <= lag) && LagAtMost(Next(r, es[0]), es[1..], lag))
  }

  predicate TimerSoon(s: State, lag: nat) {
    && (s.timer.Some? ==> s.timer.value.fireAt <= s.now + COOLDOWN + lag)
    && (s.last.At? ==> s.last.t <= s.now)
  }

  lemma StepKeepsSoon(r: Run, e: Event, lag: nat)
    requires TimerSoon(r.s, lag) && Enabled(r, e) && (e.SendKick? ==> r.s.now - e.read <= lag)
    ensures TimerSoon(Next(r, e).s, lag)
  {
  }

  lemma {:induction false} SoonAlongRun(r: Run, es: seq<Event>, lag: nat)
    requires TimerSoon(r.s, lag) && Tracked(r) && Legal(r, es) && LagAtMost(r, es, lag)
    ensures TimerSoon(Exec(r, es).s, lag) && Tracked(Exec(r, es))
    decreases |es|
  {
    if es != [] {
      hide Tracked, TimerSoon, Next, Enabled;
      StepKeepsSoon(r, es[0], lag);
      StepKeepsTracked(r, es[0]);
      SoonAlongRun(Next(r, es[0]), es[1..], lag);
    }
  }

  // Nothing but the clock, the timer and the writer.
  predicate Quiet(es: seq<Event>) {
    forall i :: 0 <= i < |es| ==> es[i].Tick? || es[i].TimerFires? || es[i].Take? || es[i].Bind? || es[i].Complete?
  }

  lemma Extend(r: Run, es: seq<Event>, cur: Run, e: Event) returns (es': seq<Event>, cur': Run)
    requires Legal(r, es) && Exec(r, es) == cur && Enabled(cur, e) && Quiet(es) && Quiet([e])
    ensures Legal(r, es') && Exec(r, es') == cur' == Next(cur, e) && Quiet(es')
  {
    ExecOne(cur, e);
    ExecAppend(r, es, [e]);
    es', cur' := es + [e], Next(cur, e);
  }

  // The same live child and the same request, with at least as many keys delivered.
  predicate Onward(r: Run, r': Run) {
    && r'.s.gen == r.s.gen && r'.s.timer == r.s.timer && Live(r'.s) && r'.asked == r.asked
    && r'.s.now == r.s.now && r.log <= r'.log
  }

  lemma ServedOnward(r: Run, r': Run)
    requires Onward(r, r') && Served(r)
    ensures Served(r')
  {
    var i :| 0 <= i < |r.log| && r.log[i].child == r.s.gen && r.log[i].t >= r.asked.value;
    assert r'.log[i] == r.log[i];
  }

  // One step of a writer that never fails: the child's last key moves only by serving it.
  lemma WriterStep(r: Run)
    requires Tracked(r) && r.asked.Some? && FlushRank(r.s) > 0
    ensures Enabled(r, FlushStep(r.s)) && Quiet([FlushStep(r.s)])
    ensures var r' := Next(r, FlushStep(r.s));
            && Onward(r, r') && FlushRank(r'.s) < FlushRank(r.s)
            && (Pending(r.s) ==> Pending(r'.s) || Served(r')) && (r'.s.last == r.s.last || Served(r'))
  {
    var r' := Next(r, FlushStep(r.s));
    if r.s.flight.Idle? && Kick in r.s.queue && r.s.queue[0] != Kick {
      var i :| 0 <= i < |r.s.queue| && r.s.queue[i] == Kick;
      assert r'.s.queue[i - 1] == Kick;
    }
    if r.s.flight.Writing? && r.s.flight.child == Some(r.s.gen) && r.s.flight.item.Kick? {
      assert r'.log[|r.log|] == Hit(r.s.gen, r.s.now);
    }
  }

  // A writer that does not stall empties the queue in no time.
  lemma {:induction false} Drain(r: Run) returns (es: seq<Event>)
    requires Tracked(r) && r.asked.Some?
    ensures Legal(r, es) && Quiet(es)
    ensures var r' := Exec(r, es);
            && Tracked(r') && Onward(r, r') && r'.s.queue == [] && r'.s.flight.Idle?
            && (Served(r) || Pending(r.s) ==> Served(r')) && (r'.s.last == r.s.last || Served(r'))
    decreases FlushRank(r.s)
  {
    if FlushRank(r.s) == 0 {
      es := [];
      assert !Pending(r.s) && Exec(r, es) == r;
    } else {
      var e := FlushStep(r.s);
      var r1 := Next(r, e);
      WriterStep(r);
      StepKeepsTracked(r, e);
      hide Tracked, Next, FlushStep, FlushRank, Served, Pending;
      var rest := Drain(r1);
      es := [e] + rest;
      assert es[1..] == rest && es[0] == e;
      if Served(r) {
        ServedOnward(r, r1);
      }
    }
  }

  // The timer fires at an empty queue a cooldown after the last key, and the key is written.
  lemma FireAndDeliver(r: Run) returns (es: seq<Event>)
    requires Tracked(r) && r.asked.Some? && r.s.queue == [] && r.s.flight.Idle?
    requires Armed(r.s) && r.s.timer.value.fireAt <= r.s.now && Elapsed(r.s.now, r.s.last) >= COOLDOWN
    ensures Legal(r, es) && Quiet(es)
    ensures var r' := Exec(r, es); Served(r') && r'.asked == r.asked && r'.s.now == r.s.now
  {
    var cur;
    es, cur := Extend(r, [], r, TimerFires);
    assert cur.s.queue == [Kick];
    es, cur := Extend(r, es, cur, Take);
    es, cur := Extend(r, es, cur, Bind);
    es, cur := Extend(r, es, cur, Complete(true));
    assert cur.log[|r.log|] == Hit(r.s.gen, r.s.now);
  }

  // It may be armed once more, until a cooldown after the last key.
  lemma WaitAndDeliver(r: Run, lag: nat) returns (es: seq<Event>)
    requires Tracked(r) && TimerSoon(r.s, lag) && r.asked.Some? && r.s.queue == [] && r.s.flight.Idle? && Armed(r.s)
    ensures Legal(r, es) && Quiet(es)
    ensures var r' := Exec(r, es); Served(r') && r'.asked == r.asked && r'.s.now <= r.s.now + COOLDOWN + lag
  {
    var wait := r.s.timer.value.fireAt - r.s.now;
    var cur;
    es, cur := Extend(r, [], r, Tick(if wait > 0 then wait else 0));
    if Elapsed(cur.s.now, cur.s.last) < COOLDOWN {
      es, cur := Extend(r, es, cur, TimerFires);
      assert cur.s.timer.value.fireAt == cur.s.last.t + COOLDOWN;
      es, cur := Extend(r, es, cur, Tick(cur.s.timer.value.fireAt - cur.s.now));
    }
    var last := FireAndDeliver(cur);
    hide *;
    ExecAppend(r, es, last);
    QuietBoth(es, last);
    es := es + last;
  }

  lemma QuietBoth(a: seq<Event>, b: seq<Event>)
    requires Quiet(a) && Quiet(b)
    ensures Quiet(a + b)
  {
  }

  // Bounded response, in every run: while a request is accounted for, nothing but the clock, the
  // timer and a writer that does not stall is needed to paint it, and no more than a cooldown
  // passes, plus what a sender's reading of the clock may lag behind.
  lemma PaintedWithinCooldown(start: Run, es: seq<Event>, lag: nat) returns (more: seq<Event>)
    requires Created(start) && Legal(start, es) && LagAtMost(start, es, lag)
    requires Covered(Exec(start, es)) && Exec(start, es).asked.Some?
    ensures Legal(start, es + more) && Quiet(more)
    ensures var cur, r := Exec(start, es), Exec(start, es + more);
            Served(r) && r.asked == cur.asked && r.s.now <= cur.s.now + COOLDOWN + lag
  {
    var cur := Exec(start, es);
    SoonAlongRun(start, es, lag);
    more := Drain(cur);
    var drained := Exec(cur, more);
    if !Served(drained) {
      assert Armed(drained.s) && drained.s.last == cur.s.last;
      var last := WaitAndDeliver(drained, lag);
      hide *;
      ExecAppend(cur, more, last);
      QuietBoth(more, last);
      more := more + last;
    }
    hide *;
    ExecAppend(start, es, more);
  }

  lemma Snoc(r: Run, es: seq<Event>, cur: Run, e: Event) returns (es': seq<Event>, cur': Run)
    requires Legal(r, es) && SafeRun(r, es) && Exec(r, es) == cur
    requires Enabled(cur, e) && SafeStep(cur, e)
    ensures Legal(r, es') && SafeRun(r, es') && Exec(r, es') == cur' == Next(cur, e)
  {
    ExecOne(cur, e);
    ExecAppend(r, es, [e]);
    es', cur' := es + [e], Next(cur, e);
  }

  // One request, delivered at once: sent, received by the writer, bound and written.
  lemma SendAndDeliver(r: Run, es: seq<Event>, cur: Run) returns (es': seq<Event>, cur': Run)
    requires Legal(r, es) && SafeRun(r, es) && Exec(r, es) == cur
    requires Blank(cur.s) && cur.s.queue == [] && cur.s.flight.Idle?
    ensures Legal(r, es') && SafeRun(r, es') && Exec(r, es') == cur'
    ensures cur' == Run(
              cur.s.(last := At(cur.s.now), kickSeq := cur.s.enqueued + 1, enqueued := cur.s.enqueued + 1,
                     written := cur.s.written + 1),
              cur.log + [Hit(cur.s.gen, cur.s.now)], if Live(cur.s) then Some(cur.s.now) else cur.asked)
  {
    es', cur' := Snoc(r, es, cur, SendKick(cur.s.now));
    es', cur' := Snoc(r, es', cur', Take);
    es', cur' := Snoc(r, es', cur', Bind);
    es', cur' := Snoc(r, es', cur', Complete(true));
  }

  // A pane that has no child and has nothing queued; one just created is such a pane.
  predicate Unspawned(r: Run) {
    && !r.s.attached && !r.s.exited && !r.s.stopped && r.s.timer.None?
    && r.s.queue == [] && r.s.flight.Idle? && r.s.written == r.s.enqueued
    && r.log == []
  }

  // A live child just painted, nothing queued, and the timer slot held for a previous child.
  predicate SlotTaken(r: Run) {
    && Live(r.s) && r.s.last == At(r.s.now) && !Queued(r.s)
    && r.s.queue == [] && r.s.flight.Idle?
    && r.s.timer.Some? && r.s.timer.value.gen < r.s.gen
    && HitsBefore(r.log, r.s.gen, r.s.now)
  }

  lemma ArmForFirstChild(start: Run) returns (es: seq<Event>, cur: Run)
    requires Unspawned(start)
    ensures Legal(start, es) && SafeRun(start, es) && Exec(start, es) == cur
    ensures cur.s.attached && !cur.s.stopped && cur.s.queue == [] && cur.s.flight.Idle?
    ensures cur.s.written == cur.s.enqueued
    ensures Armed(cur.s) && |cur.log| == 1 && cur.log[0].child == cur.s.gen
  {
    es, cur := Snoc(start, [], start, Spawn);
    es, cur := SendAndDeliver(start, es, cur);
    es, cur := Snoc(start, es, cur, SendKick(cur.s.now));
  }

  lemma ReachSlotTaken(start: Run) returns (es: seq<Event>, cur: Run)
    requires Unspawned(start)
    ensures Legal(start, es) && SafeRun(start, es) && Exec(start, es) == cur && SlotTaken(cur)
  {
    es, cur := ArmForFirstChild(start);
    es, cur := Snoc(start, es, cur, Detach);
    es, cur := Snoc(start, es, cur, Spawn);
    es, cur := SendAndDeliver(start, es, cur);
  }

  // Losing a request needs neither a full queue nor a failed write: a timer armed for the
  // previous child occupies the slot, so the new child's second request is dropped.
  lemma StaleTimerLosesARequest(start: Run) returns (es: seq<Event>)
    requires Unspawned(start)
    ensures Legal(start, es) && SafeRun(start, es)
    ensures !Covered(Exec(start, es)) && Exec(start, es).s.queue == []
  {
    var cur;
    es, cur := ReachSlotTaken(start);
    es, cur := Snoc(start, es, cur, Tick(1));
    es, cur := Snoc(start, es, cur, SendKick(cur.s.now));
  }

  // ---------------------------------------------------------------- the pane itself

  class Pane {
    var lastRedrawAt: Stamp
    var redrawTimer: Option<Timer>
    var redrawSeq: nat
    var ptyGen: nat
    var hasPty: bool
    var hasExited: bool
    var inputStopped: bool
    var inputEnqueued: nat
    var inputWritten: nat
    var inputCh: seq<Item>
    var writing: Flight

    function View(now: int): State
      reads this
    {
      State(now, lastRedrawAt, redrawTimer, redrawSeq, ptyGen, hasPty, hasExited, inputStopped,
            inputEnqueued, inputWritten, inputCh, writing)
    }

    constructor ()
      ensures View(0) == Fresh
    {
      lastRedrawAt, redrawTimer, redrawSeq, ptyGen := Never, None, 0, 0;
      hasPty, hasExited, inputStopped := false, false, false;
      inputEnqueued, inputWritten, inputCh, writing := 0, 0, [], Idle;
    }

    method EnqueueInputSeq(data: Item) returns (pos: nat, ok: bool)
      modifies this`inputCh, this`inputEnqueued
      ensures ok == (|old(inputCh)| < INPUT_QUEUE_SIZE)
      ensures ok ==> inputCh == old(inputCh) + [data] && inputEnqueued == old(inputEnqueued) + 1 && pos == inputEnqueued
      ensures !ok ==> inputCh == old(inputCh) && inputEnqueued == old(inputEnqueued)
    {
      pos, ok := 0, false;
      if |inputCh| < INPUT_QUEUE_SIZE {
        inputCh := inputCh + [data];
        inputEnqueued := inputEnqueued + 1;
        pos, ok := inputEnqueued, true;
      }
    }

    method RecordRedrawEnqueue(now: int)
      modifies this
      ensures View(now) == RecordEnqueue(old(View(now)))
    {
      var pos, ok := EnqueueInputSeq(Kick);
      if !ok {
        return;
      }
      redrawSeq := pos;
    }

    method SendRedrawKey(key: string, read: int, now: int)
      requires read <= now
      modifies this
      ensures View(now) == if key == "" then old(View(now)) else Send(old(View(now)), read)
    {
      if key == "" {
        return;
      }
      var queued := inputWritten < redrawSeq;
      var elapsed := Elapsed(read, lastRedrawAt);
      var due := elapsed >= COOLDOWN;
      var immediate := due && !queued;
      if immediate {
        lastRedrawAt := At(read);
      } else if redrawTimer.None? {
        var wait := COOLDOWN - elapsed;
        if wait <= 0 {
          wait := COOLDOWN;
        }
        redrawTimer := Some(Timer(now + wait, ptyGen));
      }
      if immediate {
        RecordRedrawEnqueue(now);
      }
    }

    method DeferredRedrawKey(gen: nat, now: int)
      requires redrawTimer.Some? && redrawTimer.value.gen == gen
      modifies this
      ensures View(now) == Fire(old(View(now)))
    {
      redrawTimer := None;
      var stale := !hasPty || ptyGen != gen || hasExited || inputStopped;
      var delivered := inputWritten >= redrawSeq;
      var remaining := COOLDOWN - Elapsed(now, lastRedrawAt);
      if !stale && delivered && remaining <= 0 {
        lastRedrawAt := At(now);
      } else if !stale && delivered {
        redrawTimer := Some(Timer(now + remaining, gen));
      }
      if stale {
        return;
      }
      if delivered && remaining > 0 {
        return;
      }
      if !delivered {
        return;
      }
      RecordRedrawEnqueue(now);
    }

    method MarkInputWritten(now: int)
      requires writing.Writing?
      modifies this
      ensures View(now) == Mark(old(View(now)))
    {
      inputWritten := inputWritten + 1;
      var n := inputWritten;
      if redrawSeq != 0 && n == redrawSeq {
        lastRedrawAt := At(now);
      }
      writing := Idle;
    }

    // spawnPane's locked span: a fresh child has received nothing.
    method InstallPty(now: int)
      requires !hasPty
      modifies this
      ensures View(now) == old(View(now)).(attached := true, last := Never, kickSeq := 0, gen := old(ptyGen) + 1)
    {
      hasPty := true;
      lastRedrawAt := Never;
      redrawSeq := 0;
      ptyGen := ptyGen + 1;
    }

    method StopInput(now: int)
      modifies this
      ensures View(now) == old(View(now)).(timer := None, stopped := true)
    {
      redrawTimer := None;
      inputStopped := true;
    }
  }
}
