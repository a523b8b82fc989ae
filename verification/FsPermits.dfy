/** The process-wide permit counter of internal/daemon/browse.go. */
module FsPermits {
  // A claim is an atomic add, a comparison of the value it returned, and, when that is over the
  // caller's limit, an atomic subtraction: three steps that any other claim or release may come
  // between.

  const MAX_CALLS := 8
  const MAX_ROOT_PROBES := MAX_CALLS / 2

  function Effective(limit: int): int { if limit > MAX_CALLS then MAX_CALLS else limit }

  // A caller: idle, holding the value its add returned, about to undo its add, or granted
  // (until its worker releases). `limit` is the effective one.
  datatype Proc =
    | Idle
    | Added(limit: int, seen: int)
    | Undoing
    | Granted(limit: int)

  datatype Sys = Sys(counter: int, procs: seq<Proc>)

  datatype Event = Add(i: nat, limit: int) | Compare(i: nat) | Undo(i: nat) | Release(i: nat)

  function Next(s: Sys, e: Event): Sys {
    match e
    case Add(i, limit) =>
      if i < |s.procs| && s.procs[i].Idle?
      then Sys(s.counter + 1, s.procs[i := Added(Effective(limit), s.counter + 1)]) else s
    case Compare(i) =>
      if i < |s.procs| && s.procs[i].Added?
      then s.(procs := s.procs[i := if s.procs[i].seen > s.procs[i].limit then Undoing else Granted(s.procs[i].limit)])
      else s
    case Undo(i) =>
      if i < |s.procs| && s.procs[i].Undoing? then Sys(s.counter - 1, s.procs[i := Idle]) else s
    case Release(i) =>
      if i < |s.procs| && s.procs[i].Granted? then Sys(s.counter - 1, s.procs[i := Idle]) else s
  }

  function Exec(s: Sys, es: seq<Event>): Sys {
    if es == [] then s else Next(Exec(s, es[..|es| - 1]), es[|es| - 1])
  }

  ghost predicate Initial(s: Sys) {
    s.counter == 0 && forall i :: 0 <= i < |s.procs| ==> s.procs[i].Idle?
  }

  // ---------------------------------------------------------------- counting

  function Busy(p: Proc): nat { if p.Idle? then 0 else 1 }

  // Granted, or bound to be: its add saw a value within its limit.
  function Holds(p: Proc, level: int): nat {
    match p
    case Added(limit, seen) => if seen <= limit <= level then 1 else 0
    case Granted(limit) => if limit <= level then 1 else 0
    case _ => 0
  }

  function Granted1(p: Proc, level: int): nat { if p.Granted? && p.limit <= level then 1 else 0 }

  function BusyCount(ps: seq<Proc>): nat {
    if ps == [] then 0 else Busy(ps[0]) + BusyCount(ps[1..])
  }

  function HolderCount(ps: seq<Proc>, level: int): nat {
    if ps == [] then 0 else Holds(ps[0], level) + HolderCount(ps[1..], level)
  }

  // Permits out at this moment to callers with at most this limit.
  function GrantedCount(ps: seq<Proc>, level: int): nat {
    if ps == [] then 0 else Granted1(ps[0], level) + GrantedCount(ps[1..], level)
  }

  lemma {:induction false} Updated(ps: seq<Proc>, i: nat, p: Proc, level: int)
    requires i < |ps|
    ensures BusyCount(ps[i := p]) == BusyCount(ps) - Busy(ps[i]) + Busy(p)
    ensures HolderCount(ps[i := p], level) == HolderCount(ps, level) - Holds(ps[i], level) + Holds(p, level)
    ensures GrantedCount(ps[i := p], level) == GrantedCount(ps, level) - Granted1(ps[i], level) + Granted1(p, level)
    decreases |ps|
  {
    var qs := ps[i := p];
    if i == 0 {
      assert qs[1..] == ps[1..];
    } else {
      assert qs[1..] == ps[1..][i - 1 := p];
      Updated(ps[1..], i - 1, p, level);
    }
  }

  lemma {:induction false} HoldersAreBusy(ps: seq<Proc>, level: int)
    ensures GrantedCount(ps, level) <= HolderCount(ps, level) <= BusyCount(ps)
    decreases |ps|
  {
    if ps != [] {
      HoldersAreBusy(ps[1..], level);
    }
  }

  lemma {:induction false} NoneBusy(ps: seq<Proc>)
    ensures BusyCount(ps) == 0 <==> forall i :: 0 <= i < |ps| ==> ps[i].Idle?
    decreases |ps|
  {
    if ps != [] {
      NoneBusy(ps[1..]);
      assert forall i :: 0 <= i < |ps[1..]| ==> ps[1..][i] == ps[i + 1];
      if forall i :: 0 <= i < |ps[1..]| ==> ps[1..][i].Idle? {
        forall i | 1 <= i < |ps| ensures ps[i].Idle? {
          assert ps[1..][i - 1] == ps[i];
        }
      }
    }
  }

  // ---------------------------------------------------------------- the invariant

  // The counter counts the busy; and those who hold, or are bound to, under a limit of at most
  // `level` are never more than `level`.
  ghost predicate Inv(s: Sys, level: nat) {
    s.counter == BusyCount(s.procs) && HolderCount(s.procs, level) <= level
  }

  lemma NextKeepsInv(s: Sys, e: Event, level: nat)
    requires Inv(s, level)
    ensures Inv(Next(s, e), level)
  {
    if e.i < |s.procs| {
      Updated(s.procs, e.i, Next(s, e).procs[e.i], level);
      HoldersAreBusy(s.procs, level);
    }
  }

  lemma {:induction false} RunKeepsInv(s: Sys, es: seq<Event>, level: nat)
    requires Initial(s)
    ensures Inv(Exec(s, es), level)
    decreases |es|
  {
    if es == [] {
      NoneBusy(s.procs);
      HoldersAreBusy(s.procs, level);
    } else {
      RunKeepsInv(s, es[..|es| - 1], level);
      NextKeepsInv(Exec(s, es[..|es| - 1]), es[|es| - 1], level);
    }
  }

  // ---------------------------------------------------------------- what callers may rely on

  // In every interleaving, over any number of claims: callers with a limit of `level` or less
  // never have more than `level` permits between them.
  lemma PermitsBounded(s: Sys, es: seq<Event>, level: nat)
    requires Initial(s)
    ensures GrantedCount(Exec(s, es).procs, level) <= level
  {
    RunKeepsInv(s, es, level);
    HoldersAreBusy(Exec(s, es).procs, level);
  }

  lemma {:induction false} LimitsCapped(ps: seq<Proc>)
    requires forall i :: 0 <= i < |ps| && ps[i].Granted? ==> ps[i].limit <= MAX_CALLS
    ensures forall level :: level >= MAX_CALLS ==> GrantedCount(ps, level) == GrantedCount(ps, MAX_CALLS)
    decreases |ps|
  {
    if ps != [] {
      assert forall i :: 0 <= i < |ps[1..]| ==> ps[1..][i] == ps[i + 1];
      LimitsCapped(ps[1..]);
    }
  }

  ghost predicate Capped(p: Proc) { (p.Added? || p.Granted?) ==> p.limit <= MAX_CALLS }

  lemma {:induction false} RunKeepsCapped(s: Sys, es: seq<Event>)
    requires Initial(s)
    ensures forall i :: 0 <= i < |Exec(s, es).procs| ==> Capped(Exec(s, es).procs[i])
    decreases |es|
  {
    if es != [] {
      RunKeepsCapped(s, es[..|es| - 1]);
    }
  }

  // All the permits there are, whoever asked for them.
  lemma AllPermitsBounded(s: Sys, es: seq<Event>, level: nat)
    requires Initial(s) && level >= MAX_CALLS
    ensures GrantedCount(Exec(s, es).procs, level) <= MAX_CALLS
  {
    PermitsBounded(s, es, MAX_CALLS);
    RunKeepsCapped(s, es);
    assert forall i :: 0 <= i < |Exec(s, es).procs| ==> Capped(Exec(s, es).procs[i]);
    LimitsCapped(Exec(s, es).procs);
  }

  // Root probes, over any number of sweeps, leave half the pool to the reads they precede.
  lemma RootProbesLeaveReserve(s: Sys, es: seq<Event>)
    requires Initial(s)
    ensures GrantedCount(Exec(s, es).procs, MAX_ROOT_PROBES) <= MAX_ROOT_PROBES
  {
    PermitsBounded(s, es, MAX_ROOT_PROBES);
  }

  // The counter is back at zero exactly when nobody claims and every worker has finished.
  lemma ZeroIffQuiet(s: Sys, es: seq<Event>)
    requires Initial(s)
    ensures Exec(s, es).counter == 0 <==> forall i :: 0 <= i < |Exec(s, es).procs| ==> Exec(s, es).procs[i].Idle?
  {
    RunKeepsInv(s, es, 0);
    NoneBusy(Exec(s, es).procs);
  }

  lemma {:induction false} SeenStays(s: Sys, es: seq<Event>, i: nat)
    requires i < |s.procs| && s.procs[i].Added? && forall k :: 0 <= k < |es| ==> es[k] != Compare(i)
    ensures i < |Exec(s, es).procs| && Exec(s, es).procs[i] == s.procs[i]
    decreases |es|
  {
    if es != [] {
      SeenStays(s, es[..|es| - 1], i);
    }
  }

  // A claim is granted exactly when, at its add, the permits out and the claims in progress left
  // room, whatever any caller does between its add and its comparison: a refused claim not yet
  // undone takes a place, and a place freed since does not help.
  lemma GrantedIff(s: Sys, i: nat, limit: int, es: seq<Event>)
    requires s.counter == BusyCount(s.procs) && i < |s.procs| && s.procs[i].Idle?
    requires forall k :: 0 <= k < |es| ==> es[k] != Compare(i)
    ensures var r := Next(Exec(Next(s, Add(i, limit)), es), Compare(i));
            i < |r.procs| && (r.procs[i].Granted? <==> BusyCount(s.procs) < Effective(limit))
  {
    SeenStays(Next(s, Add(i, limit)), es, i);
  }

  // So two claims can both be refused though a permit is free: one that is still to undo its
  // add makes the other see a full pool.
  lemma SpuriousRefusal(s: Sys, i: nat, j: nat, k: nat)
    requires s.counter == BusyCount(s.procs) == GrantedCount(s.procs, MAX_CALLS) == MAX_CALLS
    requires i < |s.procs| && j < |s.procs| && k < |s.procs| && i != j
    requires s.procs[i].Idle? && s.procs[j].Idle? && s.procs[k].Granted? && s.procs[k].limit <= MAX_CALLS
    ensures var s1 := Next(Next(Next(s, Add(i, MAX_CALLS)), Compare(i)), Release(k));
            && GrantedCount(s1.procs, MAX_CALLS) == MAX_CALLS - 1 && s1.procs[i].Undoing?
            && Next(Next(s1, Add(j, MAX_CALLS)), Compare(j)).procs[j].Undoing?
  {
    var a := Next(s, Add(i, MAX_CALLS));
    var b := Next(a, Compare(i));
    Updated(s.procs, i, a.procs[i], MAX_CALLS);
    Updated(a.procs, i, b.procs[i], MAX_CALLS);
    Updated(b.procs, k, Idle, MAX_CALLS);
  }

  lemma ExecLast(s: Sys, es: seq<Event>, e: Event)
    ensures Exec(s, es + [e]) == Next(Exec(s, es), e)
  {
    assert (es + [e])[..|es|] == es;
  }

  // The first n callers hold permits, the others are idle.
  ghost predicate Filled(s: Sys, n: nat) {
    && n <= |s.procs| && s.counter == BusyCount(s.procs) == GrantedCount(s.procs, MAX_CALLS) == n
    && (forall i :: 0 <= i < n ==> s.procs[i] == Granted(MAX_CALLS))
    && (forall i :: n <= i < |s.procs| ==> s.procs[i].Idle?)
  }

  lemma ClaimFills(s: Sys, n: nat)
    requires Filled(s, n) && n < |s.procs| && n < MAX_CALLS
    ensures Filled(Next(Next(s, Add(n, MAX_CALLS)), Compare(n)), n + 1)
  {
    var a := Next(s, Add(n, MAX_CALLS));
    Updated(s.procs, n, a.procs[n], MAX_CALLS);
    Updated(a.procs, n, Granted(MAX_CALLS), MAX_CALLS);
  }

  lemma {:induction false} Fill(s: Sys, n: nat) returns (es: seq<Event>)
    requires Initial(s) && n <= |s.procs| && n <= MAX_CALLS
    ensures Filled(Exec(s, es), n) && |Exec(s, es).procs| == |s.procs|
    decreases n
  {
    if n == 0 {
      es := [];
      NoneBusy(s.procs);
      HoldersAreBusy(s.procs, MAX_CALLS);
    } else {
      var before := Fill(s, n - 1);
      ClaimFills(Exec(s, before), n - 1);
      ExecLast(s, before, Add(n - 1, MAX_CALLS));
      ExecLast(s, before + [Add(n - 1, MAX_CALLS)], Compare(n - 1));
      es := before + [Add(n - 1, MAX_CALLS)] + [Compare(n - 1)];
    }
  }

  // It happens: with ten callers or more, a run from the quiet pool whose last step refuses one
  // with a permit free.
  lemma SpuriousRefusalHappens(s: Sys) returns (es: seq<Event>, j: nat)
    requires Initial(s) && |s.procs| >= MAX_CALLS + 2
    ensures es != [] && es[|es| - 1] == Compare(j) && j < |Exec(s, es).procs| && Exec(s, es).procs[j].Undoing?
    ensures GrantedCount(Exec(s, es).procs, MAX_CALLS) == MAX_CALLS - 1
  {
    var full := Fill(s, MAX_CALLS);
    var i := MAX_CALLS;
    j := MAX_CALLS + 1;
    SpuriousRefusal(Exec(s, full), i, j, 0);
    ExecLast(s, full, Add(i, MAX_CALLS));
    ExecLast(s, full + [Add(i, MAX_CALLS)], Compare(i));
    ExecLast(s, full + [Add(i, MAX_CALLS)] + [Compare(i)], Release(0));
    var freed := full + [Add(i, MAX_CALLS)] + [Compare(i)] + [Release(0)];
    ExecLast(s, freed, Add(j, MAX_CALLS));
    ExecLast(s, freed + [Add(j, MAX_CALLS)], Compare(j));
    es := freed + [Add(j, MAX_CALLS)] + [Compare(j)];
    var s1 := Exec(s, freed);
    hide Exec;
    var s2 := Next(s1, Add(j, MAX_CALLS));
    Updated(s1.procs, j, s2.procs[j], MAX_CALLS);
    Updated(s2.procs, j, Undoing, MAX_CALLS);
  }

  // ---------------------------------------------------------------- the counter object

  class Pool {
    var counter: int

    constructor ()
      ensures counter == 0
    {
      counter := 0;
    }

    // claimBlockingFSCallUpTo with nothing in between.
    method ClaimUpTo(limit: int) returns (ok: bool)
      modifies this
      ensures ok == (old(counter) < Effective(limit))
      ensures counter == old(counter) + (if ok then 1 else 0)
    {
      var cap := limit;
      if cap > MAX_CALLS {
        cap := MAX_CALLS;
      }
      counter := counter + 1;
      if counter > cap {
        counter := counter - 1;
        return false;
      }
      return true;
    }

    method Release()
      modifies this
      ensures counter == old(counter) - 1
    {
      counter := counter - 1;
    }
  }
}
