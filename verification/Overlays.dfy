/** Retention of overlay panes, internal/daemon/overlay.go. */
module Overlays {
  // Which client has which overlay on screen, when an overlay went out of sight, and the two
  // ways one is evicted. Each report, disconnect and sweep is one step; time 0 is the zero time.

  datatype Pane = Pane(overlay: bool, shownAt: nat, hiddenAt: nat)

  // `attached` holds the claims of every attached client.
  datatype State = State(panes: map<string, Pane>, attached: map<nat, set<string>>,
                         idleMinutes: int, maxLive: int)

  predicate Claimed(attached: map<nat, set<string>>, p: string) {
    exists c :: c in attached && p in attached[c]
  }

  // ---------------------------------------------------------------- the policy

  const MINUTE := 60_000_000_000
  const MAX_IDLE_MINUTES := 365 * 24 * 60
  const INT64_MAX: int := 0x7FFF_FFFF_FFFF_FFFF

  // An int64 result, wrapped around.
  function Wrap64(n: int): (r: int)
    ensures -INT64_MAX - 1 <= r <= INT64_MAX
  {
    (n + INT64_MAX + 1) % 0x1_0000_0000_0000_0000 - INT64_MAX - 1
  }

  function Timeout(minutes: int): int { Wrap64(minutes * MINUTE) }

  function ClampIdle(minutes: int): int {
    if minutes < 0 then 0 else if minutes > MAX_IDLE_MINUTES then MAX_IDLE_MINUTES else minutes
  }

  function ClampLive(maxLive: int): int { if maxLive < 0 then 0 else maxLive }

  // A clamped policy converts to a duration exactly; negative means disabled, like 0.
  lemma ClampedTimeoutExact(minutes: int)
    ensures Timeout(ClampIdle(minutes)) == ClampIdle(minutes) * MINUTE
    ensures Timeout(ClampIdle(minutes)) <= 0 <==> minutes <= 0
    ensures 0 <= minutes <= MAX_IDLE_MINUTES ==> ClampIdle(minutes) == minutes
  {
  }

  // Unclamped, the conversion is exact up to 153,722,867 minutes and no further.
  lemma TimeoutExactIff(minutes: nat)
    ensures Timeout(minutes) == minutes * MINUTE <==> minutes <= 153_722_867
  {
  }

  // Above that it is negative, which disables eviction, for exactly as long again; from
  // 307,445,735 minutes on it is positive, starting at 26 seconds: near-immediate eviction.
  lemma WrappedTimeouts(minutes: nat)
    requires minutes <= 461_168_601
    ensures Timeout(minutes) < 0 <==> 153_722_868 <= minutes <= 307_445_734
    ensures 307_445_735 <= minutes ==>
              Timeout(minutes) == 26_290_448_384 + (minutes - 307_445_735) * MINUTE < minutes * MINUTE
  {
  }

  // ---------------------------------------------------------------- steps as values

  function SetClaim(attached: map<nat, set<string>>, c: nat, p: string, visible: bool): map<nat, set<string>> {
    if c !in attached then attached
    else if visible then attached[c := attached[c] + {p}]
    else attached[c := attached[c] - {p}]
  }

  // One client's report about one pane.
  function Report(s: State, c: nat, p: string, visible: bool, now: nat): State {
    if p !in s.panes then s
    else
      var s1 := s.(attached := SetClaim(s.attached, c, p, visible));
      var pane := s.panes[p];
      if visible then s1.(panes := s.panes[p := pane.(hiddenAt := 0, shownAt := now)])
      else if Claimed(s1.attached, p) || pane.hiddenAt != 0 then s1
      else s1.(panes := s.panes[p := pane.(hiddenAt := now)])
  }

  function Stamped(pane: Pane, claimed: bool, now: nat): Pane {
    if pane.overlay && pane.hiddenAt == 0 && !claimed then pane.(hiddenAt := now) else pane
  }

  function HideUnclaimed(s: State, now: nat): State {
    s.(panes := map p | p in s.panes :: Stamped(s.panes[p], Claimed(s.attached, p), now))
  }

  function Attach(s: State, c: nat): State {
    if c in s.attached then s else s.(attached := s.attached[c := {}])
  }

  function Disconnect(s: State, c: nat, now: nat): State {
    HideUnclaimed(s.(attached := s.attached - {c}), now)
  }

  // Destroying panes drops every claim on them.
  function Destroy(s: State, ids: set<string>): State {
    s.(panes := s.panes - ids, attached := map c | c in s.attached :: s.attached[c] - ids)
  }

  predicate Expired(s: State, p: string, now: nat) {
    && p in s.panes && s.panes[p].overlay && s.panes[p].hiddenAt != 0
    && Timeout(s.idleMinutes) > 0 && now - s.panes[p].hiddenAt >= Timeout(s.idleMinutes)
  }

  function Sweep(s: State, now: nat): State {
    Destroy(s, set p | p in s.panes && Expired(s, p, now))
  }

  function Others(s: State, exclude: string): set<string> {
    set p | p in s.panes && s.panes[p].overlay && p != exclude
  }

  function Keep(s: State, exclude: string): int { if exclude == "" then s.maxLive else s.maxLive - 1 }

  // The evictions a cap may choose: as many as are over it, the least recently shown first.
  ghost predicate CapChoice(s: State, exclude: string, gone: set<string>) {
    if s.maxLive <= 0 || |Others(s, exclude)| <= Keep(s, exclude) then gone == {}
    else
      && gone <= Others(s, exclude) && |gone| == |Others(s, exclude)| - Keep(s, exclude)
      && forall g, k :: g in gone && k in Others(s, exclude) && k !in gone ==> s.panes[g].shownAt <= s.panes[k].shownAt
  }

  // ---------------------------------------------------------------- what a cap guarantees

  // As many overlays are left as maxLive allows, or all of them; the admitted one is among them,
  // and each evicted one was shown no later than every other that is left.
  lemma CapHolds(s: State, exclude: string, gone: set<string>)
    requires CapChoice(s, exclude, gone) && s.maxLive > 0 && "" !in s.panes
    ensures var r := Destroy(s, gone);
            && |Others(r, "")| <= s.maxLive
            && (exclude == "" || exclude in Others(s, "") ==>
                  |Others(r, "")| == if |Others(s, "")| <= s.maxLive then |Others(s, "")| else s.maxLive)
            && (exclude in s.panes ==> exclude in r.panes)
            && (forall p :: p in s.panes && !s.panes[p].overlay ==> p in r.panes)
            && (forall g, k :: g in s.panes && g !in r.panes && k in Others(r, exclude) ==>
                  s.panes[g].shownAt <= s.panes[k].shownAt)
  {
    var r := Destroy(s, gone);
    CapKeeps(s, exclude, gone);
    if exclude != "" {
      CountWith(r, exclude);
      CountWith(s, exclude);
    }
    hide Others;
  }

  lemma CapKeeps(s: State, exclude: string, gone: set<string>)
    requires CapChoice(s, exclude, gone) && s.maxLive > 0
    ensures var r := Destroy(s, gone);
            && Others(r, exclude) == Others(s, exclude) - gone
            && |Others(r, exclude)| == if |Others(s, exclude)| <= Keep(s, exclude) then |Others(s, exclude)| else Keep(s, exclude)
  {
    var r := Destroy(s, gone);
    assert Others(r, exclude) == Others(s, exclude) - gone;
    hide Others;
    if |Others(s, exclude)| > Keep(s, exclude) {
      DropCount(Others(s, exclude), gone);
    }
  }

  lemma CountWith(s: State, p: string)
    requires p != "" && "" !in s.panes
    ensures |Others(s, "")| == |Others(s, p)| + (if p in Others(s, "") then 1 else 0)
  {
    if p in Others(s, "") {
      assert Others(s, "") == Others(s, p) + {p} && p !in Others(s, p);
    } else {
      assert Others(s, "") == Others(s, p);
    }
  }

  lemma DropCount(a: set<string>, b: set<string>)
    requires b <= a
    ensures |a - b| == |a| - |b|
  {
    assert a == (a - b) + b;
  }

  lemma SubsetCount(a: set<string>, b: set<string>)
    requires a <= b
    ensures |a| <= |b|
  {
    DropCount(b, a);
  }

  // ---------------------------------------------------------------- runs

  datatype Event =
    | AttachClient(c: nat)
    | Leave(c: nat, now: nat)
    | Reported(c: nat, p: string, visible: bool, now: nat)
    | IdleSweep(now: nat)
    | Opened(p: string, now: nat, gone: set<string>)
    | Closed(p: string)
    | SetPolicy(minutes: int, maxLive: int)

  function Next(s: State, e: Event): State {
    match e
    case AttachClient(c) => Attach(s, c)
    case Leave(c, now) => Disconnect(s, c, now)
    case Reported(c, p, visible, now) => Report(s, c, p, visible, now)
    case IdleSweep(now) => Sweep(s, now)
    case Opened(p, now, gone) => Destroy(s.(panes := s.panes[p := Pane(true, now, 0)]), gone)
    case Closed(p) => Destroy(s, {p})
    case SetPolicy(minutes, maxLive) => s.(idleMinutes := ClampIdle(minutes), maxLive := ClampLive(maxLive))
  }

  // Times are not the zero time, pane ids are fresh, and evictions are what the cap chooses.
  ghost predicate Enabled(s: State, e: Event) {
    match e
    case Leave(_, now) => now > 0
    case Reported(_, _, _, now) => now > 0
    case Opened(p, now, gone) =>
      p !in s.panes && p != "" && now > 0 && CapChoice(s.(panes := s.panes[p := Pane(true, now, 0)]), p, gone)
    case _ => true
  }

  // An overlay some attached client has on screen carries no hidden stamp.
  ghost predicate Inv(s: State) {
    forall c, p :: c in s.attached && p in s.attached[c] ==> p in s.panes && s.panes[p].hiddenAt == 0
  }

  lemma NextKeepsInv(s: State, e: Event)
    requires Inv(s) && Enabled(s, e)
    ensures Inv(Next(s, e))
  {
    match e
    case AttachClient(c) =>
    case Leave(c, now) =>
      var s' := Next(s, e);
      forall d, p | d in s'.attached && p in s'.attached[d] ensures p in s'.panes && s'.panes[p].hiddenAt == 0 {
        assert Claimed(s.attached - {c}, p);
      }
    case Reported(c, p, visible, now) =>
      var s' := Next(s, e);
      forall d, q | d in s'.attached && q in s'.attached[d] ensures q in s'.panes && s'.panes[q].hiddenAt == 0 {
        assert q == p && !visible ==> Claimed(s'.attached, p);
      }
    case IdleSweep(now) =>
    case Opened(p, now, gone) =>
    case Closed(p) =>
    case SetPolicy(_, _) =>
  }

  // The idle sweep never takes an overlay that is on some client's screen.
  lemma SweepSparesClaimed(s: State, p: string, now: nat)
    requires Inv(s) && Claimed(s.attached, p)
    ensures p in Sweep(s, now).panes
  {
  }

  // Only a visible report, or the end of the pane, moves an eviction deadline once it runs:
  // repeated hides, disconnects, and reports of other clients leave it.
  lemma DeadlineStays(s: State, e: Event, p: string)
    requires Enabled(s, e) && p in s.panes && s.panes[p].hiddenAt != 0
    requires !(e.Reported? && e.p == p && e.visible) && p in Next(s, e).panes
    ensures Next(s, e).panes[p].hiddenAt == s.panes[p].hiddenAt
  {
  }

  // When a report leaves an overlay with a running deadline: exactly when it says hidden, and the
  // deadline ran already or no attached client is left with it on screen. The first hide sets
  // the deadline to now, a visible report clears it and counts as showing.
  lemma ReportDecides(s: State, c: nat, p: string, visible: bool, now: nat)
    requires Inv(s) && p in s.panes && now > 0
    ensures var r := Report(s, c, p, visible, now);
            && (r.panes[p].hiddenAt != 0 <==> !visible && (s.panes[p].hiddenAt != 0 || !Claimed(r.attached, p)))
            && (s.panes[p].hiddenAt == 0 && r.panes[p].hiddenAt != 0 ==> r.panes[p].hiddenAt == now)
            && r.panes[p].shownAt == (if visible then now else s.panes[p].shownAt)
            && (Claimed(r.attached, p) <==>
                  (visible && c in s.attached) || exists d :: d in s.attached && d != c && p in s.attached[d])
            && (forall q :: q in s.panes && q != p ==> q in r.panes && r.panes[q] == s.panes[q])
  {
    var r := Report(s, c, p, visible, now);
    if visible && c in s.attached {
      assert p in r.attached[c];
    }
    if d :| d in s.attached && d != c && p in s.attached[d] {
      assert p in r.attached[d];
    }
    if d :| d in r.attached && p in r.attached[d] {
      assert d != c ==> r.attached[d] == s.attached[d];
    }
  }

  ghost predicate IsRun(states: seq<State>, es: seq<Event>) {
    && |states| == |es| + 1 && states[0].panes == map[] && states[0].attached == map[]
    && forall i :: 0 <= i < |es| ==> Enabled(states[i], es[i]) && states[i + 1] == Next(states[i], es[i])
  }

  lemma {:induction false} RunKeepsInv(states: seq<State>, es: seq<Event>, i: nat)
    requires IsRun(states, es) && i < |states|
    ensures Inv(states[i])
  {
    if i > 0 {
      RunKeepsInv(states, es, i - 1);
      NextKeepsInv(states[i - 1], es[i - 1]);
    }
  }

  // How long an overlay has been out of sight, by the history of the run.
  lemma {:induction false} HiddenSince(states: seq<State>, es: seq<Event>, i: nat, j: nat, p: string)
    requires IsRun(states, es) && i <= j < |states|
    requires forall k :: i <= k <= j ==> p in states[k].panes
    requires forall k :: i <= k < j ==> !(es[k].Reported? && es[k].p == p && es[k].visible)
    requires states[i].panes[p].hiddenAt != 0
    ensures states[j].panes[p].hiddenAt == states[i].panes[p].hiddenAt
    decreases j - i
  {
    if i < j {
      HiddenSince(states, es, i, j - 1, p);
      assert states[j - 1 + 1] == Next(states[j - 1], es[j - 1]) && p in states[j].panes;
      DeadlineStays(states[j - 1], es[j - 1], p);
    }
  }

  // Step j put the overlay out of sight: the last client showing it left, or reported it hidden
  // with nobody else showing it. Up to step i it then stayed out of sight.
  ghost predicate OutOfSight(states: seq<State>, es: seq<Event>, j: nat, i: nat, p: string) {
    && j < i < |es| && |states| == |es| + 1
    && (es[j].Leave? || (es[j].Reported? && es[j].p == p && !es[j].visible))
    && p in states[j].panes && states[j].panes[p].hiddenAt == 0
    && (forall k :: j < k <= i ==> p in states[k].panes && !Claimed(states[k].attached, p))
    && (forall k :: j < k < i ==> !(es[k].Reported? && es[k].p == p && es[k].visible))
  }

  // Every pane of a run is an overlay, as only overlays are opened.
  lemma {:induction false} OnlyOverlays(states: seq<State>, es: seq<Event>, i: nat)
    requires IsRun(states, es) && i < |states|
    ensures forall p :: p in states[i].panes ==> states[i].panes[p].overlay
  {
    if i > 0 {
      OnlyOverlays(states, es, i - 1);
      assert states[i - 1 + 1] == Next(states[i - 1], es[i - 1]);
    }
  }

  // A running deadline was set by one step, and nothing has shown the overlay since.
  lemma {:induction false} StampHasACause(states: seq<State>, es: seq<Event>, i: nat, p: string) returns (j: nat)
    requires IsRun(states, es) && i < |es| && p in states[i].panes && states[i].panes[p].hiddenAt != 0
    ensures OutOfSight(states, es, j, i, p) && es[j].now == states[i].panes[p].hiddenAt
    decreases i
  {
    RunKeepsInv(states, es, i);
    assert !Claimed(states[i].attached, p);
    var e := es[i - 1];
    assert states[i - 1 + 1] == Next(states[i - 1], e) && Enabled(states[i - 1], e);
    if p in states[i - 1].panes && states[i - 1].panes[p].hiddenAt != 0 {
      j := StampHasACause(states, es, i - 1, p);
      StampKept(states[i - 1], e, p);
    } else {
      j := i - 1;
      StampSet(states[i - 1], e, p);
    }
  }

  lemma StampKept(s: State, e: Event, p: string)
    requires Enabled(s, e) && p in s.panes && s.panes[p].hiddenAt != 0
    requires p in Next(s, e).panes && Next(s, e).panes[p].hiddenAt != 0
    ensures Next(s, e).panes[p].hiddenAt == s.panes[p].hiddenAt
    ensures !(e.Reported? && e.p == p && e.visible)
  {
  }

  lemma StampSet(s: State, e: Event, p: string)
    requires Enabled(s, e) && (p in s.panes ==> s.panes[p].hiddenAt == 0)
    requires p in Next(s, e).panes && Next(s, e).panes[p].hiddenAt != 0
    ensures p in s.panes && (e.Leave? || (e.Reported? && e.p == p && !e.visible))
    ensures Next(s, e).panes[p].hiddenAt == e.now
  {
  }

  // The step that put an overlay out of sight set the deadline, and it has not moved since.
  lemma CauseSetsStamp(states: seq<State>, es: seq<Event>, j: nat, i: nat, p: string)
    requires IsRun(states, es) && OutOfSight(states, es, j, i, p)
    ensures states[i].panes[p].hiddenAt == es[j].now > 0
  {
    OnlyOverlays(states, es, j);
    assert states[j + 1] == Next(states[j], es[j]) && Enabled(states[j], es[j]);
    assert p in states[j + 1].panes && !Claimed(states[j + 1].attached, p);
    CauseStamps(states[j], es[j], p);
    HiddenSince(states, es, j + 1, i, p);
  }

  lemma CauseStamps(s: State, e: Event, p: string)
    requires Enabled(s, e) && p in s.panes && s.panes[p].overlay && s.panes[p].hiddenAt == 0
    requires e.Leave? || (e.Reported? && e.p == p && !e.visible)
    requires p in Next(s, e).panes && !Claimed(Next(s, e).attached, p)
    ensures Next(s, e).panes[p].hiddenAt == e.now > 0
  {
  }

  // In every run the idle sweep evicts an overlay if and only if the policy is on, and some
  // earlier step put it out of sight at least the timeout ago, since when no attached client
  // has had it on screen and no report has shown it.
  lemma IdleEvictionIsFair(states: seq<State>, es: seq<Event>, i: nat, p: string)
    requires IsRun(states, es) && i < |es| && es[i].IdleSweep? && p in states[i].panes
    ensures p !in states[i + 1].panes <==>
              && Timeout(states[i].idleMinutes) > 0
              && exists j: nat :: OutOfSight(states, es, j, i, p) && es[i].now - es[j].now >= Timeout(states[i].idleMinutes)
  {
    OnlyOverlays(states, es, i);
    assert states[i + 1] == Sweep(states[i], es[i].now);
    assert p !in states[i + 1].panes <==> Expired(states[i], p, es[i].now);
    if p !in states[i + 1].panes {
      var j := StampHasACause(states, es, i, p);
    }
    if j: nat :| OutOfSight(states, es, j, i, p) && es[i].now - es[j].now >= Timeout(states[i].idleMinutes) {
      CauseSetsStamp(states, es, j, i, p);
    }
  }

  // In every run an overlay on an attached client's screen is never idle-evicted.
  lemma ShownIsNotEvicted(states: seq<State>, es: seq<Event>, i: nat, p: string)
    requires IsRun(states, es) && i < |es| && es[i].IdleSweep? && Claimed(states[i].attached, p)
    ensures p in states[i + 1].panes
  {
    RunKeepsInv(states, es, i);
    SweepSparesClaimed(states[i], p, es[i].now);
  }

  // ---------------------------------------------------------------- whom the cap spares

  function ShownBefore(s: State, exclude: string, p: string): set<string>
    requires p in s.panes
  {
    set q | q in Others(s, exclude) && s.panes[q].shownAt < s.panes[p].shownAt
  }

  lemma {:induction false} Oldest(s: State, a: set<string>) returns (m: string)
    requires a != {} && forall p :: p in a ==> p in s.panes
    ensures m in a && forall k :: k in a ==> s.panes[m].shownAt <= s.panes[k].shownAt
    decreases |a|
  {
    m :| m in a;
    if a != {m} {
      DropCount(a, {m});
      var n := Oldest(s, a - {m});
      if s.panes[n].shownAt < s.panes[m].shownAt {
        m := n;
      }
    }
  }

  // No entry left behind was shown earlier than one taken.
  ghost predicate OldestFirst(s: State, a: set<string>, gone: set<string>) {
    && gone <= a && (forall p :: p in a ==> p in s.panes)
    && forall g, k :: g in gone && k in a && k !in gone ==> s.panes[g].shownAt <= s.panes[k].shownAt
  }

  // An overlay may be among the n to go as soon as fewer than n were shown before it.
  lemma {:induction false} ChoiceWith(s: State, exclude: string, p: string, n: nat) returns (gone: set<string>)
    requires p in Others(s, exclude) && |ShownBefore(s, exclude, p)| < n <= |Others(s, exclude)|
    ensures OldestFirst(s, Others(s, exclude), gone) && |gone| == n && p in gone
    decreases n
  {
    var all := Others(s, exclude);
    if n == |ShownBefore(s, exclude, p)| + 1 {
      gone := ShownBefore(s, exclude, p) + {p};
    } else {
      gone := ChoiceWith(s, exclude, p, n - 1);
      DropCount(all, gone);
      var m := Oldest(s, all - gone);
      gone := gone + {m};
    }
  }

  lemma ShownBeforeGoFirst(s: State, exclude: string, p: string, gone: set<string>)
    requires CapChoice(s, exclude, gone) && p in gone
    ensures s.maxLive > 0 && |Others(s, exclude)| > Keep(s, exclude)
    ensures |ShownBefore(s, exclude, p)| < |Others(s, exclude)| - Keep(s, exclude)
  {
    SubsetCount(ShownBefore(s, exclude, p) + {p}, gone);
  }

  // The cap, unlike the sweep, does not look at claims. Exactly which overlays it leaves, whatever
  // it chooses among equals: with the cap off or not exceeded all of them, otherwise those before
  // which enough others were shown to make up the excess.
  lemma CapSparesIff(s: State, exclude: string, p: string)
    requires p in Others(s, exclude)
    ensures (forall gone :: CapChoice(s, exclude, gone) ==> p in Destroy(s, gone).panes)
            <==> || s.maxLive <= 0 || |Others(s, exclude)| <= Keep(s, exclude)
                 || |ShownBefore(s, exclude, p)| >= |Others(s, exclude)| - Keep(s, exclude)
  {
    var n := |Others(s, exclude)| - Keep(s, exclude);
    if s.maxLive > 0 && n > 0 && |ShownBefore(s, exclude, p)| < n {
      var gone := ChoiceWith(s, exclude, p, n);
      assert CapChoice(s, exclude, gone) && p !in Destroy(s, gone).panes;
    } else {
      forall gone | CapChoice(s, exclude, gone) ensures p in Destroy(s, gone).panes {
        if p in gone {
          ShownBeforeGoFirst(s, exclude, p, gone);
        }
      }
    }
  }

  // So it can take an overlay off a client's screen: a run in which the only client opens one,
  // shows it, and opens a second under a cap of one.
  lemma CapIgnoresClaims(c: nat, first: string, second: string) returns (states: seq<State>, es: seq<Event>)
    requires first != "" && second != "" && first != second
    ensures IsRun(states, es) && |es| == 4 && es[3] == Opened(second, 3, {first})
    ensures Claimed(states[3].attached, first) && first in states[3].panes && first !in states[4].panes
  {
    hide *;
    var s0 := State(map[], map[], 0, 1);
    var s1 := s0.(attached := map[c := {}]);
    var s2 := s1.(panes := map[first := Pane(true, 1, 0)]);
    var s3 := State(map[first := Pane(true, 2, 0)], map[c := {first}], 0, 1);
    var attach, open, show, over :=
      AttachClient(c), Opened(first, 1, {}), Reported(c, first, true, 2), Opened(second, 3, {first});
    AttachAndShow(s0, s2, c, first);
    OpensAlone(s1, first, 1);
    OpensOver(s3, first, second, 3);
    es := [attach, open, show, over];
    states := [s0, s1, s2, s3, Next(s3, over)];
    RunOfFour(states, es);
  }

  lemma RunOfFour(states: seq<State>, es: seq<Event>)
    requires |es| == 4 && |states| == 5 && states[0].panes == map[] && states[0].attached == map[]
    requires Enabled(states[0], es[0]) && states[1] == Next(states[0], es[0])
    requires Enabled(states[1], es[1]) && states[2] == Next(states[1], es[1])
    requires Enabled(states[2], es[2]) && states[3] == Next(states[2], es[2])
    requires Enabled(states[3], es[3]) && states[4] == Next(states[3], es[3])
    ensures IsRun(states, es)
  {
    hide Enabled, Next;
  }

  lemma AttachAndShow(s: State, t: State, c: nat, p: string)
    requires s.attached == map[] && t.panes == map[p := Pane(true, 1, 0)] && t.attached == map[c := {}]
    ensures Enabled(s, AttachClient(c)) && Next(s, AttachClient(c)) == s.(attached := map[c := {}])
    ensures Enabled(t, Reported(c, p, true, 2))
    ensures Next(t, Reported(c, p, true, 2)) == t.(panes := map[p := Pane(true, 2, 0)], attached := map[c := {p}])
    ensures Claimed(map[c := {p}], p)
  {
    assert c in map[c := {p}];
    assert t.attached[c] == {} && {} + {p} == {p};
    assert SetClaim(t.attached, c, p, true) == map[c := {p}];
    assert t.panes[p := Pane(true, 2, 0)] == map[p := Pane(true, 2, 0)];
  }

  lemma OpensAlone(s: State, p: string, now: nat)
    requires s.panes == map[] && s.maxLive == 1 && p != "" && now > 0
    requires forall c :: c in s.attached ==> s.attached[c] == {}
    ensures Enabled(s, Opened(p, now, {}))
    ensures Next(s, Opened(p, now, {})) == s.(panes := map[p := Pane(true, now, 0)])
  {
    var s1 := s.(panes := s.panes[p := Pane(true, now, 0)]);
    assert Others(s1, p) == {};
    NothingDestroyed(s1);
  }

  lemma OpensOver(s: State, first: string, second: string, now: nat)
    requires s.panes.Keys == {first} && s.panes[first].overlay && s.maxLive == 1
    requires second != "" && first != second && s.panes[first].shownAt <= now && now > 0
    ensures Enabled(s, Opened(second, now, {first}))
    ensures first !in Next(s, Opened(second, now, {first})).panes
  {
    assert Others(s.(panes := s.panes[second := Pane(true, now, 0)]), second) == {first};
  }

  // ---------------------------------------------------------------- the daemon's part

  class Keeper {
    var panes: map<string, Pane>
    var attached: map<nat, set<string>>
    var idleMinutes: int
    var maxLive: int

    function View(): State
      reads this
    {
      State(panes, attached, idleMinutes, maxLive)
    }

    method OverlayClaimed(p: string) returns (claimed: bool)
      ensures claimed == Claimed(attached, p)
    {
      var todo := attached.Keys;
      while todo != {}
        invariant todo <= attached.Keys
        invariant forall c :: c in attached && c !in todo ==> p !in attached[c]
        decreases |todo|
      {
        var c :| c in todo;
        todo := todo - {c};
        if p in attached[c] {
          return true;
        }
      }
      return false;
    }

    method SetOverlayClaim(c: nat, p: string, visible: bool)
      modifies this`attached
      ensures attached == SetClaim(old(attached), c, p, visible)
    {
      if c !in attached {
        return;
      }
      if visible {
        attached := attached[c := attached[c] + {p}];
        return;
      }
      attached := attached[c := attached[c] - {p}];
    }

    method ApplyOverlayVisibility(c: nat, p: string, visible: bool, now: nat)
      requires p in panes
      modifies this
      ensures View() == Report(old(View()), c, p, visible, now)
    {
      SetOverlayClaim(c, p, visible);
      var claimed := OverlayClaimed(p);
      if visible {
        panes := panes[p := panes[p].(hiddenAt := 0, shownAt := now)];
      } else if claimed {
      } else if panes[p].hiddenAt == 0 {
        panes := panes[p := panes[p].(hiddenAt := now)];
      }
    }

    method HideUnclaimedOverlays(now: nat) returns (n: nat)
      modifies this`panes
      ensures View() == HideUnclaimed(old(View()), now)
    {
      n := 0;
      var todo := panes.Keys;
      while todo != {}
        invariant todo <= panes.Keys && panes.Keys == old(panes).Keys
        invariant forall p :: p in panes ==>
                    panes[p] == if p in todo then old(panes)[p] else Stamped(old(panes)[p], Claimed(attached, p), now)
        decreases |todo|
      {
        var p :| p in todo;
        todo := todo - {p};
        var claimed := OverlayClaimed(p);
        if !panes[p].overlay || panes[p].hiddenAt != 0 || claimed {
          continue;
        }
        panes := panes[p := panes[p].(hiddenAt := now)];
        n := n + 1;
      }
    }

    method OnClientDisconnect(c: nat, now: nat)
      modifies this
      ensures View() == Disconnect(old(View()), c, now)
    {
      attached := attached - {c};
      var n := HideUnclaimedOverlays(now);
    }

    // One pane, and every claim on it.
    method DestroyOverlay(p: string)
      modifies this
      ensures View() == Destroy(old(View()), {p})
    {
      panes := panes - {p};
      attached := map c | c in attached :: attached[c] - {p};
    }

    // The whole list, one pane after the other.
    method DestroyAll(ids: seq<string>)
      modifies this
      ensures View() == Destroy(old(View()), Ids(ids))
    {
      NothingDestroyed(View());
      assert Ids(ids[..0]) == {};
      for i := 0 to |ids|
        invariant View() == Destroy(old(View()), Ids(ids[..i]))
      {
        DestroyTwice(old(View()), Ids(ids[..i]), {ids[i]});
        IdsAppend(ids[..i], ids[i]);
        assert ids[..i + 1] == ids[..i] + [ids[i]];
        DestroyOverlay(ids[i]);
      }
      assert ids[..|ids|] == ids;
    }

    method SweepIdleOverlays(now: nat)
      modifies this
      ensures View() == Sweep(old(View()), now)
    {
      var timeout := Timeout(idleMinutes);
      if timeout <= 0 {
        NothingDestroyed(View());
        assert (set p | p in View().panes && Expired(View(), p, now)) == {};
        return;
      }
      var expired: seq<string> := [];
      var todo := panes.Keys;
      while todo != {}
        invariant todo <= panes.Keys
        invariant forall p :: p in expired <==> p in panes && p !in todo && Expired(View(), p, now)
        decreases |todo|
      {
        var p :| p in todo;
        todo := todo - {p};
        if !panes[p].overlay || panes[p].hiddenAt == 0 {
          continue;
        }
        if now - panes[p].hiddenAt >= timeout {
          expired := expired + [p];
        }
      }
      IdsAre(expired);
      assert Ids(expired) == set p | p in panes && Expired(View(), p, now);
      DestroyAll(expired);
    }

    // The overlays other than one, in no particular order.
    method LiveOverlays(exclude: string) returns (live: seq<string>)
      ensures Distinct(live) && Ids(live) == Others(View(), exclude)
    {
      live := [];
      var todo := panes.Keys;
      while todo != {}
        invariant todo <= panes.Keys && Distinct(live)
        invariant forall p :: p in live <==> p in panes && p !in todo && panes[p].overlay && p != exclude
        decreases |todo|
      {
        var p :| p in todo;
        todo := todo - {p};
        if p != exclude && panes[p].overlay {
          live := live + [p];
        }
      }
      IdsAre(live);
    }

    method EnforceOverlayCap(exclude: string) returns (ghost gone: set<string>)
      modifies this
      ensures CapChoice(old(View()), exclude, gone) && View() == Destroy(old(View()), gone)
    {
      if maxLive <= 0 {
        NothingDestroyed(View());
        return {};
      }
      var live := LiveOverlays(exclude);
      DistinctCount(live);
      var keep := if exclude != "" then maxLive - 1 else maxLive;
      if |live| <= keep {
        NothingDestroyed(View());
        return {};
      }
      assert forall i :: 0 <= i < |live| ==> live[i] in Ids(live);
      var sorted := SortByShown(live, panes);
      var evict := sorted[..|live| - keep];
      gone := Ids(evict);
      FirstAreOldest(View(), exclude, sorted, |live| - keep);
      DestroyAll(evict);
    }
  }

  predicate Distinct(s: seq<string>) { forall i, j :: 0 <= i < j < |s| ==> s[i] != s[j] }

  ghost predicate ByShown(s: seq<string>, panes: map<string, Pane>) {
    && (forall i :: 0 <= i < |s| ==> s[i] in panes)
    && forall i, j :: 0 <= i < j < |s| ==> panes[s[i]].shownAt <= panes[s[j]].shownAt
  }

  // Any sort by time of showing; equal times may come out in either order.
  method SortByShown(live: seq<string>, panes: map<string, Pane>) returns (sorted: seq<string>)
    requires Distinct(live) && forall i :: 0 <= i < |live| ==> live[i] in panes
    ensures ByShown(sorted, panes) && Distinct(sorted) && |sorted| == |live|
    ensures Ids(sorted) == Ids(live)
  {
    sorted := [];
    for n := 0 to |live|
      invariant ByShown(sorted, panes) && Distinct(sorted) && |sorted| == n
      invariant forall p :: p in sorted <==> p in live[..n]
    {
      var k := |sorted|;
      while k > 0 && panes[sorted[k - 1]].shownAt > panes[live[n]].shownAt
        invariant 0 <= k <= |sorted|
        invariant forall i :: k <= i < |sorted| ==> panes[sorted[i]].shownAt > panes[live[n]].shownAt
      {
        k := k - 1;
      }
      InsertSorted(sorted, k, live[n], panes);
      assert live[n] !in live[..n];
      sorted := sorted[..k] + [live[n]] + sorted[k..];
      assert live[..n + 1] == live[..n] + [live[n]];
    }
    assert live[..|live|] == live;
    IdsAre(sorted);
    IdsAre(live);
  }

  lemma InsertSorted(s: seq<string>, k: nat, p: string, panes: map<string, Pane>)
    requires ByShown(s, panes) && Distinct(s) && k <= |s| && p in panes && p !in s
    requires k > 0 ==> panes[s[k - 1]].shownAt <= panes[p].shownAt
    requires forall i :: k <= i < |s| ==> panes[s[i]].shownAt > panes[p].shownAt
    ensures var t := s[..k] + [p] + s[k..];
            ByShown(t, panes) && Distinct(t) && forall x :: x in t <==> x in s || x == p
  {
    var t := s[..k] + [p] + s[k..];
    assert Inserted(s, k, p, t);
    InsertedOrder(s, k, p, panes, t);
    forall x ensures x in t <==> x in s || x == p {
      if x in s {
        var i :| 0 <= i < |s| && s[i] == x;
        assert t[if i < k then i else i + 1] == x;
      }
      assert t[k] == p;
    }
  }

  // What a sequence with one entry inserted at k holds.
  ghost predicate Inserted(s: seq<string>, k: nat, p: string, t: seq<string>) {
    && k <= |s| && |t| == |s| + 1 && t[k] == p
    && (forall i {:trigger t[i]} :: 0 <= i < k ==> t[i] == s[i])
    && (forall i {:trigger t[i]} :: k < i < |t| ==> t[i] == s[i - 1])
  }

  lemma InsertedOrder(s: seq<string>, k: nat, p: string, panes: map<string, Pane>, t: seq<string>)
    requires ByShown(s, panes) && Distinct(s) && k <= |s| && p in panes && p !in s
    requires k > 0 ==> panes[s[k - 1]].shownAt <= panes[p].shownAt
    requires forall i :: k <= i < |s| ==> panes[s[i]].shownAt > panes[p].shownAt
    requires Inserted(s, k, p, t)
    ensures ByShown(t, panes) && Distinct(t)
  {
    forall i, j | 0 <= i < j < |t| ensures t[i] != t[j] && panes[t[i]].shownAt <= panes[t[j]].shownAt {
      if j == k && i < k - 1 {
        assert panes[s[i]].shownAt <= panes[s[k - 1]].shownAt;
      }
    }
  }

  function Ids(s: seq<string>): set<string> { set i | 0 <= i < |s| :: s[i] }

  lemma IdsAre(s: seq<string>)
    ensures forall x :: x in Ids(s) <==> x in s
  {
  }

  lemma IdsAppend(s: seq<string>, x: string)
    ensures Ids(s + [x]) == Ids(s) + {x}
  {
    var t := s + [x];
    forall y | y in Ids(s) ensures y in Ids(t) {
      var i :| 0 <= i < |s| && s[i] == y;
      assert t[i] == y;
    }
    assert t[|s|] == x;
  }

  lemma {:induction false} DistinctCount(s: seq<string>)
    requires Distinct(s)
    ensures |Ids(s)| == |s|
    decreases |s|
  {
    if s != [] {
      var n := |s| - 1;
      DistinctCount(s[..n]);
      IdsAppend(s[..n], s[n]);
      assert s == s[..n] + [s[n]];
      assert s[n] !in Ids(s[..n]);
    }
  }

  lemma NothingDestroyed(s: State)
    ensures Destroy(s, {}) == s
  {
    var r := Destroy(s, {});
    assert r.panes == s.panes;
    forall c | c in s.attached ensures r.attached[c] == s.attached[c] {
    }
    assert r.attached == s.attached;
  }

  lemma DestroyTwice(s: State, a: set<string>, b: set<string>)
    ensures Destroy(Destroy(s, a), b) == Destroy(s, a + b)
  {
    var r, t := Destroy(Destroy(s, a), b), Destroy(s, a + b);
    assert r.panes == t.panes;
    forall c | c in s.attached ensures r.attached[c] == t.attached[c] {
    }
    assert r.attached == t.attached;
  }

  // The head of the sorted list is a choice the cap may make.
  lemma FirstAreOldest(s: State, exclude: string, sorted: seq<string>, n: nat)
    requires s.maxLive > 0 && ByShown(sorted, s.panes) && Distinct(sorted)
    requires Ids(sorted) == Others(s, exclude)
    requires 0 < n <= |sorted| && n == |sorted| - Keep(s, exclude)
    ensures CapChoice(s, exclude, Ids(sorted[..n]))
  {
    var gone := Ids(sorted[..n]);
    DistinctCount(sorted);
    DistinctCount(sorted[..n]);
    assert forall m :: 0 <= m < n ==> sorted[..n][m] == sorted[m];
    forall m | 0 <= m < n ensures sorted[m] in gone {
      assert sorted[..n][m] == sorted[m];
    }
    forall g, k | g in gone && k in Others(s, exclude) && k !in gone ensures s.panes[g].shownAt <= s.panes[k].shownAt {
      var i :| 0 <= i < n && sorted[i] == g;
      var j :| 0 <= j < |sorted| && sorted[j] == k;
    }
  }
}
