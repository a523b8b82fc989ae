/** The notification queue of internal/daemon/event.go: bounded, newest first, with repeats of one
    pane and title folded into one counted card, and one-shot watchers. */
module EventQueues {
  import opened Common
  import opened ProjectNames

  // `millis` is the timestamp a client sees; `data` an absent map or an empty one alike.
  datatype Event = Event(id: string, paneID: string, title: string, millis: int, data: map<string, string>)

  const INT_MAX: int := 0x7FFF_FFFF_FFFF_FFFF

  // ---------------------------------------------------------------- the count in a card

  function DigitValue(c: char): nat
    requires IsDigitChar(c)
  {
    c as int - '0' as int
  }

  function DigitsValue(s: string): nat
    requires forall i :: 0 <= i < |s| ==> IsDigitChar(s[i])
  {
    if s == "" then 0 else DigitsValue(s[..|s| - 1]) * 10 + DigitValue(s[|s| - 1])
  }

  predicate AllDigits(s: string) { s != "" && forall i :: 0 <= i < |s| ==> IsDigitChar(s[i]) }

  // strconv.Atoi, an optional sign and digits within a 64-bit int.
  function Atoi(s: string): Option<int> {
    var body := if s != "" && (s[0] == '+' || s[0] == '-') then s[1..] else s;
    if !AllDigits(body) then None
    else
      var n: int := if s[0] == '-' then -(DigitsValue(body) as int) else DigitsValue(body);
      if -INT_MAX - 1 <= n <= INT_MAX then Some(n) else None
  }

  lemma {:induction false} DigitsOfItoa(n: nat)
    ensures DigitsValue(Itoa(n)) == n
    decreases n
  {
    var s := Itoa(n);
    if n >= 10 {
      DigitsOfItoa(n / 10);
      assert s[..|s| - 1] == Itoa(n / 10);
    }
  }

  lemma AtoiOfItoa(n: nat)
    requires n <= INT_MAX
    ensures Atoi(Itoa(n)) == Some(n)
  {
    DigitsOfItoa(n);
    assert IsDigitChar(Itoa(n)[0]);
  }

  // How many pushes a card stands for: one, unless it says otherwise.
  function CountOf(e: Event): (n: int)
    ensures n >= 1
  {
    if "count" in e.data && Atoi(e.data["count"]).Some? && Atoi(e.data["count"]).value > 0
    then Atoi(e.data["count"]).value else 1
  }

  // ---------------------------------------------------------------- queues as values

  predicate Keyed(paneID: string, title: string) { paneID != "" && title != "" }

  predicate SameKey(a: Event, paneID: string, title: string) { a.paneID == paneID && a.title == title }

  // The first card of a pane and title.
  function FindCard(q: seq<Event>, paneID: string, title: string): (i: int)
    ensures -1 <= i < |q|
    ensures i >= 0 ==> SameKey(q[i], paneID, title) && forall j :: 0 <= j < i ==> !SameKey(q[j], paneID, title)
    ensures i < 0 ==> forall j :: 0 <= j < |q| ==> !SameKey(q[j], paneID, title)
  {
    if q == [] then -1
    else if SameKey(q[0], paneID, title) then 0
    else
      var r := FindCard(q[1..], paneID, title);
      if r < 0 then -1 else r + 1
  }

  // The event as stored: a repeat keeps its card's id and counts one more.
  function Folded(q: seq<Event>, e: Event): Event {
    var i := if Keyed(e.paneID, e.title) then FindCard(q, e.paneID, e.title) else -1;
    if i < 0 then e else e.(id := q[i].id, data := e.data["count" := Itoa(Positive(CountOf(q[i]) + 1))])
  }

  function Positive(n: int): nat { if n < 0 then 0 else n }

  function Others(q: seq<Event>, e: Event): seq<Event> {
    var i := if Keyed(e.paneID, e.title) then FindCard(q, e.paneID, e.title) else -1;
    if i < 0 then q else q[..i] + q[i + 1..]
  }

  function Pushed(q: seq<Event>, max: nat, e: Event): seq<Event> {
    var all := [Folded(q, e)] + Others(q, e);
    if |all| > max then all[..max] else all
  }

  function FindId(q: seq<Event>, id: string): (i: int)
    ensures -1 <= i < |q|
    ensures i >= 0 ==> q[i].id == id && forall j :: 0 <= j < i ==> q[j].id != id
    ensures i < 0 ==> forall j :: 0 <= j < |q| ==> q[j].id != id
  {
    if q == [] then -1
    else if q[0].id == id then 0
    else
      var r := FindId(q[1..], id);
      if r < 0 then -1 else r + 1
  }

  function Dismiss(q: seq<Event>, id: string): seq<Event> {
    var i := FindId(q, id);
    if i < 0 then q else q[..i] + q[i + 1..]
  }

  // ---------------------------------------------------------------- bounded, one card a key

  ghost predicate OneCardEach(q: seq<Event>) {
    forall i, j :: 0 <= i < j < |q| && Keyed(q[i].paneID, q[i].title) ==> !SameKey(q[j], q[i].paneID, q[i].title)
  }

  ghost predicate Inv(q: seq<Event>, max: nat) { |q| <= max && OneCardEach(q) }

  lemma OthersHaveOtherKeys(q: seq<Event>, e: Event)
    requires OneCardEach(q)
    ensures OneCardEach(Others(q, e))
    ensures Keyed(e.paneID, e.title) ==>
              forall j :: 0 <= j < |Others(q, e)| ==> !SameKey(Others(q, e)[j], e.paneID, e.title)
  {
    var i := if Keyed(e.paneID, e.title) then FindCard(q, e.paneID, e.title) else -1;
    if i >= 0 {
      var o := Others(q, e);
      forall j | 0 <= j < |o| ensures !SameKey(o[j], e.paneID, e.title) {
        assert o[j] == q[if j < i then j else j + 1];
      }
      forall a, b | 0 <= a < b < |o| && Keyed(o[a].paneID, o[a].title)
        ensures !SameKey(o[b], o[a].paneID, o[a].title)
      {
        assert o[a] == q[if a < i then a else a + 1] && o[b] == q[if b < i then b else b + 1];
      }
    }
  }

  lemma PushKeepsInv(q: seq<Event>, max: nat, e: Event)
    requires Inv(q, max)
    ensures Inv(Pushed(q, max, e), max)
  {
    OthersHaveOtherKeys(q, e);
    var o := Others(q, e);
    assert Folded(q, e).paneID == e.paneID && Folded(q, e).title == e.title;
    hide Folded, Others, FindCard;
  }


  lemma DismissKeepsInv(q: seq<Event>, max: nat, id: string)
    requires Inv(q, max)
    ensures Inv(Dismiss(q, id), max)
  {
    var i := FindId(q, id);
    if i >= 0 {
      var o := q[..i] + q[i + 1..];
      forall a, b | 0 <= a < b < |o| && Keyed(o[a].paneID, o[a].title)
        ensures !SameKey(o[b], o[a].paneID, o[a].title)
      {
        assert o[a] == q[if a < i then a else a + 1] && o[b] == q[if b < i then b else b + 1];
      }
    }
  }

  // ---------------------------------------------------------------- runs

  datatype Op = PushOp(e: Event) | DismissOp(id: string) | DismissAllOp

  function Apply(q: seq<Event>, max: nat, op: Op): seq<Event> {
    match op
    case PushOp(e) => Pushed(q, max, e)
    case DismissOp(id) => Dismiss(q, id)
    case DismissAllOp => []
  }

  function Run(max: nat, ops: seq<Op>): seq<Event> {
    if ops == [] then [] else Apply(Run(max, ops[..|ops| - 1]), max, ops[|ops| - 1])
  }

  predicate Present(q: seq<Event>, paneID: string, title: string) { FindCard(q, paneID, title) >= 0 }

  predicate PushesKey(op: Op, paneID: string, title: string) { op.PushOp? && SameKey(op.e, paneID, title) }

  // How often the pair was pushed since it last had no card.
  function Tally(max: nat, ops: seq<Op>, paneID: string, title: string): nat {
    if ops == [] || !Present(Run(max, ops), paneID, title) then 0
    else Tally(max, ops[..|ops| - 1], paneID, title) + (if PushesKey(ops[|ops| - 1], paneID, title) then 1 else 0)
  }

  // The id of the push that gave the pair its card.
  function BirthId(max: nat, ops: seq<Op>, paneID: string, title: string): string {
    if ops == [] then ""
    else
      var before, op := ops[..|ops| - 1], ops[|ops| - 1];
      if PushesKey(op, paneID, title) && !Present(Run(max, before), paneID, title) then op.e.id
      else BirthId(max, before, paneID, title)
  }

  // Emitters leave the reserved key alone.
  ghost predicate NoCounts(ops: seq<Op>) {
    forall i :: 0 <= i < |ops| && ops[i].PushOp? ==> "count" !in ops[i].e.data
  }

  lemma {:induction false} RunKeepsInv(max: nat, ops: seq<Op>)
    ensures Inv(Run(max, ops), max)
    decreases |ops|
  {
    if ops != [] {
      var before, op := ops[..|ops| - 1], ops[|ops| - 1];
      RunKeepsInv(max, before);
      hide Inv, Pushed, Dismiss;
      match op
      case PushOp(e) => PushKeepsInv(Run(max, before), max, e);
      case DismissOp(id) => DismissKeepsInv(Run(max, before), max, id);
      case DismissAllOp => NothingKeepsInv(max);
    }
    if ops == [] {
      NothingKeepsInv(max);
    }
  }

  lemma NothingKeepsInv(max: nat)
    ensures Inv([], max)
  {
  }

  // ---------------------------------------------------------------- where a push lands

  // Whether a card is the one an event folds into.
  predicate OwnCard(c: Event, e: Event) { Keyed(e.paneID, e.title) && SameKey(c, e.paneID, e.title) }

  function OtherCards(q: seq<Event>, e: Event): seq<Event> {
    if q == [] then [] else (if OwnCard(q[0], e) then [] else [q[0]]) + OtherCards(q[1..], e)
  }

  lemma {:induction false} OtherCardsAll(q: seq<Event>, e: Event)
    requires forall i :: 0 <= i < |q| ==> !OwnCard(q[i], e)
    ensures OtherCards(q, e) == q
    decreases |q|
  {
    if q != [] {
      OtherCardsAll(q[1..], e);
    }
  }

  lemma {:induction false} OtherCardsCut(q: seq<Event>, e: Event, i: nat)
    requires i < |q| && OwnCard(q[i], e) && forall j :: 0 <= j < |q| && j != i ==> !OwnCard(q[j], e)
    ensures OtherCards(q, e) == q[..i] + q[i + 1..]
    decreases i
  {
    if i == 0 {
      OtherCardsAll(q[1..], e);
    } else {
      OtherCardsCut(q[1..], e, i - 1);
      assert q[1..][..i - 1] == q[1..i] && q[1..][i..] == q[i + 1..];
      assert q[..i] == [q[0]] + q[1..i];
    }
  }

  lemma OthersAreOtherCards(q: seq<Event>, e: Event)
    requires OneCardEach(q)
    ensures Others(q, e) == OtherCards(q, e)
  {
    var i := if Keyed(e.paneID, e.title) then FindCard(q, e.paneID, e.title) else -1;
    if i < 0 {
      OtherCardsAll(q, e);
    } else {
      forall j | 0 <= j < |q| && j != i ensures !OwnCard(q[j], e) {
        if j > i {
          assert !SameKey(q[j], q[i].paneID, q[i].title);
        }
      }
      OtherCardsCut(q, e, i);
    }
  }

  // What heads the queue after a push: the event, with its own data but for the count, under the
  // id of the card it folds into if there is one.
  ghost predicate IsStored(q: seq<Event>, e: Event, f: Event) {
    && SameKey(f, e.paneID, e.title) && f.millis == e.millis
    && f.id == (if exists c :: c in q && OwnCard(c, e) then OwnId(q, e) else e.id)
    && (forall k :: k != "count" ==> (k in f.data <==> k in e.data) && (k in e.data ==> f.data[k] == e.data[k]))
  }

  // What is behind it: the other cards in their order, and only the last one is dropped, when
  // the queue was full and the event brought a new card.
  ghost predicate IsRest(q: seq<Event>, max: nat, e: Event, rest: seq<Event>) {
    rest == if max > 0 && |q| == max && (forall c :: c in q ==> !OwnCard(c, e)) then q[..max - 1] else OtherCards(q, e)
  }

  lemma {:induction false} OwnIdAt(q: seq<Event>, e: Event, i: nat)
    requires i < |q| && OwnCard(q[i], e) && forall j :: 0 <= j < i ==> !OwnCard(q[j], e)
    ensures OwnId(q, e) == q[i].id
    decreases i
  {
    if i > 0 {
      OwnIdAt(q[1..], e, i - 1);
    }
  }

  lemma FoldedIsStored(q: seq<Event>, e: Event)
    ensures IsStored(q, e, Folded(q, e))
  {
    var i := if Keyed(e.paneID, e.title) then FindCard(q, e.paneID, e.title) else -1;
    if i >= 0 {
      assert q[i] in q && OwnCard(q[i], e);
      OwnIdAt(q, e, i);
    }
    hide OwnId, Itoa, CountOf;
  }

  lemma OthersAreRest(q: seq<Event>, max: nat, e: Event)
    requires Inv(q, max) && max > 0
    ensures IsRest(q, max, e, if |Others(q, e)| >= max then Others(q, e)[..max - 1] else Others(q, e))
  {
    OthersAreOtherCards(q, e);
    if forall c :: c in q ==> !OwnCard(c, e) {
      OtherCardsAll(q, e);
    } else {
      var i := FindCard(q, e.paneID, e.title);
      assert i >= 0 && |Others(q, e)| == |q| - 1;
    }
    hide OtherCards, OneCardEach;
  }

  lemma PushLands(max: nat, ops: seq<Op>, e: Event)
    requires max > 0
    ensures var q, now := Run(max, ops), Run(max, ops + [PushOp(e)]);
            now != [] && IsStored(q, e, now[0]) && IsRest(q, max, e, now[1..])
  {
    var q := Run(max, ops);
    assert (ops + [PushOp(e)])[..|ops|] == ops;
    assert Run(max, ops + [PushOp(e)]) == Pushed(q, max, e);
    RunKeepsInv(max, ops);
    hide Run, IsStored, IsRest, Others, Folded, Inv;
    FoldedIsStored(q, e);
    OthersAreRest(q, max, e);
    var all := [Folded(q, e)] + Others(q, e);
    assert all[1..] == Others(q, e) && (|all| > max ==> all[..max][1..] == Others(q, e)[..max - 1]);
  }

  // The id of the card an event folds into.
  function OwnId(q: seq<Event>, e: Event): string {
    if q == [] then "" else if OwnCard(q[0], e) then q[0].id else OwnId(q[1..], e)
  }

  // The card of a key, where it is.
  lemma CardAt(q: seq<Event>, paneID: string, title: string, i: nat)
    requires OneCardEach(q) && Keyed(paneID, title) && i < |q| && SameKey(q[i], paneID, title)
    ensures FindCard(q, paneID, title) == i
  {
  }

  // A push of another key, or a dismissal, leaves a surviving card as it was.
  lemma CardUnchanged(q: seq<Event>, max: nat, op: Op, paneID: string, title: string)
    requires Inv(q, max) && Keyed(paneID, title) && !PushesKey(op, paneID, title)
    requires Present(Apply(q, max, op), paneID, title)
    ensures Present(q, paneID, title)
    ensures Apply(q, max, op)[FindCard(Apply(q, max, op), paneID, title)] == q[FindCard(q, paneID, title)]
  {
    var q' := Apply(q, max, op);
    var i := FindCard(q', paneID, title);
    var k := WhereItWas(q, max, op, i);
    CardAt(q, paneID, title, k);
  }

  lemma WhereItWas(q: seq<Event>, max: nat, op: Op, i: nat) returns (k: nat)
    requires i < |Apply(q, max, op)|
    requires !op.PushOp? || i > 0 || !SameKey(Apply(q, max, op)[0], op.e.paneID, op.e.title)
    ensures k < |q| && q[k] == Apply(q, max, op)[i]
  {
    match op
    case PushOp(e) => k := WherePushed(q, max, e, i);
    case DismissOp(id) =>
      var c := FindId(q, id);
      k := if c < 0 || i < c then i else i + 1;
    case DismissAllOp =>
      assert false;
  }

  lemma WherePushed(q: seq<Event>, max: nat, e: Event, i: nat) returns (k: nat)
    requires i < |Pushed(q, max, e)| && (i > 0 || !SameKey(Pushed(q, max, e)[0], e.paneID, e.title))
    ensures k < |q| && q[k] == Pushed(q, max, e)[i]
  {
    var o := Others(q, e);
    assert SameKey(Folded(q, e), e.paneID, e.title);
    assert Pushed(q, max, e)[i] == ([Folded(q, e)] + o)[i];
    assert i > 0 && Pushed(q, max, e)[i] == o[i - 1];
    var c := if Keyed(e.paneID, e.title) then FindCard(q, e.paneID, e.title) else -1;
    k := if c < 0 || i - 1 < c then i - 1 else i;
    hide Folded, FindCard, SameKey, Keyed;
  }

  // What one push does to its own card.
  lemma CardPushed(q: seq<Event>, max: nat, e: Event)
    requires Inv(q, max) && Keyed(e.paneID, e.title) && Present(Pushed(q, max, e), e.paneID, e.title)
    ensures FindCard(Pushed(q, max, e), e.paneID, e.title) == 0 && Pushed(q, max, e)[0] == Folded(q, e)
  {
    OthersHaveOtherKeys(q, e);
    var q' := Pushed(q, max, e);
    assert SameKey(Folded(q, e), e.paneID, e.title);
    if |q'| > 0 {
      assert q'[0] == Folded(q, e);
    }
  }

  // A repeat counts one more than its card and keeps the id; a first event counts one.
  lemma FoldedCounts(q: seq<Event>, e: Event)
    requires Keyed(e.paneID, e.title) && "count" !in e.data
    ensures !Present(q, e.paneID, e.title) ==> CountOf(Folded(q, e)) == 1 && Folded(q, e).id == e.id
    ensures Present(q, e.paneID, e.title) ==>
              var card := q[FindCard(q, e.paneID, e.title)];
              Folded(q, e).id == card.id
              && (1 <= CountOf(card) < INT_MAX ==> CountOf(Folded(q, e)) == CountOf(card) + 1)
  {
    if Present(q, e.paneID, e.title) {
      var n := CountOf(q[FindCard(q, e.paneID, e.title)]);
      if 1 <= n < INT_MAX {
        AtoiOfItoa(n + 1);
        hide Atoi, Itoa;
      }
    }
  }

  // In every run a card counts exactly the pushes of its pair since the pair last had none,
  // and keeps the id it was born with.
  lemma {:induction false} CardCountsItsPushes(max: nat, ops: seq<Op>, paneID: string, title: string)
    requires NoCounts(ops) && Keyed(paneID, title) && |ops| <= INT_MAX
    requires Present(Run(max, ops), paneID, title)
    ensures var card := Run(max, ops)[FindCard(Run(max, ops), paneID, title)];
            && CountOf(card) == Tally(max, ops, paneID, title) && 1 <= Tally(max, ops, paneID, title) <= |ops|
            && card.id == BirthId(max, ops, paneID, title)
    decreases |ops|
  {
    assert ops != [];
    var before, op := ops[..|ops| - 1], ops[|ops| - 1];
    var q := Run(max, before);
    assert NoCounts(before);
    RunKeepsInv(max, before);
    if PushesKey(op, paneID, title) {
      assert "count" !in op.e.data;
      CardPushed(q, max, op.e);
      FoldedCounts(q, op.e);
      hide CountOf, Pushed, Folded, FindCard, Inv, Dismiss;
      if Present(q, paneID, title) {
        CardCountsItsPushes(max, before, paneID, title);
      } else {
        AbsentTally(max, before, paneID, title);
      }
    } else {
      hide CountOf, Pushed, Folded, FindCard, Inv, Dismiss;
      CardUnchanged(q, max, op, paneID, title);
      CardCountsItsPushes(max, before, paneID, title);
    }
  }

  lemma AbsentTally(max: nat, ops: seq<Op>, paneID: string, title: string)
    requires !Present(Run(max, ops), paneID, title)
    ensures Tally(max, ops, paneID, title) == 0
  {
  }

  // ---------------------------------------------------------------- reading in order

  predicate Wanted(e: Event, since: int, panes: set<string>) {
    e.millis > since && (panes == {} || e.paneID in panes)
  }

  // The matching events, oldest first.
  function Matching(q: seq<Event>, since: int, panes: set<string>): seq<Event> {
    if q == [] then []
    else
      var last := q[|q| - 1];
      (if Wanted(last, since, panes) then [last] else []) + Matching(q[..|q| - 1], since, panes)
  }

  function OldestSince(q: seq<Event>, since: int, panes: set<string>): Option<Event> {
    var m := Matching(q, since, panes);
    if m == [] then None else Some(m[0])
  }

  // What a scan is for: an event newer than the timestamp, of a pane asked for.
  predicate IsFor(e: Event, since: int, panes: set<string>) {
    e.millis > since && (panes == {} || exists p :: p in panes && p == e.paneID)
  }

  // What a scan finds: the oldest queued event it is for, at i, or none if there is none.
  lemma {:induction false} OldestSinceIs(q: seq<Event>, since: int, panes: set<string>) returns (i: int)
    ensures -1 <= i < |q| && forall j :: i < j < |q| ==> !IsFor(q[j], since, panes)
    ensures i >= 0 ==> IsFor(q[i], since, panes) && OldestSince(q, since, panes) == Some(q[i])
    ensures i < 0 ==> OldestSince(q, since, panes).None?
    decreases |q|
  {
    if q == [] {
      i := -1;
    } else {
      var last := q[|q| - 1];
      assert IsFor(last, since, panes) <==> Wanted(last, since, panes);
      if Wanted(last, since, panes) {
        i := |q| - 1;
      } else {
        assert OldestSince(q, since, panes) == OldestSince(q[..|q| - 1], since, panes);
        hide OldestSince, IsFor, Wanted;
        i := OldestSinceIs(q[..|q| - 1], since, panes);
      }
    }
  }

  predicate Increasing(s: seq<Event>) { forall i, j :: 0 <= i < j < |s| ==> s[i].millis < s[j].millis }

  function Above(s: seq<Event>, since: int): seq<Event> {
    if s == [] then [] else (if s[0].millis > since then [s[0]] else []) + Above(s[1..], since)
  }

  lemma AboveOne(s: seq<Event>, since: int)
    requires s != []
    ensures Above(s, since) == (if s[0].millis > since then [s[0]] else []) + Above(s[1..], since)
  {
  }

  lemma {:induction false} AboveConcat(a: seq<Event>, b: seq<Event>, since: int)
    ensures Above(a + b, since) == Above(a, since) + Above(b, since)
    decreases |a|
  {
    if a == [] {
      assert a + b == b;
    } else {
      var head, x, y := if a[0].millis > since then [a[0]] else [], Above(a[1..], since), Above(b, since);
      AboveOne(a, since);
      AboveOne(a + b, since);
      hide *;
      assert (a + b)[1..] == a[1..] + b && (a + b)[0] == a[0];
      AboveConcat(a[1..], b, since);
      assert head + (x + y) == head + x + y;
    }
  }

  lemma {:induction false} MatchingAbove(q: seq<Event>, since: int, later: int, panes: set<string>)
    requires since <= later
    ensures Matching(q, later, panes) == Above(Matching(q, since, panes), later)
    ensures forall e :: e in Matching(q, since, panes) ==> e.millis > since
    decreases |q|
  {
    if q != [] {
      var last := q[|q| - 1];
      MatchingAbove(q[..|q| - 1], since, later, panes);
      var head := if Wanted(last, since, panes) then [last] else [];
      AboveConcat(head, Matching(q[..|q| - 1], since, panes), later);
      assert Above(head, later) == if Wanted(last, later, panes) then [last] else [] by {
        if head != [] {
          assert head[1..] == [];
        }
      }
    }
  }

  lemma {:induction false} AboveShrinks(s: seq<Event>, since: int)
    ensures |Above(s, since)| <= |s|
    ensures (exists e :: e in s && e.millis <= since) ==> |Above(s, since)| < |s|
    decreases |s|
  {
    if s != [] {
      AboveShrinks(s[1..], since);
    }
  }

  lemma {:induction false} AboveKeeps(s: seq<Event>, since: int)
    requires forall e :: e in s ==> e.millis > since
    ensures Above(s, since) == s
    decreases |s|
  {
    if s != [] {
      AboveKeeps(s[1..], since);
    }
  }

  lemma StepShrinks(q: seq<Event>, since: int, panes: set<string>)
    requires Matching(q, since, panes) != []
    ensures var first := Matching(q, since, panes)[0];
            && first.millis > since
            && |Matching(q, first.millis, panes)| < |Matching(q, since, panes)|
            && Matching(q, first.millis, panes) == Above(Matching(q, since, panes), first.millis)
  {
    var m := Matching(q, since, panes);
    assert m[0] in m;
    MatchingAbove(q, since, since, panes);
    MatchingAbove(q, since, m[0].millis, panes);
    AboveShrinks(m, m[0].millis);
  }

  // An agent that asks again and again, each time from the timestamp of the last answer.
  function Drain(q: seq<Event>, since: int, panes: set<string>): seq<Event>
    decreases |Matching(q, since, panes)|
  {
    match OldestSince(q, since, panes)
    case None => []
    case Some(e) =>
      StepShrinks(q, since, panes);
      [e] + Drain(q, e.millis, panes)
  }

  lemma {:induction false} DrainIncreases(q: seq<Event>, since: int, panes: set<string>)
    ensures Increasing(Drain(q, since, panes)) && forall e :: e in Drain(q, since, panes) ==> e.millis > since
    decreases |Matching(q, since, panes)|
  {
    var m := Matching(q, since, panes);
    if m != [] {
      StepShrinks(q, since, panes);
      var rest := Drain(q, m[0].millis, panes);
      DrainIncreases(q, m[0].millis, panes);
      assert forall i :: 0 <= i < |rest| ==> rest[i] in rest;
    }
  }

  // The drain visits every matching event exactly once, oldest first, if and only if their
  // timestamps strictly increase; otherwise it skips some.
  lemma {:induction false} DrainIsCompleteIff(q: seq<Event>, since: int, panes: set<string>)
    ensures Drain(q, since, panes) == Matching(q, since, panes) <==> Increasing(Matching(q, since, panes))
    decreases |Matching(q, since, panes)|
  {
    var m := Matching(q, since, panes);
    DrainIncreases(q, since, panes);
    if Increasing(m) && m != [] {
      StepShrinks(q, since, panes);
      var t := m[0].millis;
      AboveFirst(m);
      assert Drain(q, since, panes) == [m[0]] + Drain(q, t, panes);
      hide Drain, Matching, Above;
      DrainIsCompleteIff(q, t, panes);
    }
  }

  lemma AboveFirst(m: seq<Event>)
    requires m != [] && Increasing(m)
    ensures Above(m, m[0].millis) == m[1..] && Increasing(m[1..])
  {
    var t := m[0].millis;
    assert m == [m[0]] + m[1..];
    AboveConcat([m[0]], m[1..], t);
    AboveKeeps(m[1..], t);
    assert [m[0]][1..] == [];
  }

  // It does skip some: of two events of different cards pushed in one millisecond, or out of
  // order, the second is never seen.
  lemma PollingSkipsOne(max: nat, a: Event, b: Event, since: int)
    requires max >= 2 && since < b.millis <= a.millis && !SameKey(a, b.paneID, b.title)
    ensures var q := Run(max, [PushOp(a), PushOp(b)]);
            Matching(q, since, {}) == [a, b] && Drain(q, since, {}) == [a]
  {
    TwoPushes(max, a, b);
    hide Run;
    MatchingTwo(b, a, since);
    MatchingTwo(b, a, a.millis);
    assert OldestSince([b, a], a.millis, {}).None?;
  }

  lemma TwoPushes(max: nat, a: Event, b: Event)
    requires max >= 2 && !SameKey(a, b.paneID, b.title)
    ensures Run(max, [PushOp(a), PushOp(b)]) == [b, a]
  {
    var ops := [PushOp(a), PushOp(b)];
    assert ops[..1] == [PushOp(a)] && [PushOp(a)][..0] == [];
    assert Pushed([], max, a) == [a];
    assert Pushed([a], max, b) == [b, a];
    hide Pushed;
    assert Run(max, []) == [];
    assert Run(max, [PushOp(a)]) == [a];
  }

  lemma MatchingTwo(b: Event, a: Event, since: int)
    ensures Matching([b, a], since, {})
            == (if a.millis > since then [a] else []) + (if b.millis > since then [b] else [])
  {
    assert [b, a][..1] == [b] && [b][..0] == [];
    assert Matching([], since, {}) == [];
    assert Matching([b], since, {}) == if b.millis > since then [b] else [];
  }

  // ---------------------------------------------------------------- queues keep time order

  // Newest first.
  ghost predicate TimeOrdered(q: seq<Event>) { forall i, j :: 0 <= i < j < |q| ==> q[i].millis > q[j].millis }

  ghost predicate Before(q: seq<Event>, t: int) { forall i :: 0 <= i < |q| ==> q[i].millis < t }

  lemma CutKeepsOrder(q: seq<Event>, i: nat, t: int)
    requires TimeOrdered(q) && i < |q|
    ensures TimeOrdered(q[..i] + q[i + 1..])
    ensures Before(q, t) ==> Before(q[..i] + q[i + 1..], t)
  {
    var o := q[..i] + q[i + 1..];
    forall a | 0 <= a < |o| ensures o[a] == q[if a < i then a else a + 1] {
    }
  }

  lemma PushKeepsOrder(q: seq<Event>, max: nat, e: Event, t: int)
    requires TimeOrdered(q) && Before(q, e.millis) && e.millis < t
    ensures TimeOrdered(Pushed(q, max, e)) && Before(Pushed(q, max, e), t)
  {
    var o, f := Others(q, e), Folded(q, e);
    assert f.millis == e.millis;
    var i := if Keyed(e.paneID, e.title) then FindCard(q, e.paneID, e.title) else -1;
    if i >= 0 {
      CutKeepsOrder(q, i, e.millis);
    }
    assert TimeOrdered(o) && Before(o, e.millis);
    hide Others, Folded, FindCard;
    var all := [f] + o;
    assert TimeOrdered(all) && Before(all, t);
  }

  lemma DismissKeepsOrder(q: seq<Event>, id: string, t: int)
    requires TimeOrdered(q) && Before(q, t)
    ensures TimeOrdered(Dismiss(q, id)) && Before(Dismiss(q, id), t)
  {
    if FindId(q, id) >= 0 {
      CutKeepsOrder(q, FindId(q, id), t);
    }
  }

  // Pushes come with strictly increasing timestamps.
  ghost predicate TimedOps(ops: seq<Op>) {
    forall i, j :: 0 <= i < j < |ops| && ops[i].PushOp? && ops[j].PushOp? ==> ops[i].e.millis < ops[j].e.millis
  }

  lemma {:induction false} RunIsOrdered(max: nat, ops: seq<Op>, t: int)
    requires TimedOps(ops) && forall i :: 0 <= i < |ops| && ops[i].PushOp? ==> ops[i].e.millis < t
    ensures TimeOrdered(Run(max, ops)) && Before(Run(max, ops), t)
    decreases |ops|
  {
    if ops != [] {
      var before, op := ops[..|ops| - 1], ops[|ops| - 1];
      assert TimedOps(before);
      RunIsOrdered(max, before, if op.PushOp? then op.e.millis else t);
      hide Pushed, Dismiss;
      match op
      case PushOp(e) => PushKeepsOrder(Run(max, before), max, e, t);
      case DismissOp(id) => DismissKeepsOrder(Run(max, before), id, t);
      case DismissAllOp =>
    }
  }

  lemma {:induction false} OrderedMatchingIncreases(q: seq<Event>, since: int, panes: set<string>)
    requires TimeOrdered(q)
    ensures Increasing(Matching(q, since, panes))
    decreases |q|
  {
    if q != [] {
      var init, last := q[..|q| - 1], q[|q| - 1];
      var rest := Matching(init, since, panes);
      assert Matching(q, since, panes) == (if Wanted(last, since, panes) then [last] else []) + rest;
      hide Matching, Wanted;
      OrderedMatchingIncreases(init, since, panes);
      MatchingMembers(init, since, panes);
      forall i | 0 <= i < |rest| ensures rest[i].millis > last.millis {
        assert rest[i] in rest && rest[i] in init;
      }
    }
  }

  lemma {:induction false} MatchingMembers(q: seq<Event>, since: int, panes: set<string>)
    ensures forall e :: e in Matching(q, since, panes) ==> e in q
    decreases |q|
  {
    if q != [] {
      MatchingMembers(q[..|q| - 1], since, panes);
      assert q == q[..|q| - 1] + [q[|q| - 1]];
    }
  }

  // With strictly increasing timestamps an agent misses nothing, whatever was folded, dismissed
  // or evicted on the way.
  lemma DrainVisitsEverything(max: nat, ops: seq<Op>, since: int, panes: set<string>, t: int)
    requires TimedOps(ops) && forall i :: 0 <= i < |ops| && ops[i].PushOp? ==> ops[i].e.millis < t
    ensures Drain(Run(max, ops), since, panes) == Matching(Run(max, ops), since, panes)
  {
    RunIsOrdered(max, ops, t);
    OrderedMatchingIncreases(Run(max, ops), since, panes);
    DrainIsCompleteIff(Run(max, ops), since, panes);
  }

  // ---------------------------------------------------------------- the object

  // A watcher waits on channel `box`, which buffers one event.
  datatype Watcher = Watcher(conn: nat, paneIDs: set<string>, box: nat)

  predicate Hears(w: Watcher, paneID: string) { w.paneIDs == {} || paneID in w.paneIDs }

  function Deaf(ws: seq<Watcher>, paneID: string): seq<Watcher> {
    if ws == [] then []
    else Deaf(ws[..|ws| - 1], paneID) + (if Hears(ws[|ws| - 1], paneID) then [] else [ws[|ws| - 1]])
  }

  // The channels after an event has woken the watchers: a channel that is full stays as it is.
  function Fed(ws: seq<Watcher>, inbox: map<nat, Event>, e: Event): map<nat, Event> {
    if ws == [] then inbox
    else
      var before, w := Fed(ws[..|ws| - 1], inbox, e), ws[|ws| - 1];
      if Hears(w, e.paneID) && w.box !in before then before[w.box := e] else before
  }

  lemma {:induction false} DeafIs(ws: seq<Watcher>, paneID: string)
    ensures forall w :: w in Deaf(ws, paneID) <==> w in ws && !Hears(w, paneID)
    decreases |ws|
  {
    if ws != [] {
      DeafIs(ws[..|ws| - 1], paneID);
      assert ws == ws[..|ws| - 1] + [ws[|ws| - 1]];
    }
  }

  lemma {:induction false} FedIs(ws: seq<Watcher>, inbox: map<nat, Event>, e: Event, b: nat)
    ensures b in inbox ==> b in Fed(ws, inbox, e) && Fed(ws, inbox, e)[b] == inbox[b]
    ensures b !in inbox ==>
              (b in Fed(ws, inbox, e) <==> exists w :: w in ws && w.box == b && Hears(w, e.paneID))
              && (b in Fed(ws, inbox, e) ==> Fed(ws, inbox, e)[b] == e)
    decreases |ws|
  {
    if ws != [] {
      var before, w := ws[..|ws| - 1], ws[|ws| - 1];
      FedIs(before, inbox, e, b);
      assert ws == before + [w];
      assert forall v :: v in ws <==> v in before || v == w;
    }
  }

  // ---------------------------------------------------------------- a watch call

  // The queue with its watchers and their channels.
  datatype Hub = Hub(q: seq<Event>, watchers: seq<Watcher>, inbox: map<nat, Event>)

  // What may happen to it: an operation on the queue, and the three on watchers.
  datatype Act =
    | Does(op: Op)
    | Registers(w: Watcher)
    | Forgets(conn: nat)
    | TimesOut(w: Watcher)

  function WithoutConn(ws: seq<Watcher>, conn: nat): seq<Watcher> {
    if ws == [] then []
    else WithoutConn(ws[..|ws| - 1], conn) + (if ws[|ws| - 1].conn == conn then [] else [ws[|ws| - 1]])
  }

  function WithoutFirst(ws: seq<Watcher>, w: Watcher): seq<Watcher> {
    if ws == [] then [] else if ws[0] == w then ws[1..] else [ws[0]] + WithoutFirst(ws[1..], w)
  }

  function Do(max: nat, h: Hub, a: Act): Hub {
    match a
    case Does(op) =>
      var h1 := h.(q := Apply(h.q, max, op));
      if op.PushOp? then
        h1.(watchers := Deaf(h.watchers, op.e.paneID), inbox := Fed(h.watchers, h.inbox, Folded(h.q, op.e)))
      else h1
    case Registers(w) => h.(watchers := h.watchers + [w])
    case Forgets(conn) => h.(watchers := WithoutConn(h.watchers, conn))
    case TimesOut(w) => h.(watchers := WithoutFirst(h.watchers, w))
  }

  function DoAll(max: nat, h: Hub, acts: seq<Act>): Hub
    decreases |acts|
  {
    if acts == [] then h else DoAll(max, Do(max, h, acts[0]), acts[1..])
  }

  lemma {:induction false} WithoutConnIs(ws: seq<Watcher>, conn: nat)
    ensures forall w :: w in WithoutConn(ws, conn) <==> w in ws && w.conn != conn
    decreases |ws|
  {
    if ws != [] {
      WithoutConnIs(ws[..|ws| - 1], conn);
      assert ws == ws[..|ws| - 1] + [ws[|ws| - 1]];
    }
  }

  lemma {:induction false} WithoutFirstIs(ws: seq<Watcher>, w: Watcher)
    ensures forall v :: v in WithoutFirst(ws, w) ==> v in ws
    ensures forall v :: v in ws && v != w ==> v in WithoutFirst(ws, w)
    decreases |ws|
  {
    if ws != [] {
      WithoutFirstIs(ws[1..], w);
      assert ws == [ws[0]] + ws[1..];
    }
  }

  // A push of a pane the watcher asked for.
  predicate Heard(a: Act, w: Watcher) { a.Does? && a.op.PushOp? && Hears(w, a.op.e.paneID) }

  // The first such push, or the number of steps if there is none.
  function FirstHeard(acts: seq<Act>, w: Watcher): (n: nat)
    ensures n <= |acts| && (n < |acts| ==> Heard(acts[n], w)) && forall i :: 0 <= i < n ==> !Heard(acts[i], w)
  {
    if acts == [] || Heard(acts[0], w) then 0 else 1 + FirstHeard(acts[1..], w)
  }

  // Nothing else uses the watcher's own channel, and nothing takes the watcher away.
  predicate Leaves(a: Act, w: Watcher) {
    && (a.Registers? ==> a.w.box != w.box) && (a.Forgets? ==> a.conn != w.conn) && (a.TimesOut? ==> a.w != w)
  }

  ghost predicate Unused(h: Hub, box: nat) { box !in h.inbox && forall v :: v in h.watchers ==> v.box != box }

  ghost predicate Waits(h: Hub, w: Watcher) {
    w.box !in h.inbox && w in h.watchers && forall v :: v in h.watchers && v.box == w.box ==> v == w
  }

  ghost predicate Answered(h: Hub, w: Watcher, e: Event) {
    && w.box in h.inbox && h.inbox[w.box] == e
    && forall v :: v in h.watchers ==> v.box != w.box
  }

  lemma WatchersAfter(max: nat, h: Hub, a: Act)
    ensures forall v :: v in Do(max, h, a).watchers ==> v in h.watchers || a == Registers(v)
    ensures forall v :: v in h.watchers && Leaves(a, v) && !Heard(a, v) ==> v in Do(max, h, a).watchers
    ensures forall v :: v in Do(max, h, a).watchers && Heard(a, v) ==> false
  {
    hide Apply, Folded;
    match a
    case Does(op) =>
      if op.PushOp? {
        DeafIs(h.watchers, op.e.paneID);
      }
    case Registers(w) =>
    case Forgets(conn) => WithoutConnIs(h.watchers, conn);
    case TimesOut(w) => WithoutFirstIs(h.watchers, w);
  }

  // A channel is filled by a push its watcher hears, with the event as stored, and only once.
  lemma ChannelAfter(max: nat, h: Hub, a: Act, b: nat)
    ensures b in h.inbox ==> b in Do(max, h, a).inbox && Do(max, h, a).inbox[b] == h.inbox[b]
    ensures b !in h.inbox ==>
              (b in Do(max, h, a).inbox <==> exists v :: v in h.watchers && v.box == b && Heard(a, v))
              && (b in Do(max, h, a).inbox ==> Do(max, h, a).inbox[b] == Folded(h.q, a.op.e))
  {
    if a.Does? && a.op.PushOp? {
      assert Folded(h.q, a.op.e).paneID == a.op.e.paneID;
      hide Apply, Folded, Deaf;
      FedIs(h.watchers, h.inbox, Folded(h.q, a.op.e), b);
    }
  }

  lemma UnusedStays(max: nat, h: Hub, a: Act, w: Watcher)
    requires Unused(h, w.box) && (a.Registers? ==> a.w.box != w.box)
    ensures Unused(Do(max, h, a), w.box)
  {
    hide Do;
    WatchersAfter(max, h, a);
    ChannelAfter(max, h, a, w.box);
  }

  // One step of a waiting watcher: it is answered exactly by a push it hears.
  lemma WaitsStep(max: nat, h: Hub, a: Act, w: Watcher)
    requires Waits(h, w) && Leaves(a, w)
    ensures !Heard(a, w) ==> Waits(Do(max, h, a), w)
    ensures Heard(a, w) ==> Answered(Do(max, h, a), w, Folded(h.q, a.op.e))
  {
    hide Do, Folded;
    WatchersAfter(max, h, a);
    ChannelAfter(max, h, a, w.box);
  }

  lemma AnsweredStays(max: nat, h: Hub, a: Act, w: Watcher, e: Event)
    requires Answered(h, w, e) && (a.Registers? ==> a.w.box != w.box)
    ensures Answered(Do(max, h, a), w, e)
  {
    hide Do;
    WatchersAfter(max, h, a);
    ChannelAfter(max, h, a, w.box);
  }

  lemma {:induction false} UnusedAlong(max: nat, h: Hub, acts: seq<Act>, w: Watcher)
    requires Unused(h, w.box) && forall i :: 0 <= i < |acts| && acts[i].Registers? ==> acts[i].w.box != w.box
    ensures Unused(DoAll(max, h, acts), w.box)
    decreases |acts|
  {
    if acts != [] {
      hide Do, Unused;
      UnusedStays(max, h, acts[0], w);
      UnusedAlong(max, Do(max, h, acts[0]), acts[1..], w);
    }
  }

  lemma {:induction false} AnsweredAlong(max: nat, h: Hub, acts: seq<Act>, w: Watcher, e: Event)
    requires Answered(h, w, e) && forall i :: 0 <= i < |acts| && acts[i].Registers? ==> acts[i].w.box != w.box
    ensures Answered(DoAll(max, h, acts), w, e)
    decreases |acts|
  {
    if acts != [] {
      hide Do, Answered;
      AnsweredStays(max, h, acts[0], w, e);
      AnsweredAlong(max, Do(max, h, acts[0]), acts[1..], w, e);
    }
  }

  // A registered watcher waits through every step until the first push it hears, and then has
  // that one's event, as stored, for good.
  lemma {:induction false} WaitsAlong(max: nat, h: Hub, acts: seq<Act>, w: Watcher)
    requires Waits(h, w) && forall i :: 0 <= i < |acts| ==> Leaves(acts[i], w)
    ensures var n := FirstHeard(acts, w);
            if n == |acts| then Waits(DoAll(max, h, acts), w)
            else Answered(DoAll(max, h, acts), w, Folded(DoAll(max, h, acts[..n]).q, acts[n].op.e))
    decreases |acts|
  {
    var n := FirstHeard(acts, w);
    if acts != [] {
      hide Do, Answered, Waits, Folded;
      WaitsStep(max, h, acts[0], w);
      if n == 0 {
        assert acts[..0] == [];
        AnsweredAlong(max, Do(max, h, acts[0]), acts[1..], w, Folded(h.q, acts[0].op.e));
      } else {
        WaitsAlong(max, Do(max, h, acts[0]), acts[1..], w);
        if n < |acts| {
          assert acts[..n][1..] == acts[1..][..n - 1];
        }
      }
    }
  }

  lemma {:induction false} DoAllConcat(max: nat, h: Hub, a: seq<Act>, b: seq<Act>)
    ensures DoAll(max, h, a + b) == DoAll(max, DoAll(max, h, a), b)
    decreases |a|
  {
    if a == [] {
      assert a + b == b;
    } else {
      assert (a + b)[1..] == a[1..] + b;
      hide Do;
      DoAllConcat(max, Do(max, h, a[0]), a[1..], b);
    }
  }

  lemma FirstHeardPrefix(acts: seq<Act>, w: Watcher, m: nat)
    requires m <= |acts|
    ensures FirstHeard(acts[..m], w) == if FirstHeard(acts, w) < m then FirstHeard(acts, w) else m
  {
    var n, k := FirstHeard(acts, w), FirstHeard(acts[..m], w);
    if k < m {
      assert Heard(acts[k], w);
    }
    if n < m {
      assert Heard(acts[..m][n], w);
    }
  }

  // One watch call from its scan on, once the scan has found nothing: the steps up to the
  // registration, the registration, and the steps while the call waits.
  function Call(between: seq<Act>, w: Watcher, after: seq<Act>): seq<Act> { between + [Registers(w)] + after }

  ghost predicate IsCall(h: Hub, between: seq<Act>, w: Watcher, after: seq<Act>) {
    && Unused(h, w.box)
    && (forall i :: 0 <= i < |between| && between[i].Registers? ==> between[i].w.box != w.box)
    && (forall i :: 0 <= i < |after| ==> Leaves(after[i], w))
  }

  lemma Registered(max: nat, h: Hub, w: Watcher)
    requires Unused(h, w.box)
    ensures Waits(Do(max, h, Registers(w)), w)
  {
  }

  lemma CallWaits(max: nat, h: Hub, between: seq<Act>, w: Watcher, after: seq<Act>)
    requires IsCall(h, between, w, after)
    ensures var m := Do(max, DoAll(max, h, between), Registers(w));
            Waits(m, w) && DoAll(max, h, Call(between, w, after)) == DoAll(max, m, after)
  {
    var h1 := DoAll(max, h, between);
    UnusedAlong(max, h, between, w);
    Registered(max, h1, w);
    assert [Registers(w)][1..] == [];
    assert DoAll(max, h1, [Registers(w)]) == Do(max, h1, Registers(w)) by {
      assert DoAll(max, Do(max, h1, Registers(w)), []) == Do(max, h1, Registers(w));
    }
    hide *;
    DoAllConcat(max, h, between, [Registers(w)]);
    DoAllConcat(max, h, between + [Registers(w)], after);
  }

  // When the call has its answer: once a step after the registration was a push it hears.
  lemma FilledIff(max: nat, h: Hub, between: seq<Act>, w: Watcher, after: seq<Act>, k: nat)
    requires IsCall(h, between, w, after) && k <= |Call(between, w, after)|
    ensures w.box in DoAll(max, h, Call(between, w, after)[..k]).inbox <==> k > |between| + 1 + FirstHeard(after, w)
  {
    var acts := Call(between, w, after);
    if k <= |between| {
      assert acts[..k] == between[..k];
      UnusedAlong(max, h, between[..k], w);
    } else {
      var m := k - |between| - 1;
      assert acts[..k] == Call(between, w, after[..m]);
      FirstHeardPrefix(after, w, m);
      hide DoAll, Call, FirstHeard;
      CallWaits(max, h, between, w, after[..m]);
      WaitsAlong(max, Do(max, DoAll(max, h, between), Registers(w)), after[..m], w);
    }
  }

  // Exactly which pushes a watch call misses, whatever else the queue and its watchers do: of
  // those it asked for, the ones between its scan and its registration. After any other it has
  // an answer.
  lemma WatchMissesIff(max: nat, h: Hub, between: seq<Act>, w: Watcher, after: seq<Act>, i: nat)
    requires IsCall(h, between, w, after) && i < |Call(between, w, after)|
    requires var a := Call(between, w, after)[i]; a.Does? && a.op.PushOp? && (w.paneIDs == {} || a.op.e.paneID in w.paneIDs)
    ensures w.box !in DoAll(max, h, Call(between, w, after)[..i + 1]).inbox <==> i < |between|
  {
    var acts := Call(between, w, after);
    FilledIff(max, h, between, w, after, i + 1);
    assert i < |between| || acts[i] == Registers(w) || acts[i] == after[i - |between| - 1];
  }

  // So the answer is the first matching push since the scan if and only if none fell in between.
  lemma WatchAnswersFirstIff(max: nat, h: Hub, between: seq<Act>, w: Watcher, after: seq<Act>)
    requires IsCall(h, between, w, after) && FirstHeard(after, w) < |after|
    ensures var acts, n := Call(between, w, after), FirstHeard(after, w);
            && w.box in DoAll(max, h, acts).inbox
            && DoAll(max, h, acts).inbox[w.box] == Folded(DoAll(max, h, Call(between, w, after[..n])).q, after[n].op.e)
            && (w.paneIDs == {} || DoAll(max, h, acts).inbox[w.box].paneID in w.paneIDs)
            && (FirstHeard(acts, w) == |between| + 1 + n <==> FirstHeard(between, w) == |between|)
  {
    var n := FirstHeard(after, w);
    FoldedIsStored(DoAll(max, h, Call(between, w, after[..n])).q, after[n].op.e);
    var m := Do(max, DoAll(max, h, between), Registers(w));
    FirstHeardInCall(between, w, after);
    hide Call, Do, DoAll, FirstHeard, Heard, Folded;
    CallWaits(max, h, between, w, after);
    CallWaits(max, h, between, w, after[..n]);
    WaitsAlong(max, m, after, w);
  }

  lemma FirstHeardInCall(between: seq<Act>, w: Watcher, after: seq<Act>)
    ensures FirstHeard(Call(between, w, after), w)
            == if FirstHeard(between, w) < |between| then FirstHeard(between, w) else |between| + 1 + FirstHeard(after, w)
  {
    var acts, n := Call(between, w, after), FirstHeard(after, w);
    assert acts[..|between|] == between;
    FirstHeardPrefix(acts, w, |between|);
    if n < |after| {
      assert acts[|between| + 1 + n] == after[n];
    }
    forall i | |between| <= i < |between| + 1 + n ensures !Heard(acts[i], w) {
      assert i == |between| || acts[i] == after[i - |between| - 1];
    }
  }

  class EventQueue {
    var events: seq<Event>
    const max: nat
    var watchers: seq<Watcher>
    var inbox: map<nat, Event>  // what each channel buffers

    function View(): Hub
      reads this
    {
      Hub(events, watchers, inbox)
    }

    constructor (max: int)
      ensures events == [] && watchers == [] && inbox == map[] && this.max == (if max <= 0 then 50 else max)
    {
      this.max := if max <= 0 then 50 else max;
      events, watchers, inbox := [], [], map[];
    }

    method Push(e: Event)
      modifies this
      ensures events == Pushed(old(events), max, e)
      ensures watchers == Deaf(old(watchers), e.paneID)
      ensures inbox == Fed(old(watchers), old(inbox), Folded(old(events), e))
      ensures View() == Do(max, old(View()), Does(PushOp(e)))
    {
      var stored := e;
      if e.paneID != "" && e.title != "" {
        var i := 0;
        while i < |events|
          invariant 0 <= i <= |events|
          invariant forall j :: 0 <= j < i ==> !SameKey(events[j], e.paneID, e.title)
        {
          if events[i].paneID == e.paneID && events[i].title == e.title {
            break;
          }
          i := i + 1;
        }
        if i < |events| {
          FirstCard(events, e, i);
          var count := CountOf(events[i]) + 1;
          stored := e.(id := events[i].id, data := e.data["count" := Itoa(Positive(count))]);
          events := events[..i] + events[i + 1..];
        }
      }
      assert stored == Folded(old(events), e) && events == Others(old(events), e);
      events := [stored] + events;
      if |events| > max {
        events := events[..max];
      }
      Wake(stored);
    }

    method Wake(e: Event)
      modifies this`watchers, this`inbox
      ensures watchers == Deaf(old(watchers), e.paneID)
      ensures inbox == Fed(old(watchers), old(inbox), e)
    {
      var remaining: seq<Watcher> := [];
      for k := 0 to |watchers|
        invariant watchers == old(watchers) && remaining == Deaf(watchers[..k], e.paneID)
        invariant inbox == Fed(watchers[..k], old(inbox), e)
      {
        var w := watchers[k];
        assert watchers[..k + 1][..k] == watchers[..k];
        if w.paneIDs == {} || e.paneID in w.paneIDs {
          if w.box !in inbox {
            inbox := inbox[w.box := e];
          }
        } else {
          remaining := remaining + [w];
        }
      }
      assert watchers[..|watchers|] == watchers;
      watchers := remaining;
    }

    method DismissEvent(id: string)
      modifies this`events
      ensures events == Dismiss(old(events), id)
    {
      var i := 0;
      while i < |events|
        invariant 0 <= i <= |events|
        invariant forall j :: 0 <= j < i ==> events[j].id != id
      {
        if events[i].id == id {
          FirstId(events, id, i);
          events := events[..i] + events[i + 1..];
          return;
        }
        i := i + 1;
      }
    }

    method DismissAll()
      modifies this`events
      ensures events == []
    {
      events := [];
    }

    method EventsOldestFirst() returns (out: seq<Event>)
      ensures |out| == |events| && forall i :: 0 <= i < |out| ==> out[i] == events[|events| - 1 - i]
    {
      out := [];
      var i := |events|;
      while i > 0
        invariant 0 <= i <= |events| && |out| == |events| - i
        invariant forall k :: 0 <= k < |out| ==> out[k] == events[|events| - 1 - k]
      {
        i := i - 1;
        out := out + [events[i]];
      }
    }

    method FindSince(since: int, panes: set<string>) returns (r: Option<Event>)
      ensures r == OldestSince(events, since, panes)
    {
      var i := |events|;
      assert events[..i] == events;
      while i > 0
        invariant 0 <= i <= |events|
        invariant Matching(events, since, panes) == Matching(events[..i], since, panes)
      {
        var e := events[i - 1];
        assert events[..i][..i - 1] == events[..i - 1];
        if e.millis > since && (panes == {} || e.paneID in panes) {
          return Some(e);
        }
        i := i - 1;
      }
      return None;
    }

    method AddWatcher(w: Watcher)
      modifies this`watchers
      ensures View() == Do(max, old(View()), Registers(w))
    {
      watchers := watchers + [w];
    }

    method RemoveWatcher(w: Watcher)
      modifies this`watchers
      ensures View() == Do(max, old(View()), TimesOut(w))
    {
      var i := 0;
      while i < |watchers|
        invariant 0 <= i <= |watchers| && watchers == old(watchers)
        invariant WithoutFirst(watchers, w) == watchers[..i] + WithoutFirst(watchers[i..], w)
      {
        assert watchers[i..][1..] == watchers[i + 1..];
        if watchers[i] == w {
          watchers := watchers[..i] + watchers[i + 1..];
          return;
        }
        assert watchers[..i] + ([watchers[i]] + WithoutFirst(watchers[i + 1..], w)) == watchers[..i + 1] + WithoutFirst(watchers[i + 1..], w);
        i := i + 1;
      }
      assert watchers == watchers[..i] + WithoutFirst(watchers[i..], w);
    }

    method RemoveWatchersByConn(conn: nat)
      modifies this`watchers
      ensures View() == Do(max, old(View()), Forgets(conn))
    {
      var remaining: seq<Watcher> := [];
      for k := 0 to |watchers|
        invariant watchers == old(watchers) && remaining == WithoutConn(watchers[..k], conn)
      {
        assert watchers[..k + 1][..k] == watchers[..k];
        if watchers[k].conn != conn {
          remaining := remaining + [watchers[k]];
        }
      }
      assert watchers[..|watchers|] == watchers;
      watchers := remaining;
    }
  }

  lemma FirstCard(q: seq<Event>, e: Event, i: nat)
    requires i < |q| && SameKey(q[i], e.paneID, e.title)
    requires forall j :: 0 <= j < i ==> !SameKey(q[j], e.paneID, e.title)
    ensures FindCard(q, e.paneID, e.title) == i
  {
  }

  lemma FirstId(q: seq<Event>, id: string, i: nat)
    requires i < |q| && q[i].id == id && forall j :: 0 <= j < i ==> q[j].id != id
    ensures FindId(q, id) == i
  {
  }
}
