/** The order-list operations of internal/daemon/project.go: removeString, indexOfString,
    insertStringAt, slideString and reanchorTab.

    Orders are sequences without repeats. `Filter` restricts an order to a set of ids, which is
    how a global order is compared with a project's own. The in-place `SlideString` and the
    remove-then-insert form are proved to agree, and re-anchoring to move one id only. */
module ProjectLists {

  // A tab or project identifier. Identifiers are only ever compared; 0 stands for the empty one.
  newtype Id = n: int | 0 <= n

  function IndexOf(s: seq<Id>, v: Id): (i: int)
    ensures -1 <= i < |s|
    ensures i >= 0 ==> s[i] == v && forall j :: 0 <= j < i ==> s[j] != v
    ensures i < 0 ==> v !in s
  {
    if s == [] then -1
    else if s[0] == v then 0
    else
      var r := IndexOf(s[1..], v);
      if r < 0 then -1 else r + 1
  }

  function Remove(s: seq<Id>, v: Id): seq<Id> {
    var i := IndexOf(s, v);
    if i < 0 then s else s[..i] + s[i + 1..]
  }

  function InsertAt(s: seq<Id>, i: nat, v: Id): seq<Id>
    requires i <= |s|
  {
    s[..i] + [v] + s[i..]
  }

  function Clamp(i: int, hi: nat): (r: nat)
    ensures r <= hi
  {
    if i < 0 then 0 else if i > hi then hi else i
  }

  // Move v to ordinal k of the list, shifting what lies between.
  function Move(s: seq<Id>, v: Id, k: int): seq<Id> {
    var rest := Remove(s, v);
    InsertAt(rest, Clamp(k, |rest|), v)
  }

  predicate NoDup(s: seq<Id>) { forall i, j :: 0 <= i < j < |s| ==> s[i] != s[j] }

  function Elems(s: seq<Id>): set<Id> { set i | 0 <= i < |s| :: s[i] }

  function Filter(s: seq<Id>, keep: set<Id>): seq<Id> {
    if s == [] then []
    else (if s[0] in keep then [s[0]] else []) + Filter(s[1..], keep)
  }

  // ---------------------------------------------------------------- lemmas on the lists

  lemma InElems(s: seq<Id>, v: Id)
    ensures v in Elems(s) <==> v in s
  {
  }

  lemma IndexUnique(s: seq<Id>, v: Id, i: nat)
    requires NoDup(s) && i < |s| && s[i] == v
    ensures IndexOf(s, v) == i
  {
  }

  lemma {:induction false} FilterConcat(a: seq<Id>, b: seq<Id>, keep: set<Id>)
    ensures Filter(a + b, keep) == Filter(a, keep) + Filter(b, keep)
    decreases |a|
  {
    if a == [] {
      assert a + b == b;
    } else {
      assert (a + b)[1..] == a[1..] + b && (a + b)[0] == a[0];
      var head, x, y := if a[0] in keep then [a[0]] else [], Filter(a[1..], keep), Filter(b, keep);
      assert Filter(a, keep) == head + x;
      assert Filter(a + b, keep) == head + Filter(a[1..] + b, keep);
      hide *;
      FilterConcat(a[1..], b, keep);
      assert head + (x + y) == head + x + y;
    }
  }

  lemma FilterOne(v: Id, keep: set<Id>)
    ensures Filter([v], keep) == if v in keep then [v] else []
  {
    assert [v][1..] == [];
  }

  lemma {:induction false} FilterElems(s: seq<Id>, keep: set<Id>)
    ensures forall v :: v in Filter(s, keep) <==> v in s && v in keep
    decreases |s|
  {
    if s != [] {
      FilterElems(s[1..], keep);
      assert s == [s[0]] + s[1..];
    }
  }

  lemma {:induction false} FilterNoDup(s: seq<Id>, keep: set<Id>)
    requires NoDup(s)
    ensures NoDup(Filter(s, keep))
    decreases |s|
  {
    if s != [] {
      FilterNoDup(s[1..], keep);
      FilterElems(s[1..], keep);
      assert s[0] !in s[1..];
    }
  }

  lemma {:induction false} FilterAll(s: seq<Id>, keep: set<Id>)
    requires forall v :: v in s ==> v in keep
    ensures Filter(s, keep) == s
    decreases |s|
  {
    if s != [] {
      FilterAll(s[1..], keep);
    }
  }

  lemma {:induction false} FilterSame(s: seq<Id>, a: set<Id>, b: set<Id>)
    requires forall v :: v in s ==> (v in a <==> v in b)
    ensures Filter(s, a) == Filter(s, b)
    decreases |s|
  {
    if s != [] {
      FilterSame(s[1..], a, b);
    }
  }

  lemma {:induction false} FilterTwice(s: seq<Id>, a: set<Id>, b: set<Id>)
    ensures Filter(Filter(s, a), b) == Filter(s, a * b)
    decreases |s|
  {
    if s != [] {
      FilterTwice(s[1..], a, b);
      var h := if s[0] in a then [s[0]] else [];
      FilterConcat(h, Filter(s[1..], a), b);
      FilterOne(s[0], b);
    }
  }

  lemma NoDupAround(a: seq<Id>, v: Id, b: seq<Id>)
    ensures NoDup(a + [v] + b) <==> NoDup(a + b) && v !in a && v !in b
  {
    var s, t := a + [v] + b, a + b;
    var n := |a|;
    assert s[n] == v;
    if NoDup(s) {
      forall i, j | 0 <= i < j < |t| ensures t[i] != t[j] {
        var i', j' := if i < n then i else i + 1, if j < n then j else j + 1;
        assert t[i] == s[i'] && t[j] == s[j'];
      }
      forall i | 0 <= i < n ensures a[i] != v {
        assert s[i] == a[i];
      }
      forall i | 0 <= i < |b| ensures b[i] != v {
        assert s[n + 1 + i] == b[i];
      }
    }
    if NoDup(t) && v !in a && v !in b {
      forall i, j | 0 <= i < j < |s| ensures s[i] != s[j] {
        if i == n {
          assert s[j] == b[j - n - 1];
        } else if j == n {
          assert s[i] == a[i];
        } else {
          var i', j' := if i < n then i else i - 1, if j < n then j else j - 1;
          assert s[i] == t[i'] && s[j] == t[j'];
        }
      }
    }
  }

  lemma ElemsAround(a: seq<Id>, v: Id, b: seq<Id>)
    ensures Elems(a + [v] + b) == Elems(a + b) + {v}
  {
    forall x ensures x in Elems(a + [v] + b) <==> x in Elems(a + b) + {v} {
      InElems(a + [v] + b, x);
      InElems(a + b, x);
    }
  }

  // The list around the first occurrence of one of its elements.
  lemma Around(s: seq<Id>, v: Id)
    requires v in s
    ensures var i := IndexOf(s, v);
            0 <= i < |s| && s == s[..i] + [v] + s[i + 1..] && Remove(s, v) == s[..i] + s[i + 1..]
  {
  }

  // On a list without duplicates, removing is filtering.
  lemma RemoveProps(s: seq<Id>, v: Id)
    requires NoDup(s)
    ensures NoDup(Remove(s, v)) && v !in Remove(s, v) && Elems(Remove(s, v)) == Elems(s) - {v}
  {
    if v in s {
      Around(s, v);
      var i := IndexOf(s, v);
      NoDupAround(s[..i], v, s[i + 1..]);
      ElemsAround(s[..i], v, s[i + 1..]);
      InElems(Remove(s, v), v);
    } else {
      InElems(s, v);
    }
  }

  // Around an element that occurs once, the rest is kept alike with or without it in the set.
  lemma FilterAround(a: seq<Id>, v: Id, b: seq<Id>, keep: set<Id>)
    requires v !in a && v !in b
    ensures Filter(a + b, keep) == Filter(a + [v] + b, keep - {v})
  {
    FilterConcat(a, b, keep);
    FilterConcat(a + [v], b, keep - {v});
    FilterConcat(a, [v], keep - {v});
    FilterOne(v, keep - {v});
    FilterSame(a, keep, keep - {v});
    FilterSame(b, keep, keep - {v});
  }

  lemma RemoveIsFilter(s: seq<Id>, v: Id, keep: set<Id>)
    requires NoDup(s)
    ensures Filter(Remove(s, v), keep) == Filter(s, keep - {v})
  {
    if v in s {
      Around(s, v);
      var i := IndexOf(s, v);
      NoDupAround(s[..i], v, s[i + 1..]);
      hide NoDup, Filter, IndexOf, Remove;
      FilterAround(s[..i], v, s[i + 1..], keep);
    } else {
      FilterSame(s, keep, keep - {v});
    }
  }

  lemma InsertProps(s: seq<Id>, i: nat, v: Id)
    requires i <= |s| && NoDup(s) && v !in s
    ensures var t := InsertAt(s, i, v);
            NoDup(t) && Elems(t) == Elems(s) + {v} && v in t && IndexOf(t, v) == i && Remove(t, v) == s
  {
    var t := InsertAt(s, i, v);
    assert s == s[..i] + s[i..];
    NoDupAround(s[..i], v, s[i..]);
    ElemsAround(s[..i], v, s[i..]);
    assert t[i] == v;
    IndexUnique(t, v, i);
    assert t[..i] == s[..i] && t[i + 1..] == s[i..];
  }

  lemma InsertFilter(s: seq<Id>, i: nat, v: Id, keep: set<Id>)
    requires i <= |s|
    ensures Filter(InsertAt(s, i, v), keep) ==
            Filter(s[..i], keep) + (if v in keep then [v] else []) + Filter(s[i..], keep)
    ensures Filter(s, keep) == Filter(s[..i], keep) + Filter(s[i..], keep)
  {
    FilterConcat(s[..i] + [v], s[i..], keep);
    FilterConcat(s[..i], [v], keep);
    FilterOne(v, keep);
    assert s == s[..i] + s[i..];
    FilterConcat(s[..i], s[i..], keep);
  }

  // ---------------------------------------------------------------- sliding

  // The in-place slide of a tab drag: one overlapping copy, then one store.
  method SlideString(a: array<Id>, v: Id, newIdx: int) returns (moved: bool)
    modifies a
    ensures v !in old(a[..]) ==> !moved && a[..] == old(a[..])
    ensures v in old(a[..]) ==>
              && a[..] == Move(old(a[..]), v, newIdx)
              && moved == (IndexOf(old(a[..]), v) != Clamp(newIdx, |old(a[..])| - 1))
  {
    var from := IndexOf(a[..], v);
    if from < 0 {
      return false;
    }
    var k := newIdx;
    assert Clamp(newIdx, |a[..]| - 1) == if newIdx < 0 then 0 else if newIdx >= a.Length then a.Length - 1 else newIdx;
    if k < 0 {
      k := 0;
    }
    if k >= a.Length {
      k := a.Length - 1;
    }
    ghost var s := a[..];
    if from == k {
      MoveNowhere(s, v);
      return false;
    }
    if from < k {
      CopyDown(a, from, k);
    } else {
      CopyUp(a, k, from);
    }
    ghost var t := a[..];
    a[k] := v;
    assert a[..] == t[k := v];
    if from < k {
      MoveDown(s, v, from, k);
    } else {
      MoveUp(s, v, from, k);
    }
    return true;
  }

  lemma MoveNowhere(s: seq<Id>, v: Id)
    requires v in s
    ensures Move(s, v, IndexOf(s, v)) == s
  {
    Around(s, v);
  }

  lemma StoreAt(p: seq<Id>, x: Id, q: seq<Id>, v: Id)
    ensures (p + [x] + q)[|p| := v] == p + [v] + q
  {
  }

  lemma DropOne(s: seq<Id>, from: nat, k: nat)
    requires from < |s| && k < |s|
    ensures var rest := s[..from] + s[from + 1..];
            && (from < k ==> rest[..k] == s[..from] + s[from + 1..k + 1] && rest[k..] == s[k + 1..])
            && (k < from ==> rest[..k] == s[..k] && rest[k..] == s[k..from] + s[from + 1..])
  {
  }

  lemma MoveIs(s: seq<Id>, v: Id, k: nat)
    requires v in s && k < |s|
    ensures 0 <= IndexOf(s, v) < |s|
    ensures var i := IndexOf(s, v);
            var rest := s[..i] + s[i + 1..];
            Move(s, v, k) == rest[..k] + [v] + rest[k..]
  {
    Around(s, v);
  }

  lemma StoreDown(s: seq<Id>, v: Id, from: nat, k: nat)
    requires from < k < |s|
    ensures (s[..from] + s[from + 1..k + 1] + s[k..])[k := v] == s[..from] + s[from + 1..k + 1] + [v] + s[k + 1..]
  {
    var p := s[..from] + s[from + 1..k + 1];
    assert s[k..] == [s[k]] + s[k + 1..];
    assert p + s[k..] == p + [s[k]] + s[k + 1..];
    StoreAt(p, s[k], s[k + 1..], v);
  }

  // The copy leaves one entry doubled; storing v over it completes the move.
  lemma MoveDown(s: seq<Id>, v: Id, from: nat, k: nat)
    requires v in s && from == IndexOf(s, v) && from < k < |s|
    ensures (s[..from] + s[from + 1..k + 1] + s[k..])[k := v] == Move(s, v, k)
  {
    hide *;
    MoveIs(s, v, k);
    DropOne(s, from, k);
    StoreDown(s, v, from, k);
  }

  lemma StoreUp(s: seq<Id>, v: Id, from: nat, k: nat)
    requires k < from < |s|
    ensures (s[..k + 1] + s[k..from] + s[from + 1..])[k := v] == s[..k] + [v] + (s[k..from] + s[from + 1..])
  {
    var q := s[k..from] + s[from + 1..];
    assert s[..k + 1] == s[..k] + [s[k]];
    assert s[..k + 1] + s[k..from] + s[from + 1..] == s[..k] + [s[k]] + q;
    StoreAt(s[..k], s[k], q, v);
  }

  lemma MoveUp(s: seq<Id>, v: Id, from: nat, k: nat)
    requires v in s && from == IndexOf(s, v) && k < from
    ensures (s[..k + 1] + s[k..from] + s[from + 1..])[k := v] == Move(s, v, k)
  {
    hide *;
    MoveIs(s, v, k);
    DropOne(s, from, k);
    StoreUp(s, v, from, k);
  }

  // copy(s[from:to], s[from+1:to+1])
  method CopyDown(a: array<Id>, from: nat, to: nat)
    requires from < to < a.Length
    modifies a
    ensures a[..] == old(a[..from]) + old(a[from + 1..to + 1]) + old(a[to..])
  {
    var i := from;
    while i < to
      invariant from <= i <= to
      invariant a[..from] == old(a[..from])
      invariant forall j :: from <= j < i ==> a[j] == old(a[j + 1])
      invariant forall j :: i <= j < a.Length ==> a[j] == old(a[j])
    {
      a[i] := a[i + 1];
      i := i + 1;
    }
  }

  // copy(s[to+1:from+1], s[to:from])
  method CopyUp(a: array<Id>, to: nat, from: nat)
    requires to < from < a.Length
    modifies a
    ensures a[..] == old(a[..to + 1]) + old(a[to..from]) + old(a[from + 1..])
  {
    var i := from;
    while i > to
      invariant to <= i <= from
      invariant a[from + 1..] == old(a[from + 1..])
      invariant forall j :: i < j <= from ==> a[j] == old(a[j - 1])
      invariant forall j :: 0 <= j <= i ==> a[j] == old(a[j])
    {
      a[i] := a[i - 1];
      i := i - 1;
    }
  }

  lemma MultisetAround(a: seq<Id>, v: Id, b: seq<Id>)
    ensures multiset(a + [v] + b) == multiset(a + b) + multiset{v}
  {
  }

  lemma MoveMultiset(s: seq<Id>, v: Id, k: int)
    requires v in s
    ensures multiset(Move(s, v, k)) == multiset(s)
  {
    Around(s, v);
    var rest, i := Remove(s, v), IndexOf(s, v);
    var to := Clamp(k, |rest|);
    MultisetAround(rest[..to], v, rest[to..]);
    assert rest == rest[..to] + rest[to..];
    MultisetAround(s[..i], v, s[i + 1..]);
  }

  // Sliding and remove-then-insert are the same permutation with the same change flag.
  lemma SlideIsReorder(s: seq<Id>, v: Id, k: int)
    requires NoDup(s) && v in s
    ensures (IndexOf(s, v) != Clamp(k, |s| - 1)) <==> (IndexOf(Move(s, v, k), v) != IndexOf(s, v))
    ensures (IndexOf(s, v) != Clamp(k, |s| - 1)) <==> Move(s, v, k) != s
    ensures Remove(Move(s, v, k), v) == Remove(s, v)
    ensures NoDup(Move(s, v, k)) && Elems(Move(s, v, k)) == Elems(s)
    ensures multiset(Move(s, v, k)) == multiset(s)
  {
    MoveProps(s, v, k);
    MoveNowhere(s, v);
    MoveMultiset(s, v, k);
  }

  lemma MoveProps(s: seq<Id>, v: Id, k: int)
    requires NoDup(s) && v in s
    ensures IndexOf(Move(s, v, k), v) == Clamp(k, |s| - 1)
    ensures Remove(Move(s, v, k), v) == Remove(s, v)
    ensures NoDup(Move(s, v, k)) && Elems(Move(s, v, k)) == Elems(s)
  {
    var rest := Remove(s, v);
    assert |rest| == |s| - 1 by { Around(s, v); }
    assert NoDup(rest) && v !in rest && Elems(rest) + {v} == Elems(s) by {
      RemoveProps(s, v);
      InElems(s, v);
    }
    InsertProps(rest, Clamp(k, |rest|), v);
  }

  // ---------------------------------------------------------------- re-anchoring

  function Reanchor(order: seq<Id>, projTabs: seq<Id>, tab: Id): seq<Id> {
    var at := IndexOf(projTabs, tab);
    if at < 0 then order
    else
      var rest := Remove(order, tab);
      if at > 0 && IndexOf(rest, projTabs[at - 1]) >= 0 then
        InsertAt(rest, IndexOf(rest, projTabs[at - 1]) + 1, tab)
      else if at + 1 < |projTabs| && IndexOf(rest, projTabs[at + 1]) >= 0 then
        InsertAt(rest, IndexOf(rest, projTabs[at + 1]), tab)
      else rest + [tab]
  }

  // Re-anchoring moves only the tab: every other tab keeps its place among the others.
  lemma ReanchorMovesOnlyTab(order: seq<Id>, projTabs: seq<Id>, tab: Id)
    requires NoDup(order) && tab in projTabs
    ensures var r := Reanchor(order, projTabs, tab);
            NoDup(r) && Elems(r) == Elems(order) + {tab} && Remove(r, tab) == Remove(order, tab)
  {
    var rest := Remove(order, tab);
    RemoveProps(order, tab);
    var i := ReanchorSlot(order, projTabs, tab);
    InsertProps(rest, i, tab);
  }

  lemma ReanchorSlot(order: seq<Id>, projTabs: seq<Id>, tab: Id) returns (i: nat)
    requires tab in projTabs
    ensures i <= |Remove(order, tab)| && Reanchor(order, projTabs, tab) == InsertAt(Remove(order, tab), i, tab)
  {
    var at := IndexOf(projTabs, tab);
    var rest := Remove(order, tab);
    if at > 0 && IndexOf(rest, projTabs[at - 1]) >= 0 {
      i := IndexOf(rest, projTabs[at - 1]) + 1;
    } else if at + 1 < |projTabs| && IndexOf(rest, projTabs[at + 1]) >= 0 {
      i := IndexOf(rest, projTabs[at + 1]);
    } else {
      i := |rest|;
      assert InsertAt(rest, i, tab) == rest + [tab];
    }
  }

  lemma {:induction false} FilterIndex(s: seq<Id>, keep: set<Id>, i: nat)
    requires NoDup(s) && i < |s| && s[i] in keep
    ensures var f := Filter(s, keep);
            var k := |Filter(s[..i], keep)|;
            k < |f| && f[k] == s[i] && Filter(s[..i], keep) == f[..k]
            && Filter(s[..i + 1], keep) == f[..k + 1] && Filter(s[i..], keep) == f[k..]
            && Filter(s[i + 1..], keep) == f[k + 1..]
  {
    assert s == s[..i] + s[i..] && s[i..] == [s[i]] + s[i + 1..] && s[..i + 1] == s[..i] + [s[i]];
    FilterConcat(s[..i], s[i..], keep);
    FilterConcat([s[i]], s[i + 1..], keep);
    FilterConcat(s[..i], [s[i]], keep);
    FilterOne(s[i], keep);
  }

  // A tab put right after one project neighbour, or right before the other, lands at its
  // place in the restricted order.
  lemma InsertBeside(rest: seq<Id>, keep: set<Id>, i: nat, before: bool, tab: Id)
    requires NoDup(rest) && i < |rest| && rest[i] in keep && tab in keep
    ensures var p := Filter(rest, keep);
            var k := IndexOf(p, rest[i]);
            && 0 <= k < |p|
            && Filter(InsertAt(rest, if before then i else i + 1, tab), keep) ==
               (if before then p[..k] + [tab] + p[k..] else p[..k + 1] + [tab] + p[k + 1..])
  {
    FilterIndex(rest, keep, i);
    FilterNoDup(rest, keep);
    var k := |Filter(rest[..i], keep)|;
    IndexUnique(Filter(rest, keep), rest[i], k);
    InsertFilter(rest, if before then i else i + 1, tab, keep);
  }

  // The place of an element among the first or the last of a project's list.
  lemma Neighbours(projTabs: seq<Id>, tab: Id)
    requires NoDup(projTabs) && tab in projTabs
    ensures var at, p := IndexOf(projTabs, tab), Remove(projTabs, tab);
            && 0 <= at < |projTabs| && |p| == |projTabs| - 1 && NoDup(p)
            && projTabs == p[..at] + [tab] + p[at..]
            && (at > 0 ==> projTabs[at - 1] == p[at - 1] && IndexOf(p, p[at - 1]) == at - 1)
            && (at < |p| ==> projTabs[at + 1] == p[at] && IndexOf(p, p[at]) == at)
  {
    var at, p := IndexOf(projTabs, tab), Remove(projTabs, tab);
    Around(projTabs, tab);
    RemoveProps(projTabs, tab);
    if at > 0 {
      IndexUnique(p, p[at - 1], at - 1);
    }
    if at < |p| {
      IndexUnique(p, p[at], at);
    }
  }

  lemma ReanchorRest(order: seq<Id>, projTabs: seq<Id>, tab: Id)
    requires NoDup(order) && NoDup(projTabs) && tab in projTabs
    requires Filter(order, Elems(projTabs) - {tab}) == Remove(projTabs, tab)
    ensures var rest := Remove(order, tab);
            && NoDup(rest) && Filter(rest, Elems(projTabs)) == Remove(projTabs, tab)
            && tab in Elems(projTabs)
            && forall t :: t in Remove(projTabs, tab) ==> t in rest && t in Elems(projTabs)
  {
    RemoveProps(order, tab);
    RemoveIsFilter(order, tab, Elems(projTabs));
    FilterElems(Remove(order, tab), Elems(projTabs));
    InElems(projTabs, tab);
  }

  // Afterwards the global order restricted to the project is the project's own order.
  lemma ReanchorRestores(order: seq<Id>, projTabs: seq<Id>, tab: Id)
    requires NoDup(order) && NoDup(projTabs) && tab in projTabs
    requires Filter(order, Elems(projTabs) - {tab}) == Remove(projTabs, tab)
    ensures Filter(Reanchor(order, projTabs, tab), Elems(projTabs)) == projTabs
  {
    hide NoDup, Elems, Filter, Remove, IndexOf, InsertAt;
    var keep := Elems(projTabs);
    var rest := Remove(order, tab);
    var at := IndexOf(projTabs, tab);
    var p := Remove(projTabs, tab);
    Neighbours(projTabs, tab);
    ReanchorRest(order, projTabs, tab);
    if at > 0 {
      assert p[at - 1] in p;
      InsertBeside(rest, keep, IndexOf(rest, p[at - 1]), false, tab);
    } else if at < |p| {
      assert p[at] in p;
      InsertBeside(rest, keep, IndexOf(rest, p[at]), true, tab);
      assert p[..at] == [];
    } else {
      FilterConcat(rest, [tab], keep);
      FilterOne(tab, keep);
      assert p == [];
    }
  }

  lemma InsertedBeside(rest: seq<Id>, j: nat, before: bool, tab: Id)
    requires NoDup(rest) && tab !in rest && j < |rest|
    ensures var r := InsertAt(rest, if before then j else j + 1, tab);
            IndexOf(r, tab) == (if before then j else j + 1) && IndexOf(r, rest[j]) == (if before then j + 1 else j)
  {
    var i := if before then j else j + 1;
    var r := InsertAt(rest, i, tab);
    InsertProps(rest, i, tab);
    assert r[i] == tab && r[if before then j + 1 else j] == rest[j];
    IndexUnique(r, tab, i);
    IndexUnique(r, rest[j], if before then j + 1 else j);
  }

  lemma RestHolds(order: seq<Id>, tab: Id)
    requires NoDup(order)
    ensures NoDup(Remove(order, tab)) && forall v :: v in Remove(order, tab) <==> v in order && v != tab
  {
    var rest := Remove(order, tab);
    RemoveProps(order, tab);
    forall v ensures v in rest <==> v in order && v != tab {
      InElems(rest, v);
      InElems(order, v);
    }
  }

  lemma NeighboursDiffer(projTabs: seq<Id>, tab: Id)
    requires NoDup(projTabs) && tab in projTabs
    ensures var at := IndexOf(projTabs, tab);
            && 0 <= at < |projTabs| && (at > 0 ==> projTabs[at - 1] != tab)
            && (at + 1 < |projTabs| ==> projTabs[at + 1] != tab)
  {
  }

  // Where re-anchoring puts the tab among those of other projects: right behind its predecessor
  // in the project, or right before its successor, or last.
  lemma ReanchorBeside(order: seq<Id>, projTabs: seq<Id>, tab: Id)
    requires NoDup(order) && NoDup(projTabs) && tab in projTabs
    ensures var r, at := Reanchor(order, projTabs, tab), IndexOf(projTabs, tab);
            if at > 0 && projTabs[at - 1] in order then IndexOf(r, tab) == IndexOf(r, projTabs[at - 1]) + 1
            else if at + 1 < |projTabs| && projTabs[at + 1] in order then IndexOf(r, projTabs[at + 1]) == IndexOf(r, tab) + 1
            else r != [] && r[|r| - 1] == tab
  {
    var rest, at := Remove(order, tab), IndexOf(projTabs, tab);
    RestHolds(order, tab);
    NeighboursDiffer(projTabs, tab);
    var r := Reanchor(order, projTabs, tab);
    if at > 0 && projTabs[at - 1] in order {
      var j := IndexOf(rest, projTabs[at - 1]);
      assert r == InsertAt(rest, j + 1, tab) && rest[j] == projTabs[at - 1];
      hide *;
      InsertedBeside(rest, j, false, tab);
    } else if at + 1 < |projTabs| && projTabs[at + 1] in order {
      var j := IndexOf(rest, projTabs[at + 1]);
      assert r == InsertAt(rest, j, tab) && rest[j] == projTabs[at + 1];
      hide *;
      InsertedBeside(rest, j, true, tab);
    } else {
      assert r == rest + [tab];
    }
  }
}
