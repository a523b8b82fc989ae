/** MergeProjects of internal/daemon/project.go as an operation on the session value, and what
    a fold conserves. */
module ProjectMerge {
  import opened ProjectLists
  import opened Session

  // One tab of an absorbed project joins the survivor, on both sides of the link.
  function AbsorbTab(s: Session, into: Id, tab: Id): Session
    requires into in s.projects
  {
    if tab !in s.owner then s
    else
      var s1 := s.(owner := s.owner[tab := into]);
      var dst := s.projects[into];
      if tab in dst.tabIDs then s1
      else
        var ids := dst.tabIDs + [tab];
        s1.(projects := s.projects[into := dst.(tabIDs := ids)],
            tabOrder := Reanchor(s.tabOrder, ids, tab))
  }

  function AbsorbTabs(s: Session, into: Id, tabs: seq<Id>): (r: Session)
    requires into in s.projects
    ensures r.projects.Keys == s.projects.Keys
  {
    if tabs == [] then s else AbsorbTab(AbsorbTabs(s, into, tabs[..|tabs| - 1]), into, tabs[|tabs| - 1])
  }

  function AbsorbProject(s: Session, into: Id, id: Id): (r: Session)
    requires into in s.projects
    ensures into in r.projects
  {
    if id == into || id !in s.projects then s
    else
      var s1 := AbsorbTabs(s, into, s.projects[id].tabIDs);
      s1.(projects := s1.projects - {id},
          projectOrder := Remove(s1.projectOrder, id),
          activeProject := if s1.activeProject == id then into else s1.activeProject)
  }

  function AbsorbAll(s: Session, into: Id, absorb: seq<Id>): (r: Session)
    requires into in s.projects
    ensures into in r.projects
  {
    if absorb == [] then s else AbsorbProject(AbsorbAll(s, into, absorb[..|absorb| - 1]), into, absorb[|absorb| - 1])
  }

  // The survivor is named, becomes the user's own, and the active tab is settled on it.
  function FinishMerge(s: Session, into: Id, name: string): (r: Session)
    requires into in s.projects
    ensures into in r.projects
  {
    var dst := s.projects[into].(name := name, bootstrap := false);
    var s1 := s.(projects := s.projects[into := dst]);
    if s.activeProject != into then s1
    else if s.activeTab in dst.tabIDs then
      s1.(projects := s.projects[into := dst.(activeTab := s.activeTab)])
    else if dst.activeTab != NONE && dst.activeTab in dst.tabIDs then s1.(activeTab := dst.activeTab)
    else if dst.tabIDs != [] then
      s1.(activeTab := dst.tabIDs[0], projects := s.projects[into := dst.(activeTab := dst.tabIDs[0])])
    else s1
  }

  function MergeProjects(s: Session, into: Id, absorb: seq<Id>, name: string): (r: Session)
    requires into in s.projects
    ensures into in r.projects
  {
    FinishMerge(AbsorbAll(s, into, absorb), into, name)
  }

  // ---------------------------------------------------------------- the global order

  function ReanchorAll(order: seq<Id>, ids: seq<Id>, tabs: seq<Id>): seq<Id> {
    if tabs == [] then order
    else Reanchor(ReanchorAll(order, ids, tabs[..|tabs| - 1]), ids + tabs, tabs[|tabs| - 1])
  }

  lemma NoDupAppend(ids: seq<Id>, tab: Id)
    requires NoDup(ids + [tab])
    ensures NoDup(ids) && tab !in ids && Remove(ids + [tab], tab) == ids
    ensures Elems(ids + [tab]) - {tab} == Elems(ids) && tab in ids + [tab]
    ensures Elems(ids + [tab]) == Elems(ids) + {tab} && tab in Elems(ids + [tab])
  {
    var all := ids + [tab];
    assert all + [] == all && ids + [] == ids;
    NoDupAround(ids, tab, []);
    ElemsAround(ids, tab, []);
    assert all[|ids|] == tab;
    IndexUnique(all, tab, |ids|);
    InElems(ids, tab);
  }

  lemma ReanchorAllOne(order: seq<Id>, ids: seq<Id>, tabs: seq<Id>, tab: Id)
    ensures ReanchorAll(order, ids, tabs + [tab]) == Reanchor(ReanchorAll(order, ids, tabs), ids + tabs + [tab], tab)
  {
    assert ids + tabs + [tab] == ids + (tabs + [tab]);
    assert (tabs + [tab])[..|tabs|] == tabs;
  }

  lemma AlignOne(m: seq<Id>, most: seq<Id>, all: seq<Id>, tab: Id)
    requires NoDup(m) && NoDup(all) && tab in all && tab in Elems(m)
    requires Remove(all, tab) == most && Elems(all) - {tab} == Elems(most) && Filter(m, Elems(most)) == most
    ensures var r := Reanchor(m, all, tab);
            NoDup(r) && Elems(r) == Elems(m) && Filter(r, Elems(all)) == all && Remove(r, tab) == Remove(m, tab)
  {
    hide *;
    ReanchorMovesOnlyTab(m, all, tab);
    ReanchorRestores(m, all, tab);
    assert Elems(m) + {tab} == Elems(m);
  }

  // Re-anchoring the absorbed tabs one after the other aligns the global order with the
  // survivor's grown list.
  lemma {:induction false} ReanchorAllAligns(order: seq<Id>, ids: seq<Id>, tabs: seq<Id>)
    requires NoDup(order) && NoDup(ids + tabs) && Elems(ids + tabs) <= Elems(order)
    requires Filter(order, Elems(ids)) == ids
    ensures var r := ReanchorAll(order, ids, tabs);
            NoDup(r) && Elems(r) == Elems(order) && Filter(r, Elems(ids + tabs)) == ids + tabs
    decreases |tabs|
  {
    if tabs == [] {
      assert ids + tabs == ids;
    } else {
      var pre, tab := tabs[..|tabs| - 1], tabs[|tabs| - 1];
      var most, all, m := ids + pre, ids + tabs, ReanchorAll(order, ids, pre);
      assert tabs == pre + [tab] && all == most + [tab];
      assert ReanchorAll(order, ids, tabs) == Reanchor(m, all, tab);
      hide *;
      NoDupAppend(most, tab);
      ReanchorAllAligns(order, ids, pre);
      AlignOne(m, most, all, tab);
    }
  }

  // Tabs that were not absorbed keep their order among themselves.
  lemma {:induction false} ReanchorAllKeeps(order: seq<Id>, ids: seq<Id>, tabs: seq<Id>, keep: set<Id>)
    requires NoDup(order) && NoDup(ids + tabs) && Elems(ids + tabs) <= Elems(order)
    requires Filter(order, Elems(ids)) == ids
    requires forall t :: t in tabs ==> t !in keep
    ensures Filter(ReanchorAll(order, ids, tabs), keep) == Filter(order, keep)
    decreases |tabs|
  {
    if tabs != [] {
      var pre, tab := tabs[..|tabs| - 1], tabs[|tabs| - 1];
      var most, all, m := ids + pre, ids + tabs, ReanchorAll(order, ids, pre);
      hide *;
      assert tabs == pre + [tab] && all == most + [tab] && tab in tabs;
      assert forall t :: t in pre ==> t in tabs;
      ReanchorAllOne(order, ids, pre, tab);
      NoDupAppend(most, tab);
      ReanchorAllAligns(order, ids, pre);
      ReanchorAllKeeps(order, ids, pre, keep);
      AlignOne(m, most, all, tab);
      FilterIgnoresTab(m, Reanchor(m, all, tab), tab, keep);
    }
  }

  // ---------------------------------------------------------------- one absorbed project

  function Rehomed(owner: map<Id, Id>, tabs: seq<Id>, into: Id): map<Id, Id> {
    map t | t in owner :: if t in tabs then into else owner[t]
  }

  lemma RehomedOne(owner: map<Id, Id>, tabs: seq<Id>, tab: Id, into: Id)
    requires tab in owner
    ensures Rehomed(owner, tabs, into)[tab := into] == Rehomed(owner, tabs + [tab], into)
  {
  }

  // What absorbing the tabs `tabs` of another project makes of a consistent state.
  function Absorbed(s: Session, into: Id, tabs: seq<Id>): Session
    requires into in s.projects
  {
    var dst := s.projects[into];
    s.(owner := Rehomed(s.owner, tabs, into),
       tabOrder := ReanchorAll(s.tabOrder, dst.tabIDs, tabs),
       projects := s.projects[into := dst.(tabIDs := dst.tabIDs + tabs)])
  }

  lemma UpdateTwice(projects: map<Id, Project>, p: Id, a: Project, b: Project)
    ensures projects[p := a][p := b] == projects[p := b]
  {
  }

  lemma AbsorbedOne(s: Session, into: Id, tabs: seq<Id>, tab: Id)
    requires into in s.projects && tab in s.owner && tab !in s.projects[into].tabIDs + tabs
    ensures AbsorbTab(Absorbed(s, into, tabs), into, tab) == Absorbed(s, into, tabs + [tab])
  {
    var dst := s.projects[into];
    var ids := dst.tabIDs;
    assert ids + tabs + [tab] == ids + (tabs + [tab]);
    var a, b := Absorbed(s, into, tabs), Absorbed(s, into, tabs + [tab]);
    assert tab in a.owner;
    RehomedOne(s.owner, tabs, tab, into);
    ReanchorAllOne(s.tabOrder, ids, tabs, tab);
    UpdateTwice(s.projects, into, dst.(tabIDs := ids + tabs), dst.(tabIDs := ids + (tabs + [tab])));
    hide Rehomed, Reanchor, ReanchorAll;
    assert a.projects[into].tabIDs == ids + tabs;
    var r := AbsorbTab(a, into, tab);
    assert r.owner == b.owner;
    assert r.tabOrder == b.tabOrder;
    assert r.projects == b.projects;
  }

  lemma AbsorbedNone(s: Session, into: Id)
    requires into in s.projects
    ensures Absorbed(s, into, []) == s
  {
    var dst := s.projects[into];
    assert dst.tabIDs + [] == dst.tabIDs;
    assert s.projects[into := dst] == s.projects;
    assert Rehomed(s.owner, [], into) == s.owner;
  }

  lemma {:induction false} AbsorbTabsClosed(s: Session, into: Id, tabs: seq<Id>)
    requires into in s.projects && NoDup(s.projects[into].tabIDs + tabs)
    requires forall t :: t in tabs ==> t in s.owner
    ensures AbsorbTabs(s, into, tabs) == Absorbed(s, into, tabs)
    decreases |tabs|
  {
    var ids := s.projects[into].tabIDs;
    if tabs == [] {
      AbsorbedNone(s, into);
    } else {
      var pre, tab := tabs[..|tabs| - 1], tabs[|tabs| - 1];
      assert ids + tabs == ids + pre + [tab] && tabs == pre + [tab] && tab in tabs;
      assert forall t :: t in pre ==> t in tabs;
      assert AbsorbTabs(s, into, tabs) == AbsorbTab(AbsorbTabs(s, into, pre), into, tab);
      hide *;
      NoDupAppend(ids + pre, tab);
      AbsorbTabsClosed(s, into, pre);
      AbsorbedOne(s, into, pre, tab);
    }
  }

  // The survivor's list and an absorbed one never share a tab.
  lemma ListsJoin(s: Session, into: Id, id: Id)
    requires Linked(s) && into in s.projects && id in s.projects && into != id
    ensures NoDup(s.projects[into].tabIDs + s.projects[id].tabIDs)
    ensures forall t :: t in s.projects[id].tabIDs ==> t in s.owner
  {
    OwnersDiffer(s, into, id);
    var a, b := s.projects[into].tabIDs, s.projects[id].tabIDs;
    forall i, j | 0 <= i < j < |a + b| ensures (a + b)[i] != (a + b)[j] {
      assert i < |a| && j >= |a| ==> a[i] in a && b[j - |a|] in b;
    }
  }

  lemma AbsorbProjectClosed(s: Session, into: Id, id: Id)
    requires Linked(s) && into in s.projects && id in s.projects && into != id
    ensures var a := Absorbed(s, into, s.projects[id].tabIDs);
            AbsorbProject(s, into, id) ==
            a.(projects := a.projects - {id}, projectOrder := Remove(s.projectOrder, id),
               activeProject := if s.activeProject == id then into else s.activeProject)
  {
    ListsJoin(s, into, id);
    AbsorbTabsClosed(s, into, s.projects[id].tabIDs);
    hide Linked, NoDup, Remove, Rehomed, ReanchorAll, AbsorbTabs;
  }

  lemma JoinedLinked(s: Session, r: Session, into: Id, id: Id)
    requires Linked(s) && into in s.projects && id in s.projects && into != id
    requires NoDup(s.projects[into].tabIDs + s.projects[id].tabIDs)
    requires r.projects == s.projects[into := s.projects[into].(tabIDs := s.projects[into].tabIDs + s.projects[id].tabIDs)] - {id}
    requires r.owner == Rehomed(s.owner, s.projects[id].tabIDs, into)
    ensures Linked(r)
  {
    hide NoDup;
    forall p, t | p in r.projects && t in r.projects[p].tabIDs ensures t in r.owner && r.owner[t] == p {
      if p == into && t in s.projects[id].tabIDs {
        assert s.owner[t] == id;
      } else {
        assert t in s.projects[p].tabIDs && s.owner[t] == p;
      }
    }
    forall t | t in r.owner ensures r.owner[t] in r.projects && t in r.projects[r.owner[t]].tabIDs {
      assert t in s.projects[s.owner[t]].tabIDs;
    }
  }

  lemma AbsorbLinked(s: Session, into: Id, id: Id)
    requires Linked(s) && into in s.projects && id in s.projects && into != id
    ensures Linked(AbsorbProject(s, into, id))
  {
    ListsJoin(s, into, id);
    AbsorbProjectClosed(s, into, id);
    hide NoDup, Linked, AbsorbProject, Remove, ReanchorAll, Rehomed;
    JoinedLinked(s, AbsorbProject(s, into, id), into, id);
  }

  lemma AbsorbAligned(s: Session, into: Id, id: Id)
    requires Linked(s) && Ordered(s) && Aligned(s) && into in s.projects && id in s.projects && into != id
    ensures var r := AbsorbProject(s, into, id);
            Aligned(r) && NoDup(r.tabOrder) && Elems(r.tabOrder) == Elems(s.tabOrder)
  {
    var a, b := s.projects[into].tabIDs, s.projects[id].tabIDs;
    ListsJoin(s, into, id);
    ListedKnown(s, into, id);
    AbsorbProjectClosed(s, into, id);
    var r := AbsorbProject(s, into, id);
    ReanchorAllAligns(s.tabOrder, a, b);
    assert r.tabOrder == ReanchorAll(s.tabOrder, a, b);
    assert r.projects == s.projects[into := s.projects[into].(tabIDs := a + b)] - {id};
    forall q | q in r.projects && q != into
      ensures Filter(r.tabOrder, Elems(r.projects[q].tabIDs)) == r.projects[q].tabIDs
    {
      OwnersDiffer(s, q, id);
      forall t | t in b ensures t !in Elems(s.projects[q].tabIDs) {
        InElems(s.projects[q].tabIDs, t);
      }
      hide NoDup, Elems, Filter, Linked, AbsorbProject;
      ReanchorAllKeeps(s.tabOrder, a, b, Elems(s.projects[q].tabIDs));
    }
  }

  lemma ListedKnown(s: Session, into: Id, id: Id)
    requires Linked(s) && Ordered(s) && into in s.projects && id in s.projects
    ensures Elems(s.projects[into].tabIDs + s.projects[id].tabIDs) <= Elems(s.tabOrder)
  {
    hide NoDup;
    var both := s.projects[into].tabIDs + s.projects[id].tabIDs;
    forall t | t in Elems(both) ensures t in Elems(s.tabOrder) {
      InElems(both, t);
    }
  }

  lemma AbsorbActive(s: Session, into: Id, id: Id)
    requires Linked(s) && Active(s) && into in s.projects && id in s.projects && into != id
    ensures Active(AbsorbProject(s, into, id))
  {
    AbsorbProjectClosed(s, into, id);
    hide Linked, NoDup, AbsorbProject, ReanchorAll, Remove;
  }

  lemma AbsorbKeepsWF(s: Session, into: Id, id: Id)
    requires WF(s) && into in s.projects
    ensures WF(AbsorbProject(s, into, id))
  {
    if id != into && id in s.projects {
      AbsorbLinked(s, into, id);
      AbsorbAligned(s, into, id);
      AbsorbActive(s, into, id);
      AbsorbProjectClosed(s, into, id);
      hide NoDup, Elems, Aligned, Active, Linked, AbsorbProject, Remove, ReanchorAll;
      RemoveProps(s.projectOrder, id);
      assert AbsorbProject(s, into, id).projects.Keys == s.projects.Keys - {id};
    }
  }

  // ---------------------------------------------------------------- a whole fold

  // The survivor's list after a fold: its own tabs, then each absorbed project's, once.
  function Joined(s: Session, into: Id, absorb: seq<Id>): seq<Id>
    requires into in s.projects
  {
    if absorb == [] then s.projects[into].tabIDs
    else
      var n := |absorb| - 1;
      var before, id := Joined(s, into, absorb[..n]), absorb[n];
      if id == into || id in absorb[..n] || id !in s.projects then before
      else before + s.projects[id].tabIDs
  }

  // Every project but the survivor and the absorbed ones is as it was.
  ghost predicate FoldedProjects(s: Session, r: Session, into: Id, gone: set<Id>) {
    && r.projects.Keys == s.projects.Keys - gone
    && (forall p :: p in r.projects && p != into ==> r.projects[p] == s.projects[p])
    && r.projectOrder == Filter(s.projectOrder, s.projects.Keys - gone)
  }

  // Every tab is still there, owned by the survivor if its project was absorbed.
  ghost predicate FoldedOwners(s: Session, r: Session, into: Id, gone: set<Id>) {
    && r.owner.Keys == s.owner.Keys
    && forall t :: t in s.owner ==> r.owner[t] == if s.owner[t] in gone then into else s.owner[t]
  }

  function Unmoved(s: Session, gone: set<Id>): set<Id> { set t | t in s.owner && s.owner[t] !in gone }

  // Tabs that did not move keep their relative order.
  ghost predicate FoldedOrder(s: Session, r: Session, gone: set<Id>) {
    Filter(r.tabOrder, Unmoved(s, gone)) == Filter(s.tabOrder, Unmoved(s, gone))
  }

  lemma FoldProjects(s: Session, m: Session, into: Id, gone: set<Id>, id: Id)
    requires FoldedProjects(s, m, into, gone) && Linked(m) && NoDup(m.projectOrder)
    requires into in s.projects && into in m.projects && id in m.projects && id != into
    ensures FoldedProjects(s, AbsorbProject(m, into, id), into, gone + {id})
  {
    var r := AbsorbProject(m, into, id);
    var a, b := m.projects[into].tabIDs, m.projects[id].tabIDs;
    AbsorbProjectClosed(m, into, id);
    RemoveIsKept(s.projectOrder, m.projectOrder, id, s.projects.Keys - gone);
    hide Linked, NoDup, Remove, Filter, AbsorbProject, Rehomed, ReanchorAll;
    assert r.projects == m.projects[into := m.projects[into].(tabIDs := a + b)] - {id};
    assert s.projects.Keys - gone - {id} == s.projects.Keys - (gone + {id});
  }

  lemma RemoveIsKept(before: seq<Id>, now: seq<Id>, id: Id, keep: set<Id>)
    requires now == Filter(before, keep) && NoDup(now)
    ensures Remove(now, id) == Filter(before, keep - {id})
  {
    RemoveProps(now, id);
    FilterElems(before, keep);
    FilterAll(now, keep);
    RemoveMembers(now, id);
    FilterAll(Remove(now, id), keep);
    RemoveIsFilter(now, id, keep);
    FilterTwice(before, keep, keep - {id});
    assert keep * (keep - {id}) == keep - {id};
  }

  lemma FoldOwners(s: Session, m: Session, into: Id, gone: set<Id>, id: Id)
    requires FoldedOwners(s, m, into, gone) && Linked(m)
    requires into in m.projects && id in m.projects && id != into && into !in gone
    ensures FoldedOwners(s, AbsorbProject(m, into, id), into, gone + {id})
  {
    AbsorbProjectClosed(m, into, id);
    var r := AbsorbProject(m, into, id);
    assert r.owner == Rehomed(m.owner, m.projects[id].tabIDs, into);
    hide AbsorbProject, NoDup;
    forall t | t in s.owner
      ensures r.owner[t] == if s.owner[t] in gone + {id} then into else s.owner[t]
    {
      assert t in m.projects[id].tabIDs <==> m.owner[t] == id;
    }
  }

  lemma FilterOnLess(a: seq<Id>, b: seq<Id>, more: set<Id>, less: set<Id>)
    requires Filter(a, more) == Filter(b, more) && less <= more
    ensures Filter(a, less) == Filter(b, less)
  {
    FilterTwice(a, more, less);
    FilterTwice(b, more, less);
    assert more * less == less;
  }

  lemma FoldOrder(s: Session, m: Session, into: Id, gone: set<Id>, id: Id)
    requires FoldedOrder(s, m, gone) && FoldedOwners(s, m, into, gone)
    requires Linked(m) && Ordered(m) && Aligned(m)
    requires into in m.projects && id in m.projects && id != into
    ensures FoldedOrder(s, AbsorbProject(m, into, id), gone + {id})
  {
    var keep := Unmoved(s, gone + {id});
    var a, b := m.projects[into].tabIDs, m.projects[id].tabIDs;
    ListsJoin(m, into, id);
    ListedKnown(m, into, id);
    AbsorbProjectClosed(m, into, id);
    assert AbsorbProject(m, into, id).tabOrder == ReanchorAll(m.tabOrder, a, b);
    forall t | t in b ensures t !in keep {
      assert m.owner[t] == id;
    }
    hide Filter, NoDup, Elems, AbsorbProject, Linked;
    ReanchorAllKeeps(m.tabOrder, a, b, keep);
    FilterOnLess(m.tabOrder, s.tabOrder, Unmoved(s, gone), keep);
  }

  ghost predicate Folded(s: Session, r: Session, into: Id, gone: set<Id>) {
    && FoldedProjects(s, r, into, gone) && FoldedOwners(s, r, into, gone) && FoldedOrder(s, r, gone)
    && r.activeTab == s.activeTab
    && r.activeProject == if s.activeProject in gone && s.activeProject in s.projects then into else s.activeProject
  }

  lemma FoldNothing(s: Session, into: Id)
    requires Ordered(s)
    ensures Folded(s, s, into, {})
  {
    forall p | p in s.projectOrder ensures p in s.projects.Keys - {} {
      InElems(s.projectOrder, p);
    }
    FilterAll(s.projectOrder, s.projects.Keys - {});
  }

  // An id absorbed before, or never known, leaves the fold where it was.
  lemma FoldSkip(s: Session, r: Session, into: Id, gone: set<Id>, id: Id)
    requires Folded(s, r, into, gone) && Linked(s) && (id in gone || id !in s.projects)
    ensures Folded(s, r, into, gone + {id})
  {
    hide Filter, NoDup;
    if id in gone {
      assert gone + {id} == gone;
    } else {
      assert s.projects.Keys - (gone + {id}) == s.projects.Keys - gone;
      assert Unmoved(s, gone + {id}) == Unmoved(s, gone);
    }
  }

  lemma FoldStep(s: Session, m: Session, into: Id, gone: set<Id>, id: Id)
    requires Folded(s, m, into, gone) && WF(s) && WF(m) && into !in gone
    requires into in s.projects && into in m.projects
    ensures Folded(s, AbsorbProject(m, into, id), into, gone + ({id} - {into}))
  {
    if id == into {
      assert gone + ({id} - {into}) == gone;
    } else if id !in m.projects {
      assert gone + ({id} - {into}) == gone + {id};
      FoldSkip(s, m, into, gone, id);
    } else {
      assert gone + ({id} - {into}) == gone + {id};
      FoldProjects(s, m, into, gone, id);
      FoldOwners(s, m, into, gone, id);
      FoldOrder(s, m, into, gone, id);
      AbsorbProjectClosed(m, into, id);
      hide FoldedProjects, FoldedOwners, FoldedOrder, Linked, Aligned, Ordered, NoDup;
      assert id in s.projects && id !in gone by { FoldedKeys(s, m, into, gone); }
    }
  }

  lemma FoldedKeys(s: Session, r: Session, into: Id, gone: set<Id>)
    requires FoldedProjects(s, r, into, gone)
    ensures r.projects.Keys == s.projects.Keys - gone
    ensures forall p :: p in r.projects && p != into ==> r.projects[p] == s.projects[p]
  {
  }


  lemma {:induction false} FoldAll(s: Session, into: Id, absorb: seq<Id>)
    requires WF(s) && into in s.projects
    ensures var r := AbsorbAll(s, into, absorb);
            WF(r) && Folded(s, r, into, Elems(absorb) - {into})
    decreases |absorb|
  {
    if absorb == [] {
      FoldNothing(s, into);
      assert Elems(absorb) - {into} == {};
    } else {
      var n := |absorb| - 1;
      var id := absorb[n];
      ElemsLast(absorb);
      hide WF, Folded, NoDup, Elems, AbsorbProject;
      FoldAll(s, into, absorb[..n]);
      var m := AbsorbAll(s, into, absorb[..n]);
      var gone := Elems(absorb[..n]) - {into};
      FoldStep(s, m, into, gone, id);
      AbsorbKeepsWF(m, into, id);
      assert Elems(absorb) - {into} == gone + ({id} - {into});
    }
  }

  lemma {:induction false} FoldJoins(s: Session, into: Id, absorb: seq<Id>)
    requires WF(s) && into in s.projects
    ensures var r := AbsorbAll(s, into, absorb).projects[into];
            r == s.projects[into].(tabIDs := Joined(s, into, absorb))
    decreases |absorb|
  {
    if absorb != [] {
      var n := |absorb| - 1;
      var id := absorb[n];
      FoldJoins(s, into, absorb[..n]);
      FoldAll(s, into, absorb[..n]);
      var m := AbsorbAll(s, into, absorb[..n]);
      FoldedKeys(s, m, into, Elems(absorb[..n]) - {into});
      InElems(absorb[..n], id);
      hide Folded, FoldedProjects, Elems, Linked, Aligned, Ordered, Active;
      if id in m.projects && id != into {
        AbsorbedList(m, into, id);
      }
    }
  }

  lemma AbsorbedList(m: Session, into: Id, id: Id)
    requires WF(m) && into in m.projects && id in m.projects && id != into
    ensures AbsorbProject(m, into, id).projects[into] ==
            m.projects[into].(tabIDs := m.projects[into].tabIDs + m.projects[id].tabIDs)
  {
    AbsorbProjectClosed(m, into, id);
  }

  // ---------------------------------------------------------------- the merge

  lemma FinishKeeps(s: Session, into: Id, name: string)
    requires Active(s) && into in s.projects
    ensures var r := FinishMerge(s, into, name);
            && SameTabs(s, r) && r.projectOrder == s.projectOrder && r.activeProject == s.activeProject
            && (forall p :: p in s.projects && p != into ==> r.projects[p] == s.projects[p])
            && r.projects[into].name == name && !r.projects[into].bootstrap
            && r.projects[into].rootDir == s.projects[into].rootDir
  {
  }

  lemma FinishActive(s: Session, into: Id, name: string)
    requires Linked(s) && Active(s) && into in s.projects
    ensures Active(FinishMerge(s, into, name))
    ensures s.activeProject == into ==> ActiveTabShown(FinishMerge(s, into, name))
  {
    hide NoDup;
    var ids := s.projects[into].tabIDs;
    if ids != [] {
      assert ids[0] in ids;
    }
  }

  lemma MergeKeepsWF(s: Session, into: Id, absorb: seq<Id>, name: string)
    requires WF(s) && into in s.projects
    ensures WF(MergeProjects(s, into, absorb, name))
  {
    FoldAll(s, into, absorb);
    var m := AbsorbAll(s, into, absorb);
    hide Folded, NoDup, Linked, Ordered, Aligned, Active, SameTabs, FinishMerge, AbsorbAll;
    FinishKeeps(m, into, name);
    FinishActive(m, into, name);
    SameTabsKeepsWF(m, FinishMerge(m, into, name));
  }

  // The lists of the projects in order, end to end.
  function Listed(s: Session, order: seq<Id>): seq<Id> {
    if order == [] then []
    else (if order[0] in s.projects then s.projects[order[0]].tabIDs else []) + Listed(s, order[1..])
  }

  lemma OnceInList(ids: seq<Id>, t: Id)
    requires NoDup(ids)
    ensures multiset(ids)[t] == if t in ids then 1 else 0
    decreases |ids|
  {
    if ids != [] {
      assert ids == [ids[0]] + ids[1..];
      OnceInList(ids[1..], t);
      assert ids[0] !in ids[1..];
    }
  }

  lemma {:induction false} ListedCount(s: Session, order: seq<Id>, t: Id)
    requires Linked(s) && NoDup(order)
    ensures multiset(Listed(s, order))[t] == if t in s.owner && s.owner[t] in order then 1 else 0
    decreases |order|
  {
    if order != [] {
      var p := order[0];
      assert order == [p] + order[1..] && p !in order[1..];
      ListedCount(s, order[1..], t);
      if p in s.projects {
        OnceInList(s.projects[p].tabIDs, t);
      }
    }
  }

  // In a consistent state the project lists together hold every tab exactly once.
  lemma EachTabListedOnce(s: Session)
    requires WF(s)
    ensures multiset(Listed(s, s.projectOrder)) == multiset(s.owner.Keys)
  {
    forall t ensures multiset(Listed(s, s.projectOrder))[t] == multiset(s.owner.Keys)[t] {
      ListedCount(s, s.projectOrder, t);
      if t in s.owner {
        InElems(s.projectOrder, s.owner[t]);
      }
    }
  }

  ghost predicate Conserved(s: Session, r: Session, into: Id, absorb: seq<Id>) {
    var gone := Elems(absorb) - {into};
    && into in s.projects && into in r.projects
    && multiset(Listed(r, r.projectOrder)) == multiset(Listed(s, s.projectOrder))
    && FoldedOwners(s, r, into, gone)
    && FoldedOrder(s, r, gone)
    && FoldedProjects(s, r, into, gone)
    && r.projects[into].tabIDs == Joined(s, into, absorb)
    && Filter(r.tabOrder, Elems(r.projects[into].tabIDs)) == r.projects[into].tabIDs
  }

  // Naming the survivor and settling the active tab move no tab.
  lemma FinishFolds(s: Session, m: Session, into: Id, gone: set<Id>, name: string)
    requires Active(m) && Folded(s, m, into, gone) && into in m.projects
    ensures var r := FinishMerge(m, into, name);
            && FoldedOwners(s, r, into, gone) && FoldedOrder(s, r, gone) && FoldedProjects(s, r, into, gone)
            && r.owner.Keys == m.owner.Keys == s.owner.Keys
            && r.projects[into].tabIDs == m.projects[into].tabIDs
  {
    FinishKeeps(m, into, name);
    hide Active, FinishMerge, Filter, Unmoved;
  }

  lemma SameListed(s: Session, r: Session)
    requires WF(s) && WF(r) && r.owner.Keys == s.owner.Keys
    ensures multiset(Listed(r, r.projectOrder)) == multiset(Listed(s, s.projectOrder))
  {
    hide WF, Listed;
    EachTabListedOnce(s);
    EachTabListedOnce(r);
  }

  // A merge moves tabs and loses none: what it conserves, and what it changes.
  lemma MergeConserves(s: Session, into: Id, absorb: seq<Id>, name: string)
    requires WF(s) && into in s.projects
    ensures Conserved(s, MergeProjects(s, into, absorb, name), into, absorb)
  {
    var m := AbsorbAll(s, into, absorb);
    var r := FinishMerge(m, into, name);
    var gone := Elems(absorb) - {into};
    FoldAll(s, into, absorb);
    FoldJoins(s, into, absorb);
    MergeKeepsWF(s, into, absorb, name);
    assert Active(m) && Aligned(r) && into in r.projects && r == MergeProjects(s, into, absorb, name);
    assert Filter(r.tabOrder, Elems(r.projects[into].tabIDs)) == r.projects[into].tabIDs;
    hide Linked, Ordered, Aligned, Active, FoldedOwners, FoldedOrder, FoldedProjects;
    hide NoDup, Elems, Filter, Listed, FinishMerge, AbsorbAll, Joined, Folded, MergeProjects, WF;
    FinishFolds(s, m, into, gone, name);
    SameListed(s, r);
  }

  // Afterwards the active tab is a tab the client shows, wherever the fold left the user.
  lemma MergeShowsActiveTab(s: Session, into: Id, absorb: seq<Id>, name: string)
    requires WF(s) && into in s.projects
    ensures var r := MergeProjects(s, into, absorb, name);
            && r.activeProject == (if s.activeProject in Elems(absorb) && s.activeProject in s.projects then into else s.activeProject)
            && (r.activeProject == into ==> ActiveTabShown(r))
            && (r.activeProject != into && ActiveTabShown(s) ==> ActiveTabShown(r))
  {
    FoldAll(s, into, absorb);
    var m := AbsorbAll(s, into, absorb);
    FinishKeeps(m, into, name);
    FinishActive(m, into, name);
    hide NoDup, Elems, Filter, Linked, Ordered, Aligned, AbsorbAll;
  }

  // Where the user ends up. In the survivor: on the tab that was active if it is now there, else
  // on the one the survivor remembered, else on its first; and the survivor remembers that tab.
  // Elsewhere: where they were. The survivor has the new name and is the user's own.
  lemma MergeLands(s: Session, into: Id, absorb: seq<Id>, name: string)
    requires WF(s) && into in s.projects
    ensures var r := MergeProjects(s, into, absorb, name);
            var ids, was := r.projects[into].tabIDs, s.projects[into].activeTab;
            && r.projects[into].name == name && !r.projects[into].bootstrap
            && r.projects[into].rootDir == s.projects[into].rootDir
            && (r.activeProject == into && ids != [] ==>
                  && r.projects[into].activeTab == r.activeTab
                  && r.activeTab == if s.activeTab in ids then s.activeTab else if was in ids then was else ids[0])
            && (r.activeProject != into || ids == [] ==>
                  r.activeTab == s.activeTab && r.projects[into].activeTab == was)
            && (forall p :: p in r.projects && p != into ==> p in s.projects && r.projects[p] == s.projects[p])
  {
    var m := AbsorbAll(s, into, absorb);
    assert MergeProjects(s, into, absorb, name) == FinishMerge(m, into, name);
    hide *;
    FoldedMarks(s, into, absorb);
    FoldedSurvivor(s, into, absorb);
    FinishSettles(m, into, name);
  }

  lemma FoldedMarks(s: Session, into: Id, absorb: seq<Id>)
    requires WF(s) && into in s.projects
    ensures var m := AbsorbAll(s, into, absorb);
            && m.activeTab == s.activeTab && NONE !in m.projects[into].tabIDs
            && forall p :: p in m.projects && p != into ==> p in s.projects && m.projects[p] == s.projects[p]
  {
    hide *;
    FoldAll(s, into, absorb);
    MarksOf(s, AbsorbAll(s, into, absorb), into, Elems(absorb) - {into});
  }

  lemma MarksOf(s: Session, m: Session, into: Id, gone: set<Id>)
    requires WF(m) && Folded(s, m, into, gone) && into in m.projects
    ensures m.activeTab == s.activeTab && NONE !in m.projects[into].tabIDs
    ensures forall p :: p in m.projects && p != into ==> p in s.projects && m.projects[p] == s.projects[p]
  {
    hide WF, FoldedProjects, FoldedOwners, FoldedOrder;
    FoldedKeys(s, m, into, gone);
    NoneIsNowhere(m, into);
    assert forall p :: p in m.projects ==> p in s.projects by {
      assert m.projects.Keys == s.projects.Keys - gone;
    }
  }

  lemma NoneIsNowhere(m: Session, into: Id)
    requires WF(m) && into in m.projects
    ensures NONE !in m.projects[into].tabIDs
  {
    hide Ordered, Aligned, NoDup;
  }

  lemma FinishSettles(m: Session, into: Id, name: string)
    requires into in m.projects && NONE !in m.projects[into].tabIDs
    ensures var r := FinishMerge(m, into, name);
            var ids, was := m.projects[into].tabIDs, m.projects[into].activeTab;
            && r.projects.Keys == m.projects.Keys && r.activeProject == m.activeProject
            && r.projects[into] == Project(name, m.projects[into].rootDir, ids, r.projects[into].activeTab, false)
            && (r.activeProject == into && ids != [] ==>
                  && r.projects[into].activeTab == r.activeTab
                  && r.activeTab == if m.activeTab in ids then m.activeTab else if was in ids then was else ids[0])
            && (r.activeProject != into || ids == [] ==>
                  r.activeTab == m.activeTab && r.projects[into].activeTab == was)
            && (forall p :: p in m.projects && p != into ==> r.projects[p] == m.projects[p])
  {
  }

  // Absorbing tabs gives the survivor a longer list and nothing else.
  lemma {:induction false} FoldedSurvivor(s: Session, into: Id, absorb: seq<Id>)
    requires WF(s) && into in s.projects
    ensures var r := AbsorbAll(s, into, absorb);
            r.projects[into] == s.projects[into].(tabIDs := r.projects[into].tabIDs)
    decreases |absorb|
  {
    if absorb != [] {
      var n := |absorb| - 1;
      var id, m := absorb[n], AbsorbAll(s, into, absorb[..n]);
      FoldedSurvivor(s, into, absorb[..n]);
      FoldAll(s, into, absorb[..n]);
      assert AbsorbAll(s, into, absorb) == AbsorbProject(m, into, id);
      if id != into && id in m.projects {
        hide WF, Folded, AbsorbAll, AbsorbProject, Elems;
        AbsorbedList(m, into, id);
      }
    }
  }

  // So the survivor brings the user back to that tab: looking at any other project and coming
  // back after the merge shows what the merge showed.
  lemma MergeThenAwayAndBack(s: Session, into: Id, absorb: seq<Id>, name: string, other: Id)
    requires WF(s) && into in s.projects
    requires var r := MergeProjects(s, into, absorb, name);
             r.activeProject == into && r.projects[into].tabIDs != [] && other in r.projects && other != into
    ensures var r := MergeProjects(s, into, absorb, name);
            && SwitchProject(SwitchProject(r, other).0, into).1 == r.activeTab
            && SwitchProject(SwitchProject(r, other).0, into).0.activeTab == r.activeTab
  {
    hide *;
    MergeKeepsWF(s, into, absorb, name);
    MergeLands(s, into, absorb, name);
    MergeShowsActiveTab(s, into, absorb, name);
    RememberedBack(MergeProjects(s, into, absorb, name), other);
  }

  lemma RememberedBack(r: Session, other: Id)
    requires WF(r) && r.activeProject in r.projects && r.projects[r.activeProject].tabIDs != [] && ActiveTabShown(r)
    requires r.projects[r.activeProject].activeTab == r.activeTab && other in r.projects && other != r.activeProject
    ensures SwitchProject(SwitchProject(r, other).0, r.activeProject).1 == r.activeTab
    ensures SwitchProject(SwitchProject(r, other).0, r.activeProject).0.activeTab == r.activeTab
  {
    assert r.activeTab in r.owner && r.activeTab != NONE by {
      assert Linked(r) && Active(r);
      hide WF, Ordered, Aligned, NoDup;
    }
    hide *;
    SwitchThereAndBack(r, other);
  }

  // ---------------------------------------------------------------- inconsistent snapshots

  lemma {:induction false} AbsorbTabsNeverDouble(s: Session, into: Id, tabs: seq<Id>)
    requires into in s.projects && NoDup(s.projects[into].tabIDs)
    ensures var r := AbsorbTabs(s, into, tabs);
            && NoDup(r.projects[into].tabIDs) && r.owner.Keys == s.owner.Keys
            && (forall t :: t in s.projects[into].tabIDs ==> t in r.projects[into].tabIDs)
            && (forall t :: t in s.owner && s.owner[t] == into ==> r.owner[t] == into)
            && (forall t :: t in tabs && t in s.owner ==> t in r.projects[into].tabIDs && r.owner[t] == into)
    decreases |tabs|
  {
    if tabs != [] {
      var n := |tabs| - 1;
      var tab := tabs[n];
      assert tabs == tabs[..n] + [tab];
      AbsorbTabsNeverDouble(s, into, tabs[..n]);
      var m := AbsorbTabs(s, into, tabs[..n]);
      var ids := m.projects[into].tabIDs;
      if tab !in ids {
        InElems(ids, tab);
        AppendProps(ids, tab);
      }
      hide NoDup, Elems, Reanchor;
    }
  }

  lemma {:induction false} AbsorbTabsFrame(s: Session, into: Id, tabs: seq<Id>, p: Id)
    requires into in s.projects && p != into && p in s.projects
    ensures AbsorbTabs(s, into, tabs).projects[p] == s.projects[p]
    decreases |tabs|
  {
    if tabs != [] {
      AbsorbTabsFrame(s, into, tabs[..|tabs| - 1], p);
      hide Reanchor;
    }
  }

  // What an absorbed project's tabs have become: the survivor's, on both sides of the link.
  ghost predicate Taken(s: Session, r: Session, into: Id, id: Id)
    requires into in r.projects && id in s.projects
  {
    forall t :: t in s.projects[id].tabIDs && t in s.owner ==>
      t in r.projects[into].tabIDs && t in r.owner && r.owner[t] == into
  }

  // The fold so far, from any snapshot whatever.
  ghost predicate Undoubled(s: Session, r: Session, into: Id, gone: set<Id>)
    requires into in s.projects && into in r.projects
  {
    && NoDup(r.projects[into].tabIDs) && r.owner.Keys == s.owner.Keys
    && r.projects.Keys == s.projects.Keys - gone
    && (forall p :: p in r.projects && p != into ==> r.projects[p] == s.projects[p])
    && (forall t :: t in s.projects[into].tabIDs ==> t in r.projects[into].tabIDs)
    && (forall id :: id in gone && id in s.projects ==> Taken(s, r, into, id))
  }

  lemma UndoubledStep(s: Session, m: Session, into: Id, gone: set<Id>, id: Id)
    requires into in s.projects && into in m.projects && into !in gone && Undoubled(s, m, into, gone)
    ensures Undoubled(s, AbsorbProject(m, into, id), into, gone + ({id} - {into}))
  {
    hide NoDup, Remove, AbsorbTabs;
    if id != into && id in m.projects {
      var tabs := m.projects[id].tabIDs;
      AbsorbTabsNeverDouble(m, into, tabs);
      forall p | p in m.projects && p != into ensures AbsorbTabs(m, into, tabs).projects[p] == m.projects[p] {
        AbsorbTabsFrame(m, into, tabs, p);
      }
    }
  }

  lemma {:induction false} FoldNeverDoubles(s: Session, into: Id, absorb: seq<Id>)
    requires into in s.projects && NoDup(s.projects[into].tabIDs)
    ensures Undoubled(s, AbsorbAll(s, into, absorb), into, Elems(absorb) - {into})
    decreases |absorb|
  {
    hide NoDup, AbsorbProject;
    if absorb == [] {
      assert Elems(absorb) - {into} == {};
      assert Undoubled(s, s, into, {});
    } else {
      hide Undoubled;
      var n := |absorb| - 1;
      ElemsLast(absorb);
      FoldNeverDoubles(s, into, absorb[..n]);
      UndoubledStep(s, AbsorbAll(s, into, absorb[..n]), into, Elems(absorb[..n]) - {into}, absorb[n]);
      assert Elems(absorb) - {into} == Elems(absorb[..n]) - {into} + ({absorb[n]} - {into});
    }
  }

  lemma FinishTouchesNoList(s: Session, into: Id, name: string)
    requires into in s.projects
    ensures var r := FinishMerge(s, into, name);
            && r.owner == s.owner && r.projects.Keys == s.projects.Keys
            && r.projects[into].tabIDs == s.projects[into].tabIDs
            && (forall p :: p in s.projects && p != into ==> r.projects[p] == s.projects[p])
  {
  }

  lemma UndoubledFinish(s: Session, m: Session, into: Id, gone: set<Id>, name: string)
    requires into in s.projects && into in m.projects && Undoubled(s, m, into, gone)
    ensures Undoubled(s, FinishMerge(m, into, name), into, gone)
  {
    FinishTouchesNoList(m, into, name);
    hide NoDup, FinishMerge;
  }

  // Even from a snapshot that lists one tab under several projects, a fold of any list of
  // projects lists no tab twice, leaves the projects it does not name as they were, and makes
  // both sides of the link agree for every tab it took.
  lemma MergeNeverDoubles(s: Session, into: Id, absorb: seq<Id>, name: string)
    requires into in s.projects && NoDup(s.projects[into].tabIDs)
    ensures Undoubled(s, MergeProjects(s, into, absorb, name), into, Elems(absorb) - {into})
  {
    FoldNeverDoubles(s, into, absorb);
    UndoubledFinish(s, AbsorbAll(s, into, absorb), into, Elems(absorb) - {into}, name);
    hide NoDup, Elems, AbsorbAll, Undoubled, FinishMerge;
  }
}
