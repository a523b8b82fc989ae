/** The project and tab state of internal/daemon/project.go, with the tab operations of
    internal/daemon/session.go it must stay consistent with. */
module Session {
  // Two orderings are linked: the global tab order and each project's own. `WF` is the
  // consistency every operation keeps; `Session` is the state as a value and `SessionManager`
  // the object whose methods are proved to perform the value operations.

  import opened ProjectLists
  import opened ProjectNames

  const NONE: Id := 0

  datatype Project = Project(name: string, rootDir: string, tabIDs: seq<Id>, activeTab: Id, bootstrap: bool)

  // `owner` maps each tab to the project its own ProjectID field names.
  datatype Session = Session(
    owner: map<Id, Id>,
    tabOrder: seq<Id>,
    projects: map<Id, Project>,
    projectOrder: seq<Id>,
    activeTab: Id,
    activeProject: Id)

  const Empty: Session := Session(map[], [], map[], [], NONE, NONE)

  // ---------------------------------------------------------------- consistency

  // Both sides of the link agree: a tab is listed once, by the project it names.
  ghost predicate Linked(s: Session) {
    && (forall p :: p in s.projects ==> NoDup(s.projects[p].tabIDs))
    && (forall p, t :: p in s.projects && t in s.projects[p].tabIDs ==> t in s.owner && s.owner[t] == p)
    && (forall t :: t in s.owner ==> s.owner[t] in s.projects && t in s.projects[s.owner[t]].tabIDs)
  }

  ghost predicate Ordered(s: Session) {
    && NoDup(s.tabOrder) && Elems(s.tabOrder) == s.owner.Keys
    && NoDup(s.projectOrder) && Elems(s.projectOrder) == s.projects.Keys
  }

  // The global order restricted to a project is the project's own order.
  ghost predicate Aligned(s: Session) {
    forall p :: p in s.projects ==> Filter(s.tabOrder, Elems(s.projects[p].tabIDs)) == s.projects[p].tabIDs
  }

  ghost predicate Active(s: Session) {
    && NONE !in s.owner && NONE !in s.projects
    && (s.activeProject in s.projects || (s.projects == map[] && s.activeProject == NONE))
    && (forall p :: p in s.projects ==>
          s.projects[p].activeTab == NONE || s.projects[p].activeTab in s.projects[p].tabIDs)
    && (s.activeTab == NONE || s.activeTab in s.owner)
  }

  ghost predicate WF(s: Session) {
    Linked(s) && Ordered(s) && Aligned(s) && Active(s)
  }

  // No two projects carry names a user could not tell apart.
  ghost predicate NamesDistinct(u: Text, s: Session) {
    forall p, q :: p in s.projects && q in s.projects && p != q ==>
      Norm(u, s.projects[p].name) != Norm(u, s.projects[q].name)
  }

  // The names held by every project but one.
  function NamesExcept(u: Text, s: Session, id: Id): set<string> {
    set p | p in s.projects && p != id :: Norm(u, s.projects[p].name)
  }

  // The active tab is one the client shows: a tab of the active project, if it has any.
  predicate ActiveTabShown(s: Session) {
    s.activeProject in s.projects && s.projects[s.activeProject].tabIDs != [] ==>
      s.activeTab in s.projects[s.activeProject].tabIDs
  }

  // ---------------------------------------------------------------- operations on values

  function CreateProject(s: Session, id: Id, name: string, rootDir: string, bootstrap: bool): Session {
    s.(projects := s.projects[id := Project(name, rootDir, [], NONE, bootstrap)],
       projectOrder := s.projectOrder + [id],
       activeProject := if s.activeProject == NONE then id else s.activeProject)
  }

  // The project a new tab goes to: the one named, else the active one, else the first, else
  // a bootstrapped default.
  function ResolveProject(s: Session, projectID: Id, newProject: Id, cwd: string): (Session, Id) {
    if projectID != NONE && projectID in s.projects then (s, projectID)
    else if s.activeProject in s.projects then (s, s.activeProject)
    else if s.projectOrder != [] then (s.(activeProject := s.projectOrder[0]), s.projectOrder[0])
    else
      (s.(projects := s.projects[newProject := Project("Default", cwd, [], NONE, true)],
          projectOrder := s.projectOrder + [newProject], activeProject := newProject), newProject)
  }

  function AddTab(s: Session, p: Id, tab: Id): Session {
    s.(owner := s.owner[tab := p],
       tabOrder := s.tabOrder + [tab],
       activeTab := if s.activeTab == NONE then tab else s.activeTab,
       projects := if p in s.projects then s.projects[p := WithTab(s.projects[p], tab)] else s.projects)
  }

  function WithTab(pr: Project, tab: Id): Project {
    pr.(tabIDs := pr.tabIDs + [tab], activeTab := if pr.activeTab == NONE then tab else pr.activeTab)
  }

  // After DestroyTab the neighbour that slid into the closed tab's slot takes over.
  function Successor(tabIDs: seq<Id>, tab: Id): Id {
    var rest := Remove(tabIDs, tab);
    var idx := IndexOf(tabIDs, tab);
    if rest == [] then NONE
    else if idx < 0 || idx >= |rest| then rest[|rest| - 1] else rest[idx]
  }

  function WithoutTab(pr: Project, tab: Id): Project {
    pr.(tabIDs := Remove(pr.tabIDs, tab),
        activeTab := if pr.activeTab == tab then Successor(pr.tabIDs, tab) else pr.activeTab)
  }

  function DestroyTab(s: Session, tab: Id): Session {
    if tab !in s.owner then s
    else
      var p := s.owner[tab];
      var next := if p in s.projects then Successor(s.projects[p].tabIDs, tab) else NONE;
      var order := Remove(s.tabOrder, tab);
      s.(owner := s.owner - {tab},
         tabOrder := order,
         projects := if p in s.projects then s.projects[p := WithoutTab(s.projects[p], tab)] else s.projects,
         activeTab := if s.activeTab != tab then s.activeTab
                      else if next != NONE then next
                      else if order != [] then order[0] else NONE)
  }

  function SwitchTab(s: Session, tab: Id): Session {
    if tab !in s.owner then s
    else
      var p := s.owner[tab];
      s.(activeTab := tab,
         projects := if p in s.projects then s.projects[p := s.projects[p].(activeTab := tab)] else s.projects)
  }

  function ReorderTab(s: Session, tab: Id, k: int): Session {
    if tab !in s.owner then s
    else if s.owner[tab] !in s.projects || tab !in s.projects[s.owner[tab]].tabIDs then
      s.(tabOrder := if tab in s.tabOrder then Move(s.tabOrder, tab, k) else s.tabOrder)
    else
      var p := s.owner[tab];
      var was := s.projects[p].tabIDs;
      var ids := Move(was, tab, k);
      if IndexOf(was, tab) == Clamp(k, |was| - 1) then s
      else s.(projects := s.projects[p := s.projects[p].(tabIDs := ids)],
              tabOrder := Reanchor(s.tabOrder, ids, tab))
  }

  function SwitchProject(s: Session, id: Id): (Session, Id) {
    if id !in s.projects then (s, NONE)
    else
      var pr := s.projects[id];
      var tab := if pr.activeTab in s.owner then pr.activeTab
                 else if pr.tabIDs != [] then pr.tabIDs[0] else NONE;
      var s1 := s.(activeProject := id);
      if tab == NONE then (s1, NONE)
      else (s1.(activeTab := tab, projects := s.projects[id := pr.(activeTab := tab)]), tab)
  }

  function ReorderProject(s: Session, id: Id, k: int): Session {
    if id !in s.projects then s else s.(projectOrder := Move(s.projectOrder, id, k))
  }

  function UpdateProject(s: Session, id: Id, name: string, rootDir: string): Session
    requires id in s.projects
  {
    s.(projects := s.projects[id := s.projects[id].(name := name, rootDir := rootDir, bootstrap := false)])
  }

  // The loop over a destroyed project's tabs: an id that names no tab is passed over.
  function CloseTabs(owner: map<Id, Id>, order: seq<Id>, tabs: seq<Id>): (map<Id, Id>, seq<Id>) {
    if tabs == [] then (owner, order)
    else
      var n := |tabs| - 1;
      var (o, r) := CloseTabs(owner, order, tabs[..n]);
      if tabs[n] !in o then (o, r) else (o - {tabs[n]}, Remove(r, tabs[n]))
  }

  // The session without project id, whose tabs and global order are already closed.
  function WithoutProject(s: Session, id: Id, owner: map<Id, Id>, tabOrder: seq<Id>): Session {
    var order := Remove(s.projectOrder, id);
    var projects := s.projects - {id};
    var active := if s.activeProject != id then s.activeProject
                  else if order != [] then order[0] else NONE;
    Session(
      owner, tabOrder, projects, order,
      if active !in projects then NONE
      else if projects[active].activeTab != NONE then projects[active].activeTab
      else if projects[active].tabIDs != [] then projects[active].tabIDs[0] else NONE,
      active)
  }

  function DestroyProject(s: Session, id: Id): Session {
    if id !in s.projects then s
    else
      var (owner, tabOrder) := CloseTabs(s.owner, s.tabOrder, s.projects[id].tabIDs);
      WithoutProject(s, id, owner, tabOrder)
  }

  function RemoveAll(order: seq<Id>, tabs: seq<Id>): seq<Id> {
    if tabs == [] then order else Remove(RemoveAll(order, tabs[..|tabs| - 1]), tabs[|tabs| - 1])
  }

  // ---------------------------------------------------------------- alignment lemmas

  lemma {:induction false} FilterNone(s: seq<Id>)
    ensures Filter(s, {}) == []
    decreases |s|
  {
    if s != [] {
      FilterNone(s[1..]);
    }
  }

  // Dropping one tab from an aligned project leaves the rest aligned.
  lemma AlignedRemove(order: seq<Id>, ids: seq<Id>, tab: Id)
    requires NoDup(ids) && Filter(order, Elems(ids)) == ids
    ensures Filter(order, Elems(ids) - {tab}) == Remove(ids, tab)
  {
    var all := Elems(ids);
    RemoveProps(ids, tab);
    RemoveIsFilter(ids, tab, all);
    FilterTwice(order, all, all - {tab});
    assert all * (all - {tab}) == all - {tab};
    forall v | v in Remove(ids, tab) ensures v in all {
      InElems(Remove(ids, tab), v);
    }
    FilterAll(Remove(ids, tab), all);
  }

  // A tab that moves in the global order does not disturb a project that does not list it.
  lemma FilterIgnoresTab(a: seq<Id>, b: seq<Id>, tab: Id, keep: set<Id>)
    requires NoDup(a) && NoDup(b) && Remove(a, tab) == Remove(b, tab) && tab !in keep
    ensures Filter(a, keep) == Filter(b, keep)
  {
    RemoveIsFilter(a, tab, keep);
    RemoveIsFilter(b, tab, keep);
    assert keep - {tab} == keep;
  }

  lemma ElemsLast(ids: seq<Id>)
    requires ids != []
    ensures Elems(ids) == Elems(ids[..|ids| - 1]) + {ids[|ids| - 1]}
  {
    var n := |ids| - 1;
    assert ids == ids[..n] + [ids[n]] + [] && ids[..n] + [] == ids[..n];
    ElemsAround(ids[..n], ids[n], []);
  }

  lemma {:induction false} RemoveAllIsFilter(order: seq<Id>, tabs: seq<Id>, keep: set<Id>)
    requires NoDup(order)
    ensures Filter(RemoveAll(order, tabs), keep) == Filter(order, keep - Elems(tabs))
    ensures NoDup(RemoveAll(order, tabs)) && Elems(RemoveAll(order, tabs)) == Elems(order) - Elems(tabs)
    decreases |tabs|
  {
    if tabs == [] {
      assert keep - Elems(tabs) == keep;
    } else {
      var n := |tabs| - 1;
      var rest, t := RemoveAll(order, tabs[..n]), tabs[n];
      ElemsLast(tabs);
      hide NoDup, Elems, Filter, Remove;
      RemoveAllIsFilter(order, tabs[..n], keep - {t});
      RemoveProps(rest, t);
      RemoveIsFilter(rest, t, keep);
      assert keep - {t} - Elems(tabs[..n]) == keep - Elems(tabs);
    }
  }

  // In a consistent state the loop closes exactly the listed tabs.
  lemma {:induction false} CloseTabsClosed(owner: map<Id, Id>, order: seq<Id>, tabs: seq<Id>)
    requires NoDup(tabs) && forall t :: t in tabs ==> t in owner
    ensures CloseTabs(owner, order, tabs) == (owner - Elems(tabs), RemoveAll(order, tabs))
    decreases |tabs|
  {
    if tabs == [] {
      assert owner - Elems(tabs) == owner;
    } else {
      var n := |tabs| - 1;
      CloseTabsClosed(owner, order, tabs[..n]);
      ElemsLast(tabs);
      InElems(tabs[..n], tabs[n]);
      assert tabs[n] !in tabs[..n];
      assert owner - Elems(tabs[..n]) - {tabs[n]} == owner - Elems(tabs);
    }
  }

  lemma DestroyProjectClosed(s: Session, id: Id)
    requires Linked(s) && id in s.projects
    ensures var gone := s.projects[id].tabIDs;
            DestroyProject(s, id) == WithoutProject(s, id, s.owner - Elems(gone), RemoveAll(s.tabOrder, gone))
  {
    CloseTabsClosed(s.owner, s.tabOrder, s.projects[id].tabIDs);
  }

  // ---------------------------------------------------------------- every operation keeps WF

  // The same tabs in the same places; only names, marks or the project order may differ.
  ghost predicate SameTabs(s: Session, s': Session) {
    && s'.owner == s.owner && s'.tabOrder == s.tabOrder && s'.projects.Keys == s.projects.Keys
    && forall p :: p in s.projects ==> s'.projects[p].tabIDs == s.projects[p].tabIDs
  }

  lemma SameTabsLinked(s: Session, s': Session)
    requires Linked(s) && SameTabs(s, s')
    ensures Linked(s')
  {
  }

  lemma SameTabsAligned(s: Session, s': Session)
    requires Aligned(s) && SameTabs(s, s')
    ensures Aligned(s')
  {
  }

  lemma SameTabsKeepsWF(s: Session, s': Session)
    requires WF(s) && SameTabs(s, s') && Active(s')
    requires s'.projectOrder == s.projectOrder || (NoDup(s'.projectOrder) && Elems(s'.projectOrder) == Elems(s.projectOrder))
    ensures WF(s')
  {
    hide NoDup, Elems, Linked, Aligned, Active;
    SameTabsLinked(s, s');
    SameTabsAligned(s, s');
  }

  lemma CreateActive(s: Session, id: Id, name: string, rootDir: string, bootstrap: bool)
    requires Active(s) && id != NONE && id !in s.projects
    ensures Active(CreateProject(s, id, name, rootDir, bootstrap))
  {
  }

  lemma CreateLinked(s: Session, id: Id, name: string, rootDir: string, bootstrap: bool)
    requires Linked(s) && id !in s.projects
    ensures Linked(CreateProject(s, id, name, rootDir, bootstrap))
  {
  }

  lemma CreateAligned(s: Session, id: Id, name: string, rootDir: string, bootstrap: bool)
    requires Aligned(s) && id !in s.projects
    ensures Aligned(CreateProject(s, id, name, rootDir, bootstrap))
  {
    FilterNone(s.tabOrder);
    assert Elems([]) == {};
  }

  lemma AppendProps(s: seq<Id>, v: Id)
    requires NoDup(s) && v !in Elems(s)
    ensures NoDup(s + [v]) && Elems(s + [v]) == Elems(s) + {v}
  {
    InElems(s, v);
    InsertProps(s, |s|, v);
    assert InsertAt(s, |s|, v) == s + [v];
  }

  lemma CreateProjectKeepsWF(s: Session, id: Id, name: string, rootDir: string, bootstrap: bool)
    requires WF(s) && id != NONE && id !in s.projects
    ensures WF(CreateProject(s, id, name, rootDir, bootstrap))
  {
    CreateLinked(s, id, name, rootDir, bootstrap);
    CreateAligned(s, id, name, rootDir, bootstrap);
    CreateActive(s, id, name, rootDir, bootstrap);
    AppendProps(s.projectOrder, id);
  }

  // Appending a new tab to one project and to the global order keeps every project aligned.
  lemma AppendAligned(order: seq<Id>, ids: seq<Id>, tab: Id)
    requires tab !in order && Filter(order, Elems(ids)) == ids
    ensures Filter(order + [tab], Elems(ids + [tab])) == ids + [tab]
    ensures tab !in ids ==> Filter(order + [tab], Elems(ids)) == ids
  {
    var more := ids + [tab];
    FilterConcat(order, [tab], Elems(more));
    FilterConcat(order, [tab], Elems(ids));
    FilterOne(tab, Elems(more));
    FilterOne(tab, Elems(ids));
    InElems(more, tab);
    InElems(ids, tab);
    forall v | v in order ensures v in Elems(ids) <==> v in Elems(more) {
      InElems(ids, v);
      InElems(more, v);
    }
    FilterSame(order, Elems(ids), Elems(more));
  }

  lemma AddTabAligned(s: Session, p: Id, tab: Id)
    requires Linked(s) && Aligned(s) && p in s.projects && tab !in s.owner && tab !in s.tabOrder
    ensures Aligned(AddTab(s, p, tab))
  {
    forall q | q in s.projects
      ensures Filter(s.tabOrder + [tab], Elems(AddTab(s, p, tab).projects[q].tabIDs)) == AddTab(s, p, tab).projects[q].tabIDs
    {
      AppendAligned(s.tabOrder, s.projects[q].tabIDs, tab);
    }
  }

  lemma AddTabLinked(s: Session, p: Id, tab: Id)
    requires Linked(s) && p in s.projects && tab !in s.owner
    ensures Linked(AddTab(s, p, tab))
  {
  }

  lemma AddTabActive(s: Session, p: Id, tab: Id)
    requires Active(s) && p in s.projects && tab != NONE
    ensures Active(AddTab(s, p, tab))
  {
  }

  lemma AddTabKeepsWF(s: Session, p: Id, tab: Id)
    requires WF(s) && p in s.projects && tab != NONE && tab !in s.owner
    ensures WF(AddTab(s, p, tab))
  {
    assert tab !in Elems(s.tabOrder);
    InElems(s.tabOrder, tab);
    AddTabLinked(s, p, tab);
    AddTabAligned(s, p, tab);
    AddTabActive(s, p, tab);
    AppendProps(s.tabOrder, tab);
  }

  lemma ResolveKeepsWF(s: Session, projectID: Id, newProject: Id, cwd: string)
    requires WF(s) && newProject != NONE && newProject !in s.projects
    ensures var (r, p) := ResolveProject(s, projectID, newProject, cwd);
            WF(r) && p in r.projects && r.owner == s.owner
            && (r.projects == s.projects || (s.projects == map[] && r.projects.Keys == {newProject}))
  {
    if s.projectOrder != [] {
      InElems(s.projectOrder, s.projectOrder[0]);
      assert s.projectOrder[0] in Elems(s.projectOrder);
    }
    if s.projects == map[] {
      CreateProjectKeepsWF(s, newProject, "Default", cwd, true);
    }
  }

  lemma RemoveMembers(s: seq<Id>, v: Id)
    requires NoDup(s)
    ensures forall x :: x in Remove(s, v) <==> x in s && x != v
  {
    RemoveProps(s, v);
    forall x ensures x in Remove(s, v) <==> x in s && x != v {
      InElems(s, x);
      InElems(Remove(s, v), x);
    }
  }

  lemma AlignedRemoveBoth(order: seq<Id>, ids: seq<Id>, tab: Id)
    requires NoDup(order) && NoDup(ids) && Filter(order, Elems(ids)) == ids
    ensures Filter(Remove(order, tab), Elems(Remove(ids, tab))) == Remove(ids, tab)
  {
    AlignedRemove(order, ids, tab);
    RemoveProps(ids, tab);
    RemoveIsFilter(order, tab, Elems(ids) - {tab});
    assert Elems(ids) - {tab} - {tab} == Elems(ids) - {tab};
  }

  lemma RemoveAbsent(ids: seq<Id>, tab: Id)
    requires tab !in ids
    ensures Remove(ids, tab) == ids
  {
  }

  lemma DestroyTabAligned(s: Session, tab: Id)
    requires Linked(s) && NoDup(s.tabOrder) && Aligned(s) && tab in s.owner
    ensures Aligned(DestroyTab(s, tab))
  {
    var s' := DestroyTab(s, tab);
    forall q | q in s.projects
      ensures Filter(s'.tabOrder, Elems(s'.projects[q].tabIDs)) == s'.projects[q].tabIDs
    {
      var ids := s.projects[q].tabIDs;
      assert s'.projects[q].tabIDs == Remove(ids, tab) by {
        if q != s.owner[tab] {
          RemoveAbsent(ids, tab);
        }
      }
      hide *;
      AlignedRemoveBoth(s.tabOrder, ids, tab);
    }
  }

  lemma DestroyTabLinked(s: Session, tab: Id)
    requires Linked(s) && tab in s.owner
    ensures Linked(DestroyTab(s, tab))
  {
    var ids := s.projects[s.owner[tab]].tabIDs;
    RemoveProps(ids, tab);
    RemoveMembers(ids, tab);
  }

  lemma SuccessorListed(ids: seq<Id>, tab: Id)
    ensures Successor(ids, tab) == NONE || Successor(ids, tab) in Remove(ids, tab)
    ensures Remove(ids, tab) != [] ==> Successor(ids, tab) in Remove(ids, tab)
  {
    hide Remove;
  }

  lemma HeadListed(order: seq<Id>)
    requires order != []
    ensures order[0] in Elems(order)
  {
  }

  // What closing a tab does to its own project's marks, and to the order.
  lemma DestroyTabFacts(s: Session, tab: Id)
    requires Linked(s) && tab in s.owner && NoDup(s.tabOrder)
    ensures s.owner[tab] in s.projects
    ensures var ids := s.projects[s.owner[tab]].tabIDs;
            && tab in ids && NoDup(ids)
            && (forall x :: x in Remove(ids, tab) <==> x in ids && x != tab)
            && (Successor(ids, tab) == NONE || Successor(ids, tab) in Remove(ids, tab))
            && (Remove(ids, tab) != [] ==> Successor(ids, tab) in Remove(ids, tab))
            && (forall x :: x in ids ==> x in s.owner)
    ensures var order := Remove(s.tabOrder, tab); order != [] ==> order[0] in Elems(s.tabOrder) && order[0] != tab
  {
    var ids := s.projects[s.owner[tab]].tabIDs;
    var order := Remove(s.tabOrder, tab);
    assert NoDup(ids);
    hide NoDup, Remove;
    RemoveMembers(ids, tab);
    SuccessorListed(ids, tab);
    RemoveProps(s.tabOrder, tab);
    if order != [] {
      HeadListed(order);
    }
  }

  lemma DestroyTabActive(s: Session, tab: Id)
    requires Linked(s) && Active(s) && tab in s.owner && NoDup(s.tabOrder) && Elems(s.tabOrder) == s.owner.Keys
    ensures Active(DestroyTab(s, tab))
  {
    hide NoDup, Elems, Remove, Successor, Linked;
    DestroyTabFacts(s, tab);
  }

  lemma DestroyTabKeepsWF(s: Session, tab: Id)
    requires WF(s) && tab in s.owner
    ensures WF(DestroyTab(s, tab))
  {
    DestroyTabLinked(s, tab);
    DestroyTabAligned(s, tab);
    DestroyTabActive(s, tab);
    RemoveProps(s.tabOrder, tab);
  }

  lemma OwnersDiffer(s: Session, p: Id, q: Id)
    requires Linked(s) && p in s.projects && q in s.projects && p != q
    ensures forall x :: x in s.projects[q].tabIDs ==> x !in s.projects[p].tabIDs
  {
    forall x | x in s.projects[q].tabIDs ensures x !in s.projects[p].tabIDs {
      assert s.owner[x] == q;
    }
  }

  lemma DestroyTabFields(s: Session, tab: Id)
    requires tab in s.owner && s.owner[tab] in s.projects
    ensures var s', p := DestroyTab(s, tab), s.owner[tab];
            var next := Successor(s.projects[p].tabIDs, tab);
            && s'.activeProject == s.activeProject && s'.projects.Keys == s.projects.Keys
            && s'.projects[p].tabIDs == Remove(s.projects[p].tabIDs, tab)
            && (forall q :: q in s.projects && q != p ==> s'.projects[q] == s.projects[q])
            && (s.activeTab != tab ==> s'.activeTab == s.activeTab)
            && (s.activeTab == tab && next != NONE ==> s'.activeTab == next)
  {
    hide Remove, Successor;
  }

  // In the closed tab's own project its successor takes over; elsewhere nothing changes.
  lemma DestroyTabOwn(s: Session, tab: Id)
    requires Linked(s) && NONE !in s.owner && NoDup(s.tabOrder) && tab in s.owner
    ensures s.owner[tab] in s.projects
    ensures var s', p := DestroyTab(s, tab), s.owner[tab];
            s.activeTab in s.projects[p].tabIDs && s'.projects[p].tabIDs != [] ==> s'.activeTab in s'.projects[p].tabIDs
  {
    DestroyTabFacts(s, tab);
    hide *;
    DestroyTabFields(s, tab);
  }

  lemma DestroyTabOther(s: Session, tab: Id, q: Id)
    requires Linked(s) && tab in s.owner && q in s.projects && q != s.owner[tab]
    ensures DestroyTab(s, tab).projects[q] == s.projects[q]
    ensures s.activeTab in s.projects[q].tabIDs ==> DestroyTab(s, tab).activeTab == s.activeTab
  {
    assert s.owner[tab] in s.projects && tab in s.projects[s.owner[tab]].tabIDs;
    OwnersDiffer(s, s.owner[tab], q);
    hide *;
    DestroyTabFields(s, tab);
  }

  // Closing a tab never leaves a highlighted tab outside the visible list.
  lemma DestroyTabShows(s: Session, tab: Id)
    requires Linked(s) && NONE !in s.owner && NoDup(s.tabOrder) && tab in s.owner && ActiveTabShown(s)
    ensures ActiveTabShown(DestroyTab(s, tab))
  {
    hide Linked, NoDup, Elems, Remove, Successor, DestroyTab;
    var q := s.activeProject;
    DestroyTabOwn(s, tab);
    DestroyTabKeys(s, tab);
    if q in s.projects && q != s.owner[tab] {
      DestroyTabOther(s, tab, q);
    }
  }

  lemma DestroyTabKeys(s: Session, tab: Id)
    requires tab in s.owner
    ensures DestroyTab(s, tab).projects.Keys == s.projects.Keys && DestroyTab(s, tab).activeProject == s.activeProject
    ensures s.owner[tab] in s.projects && DestroyTab(s, tab).projects[s.owner[tab]].tabIDs != [] ==>
              s.projects[s.owner[tab]].tabIDs != []
  {
    hide Successor, IndexOf;
    if s.owner[tab] in s.projects {
      RemoveNothing(s.projects[s.owner[tab]].tabIDs, tab);
    }
  }

  lemma RemoveNothing(ids: seq<Id>, tab: Id)
    ensures Remove(ids, tab) != [] ==> ids != []
  {
  }

  lemma SwitchTabSame(s: Session, tab: Id)
    ensures SameTabs(s, SwitchTab(s, tab)) && SwitchTab(s, tab).projectOrder == s.projectOrder
  {
  }

  lemma SwitchTabActive(s: Session, tab: Id)
    requires Linked(s) && Active(s)
    ensures Active(SwitchTab(s, tab))
  {
    hide NoDup;
  }

  lemma SwitchTabKeepsWF(s: Session, tab: Id)
    requires WF(s)
    ensures WF(SwitchTab(s, tab))
  {
    hide NoDup, Linked, Ordered, Aligned, Active, SameTabs, SwitchTab;
    SwitchTabSame(s, tab);
    SwitchTabActive(s, tab);
    SameTabsKeepsWF(s, SwitchTab(s, tab));
  }

  lemma SwitchProjectSame(s: Session, id: Id)
    ensures var s' := SwitchProject(s, id).0; SameTabs(s, s') && s'.projectOrder == s.projectOrder
  {
  }

  lemma SwitchProjectKeepsWF(s: Session, id: Id)
    requires WF(s)
    ensures WF(SwitchProject(s, id).0)
    ensures id in s.projects ==>
              SwitchProject(s, id).0.activeProject == id && ActiveTabShown(SwitchProject(s, id).0)
  {
    hide NoDup, Linked, Ordered, Aligned, Active, SameTabs, SwitchProject, ActiveTabShown;
    SwitchProjectSame(s, id);
    SwitchProjectActive(s, id);
    SameTabsKeepsWF(s, SwitchProject(s, id).0);
  }

  lemma SwitchProjectActive(s: Session, id: Id)
    requires Linked(s) && Active(s)
    ensures Active(SwitchProject(s, id).0)
    ensures id in s.projects ==>
              SwitchProject(s, id).0.activeProject == id && ActiveTabShown(SwitchProject(s, id).0)
  {
  }

  lemma UpdateProjectKeepsWF(s: Session, id: Id, name: string, rootDir: string)
    requires WF(s) && id in s.projects
    ensures WF(UpdateProject(s, id, name, rootDir))
  {
    SameTabsKeepsWF(s, UpdateProject(s, id, name, rootDir));
  }

  lemma ReorderProjectKeepsWF(s: Session, id: Id, k: int)
    requires WF(s)
    ensures WF(ReorderProject(s, id, k))
  {
    if id in s.projects {
      assert id in Elems(s.projectOrder);
      InElems(s.projectOrder, id);
      MoveProps(s.projectOrder, id, k);
      SameTabsKeepsWF(s, ReorderProject(s, id, k));
    }
  }

  lemma MoveMembers(s: seq<Id>, v: Id, k: int)
    requires NoDup(s) && v in s
    ensures forall x :: x in Move(s, v, k) <==> x in s
  {
    MoveProps(s, v, k);
    forall x ensures x in Move(s, v, k) <==> x in s {
      InElems(s, x);
      InElems(Move(s, v, k), x);
    }
  }

  // The moved tab's project, before and after, and the rest of the global order.
  lemma ReorderAligned(order: seq<Id>, ids: seq<Id>, tab: Id, k: int)
    requires NoDup(order) && NoDup(ids) && tab in ids && Filter(order, Elems(ids)) == ids
    ensures var ids' := Move(ids, tab, k);
            var order' := Reanchor(order, ids', tab);
            && Filter(order', Elems(ids')) == ids'
            && NoDup(order') && Elems(order') == Elems(order) + {tab} && Remove(order', tab) == Remove(order, tab)
  {
    MoveProps(ids, tab, k);
    MoveMembers(ids, tab, k);
    hide NoDup, Elems, Filter, Move, Remove, Reanchor;
    var ids' := Move(ids, tab, k);
    ReanchorMovesOnlyTab(order, ids', tab);
    AlignedRemove(order, ids, tab);
    ReanchorRestores(order, ids', tab);
  }


  lemma ReorderTabAligned(s: Session, tab: Id, k: int)
    requires Linked(s) && NoDup(s.tabOrder) && Aligned(s) && tab in s.owner && tab in Elems(s.tabOrder)
    ensures Aligned(ReorderTab(s, tab, k))
    ensures var order := ReorderTab(s, tab, k).tabOrder;
            NoDup(order) && Elems(order) == Elems(s.tabOrder) && Remove(order, tab) == Remove(s.tabOrder, tab)
  {
    hide NoDup, Elems, Filter, Move, Remove, Reanchor;
    var p := s.owner[tab];
    var ids := s.projects[p].tabIDs;
    var ids' := Move(ids, tab, k);
    if IndexOf(ids, tab) != Clamp(k, |ids| - 1) {
      var s' := ReorderTab(s, tab, k);
      ReorderAligned(s.tabOrder, ids, tab, k);
      assert Elems(s.tabOrder) + {tab} == Elems(s.tabOrder);
      forall q | q in s.projects
        ensures Filter(s'.tabOrder, Elems(s'.projects[q].tabIDs)) == s'.projects[q].tabIDs
      {
        if q != p {
          InElems(s.projects[q].tabIDs, tab);
          FilterIgnoresTab(s.tabOrder, s'.tabOrder, tab, Elems(s.projects[q].tabIDs));
        }
      }
    }
  }

  // A project whose list is permuted lists the same tabs.
  lemma PermuteLinked(s: Session, s': Session, p: Id, ids: seq<Id>)
    requires Linked(s) && p in s.projects && s'.owner == s.owner
    requires NoDup(ids) && forall x :: x in ids <==> x in s.projects[p].tabIDs
    requires s'.projects == s.projects[p := s.projects[p].(tabIDs := ids)]
    ensures Linked(s')
  {
    hide NoDup;
  }

  lemma ReorderTabLinked(s: Session, tab: Id, k: int)
    requires Linked(s) && tab in s.owner
    ensures Linked(ReorderTab(s, tab, k))
  {
    var p := s.owner[tab];
    assert p in s.projects && tab in s.projects[p].tabIDs && NoDup(s.projects[p].tabIDs);
    hide NoDup, Elems, Move, Remove, Reanchor, Linked;
    var ids := Move(s.projects[p].tabIDs, tab, k);
    MoveProps(s.projects[p].tabIDs, tab, k);
    MoveMembers(s.projects[p].tabIDs, tab, k);
    if IndexOf(s.projects[p].tabIDs, tab) != Clamp(k, |s.projects[p].tabIDs| - 1) {
      PermuteLinked(s, ReorderTab(s, tab, k), p, ids);
    }
  }

  lemma ReorderTabActive(s: Session, tab: Id, k: int)
    requires Linked(s) && Active(s) && tab in s.owner
    ensures Active(ReorderTab(s, tab, k))
  {
    MoveMembers(s.projects[s.owner[tab]].tabIDs, tab, k);
  }

  lemma ReorderTabOrders(s: Session, tab: Id, k: int)
    ensures ReorderTab(s, tab, k).projectOrder == s.projectOrder
    ensures ReorderTab(s, tab, k).owner == s.owner && ReorderTab(s, tab, k).projects.Keys == s.projects.Keys
  {
  }

  lemma ReorderTabKeepsWF(s: Session, tab: Id, k: int)
    requires WF(s)
    ensures WF(ReorderTab(s, tab, k))
    ensures Remove(ReorderTab(s, tab, k).tabOrder, tab) == Remove(s.tabOrder, tab)
  {
    if tab in s.owner {
      assert tab in Elems(s.tabOrder);
      hide NoDup, Elems, Move, Remove, Reanchor, Linked, Aligned, Active, ReorderTab;
      ReorderTabOrders(s, tab, k);
      ReorderTabLinked(s, tab, k);
      ReorderTabActive(s, tab, k);
      ReorderTabAligned(s, tab, k);
    }
  }

  lemma FilterAfterRemoveAll(order: seq<Id>, gone: seq<Id>, ids: seq<Id>)
    requires NoDup(order) && Filter(order, Elems(ids)) == ids
    requires forall x :: x in ids ==> x !in gone
    ensures Filter(RemoveAll(order, gone), Elems(ids)) == ids
  {
    RemoveAllIsFilter(order, gone, Elems(ids));
    forall x | x in Elems(ids) ensures x !in Elems(gone) {
      InElems(ids, x);
      InElems(gone, x);
    }
    assert Elems(ids) - Elems(gone) == Elems(ids);
  }

  lemma DestroyProjectAligned(s: Session, id: Id)
    requires Linked(s) && NoDup(s.tabOrder) && Aligned(s) && id in s.projects
    ensures Aligned(DestroyProject(s, id))
  {
    DestroyProjectClosed(s, id);
    hide NoDup, Elems, Filter, Remove, RemoveAll, Linked, DestroyProject;
    var gone := s.projects[id].tabIDs;
    forall q | q in s.projects && q != id
      ensures Filter(RemoveAll(s.tabOrder, gone), Elems(s.projects[q].tabIDs)) == s.projects[q].tabIDs
    {
      OwnersDiffer(s, id, q);
      FilterAfterRemoveAll(s.tabOrder, gone, s.projects[q].tabIDs);
    }
  }

  lemma DestroyProjectLinked(s: Session, id: Id)
    requires Linked(s) && id in s.projects
    ensures Linked(DestroyProject(s, id))
  {
    var s' := DestroyProject(s, id);
    var gone := s.projects[id].tabIDs;
    DestroyProjectClosed(s, id);
    hide DestroyProject, NoDup, Remove, RemoveAll;
    forall t ensures t in Elems(gone) <==> t in gone {
      InElems(gone, t);
    }
    hide Elems;
    forall p, t | p in s'.projects && t in s'.projects[p].tabIDs ensures t in s'.owner && s'.owner[t] == p {
      assert s.owner[t] == p;
      assert t !in gone;
    }
    forall t | t in s'.owner ensures s'.owner[t] in s'.projects && t in s'.projects[s'.owner[t]].tabIDs {
      assert t in s.projects[s.owner[t]].tabIDs;
    }
  }

  lemma DestroyProjectActive(s: Session, id: Id)
    requires WF(s) && id in s.projects
    ensures Active(DestroyProject(s, id)) && ActiveTabShown(DestroyProject(s, id))
  {
    var s' := DestroyProject(s, id);
    DestroyProjectLinked(s, id);
    DestroyProjectMarks(s, id);
    DestroyProjectClosed(s, id);
    hide DestroyProject, RemoveAll, NoDup, Filter, Linked, Aligned;
    RemoveProps(s.projectOrder, id);
    if s'.projectOrder != [] {
      HeadListed(s'.projectOrder);
    } else {
      assert s'.projects.Keys == {};
    }
  }

  lemma DestroyProjectMarks(s: Session, id: Id)
    requires Linked(s) && Active(s) && id in s.projects
    ensures var s' := DestroyProject(s, id);
            && (forall p :: p in s'.projects ==>
                  s'.projects[p].activeTab == NONE || s'.projects[p].activeTab in s'.projects[p].tabIDs)
            && (s'.activeTab == NONE || s'.activeTab in s'.owner)
            && ActiveTabShown(s')
  {
    var s' := DestroyProject(s, id);
    DestroyProjectLinked(s, id);
    DestroyProjectClosed(s, id);
    hide DestroyProject, RemoveAll, Remove, NoDup, Elems;
    if s'.activeProject in s'.projects {
      var pr := s'.projects[s'.activeProject];
      if pr.tabIDs != [] {
        assert pr.tabIDs[0] in pr.tabIDs;
      }
    }
  }

  // Destroying a project takes exactly its own tabs, and leaves the active tab visible.
  lemma DestroyProjectKeepsWF(s: Session, id: Id)
    requires WF(s)
    ensures WF(DestroyProject(s, id))
    ensures id in s.projects ==>
              var s' := DestroyProject(s, id);
              && s'.owner == s.owner - Elems(s.projects[id].tabIDs)
              && s'.projects == s.projects - {id}
              && Filter(s'.tabOrder, s'.owner.Keys) == Filter(s.tabOrder, s'.owner.Keys)
              && ActiveTabShown(s')
  {
    if id in s.projects {
      var gone := s.projects[id].tabIDs;
      var left := (s.owner - Elems(gone)).Keys;
      DestroyProjectLinked(s, id);
      DestroyProjectAligned(s, id);
      DestroyProjectActive(s, id);
      DestroyProjectClosed(s, id);
      hide DestroyProject, NoDup, Filter, Linked, Aligned, Active, Elems;
      RemoveAllIsFilter(s.tabOrder, gone, left);
      assert left - Elems(gone) == left;
      RemoveProps(s.projectOrder, id);
    }
  }

  // ---------------------------------------------------------------- what the operations do

  // Closing a tab takes that tab and nothing else: every list keeps the rest in order.
  lemma DestroyTabTakesOne(s: Session, tab: Id)
    requires WF(s) && tab in s.owner
    ensures var r, p := DestroyTab(s, tab), s.owner[tab];
            && r.owner == s.owner - {tab} && r.projects.Keys == s.projects.Keys
            && Filter(r.tabOrder, r.owner.Keys) == r.tabOrder == Filter(s.tabOrder, r.owner.Keys)
            && p in s.projects && r.projects[p].tabIDs == Filter(s.projects[p].tabIDs, r.owner.Keys)
            && (forall q :: q in s.projects && q != p ==> r.projects[q] == s.projects[q])
  {
    var p := s.owner[tab];
    var ids, left := s.projects[p].tabIDs, s.owner.Keys - {tab};
    assert tab in ids && NoDup(ids) && NoDup(s.tabOrder) && Elems(s.tabOrder) == s.owner.Keys;
    forall x | x in ids ensures x in s.owner.Keys {
    }
    DestroyTabFields(s, tab);
    var r := DestroyTab(s, tab);
    assert r.tabOrder == Remove(s.tabOrder, tab) && r.owner == s.owner - {tab};
    assert r.owner.Keys == left;
    hide WF, Linked, Ordered, Aligned, Active, DestroyTab, NoDup, Elems, Filter, Remove, Successor;
    RemoveIsRest(s.tabOrder, tab, s.owner.Keys);
    RemoveIsRest(ids, tab, s.owner.Keys);
  }

  // Removing from a list is filtering it by everything else.
  lemma RemoveIsRest(ids: seq<Id>, tab: Id, all: set<Id>)
    requires NoDup(ids) && forall x :: x in ids ==> x in all
    ensures Remove(ids, tab) == Filter(ids, all - {tab})
    ensures Filter(Remove(ids, tab), all - {tab}) == Remove(ids, tab)
  {
    RemoveIsFilter(ids, tab, all);
    RemoveMembers(ids, tab);
    FilterAll(Remove(ids, tab), all);
    FilterAll(Remove(ids, tab), all - {tab});
  }

  // The list of the project a tab names.
  function OwnList(s: Session, tab: Id): seq<Id> {
    if tab in s.owner && s.owner[tab] in s.projects then s.projects[s.owner[tab]].tabIDs else []
  }

  // A drag disturbs no list but the one of the tab's own project.
  lemma ReorderTabFields(s: Session, tab: Id, k: int)
    requires tab in OwnList(s, tab)
    ensures var r, was := ReorderTab(s, tab, k), OwnList(s, tab);
            && r.owner == s.owner && r.projects.Keys == s.projects.Keys
            && OwnList(r, tab) == (if IndexOf(was, tab) == Clamp(k, |was| - 1) then was else Move(was, tab, k))
            && forall q :: q in s.projects && q != s.owner[tab] ==> r.projects[q] == s.projects[q]
  {
    hide IndexOf, Clamp, Move, Reanchor;
  }

  // It puts the tab at the clamped ordinal, and keeps the rest of that list in order.
  lemma ReorderTabPlaces(s: Session, tab: Id, k: int)
    requires Linked(s) && tab in s.owner
    ensures tab in OwnList(s, tab)
    ensures var was, now := OwnList(s, tab), OwnList(ReorderTab(s, tab, k), tab);
            IndexOf(now, tab) == Clamp(k, |was| - 1) && Remove(now, tab) == Remove(was, tab)
  {
    var was := OwnList(s, tab);
    assert tab in was && NoDup(was);
    hide *;
    ReorderTabFields(s, tab, k);
    MoveProps(was, tab, k);
  }

  // Reordering a project puts it at the clamped rank and keeps the others in order.
  lemma ReorderProjectPlaces(s: Session, id: Id, k: int)
    requires WF(s) && id in s.projects
    ensures var r := ReorderProject(s, id, k);
            && r == s.(projectOrder := r.projectOrder)
            && IndexOf(r.projectOrder, id) == Clamp(k, |s.projectOrder| - 1)
            && Remove(r.projectOrder, id) == Remove(s.projectOrder, id)
  {
    assert id in Elems(s.projectOrder);
    InElems(s.projectOrder, id);
    MoveProps(s.projectOrder, id, k);
  }

  // Switching returns to the tab the project remembers, while that is one of its own; the first
  // one otherwise; and leaves the active tab alone for a project without tabs.
  lemma SwitchProjectLands(s: Session, id: Id)
    requires WF(s) && id in s.projects
    ensures var ((r, tab), pr) := (SwitchProject(s, id), s.projects[id]);
            && r.owner == s.owner && r.tabOrder == s.tabOrder && r.projectOrder == s.projectOrder
            && (pr.activeTab in pr.tabIDs ==> tab == pr.activeTab)
            && (pr.activeTab !in pr.tabIDs && pr.tabIDs != [] ==> tab == pr.tabIDs[0])
            && (pr.tabIDs == [] ==> tab == NONE && r.activeTab == s.activeTab)
            && (tab != NONE ==> r.activeTab == tab && r.projects[id].activeTab == tab)
  {
    var pr := s.projects[id];
    if pr.activeTab in s.owner {
      assert pr.activeTab in pr.tabIDs;
    }
    if pr.tabIDs != [] {
      assert pr.tabIDs[0] in pr.tabIDs;
    }
    hide NoDup, Elems, Filter, Ordered, Aligned;
  }

  // All a switch touches: the two active marks, and the tab the project remembers.
  ghost predicate Switched(s: Session, r: Session, id: Id) {
    && id in s.projects && id in r.projects
    && r.projects[id] == s.projects[id].(activeTab := r.projects[id].activeTab)
    && r == s.(activeProject := id, activeTab := r.activeTab, projects := s.projects[id := r.projects[id]])
  }

  lemma SwitchFrame(s: Session, id: Id)
    requires id in s.projects
    ensures Switched(s, SwitchProject(s, id).0, id)
  {
    assert s.projects == s.projects[id := s.projects[id]];
  }

  lemma SwitchedBack(s: Session, away: Session, home: Session, p: Id, id: Id)
    requires Switched(s, away, id) && Switched(away, home, p) && id != p && p == s.activeProject
    requires home.projects[p].activeTab == home.activeTab == s.activeTab && p in s.projects
    requires s.projects[p].activeTab == s.activeTab
    ensures home == s.(projects := s.projects[id := away.projects[id]])
  {
    assert s.projects[p].(activeTab := s.activeTab) == s.projects[p];
    assert home.projects[p] == s.projects[p];
    assert home.projects == s.projects[id := away.projects[id]];
  }

  // Looking at another project and coming back shows the tab that was left, and changes nothing
  // but the tab the other project remembers: if the active tab is the one its project remembers.
  lemma SwitchThereAndBack(s: Session, id: Id)
    requires WF(s) && id in s.projects && id != s.activeProject && s.activeProject in s.projects
    requires s.projects[s.activeProject].activeTab == s.activeTab != NONE
    ensures var away := SwitchProject(s, id).0;
            && Switched(s, away, id)
            && SwitchProject(away, s.activeProject) == (s.(projects := s.projects[id := away.projects[id]]), s.activeTab)
  {
    var p, away := s.activeProject, SwitchProject(s, id).0;
    var home := SwitchProject(away, p).0;
    assert s.activeTab in s.projects[p].tabIDs;
    hide *;
    SwitchProjectKeepsWF(s, id);
    SwitchFrame(s, id);
    SwitchedKeys(s, away, id, p);
    SwitchFrame(away, p);
    SwitchProjectLands(away, p);
    SwitchedBack(s, away, home, p, id);
  }

  lemma SwitchedKeys(s: Session, r: Session, id: Id, p: Id)
    requires Switched(s, r, id) && p in s.projects && p != id
    ensures p in r.projects && r.projects[p] == s.projects[p]
  {
  }

  // ---------------------------------------------------------------- the highlighted tab

  // A new tab hides the highlighted one exactly when it is the first of the active project and
  // another project's tab is the active one.
  lemma AddTabShowsIff(s: Session, p: Id, tab: Id)
    requires Linked(s) && Active(s) && ActiveTabShown(s) && p in s.projects && tab !in s.owner
    ensures ActiveTabShown(AddTab(s, p, tab))
            <==> !(p == s.activeProject && s.projects[p].tabIDs == [] && s.activeTab != NONE)
  {
    var r := AddTab(s, p, tab);
    if p == s.activeProject {
      assert r.projects[p].tabIDs == s.projects[p].tabIDs + [tab];
    }
  }

  // The project a new tab goes to, in a consistent session.
  lemma ResolvedIs(s: Session, projectID: Id, newProject: Id, cwd: string)
    requires WF(s) && newProject != NONE && newProject !in s.projects
    ensures var (r, p) := ResolveProject(s, projectID, newProject, cwd);
            && p in r.projects && (s.projects != map[] ==> r == s && p == Target(s, projectID))
            && (s.projects == map[] ==>
                  r.activeProject == p && r.projects[p].tabIDs == [] && r.activeTab == s.activeTab == NONE)
  {
    assert forall t :: t in s.owner ==> s.owner[t] in s.projects;
    ElemsEmpty(s.projectOrder);
    hide Aligned, NoDup;
  }

  lemma ElemsEmpty(ids: seq<Id>)
    ensures Elems(ids) == {} ==> ids == []
  {
    assert ids != [] ==> ids[0] in Elems(ids);
  }

  // The named project, or the active one.
  function Target(s: Session, projectID: Id): Id { if projectID in s.projects then projectID else s.activeProject }

  // Choosing a tab hides it exactly when it belongs to another project than the active one,
  // which has tabs of its own.
  lemma SwitchTabShowsIff(s: Session, tab: Id)
    requires Linked(s) && Active(s) && ActiveTabShown(s)
    ensures ActiveTabShown(SwitchTab(s, tab))
            <==> !(tab in s.owner && s.owner[tab] != s.activeProject && s.projects[s.activeProject].tabIDs != [])
  {
    if tab in s.owner {
      assert s.owner[tab] in s.projects;
    }
  }

  lemma ReorderTabShows(s: Session, tab: Id, k: int)
    requires Linked(s) && ActiveTabShown(s)
    ensures ActiveTabShown(ReorderTab(s, tab, k))
  {
    var p := s.activeProject;
    if tab in OwnList(s, tab) {
      var was := OwnList(s, tab);
      ReorderTabFields(s, tab, k);
      MoveProps(was, tab, k);
      ReorderTabMarks(s, tab, k);
      InElems(was, s.activeTab);
      InElems(Move(was, tab, k), s.activeTab);
      hide ReorderTab, Move, Linked, NoDup, Elems, IndexOf, Clamp, Remove;
    }
  }

  lemma ReorderTabMarks(s: Session, tab: Id, k: int)
    ensures var r := ReorderTab(s, tab, k); r.activeTab == s.activeTab && r.activeProject == s.activeProject
  {
    hide Move, IndexOf, Clamp, Reanchor;
  }

  // ---------------------------------------------------------------- where the operations land

  // A new tab comes last, in the global order and in its project; no other project changes. The
  // project remembers it if it remembered none, and it becomes active if no tab was.
  lemma AddTabLands(s: Session, p: Id, tab: Id)
    requires WF(s) && p in s.projects && tab != NONE && tab !in s.owner
    ensures var r := AddTab(s, p, tab);
            && r.tabOrder[..|s.tabOrder|] == s.tabOrder && IndexOf(r.tabOrder, tab) == |r.tabOrder| - 1
            && Remove(r.projects[p].tabIDs, tab) == s.projects[p].tabIDs
            && IndexOf(r.projects[p].tabIDs, tab) == |r.projects[p].tabIDs| - 1
            && (r.activeTab == tab <==> s.activeTab == NONE) && (s.activeTab != NONE ==> r.activeTab == s.activeTab)
            && (r.projects[p].activeTab == tab <==> s.projects[p].activeTab == NONE)
            && (s.projects[p].activeTab != NONE ==> r.projects[p].activeTab == s.projects[p].activeTab)
            && r.activeProject == s.activeProject && r.projectOrder == s.projectOrder
            && (forall q :: q in s.projects && q != p ==> q in r.projects && r.projects[q] == s.projects[q])
  {
    var ids := s.projects[p].tabIDs;
    NewTabFacts(s, p, tab);
    hide WF, NoDup, Elems, Remove, IndexOf;
    AppendedLast(ids, tab);
    AppendedLast(s.tabOrder, tab);
  }

  lemma NewTabFacts(s: Session, p: Id, tab: Id)
    requires WF(s) && p in s.projects && tab != NONE && tab !in s.owner
    ensures tab !in s.projects[p].tabIDs && NoDup(s.projects[p].tabIDs) && NoDup(s.tabOrder) && tab !in s.tabOrder
    ensures s.activeTab != tab && s.projects[p].activeTab != tab
  {
    InElems(s.tabOrder, tab);
    hide Aligned, NoDup;
  }

  lemma AppendedLast(ids: seq<Id>, tab: Id)
    requires NoDup(ids) && tab !in ids
    ensures var r := ids + [tab];
            IndexOf(r, tab) == |r| - 1 && Remove(r, tab) == ids && r[..|ids|] == ids
  {
    var r := ids + [tab];
    AppendProps(ids, tab);
    IndexUnique(r, tab, |ids|);
  }

  // A new project comes last, empty; it becomes active only if there was none.
  lemma CreateProjectLands(s: Session, id: Id, name: string, rootDir: string)
    requires WF(s) && id != NONE && id !in s.projects
    ensures var r := CreateProject(s, id, name, rootDir, false);
            && Remove(r.projectOrder, id) == s.projectOrder && IndexOf(r.projectOrder, id) == |r.projectOrder| - 1
            && r.projects - {id} == s.projects && id in r.projects
            && r.projects[id].tabIDs == [] && r.projects[id].activeTab == NONE && !r.projects[id].bootstrap
            && r.projects[id].name == name && r.projects[id].rootDir == rootDir
            && (r.activeProject == id <==> s.projects == map[]) && (s.projects != map[] ==> r.activeProject == s.activeProject)
            && r.owner == s.owner && r.tabOrder == s.tabOrder && r.activeTab == s.activeTab
  {
    assert NoDup(s.projectOrder) && id !in Elems(s.projectOrder);
    assert s.activeProject == NONE <==> s.projects == map[];
    InElems(s.projectOrder, id);
    hide WF, NoDup, Elems;
    AppendedLast(s.projectOrder, id);
  }

  // Choosing a tab makes its project remember it, and changes nothing else but the active tab.
  lemma SwitchTabLands(s: Session, tab: Id)
    requires WF(s) && tab in s.owner
    ensures var r, p := SwitchTab(s, tab), s.owner[tab];
            && p in r.projects && r.activeTab == tab == r.projects[p].activeTab
            && r.projects[p] == s.projects[p].(activeTab := tab)
            && r == s.(activeTab := tab, projects := r.projects) && r.projects.Keys == s.projects.Keys
            && (forall q :: q in s.projects && q != p ==> r.projects[q] == s.projects[q])
  {
  }

  // A project renamed or adopted keeps its tabs, and is no longer one the daemon invented.
  lemma UpdateProjectLands(s: Session, id: Id, name: string, rootDir: string)
    requires id in s.projects
    ensures var r := UpdateProject(s, id, name, rootDir);
            && r == s.(projects := r.projects) && r.projects.Keys == s.projects.Keys && !r.projects[id].bootstrap
            && r.projects[id].name == name && r.projects[id].rootDir == rootDir
            && r.projects[id].tabIDs == s.projects[id].tabIDs && r.projects[id].activeTab == s.projects[id].activeTab
            && (forall q :: q in s.projects && q != id ==> r.projects[q] == s.projects[q])
  {
  }

  // The tab that takes a closed tab's place: its right neighbour, or the left one of the last.
  function Neighbour(ids: seq<Id>, tab: Id): Id
    requires tab in ids && |ids| > 1
  {
    var i := IndexOf(ids, tab);
    if i + 1 < |ids| then ids[i + 1] else ids[i - 1]
  }

  lemma SuccessorIsNeighbour(ids: seq<Id>, tab: Id)
    requires NoDup(ids) && tab in ids
    ensures |ids| > 1 ==> Successor(ids, tab) == Neighbour(ids, tab)
    ensures |ids| == 1 ==> Successor(ids, tab) == NONE
  {
  }

  // Closing a tab that its project remembers, or that is active, hands over to the neighbour in
  // its own project; for the last tab of a project to nobody, and to the first tab there is.
  // Other marks stay.
  lemma DestroyTabHandsOver(s: Session, tab: Id)
    requires WF(s) && tab in s.owner
    ensures s.owner[tab] in s.projects && tab in s.projects[s.owner[tab]].tabIDs
    ensures var r, p := DestroyTab(s, tab), s.owner[tab];
            var ids := s.projects[p].tabIDs;
            && r.projects[p].activeTab == (if s.projects[p].activeTab != tab then s.projects[p].activeTab
                                           else if |ids| > 1 then Neighbour(ids, tab) else NONE)
            && r.activeTab == (if s.activeTab != tab then s.activeTab
                               else if |ids| > 1 then Neighbour(ids, tab)
                               else if r.tabOrder != [] then r.tabOrder[0] else NONE)
            && r.activeProject == s.activeProject && r.projectOrder == s.projectOrder
  {
    OwnTabFacts(s, tab);
    var ids := s.projects[s.owner[tab]].tabIDs;
    SuccessorIsNeighbour(ids, tab);
    hide WF, NoDup, Successor, Remove, IndexOf;
    assert |ids| > 1 ==> Neighbour(ids, tab) in ids;
  }

  lemma OwnTabFacts(s: Session, tab: Id)
    requires WF(s) && tab in s.owner
    ensures s.owner[tab] in s.projects && tab in s.projects[s.owner[tab]].tabIDs
    ensures NoDup(s.projects[s.owner[tab]].tabIDs) && NONE !in s.projects[s.owner[tab]].tabIDs
  {
    hide Ordered, Aligned, NoDup;
  }

  // Destroying a project the user is not in leaves the active project and, if that remembers the
  // active tab, the active tab; destroying the active one moves to the first that is left.
  lemma DestroyProjectLands(s: Session, id: Id)
    requires WF(s) && id in s.projects
    ensures var r := DestroyProject(s, id);
            && r.projectOrder == Filter(s.projectOrder, s.projects.Keys - {id})
            && r.activeProject == (if id != s.activeProject then s.activeProject
                                   else if r.projectOrder != [] then r.projectOrder[0] else NONE)
            && (r.activeProject in r.projects ==>
                  var pr := s.projects[r.activeProject];
                  r.activeTab == if pr.activeTab != NONE then pr.activeTab else if pr.tabIDs != [] then pr.tabIDs[0] else NONE)
            && (r.projects == map[] ==> r.activeTab == NONE)
  {
    assert NoDup(s.projectOrder) && Elems(s.projectOrder) == s.projects.Keys;
    DestroyProjectKeepsWF(s, id);
    assert Active(DestroyProject(s, id));
    DestroyProjectClosed(s, id);
    forall x | x in s.projectOrder ensures x in s.projects.Keys {
      InElems(s.projectOrder, x);
    }
    hide WF, Linked, Ordered, Aligned, NoDup, Elems, DestroyProject, Filter, Remove, RemoveAll, ActiveTabShown;
    RemoveIsRest(s.projectOrder, id, s.projects.Keys);
  }
}
