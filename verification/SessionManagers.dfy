/** The session manager object of internal/daemon/project.go and internal/daemon/session.go:
    its methods perform the operations on session values, and every run of them keeps the two
    orderings consistent and the project names distinct. */
module SessionManagers {
  import opened ProjectLists
  import opened ProjectNames
  import S = Session
  import M = ProjectMerge

  // ---------------------------------------------------------------- names

  lemma UniqueIsFree(u: Text, used: set<string>, want: string, name: string)
    requires IsUniqueName(u, used, want, name)
    ensures Norm(u, name) !in used
  {
    TrimIsTrimmed(u, want);
    TrimFixesTrimmed(u, Trim(u, want));
  }

  // Taking a free name for one project keeps all names distinct; the others keep theirs.
  lemma FreeNameKeepsDistinct(u: Text, s: S.Session, r: S.Session, id: Id)
    requires S.NamesDistinct(u, s)
    requires forall p :: p in r.projects && p != id ==> p in s.projects && r.projects[p].name == s.projects[p].name
    requires id in r.projects ==> Norm(u, r.projects[id].name) !in S.NamesExcept(u, s, id)
                                  || (id in s.projects && r.projects[id].name == s.projects[id].name)
    ensures S.NamesDistinct(u, r)
  {
  }

  lemma FewerNamesDistinct(u: Text, s: S.Session, r: S.Session)
    requires S.NamesDistinct(u, s)
    requires forall p :: p in r.projects ==> p in s.projects && r.projects[p].name == s.projects[p].name
    ensures S.NamesDistinct(u, r)
  {
  }

  // ---------------------------------------------------------------- runs

  // The identifiers and disambiguated names an operation draws are part of the step.
  datatype Op =
    | CreateProject(id: Id, want: string, name: string, rootDir: string)
    | UpdateProject(id: Id, want: string, name: string, rootDir: string, requireBootstrap: bool)
    | MergeProjects(into: Id, absorb: seq<Id>, want: string, name: string)
    | DestroyProject(id: Id)
    | SwitchProject(id: Id)
    | ReorderProject(id: Id, index: int)
    | CreateTab(projectID: Id, tab: Id, newProject: Id, cwd: string)
    | DestroyTab(tab: Id)
    | SwitchTab(tab: Id)
    | ReorderTab(tab: Id, index: int)

  // Identifiers are drawn fresh and names are what the disambiguation returns.
  ghost predicate Enabled(u: Text, s: S.Session, op: Op) {
    match op
    case CreateProject(id, want, name, _) =>
      id != S.NONE && id !in s.projects && IsUniqueName(u, S.NamesExcept(u, s, S.NONE), want, name)
    case UpdateProject(id, want, name, _, _) => IsUniqueName(u, S.NamesExcept(u, s, id), want, name)
    case MergeProjects(into, absorb, want, name) =>
      into in s.projects ==> IsUniqueName(u, S.NamesExcept(u, M.AbsorbAll(s, into, absorb), into), want, name)
    case CreateTab(_, tab, newProject, _) =>
      tab != S.NONE && tab !in s.owner && newProject != S.NONE && newProject !in s.projects
    case _ => true
  }

  function Step(s: S.Session, op: Op): S.Session {
    match op
    case CreateProject(id, _, name, rootDir) => S.CreateProject(s, id, name, rootDir, false)
    case UpdateProject(id, _, name, rootDir, requireBootstrap) =>
      if id !in s.projects || (requireBootstrap && !s.projects[id].bootstrap) then s
      else S.UpdateProject(s, id, name, rootDir)
    case MergeProjects(into, absorb, _, name) =>
      if into !in s.projects then s else M.MergeProjects(s, into, absorb, name)
    case DestroyProject(id) => S.DestroyProject(s, id)
    case SwitchProject(id) => S.SwitchProject(s, id).0
    case ReorderProject(id, index) => S.ReorderProject(s, id, index)
    case CreateTab(projectID, tab, newProject, cwd) =>
      var (r, p) := S.ResolveProject(s, projectID, newProject, cwd);
      S.AddTab(r, p, tab)
    case DestroyTab(tab) => S.DestroyTab(s, tab)
    case SwitchTab(tab) => S.SwitchTab(s, tab)
    case ReorderTab(tab, index) => S.ReorderTab(s, tab, index)
  }

  lemma StepKeepsWF(u: Text, s: S.Session, op: Op)
    requires S.WF(s) && Enabled(u, s, op)
    ensures S.WF(Step(s, op))
  {
    hide S.WF, IsUniqueName;
    match op
    case CreateProject(id, _, name, rootDir) => S.CreateProjectKeepsWF(s, id, name, rootDir, false);
    case UpdateProject(id, _, name, rootDir, _) =>
      if id in s.projects {
        S.UpdateProjectKeepsWF(s, id, name, rootDir);
      }
    case MergeProjects(into, absorb, _, name) =>
      if into in s.projects {
        M.MergeKeepsWF(s, into, absorb, name);
      }
    case DestroyProject(id) => S.DestroyProjectKeepsWF(s, id);
    case SwitchProject(id) => S.SwitchProjectKeepsWF(s, id);
    case ReorderProject(id, index) => S.ReorderProjectKeepsWF(s, id, index);
    case CreateTab(projectID, tab, newProject, cwd) =>
      S.ResolveKeepsWF(s, projectID, newProject, cwd);
      var (r, p) := S.ResolveProject(s, projectID, newProject, cwd);
      S.AddTabKeepsWF(r, p, tab);
    case DestroyTab(tab) =>
      if tab in s.owner {
        S.DestroyTabKeepsWF(s, tab);
      }
    case SwitchTab(tab) => S.SwitchTabKeepsWF(s, tab);
    case ReorderTab(tab, index) => S.ReorderTabKeepsWF(s, tab, index);
  }

  lemma MergeKeepsNames(u: Text, s: S.Session, into: Id, absorb: seq<Id>, want: string, name: string)
    requires S.WF(s) && S.NamesDistinct(u, s) && into in s.projects
    requires IsUniqueName(u, S.NamesExcept(u, M.AbsorbAll(s, into, absorb), into), want, name)
    ensures S.NamesDistinct(u, M.MergeProjects(s, into, absorb, name))
  {
    M.FoldAll(s, into, absorb);
    M.FoldJoins(s, into, absorb);
    var m := M.AbsorbAll(s, into, absorb);
    M.FoldedKeys(s, m, into, Elems(absorb) - {into});
    hide S.WF, M.Folded, Norm, M.AbsorbAll, M.Joined, IsUniqueName;
    FewerNamesDistinct(u, s, m);
    UniqueIsFree(u, S.NamesExcept(u, m, into), want, name);
    MergeRenames(s, into, absorb, name);
    FreeNameKeepsDistinct(u, m, M.MergeProjects(s, into, absorb, name), into);
  }

  lemma MergeRenames(s: S.Session, into: Id, absorb: seq<Id>, name: string)
    requires into in s.projects
    ensures var m, r := M.AbsorbAll(s, into, absorb), M.MergeProjects(s, into, absorb, name);
            && r.projects.Keys == m.projects.Keys && r.projects[into].name == name
            && forall p :: p in m.projects && p != into ==> r.projects[p].name == m.projects[p].name
  {
    hide M.AbsorbAll, M.FinishMerge;
    FinishRenames(M.AbsorbAll(s, into, absorb), into, name);
  }

  lemma FinishRenames(m: S.Session, into: Id, name: string)
    requires into in m.projects
    ensures var r := M.FinishMerge(m, into, name);
            && r.projects.Keys == m.projects.Keys && r.projects[into].name == name
            && forall p :: p in m.projects && p != into ==> r.projects[p].name == m.projects[p].name
  {
  }

  predicate Renames(op: Op) { op.CreateProject? || op.UpdateProject? || op.MergeProjects? || op.CreateTab? }

  lemma OthersRenameNothing(s: S.Session, op: Op)
    requires !Renames(op)
    ensures forall p :: p in Step(s, op).projects ==> p in s.projects && Step(s, op).projects[p].name == s.projects[p].name
  {
    hide Move, Remove, S.RemoveAll, Reanchor, Elems, IndexOf;
    match op
    case DestroyProject(id) =>
    case SwitchProject(id) =>
    case ReorderProject(id, index) =>
    case DestroyTab(tab) =>
    case SwitchTab(tab) =>
    case ReorderTab(tab, index) =>
  }

  lemma StepKeepsNames(u: Text, s: S.Session, op: Op)
    requires S.WF(s) && S.NamesDistinct(u, s) && Enabled(u, s, op)
    ensures S.NamesDistinct(u, Step(s, op))
  {
    hide Norm, S.WF, IsUniqueName, S.NamesDistinct;
    match op
    case CreateProject(id, want, name, _) =>
      UniqueIsFree(u, S.NamesExcept(u, s, S.NONE), want, name);
      NobodyIsNone(u, s, id);
      FreeNameKeepsDistinct(u, s, Step(s, op), id);
    case UpdateProject(id, want, name, _, _) =>
      UniqueIsFree(u, S.NamesExcept(u, s, id), want, name);
      FreeNameKeepsDistinct(u, s, Step(s, op), id);
    case MergeProjects(into, absorb, want, name) =>
      if into in s.projects {
        MergeKeepsNames(u, s, into, absorb, want, name);
      }
    case CreateTab(projectID, tab, newProject, cwd) =>
      CreateTabKeepsNames(u, s, projectID, tab, newProject, cwd);
    case _ =>
      hide Step;
      OthersRenameNothing(s, op);
      FewerNamesDistinct(u, s, Step(s, op));
  }

  lemma NobodyIsNone(u: Text, s: S.Session, id: Id)
    requires S.WF(s) && id !in s.projects
    ensures S.NamesExcept(u, s, id) == S.NamesExcept(u, s, S.NONE)
  {
    hide Norm;
  }

  lemma ResolveNames(s: S.Session, projectID: Id, newProject: Id, cwd: string)
    requires newProject !in s.projects && (s.projects != map[] ==> s.projectOrder != [])
    ensures var (r, p) := S.ResolveProject(s, projectID, newProject, cwd);
            r.projects == s.projects || (s.projects == map[] && r.projects.Keys == {newProject})
  {
  }

  lemma AddTabNames(s: S.Session, p: Id, tab: Id)
    ensures S.AddTab(s, p, tab).projects.Keys == s.projects.Keys
    ensures forall q :: q in s.projects ==> S.AddTab(s, p, tab).projects[q].name == s.projects[q].name
  {
  }

  lemma OneNameDistinct(u: Text, r: S.Session, id: Id)
    requires r.projects.Keys == {id}
    ensures S.NamesDistinct(u, r)
  {
    hide Norm;
  }

  lemma CreateTabKeepsNames(u: Text, s: S.Session, projectID: Id, tab: Id, newProject: Id, cwd: string)
    requires S.WF(s) && S.NamesDistinct(u, s) && newProject != S.NONE && newProject !in s.projects
    ensures S.NamesDistinct(u, Step(s, CreateTab(projectID, tab, newProject, cwd)))
  {
    if s.projects != map[] {
      OrderedNotEmpty(s);
    }
    hide S.NamesDistinct, S.WF, S.ResolveProject, S.AddTab;
    ResolveNames(s, projectID, newProject, cwd);
    var (r, p) := S.ResolveProject(s, projectID, newProject, cwd);
    var r' := S.AddTab(r, p, tab);
    AddTabNames(r, p, tab);
    if r.projects == s.projects {
      FewerNamesDistinct(u, s, r');
    } else {
      OneNameDistinct(u, r', newProject);
    }
  }

  lemma OrderedNotEmpty(s: S.Session)
    requires S.WF(s) && s.projects != map[]
    ensures s.projectOrder != []
  {
    var p :| p in s.projects;
    assert p in Elems(s.projectOrder);
  }

  // A run of enabled operations, from the empty session.
  ghost predicate IsRun(u: Text, states: seq<S.Session>, ops: seq<Op>) {
    && |states| == |ops| + 1 && states[0] == S.Empty
    && forall i :: 0 <= i < |ops| ==> Enabled(u, states[i], ops[i]) && states[i + 1] == Step(states[i], ops[i])
  }

  // In every state of every run both orderings are consistent and no two projects can be
  // confused by name.
  lemma {:induction false} RunsStayConsistent(u: Text, states: seq<S.Session>, ops: seq<Op>, i: nat)
    requires IsRun(u, states, ops) && i < |states|
    ensures S.WF(states[i]) && S.NamesDistinct(u, states[i])
  {
    if i == 0 {
      EmptyIsConsistent(u);
    } else {
      RunsStayConsistent(u, states, ops, i - 1);
      StepKeepsWF(u, states[i - 1], ops[i - 1]);
      StepKeepsNames(u, states[i - 1], ops[i - 1]);
    }
  }

  lemma EmptyIsConsistent(u: Text)
    ensures S.WF(S.Empty) && S.NamesDistinct(u, S.Empty)
  {
  }

  // ---------------------------------------------------------------- adoption

  lemma MergeStaysAdopted(s: S.Session, into: Id, absorb: seq<Id>, name: string, p: Id)
    requires S.WF(s) && into in s.projects && p in s.projects && !s.projects[p].bootstrap
    requires p in M.MergeProjects(s, into, absorb, name).projects
    ensures !M.MergeProjects(s, into, absorb, name).projects[p].bootstrap
  {
    M.MergeLands(s, into, absorb, name);
    hide M.MergeProjects;
  }

  // A project that is the user's own stays so, whatever is done.
  lemma StaysAdopted(s: S.Session, op: Op, p: Id)
    requires S.WF(s) && p in s.projects && !s.projects[p].bootstrap && p in Step(s, op).projects
    requires op.CreateProject? ==> op.id !in s.projects
    requires op.CreateTab? ==> op.newProject !in s.projects
    ensures !Step(s, op).projects[p].bootstrap
  {
    match op
    case MergeProjects(into, absorb, _, name) =>
      if into in s.projects {
        MergeStaysAdopted(s, into, absorb, name, p);
      }
    case CreateTab(projectID, tab, newProject, cwd) =>
      hide S.WF, S.ResolveProject, S.AddTab;
      ResolveStaysAdopted(s, projectID, newProject, cwd, p);
      var (r, q) := S.ResolveProject(s, projectID, newProject, cwd);
      AddTabStaysAdopted(r, q, tab, p);
    case _ =>
      hide S.WF;
      OthersStayAdopted(s, op, p);
  }

  lemma ResolveStaysAdopted(s: S.Session, projectID: Id, newProject: Id, cwd: string, p: Id)
    requires p in s.projects && !s.projects[p].bootstrap && newProject !in s.projects
    ensures var r := S.ResolveProject(s, projectID, newProject, cwd).0; p in r.projects && !r.projects[p].bootstrap
  {
  }

  lemma AddTabStaysAdopted(s: S.Session, q: Id, tab: Id, p: Id)
    requires p in s.projects && !s.projects[p].bootstrap
    ensures p in S.AddTab(s, q, tab).projects && !S.AddTab(s, q, tab).projects[p].bootstrap
  {
  }

  lemma OthersStayAdopted(s: S.Session, op: Op, p: Id)
    requires p in s.projects && !s.projects[p].bootstrap && p in Step(s, op).projects
    requires !op.MergeProjects? && !op.CreateTab? && (op.CreateProject? ==> op.id !in s.projects)
    ensures !Step(s, op).projects[p].bootstrap
  {
    hide Move, Remove, S.RemoveAll, Reanchor, Elems, IndexOf, S.CloseTabs, S.Successor, S.ResolveProject, S.AddTab, M.MergeProjects;
    match op
    case CreateProject(_, _, _, _) =>
    case UpdateProject(_, _, _, _, _) =>
    case DestroyProject(id) =>
    case SwitchProject(id) =>
    case ReorderProject(id, index) =>
    case DestroyTab(tab) =>
    case SwitchTab(tab) =>
    case ReorderTab(tab, index) =>
  }

  // In every run: once a project has been named, by an adoption or otherwise, no adoption of it
  // is accepted any more.
  lemma {:induction false} AdoptedOnce(u: Text, states: seq<S.Session>, ops: seq<Op>, i: nat, j: nat, p: Id)
    requires IsRun(u, states, ops) && i < j < |states| == |ops| + 1 && ops[i].UpdateProject? && ops[i].id == p
    requires forall k :: i <= k <= j ==> p in states[k].projects
    ensures !states[j].projects[p].bootstrap
    ensures j < |ops| && ops[j].UpdateProject? && ops[j].id == p && ops[j].requireBootstrap ==> states[j + 1] == states[j]
    decreases j
  {
    hide *;
    RunStep(u, states, ops, j - 1);
    FreshIds(u, states[j - 1], ops[j - 1]);
    if j - 1 > i {
      AdoptedOnce(u, states, ops, i, j - 1, p);
      RunsStayConsistent(u, states, ops, j - 1);
      StaysAdopted(states[j - 1], ops[j - 1], p);
    } else {
      NamedIsAdopted(states[i], ops[i]);
    }
    if j < |ops| && ops[j].UpdateProject? && ops[j].id == p {
      RunStep(u, states, ops, j);
      RefusedAdoption(states[j], ops[j]);
    }
  }

  lemma RunStep(u: Text, states: seq<S.Session>, ops: seq<Op>, k: nat)
    requires IsRun(u, states, ops) && k < |ops|
    ensures |states| == |ops| + 1 && Enabled(u, states[k], ops[k]) && states[k + 1] == Step(states[k], ops[k])
  {
  }

  lemma FreshIds(u: Text, s: S.Session, op: Op)
    requires Enabled(u, s, op)
    ensures op.CreateProject? ==> op.id !in s.projects
    ensures op.CreateTab? ==> op.newProject !in s.projects
  {
    hide IsUniqueName;
  }

  lemma NamedIsAdopted(s: S.Session, op: Op)
    requires op.UpdateProject? && op.id in s.projects
    ensures op.id in Step(s, op).projects && !Step(s, op).projects[op.id].bootstrap
  {
  }

  lemma RefusedAdoption(s: S.Session, op: Op)
    requires op.UpdateProject? && op.id in s.projects
    ensures op.requireBootstrap && !s.projects[op.id].bootstrap ==> Step(s, op) == s
  {
  }

  // ---------------------------------------------------------------- the highlighted tab

  // The steps that leave a highlighted tab outside the visible list: the first tab of an empty
  // active project, created while another project's tab is active, and choosing a tab of a
  // project that is not the active one.
  predicate Hides(s: S.Session, op: Op) {
    s.activeProject in s.projects &&
    match op
    case CreateTab(projectID, _, _, _) =>
      S.Target(s, projectID) == s.activeProject && s.projects[s.activeProject].tabIDs == [] && s.activeTab != S.NONE
    case SwitchTab(tab) =>
      tab in s.owner && s.owner[tab] != s.activeProject && s.projects[s.activeProject].tabIDs != []
    case _ => false
  }

  lemma CreateTabShowsIff(s: S.Session, projectID: Id, tab: Id, newProject: Id, cwd: string)
    requires S.WF(s) && S.ActiveTabShown(s) && tab !in s.owner && newProject != S.NONE && newProject !in s.projects
    requires tab != S.NONE
    ensures var op := CreateTab(projectID, tab, newProject, cwd); S.ActiveTabShown(Step(s, op)) <==> !Hides(s, op)
  {
    var (r, p) := S.ResolveProject(s, projectID, newProject, cwd);
    assert S.Linked(s) && S.Active(s);
    S.ResolvedIs(s, projectID, newProject, cwd);
    if s.projects == map[] {
      assert S.AddTab(r, p, tab).projects[p].tabIDs == [] + [tab];
    } else {
      S.AddTabShowsIff(s, p, tab);
    }
    hide S.WF, S.Linked, S.ResolveProject;
  }

  lemma QuietShows(s: S.Session, op: Op)
    requires S.ActiveTabShown(s) && S.WF(s)
    requires op.CreateProject? || op.UpdateProject? || op.ReorderProject?
    requires op.CreateProject? ==> op.id !in s.projects && op.id != S.NONE
    ensures S.ActiveTabShown(Step(s, op))
  {
    hide S.Linked, S.Ordered, S.Aligned, Move;
  }

  // Exactly which operations lose the highlighted tab from the visible list.
  lemma StepShowsIff(u: Text, s: S.Session, op: Op)
    requires S.WF(s) && Enabled(u, s, op) && S.ActiveTabShown(s)
    ensures S.ActiveTabShown(Step(s, op)) <==> !Hides(s, op)
  {
    assert S.Linked(s) && S.Active(s) && S.Ordered(s) && NoDup(s.tabOrder);
    hide S.WF, S.Linked, S.Ordered, S.Active, S.ActiveTabShown, IsUniqueName, NoDup, Elems, Move, Remove, M.AbsorbAll;
    match op
    case CreateProject(_, _, _, _) => QuietShows(s, op);
    case UpdateProject(_, _, _, _, _) => QuietShows(s, op);
    case ReorderProject(_, _) => QuietShows(s, op);
    case MergeProjects(into, absorb, _, name) =>
      if into in s.projects {
        M.MergeShowsActiveTab(s, into, absorb, name);
      }
    case DestroyProject(id) => S.DestroyProjectKeepsWF(s, id);
    case SwitchProject(id) => S.SwitchProjectKeepsWF(s, id);
    case CreateTab(projectID, tab, newProject, cwd) => CreateTabShowsIff(s, projectID, tab, newProject, cwd);
    case DestroyTab(tab) =>
      if tab in s.owner {
        assert S.NONE !in s.owner by { NoneIsNoTab(s); }
        S.DestroyTabShows(s, tab);
      }
    case SwitchTab(tab) => S.SwitchTabShowsIff(s, tab);
    case ReorderTab(tab, index) => S.ReorderTabShows(s, tab, index);
  }

  lemma NoneIsNoTab(s: S.Session)
    requires S.Active(s)
    ensures S.NONE !in s.owner
  {
  }

  // The highlighted tab is in the visible list throughout a run if and only if none of its
  // operations is one of those.
  lemma RunShowsIff(u: Text, states: seq<S.Session>, ops: seq<Op>)
    requires IsRun(u, states, ops)
    ensures (forall i :: 0 <= i < |states| ==> S.ActiveTabShown(states[i]))
            <==> forall i :: 0 <= i < |ops| ==> !Hides(states[i], ops[i])
  {
    if forall i :: 0 <= i < |ops| ==> !Hides(states[i], ops[i]) {
      forall i | 0 <= i < |states| ensures S.ActiveTabShown(states[i]) {
        ShownSoFar(u, states, ops, i);
      }
    }
    if forall i :: 0 <= i < |states| ==> S.ActiveTabShown(states[i]) {
      forall i | 0 <= i < |ops| ensures !Hides(states[i], ops[i]) {
        RunsStayConsistent(u, states, ops, i);
        assert states[i + 1] == Step(states[i], ops[i]) && S.ActiveTabShown(states[i]) && S.ActiveTabShown(states[i + 1]);
        StepShowsIff(u, states[i], ops[i]);
      }
    }
  }

  lemma {:induction false} ShownSoFar(u: Text, states: seq<S.Session>, ops: seq<Op>, i: nat)
    requires IsRun(u, states, ops) && i < |states| && forall j :: 0 <= j < i ==> !Hides(states[j], ops[j])
    ensures S.ActiveTabShown(states[i])
  {
    if i > 0 {
      hide S.WF, Step, Hides, Enabled, S.ActiveTabShown, IsRun;
      RunStep(u, states, ops, i - 1);
      ShownSoFar(u, states, ops, i - 1);
      RunsStayConsistent(u, states, ops, i - 1);
      StepShowsIff(u, states[i - 1], ops[i - 1]);
    } else {
      StartIsShown(u, states, ops);
      hide *;
    }
  }

  lemma StartIsShown(u: Text, states: seq<S.Session>, ops: seq<Op>)
    requires IsRun(u, states, ops)
    ensures S.ActiveTabShown(states[0])
  {
  }

  // What a client's request for a new tab does: create it, and choose it. Afterwards the tab is
  // visible exactly if it went to the active project, or the active project has no tabs to list.
  lemma OpenedTabShowsIff(u: Text, s: S.Session, projectID: Id, tab: Id, newProject: Id, cwd: string)
    requires S.WF(s) && Enabled(u, s, CreateTab(projectID, tab, newProject, cwd))
    ensures S.ActiveTabShown(Step(Step(s, CreateTab(projectID, tab, newProject, cwd)), SwitchTab(tab)))
            <==> s.projects == map[] || S.Target(s, projectID) == s.activeProject
                 || (s.activeProject in s.projects && s.projects[s.activeProject].tabIDs == [])
  {
    var (r, p) := S.ResolveProject(s, projectID, newProject, cwd);
    S.ResolvedIs(s, projectID, newProject, cwd);
    NothingListsIt(s, tab);
    hide S.WF, S.ResolveProject, S.AddTab, S.SwitchTab, S.ActiveTabShown, IsUniqueName;
    OpenedShows(r, p, tab);
  }

  lemma NothingListsIt(s: S.Session, tab: Id)
    requires S.WF(s) && tab !in s.owner
    ensures s.projects != map[] ==> s.activeProject in s.projects && tab !in s.projects[s.activeProject].tabIDs
    ensures s.projects == map[] ==> s.owner == map[]
  {
    assert forall t :: t in s.owner ==> s.owner[t] in s.projects;
    hide S.Ordered, S.Aligned;
  }

  lemma OpenedShows(r: S.Session, p: Id, tab: Id)
    requires p in r.projects && r.activeProject in r.projects && tab !in r.owner
    requires tab !in r.projects[r.activeProject].tabIDs
    ensures S.ActiveTabShown(S.SwitchTab(S.AddTab(r, p, tab), tab))
            <==> p == r.activeProject || r.projects[r.activeProject].tabIDs == []
  {
    var t := S.AddTab(r, p, tab);
    assert t.projects[p].tabIDs == r.projects[p].tabIDs + [tab];
  }

  // It is lost in a run: a tab, a second project, and a tab opened for that project.
  lemma OpeningElsewhereHides(u: Text, want: string, name: string) returns (states: seq<S.Session>, ops: seq<Op>)
    requires IsUniqueName(u, {Norm(u, "Default")}, want, name)
    ensures IsRun(u, states, ops) && |ops| == 4 && ops[2..] == [CreateTab(20, 2, 30, ""), SwitchTab(2)]
    ensures S.ActiveTabShown(states[3]) && !S.ActiveTabShown(states[4])
  {
    ops := [CreateTab(S.NONE, 1, 10, ""), CreateProject(20, want, name, ""), CreateTab(20, 2, 30, ""), SwitchTab(2)];
    var home := S.Project("Default", "", [1], 1, true);
    var s1 := S.Session(map[1 := 10], [1], map[10 := home], [10], 1, 10);
    var s2 := s1.(projects := map[10 := home, 20 := S.Project(name, "", [], S.NONE, false)], projectOrder := [10, 20]);
    var away := S.Project(name, "", [2], 2, false);
    var s3 := S.Session(map[1 := 10, 2 := 20], [1, 2], map[10 := home, 20 := away], [10, 20], 1, 10);
    var s4 := s3.(activeTab := 2);
    states := [S.Empty, s1, s2, s3, s4];
    hide *;
    FirstTab();
    SecondProject(u, s1, s2, want, name);
    SecondTab(s2, home, name);
    ThirdSwitch(s3, s4);
    RunOfFour(u, states, ops);
  }

  lemma SecondProject(u: Text, s1: S.Session, s2: S.Session, want: string, name: string)
    requires s1.projects.Keys == {10} && s1.projects[10].name == "Default" && s1.projectOrder == [10] && s1.activeProject == 10
    requires IsUniqueName(u, {Norm(u, "Default")}, want, name)
    requires s2.projects == s1.projects[20 := S.Project(name, "", [], S.NONE, false)]
    requires s2 == s1.(projects := s2.projects, projectOrder := [10, 20])
    ensures Enabled(u, s1, CreateProject(20, want, name, "")) && Step(s1, CreateProject(20, want, name, "")) == s2
  {
    NamesOfOne(u, s1, 10);
    hide IsUniqueName, Norm, S.NamesExcept;
    assert [10] + [20 as Id] == [10, 20];
  }

  lemma ThirdSwitch(s3: S.Session, s4: S.Session)
    requires 2 in s3.owner && s3.owner[2] == 20 && 20 in s3.projects && s3.projects[20].activeTab == 2
    requires s3.activeProject == 10 && 10 in s3.projects && s3.projects[10].tabIDs == [1] && s3.activeTab == 1
    requires s4 == s3.(activeTab := 2)
    ensures forall u :: Enabled(u, s3, SwitchTab(2))
    ensures Step(s3, SwitchTab(2)) == s4 && S.ActiveTabShown(s3) && !S.ActiveTabShown(s4)
  {
    assert s3.projects[20 := s3.projects[20].(activeTab := 2)] == s3.projects;
  }

  lemma RunOfFour(u: Text, states: seq<S.Session>, ops: seq<Op>)
    requires |ops| == 4 && |states| == 5 && states[0] == S.Empty
    requires Enabled(u, states[0], ops[0]) && states[1] == Step(states[0], ops[0])
    requires Enabled(u, states[1], ops[1]) && states[2] == Step(states[1], ops[1])
    requires Enabled(u, states[2], ops[2]) && states[3] == Step(states[2], ops[2])
    requires Enabled(u, states[3], ops[3]) && states[4] == Step(states[3], ops[3])
    ensures IsRun(u, states, ops)
  {
    hide Enabled, Step;
  }

  lemma NamesOfOne(u: Text, s: S.Session, id: Id)
    requires s.projects.Keys == {id} && id != S.NONE
    ensures S.NamesExcept(u, s, S.NONE) == {Norm(u, s.projects[id].name)}
  {
    hide Norm;
    assert Norm(u, s.projects[id].name) in S.NamesExcept(u, s, S.NONE);
  }

  lemma FirstTab()
    ensures forall u :: Enabled(u, S.Empty, CreateTab(S.NONE, 1, 10, ""))
    ensures Step(S.Empty, CreateTab(S.NONE, 1, 10, ""))
            == S.Session(map[1 := 10], [1], map[10 := S.Project("Default", "", [1], 1, true)], [10], 1, 10)
  {
    var d := S.Project("Default", "", [], S.NONE, true);
    var r := S.Session(map[], [], map[10 := d], [10], S.NONE, 10);
    assert [] + [1 as Id] == [1] && [] + [10 as Id] == [10];
    assert S.ResolveProject(S.Empty, S.NONE, 10, "") == (r, 10);
    assert S.AddTab(r, 10, 1).projects == map[10 := S.Project("Default", "", [1], 1, true)];
    assert S.AddTab(r, 10, 1).owner == map[1 := 10];
  }

  lemma SecondTab(s: S.Session, home: S.Project, name: string)
    requires s == S.Session(map[1 := 10], [1], map[10 := home, 20 := S.Project(name, "", [], S.NONE, false)], [10, 20], 1, 10)
    ensures forall u :: Enabled(u, s, CreateTab(20, 2, 30, ""))
    ensures Step(s, CreateTab(20, 2, 30, ""))
            == S.Session(map[1 := 10, 2 := 20], [1, 2], map[10 := home, 20 := S.Project(name, "", [2], 2, false)], [10, 20], 1, 10)
  {
    assert [] + [2 as Id] == [2] && [1] + [2 as Id] == [1, 2];
    var r := S.AddTab(s, 20, 2);
    assert r.projects == map[10 := home, 20 := S.Project(name, "", [2], 2, false)];
    assert r.owner == map[1 := 10, 2 := 20];
  }

  // ---------------------------------------------------------------- the object

  class SessionManager {
    var tabs: map<Id, Id>  // each tab's ProjectID
    var tabOrder: seq<Id>
    var projects: map<Id, S.Project>
    var projectOrder: seq<Id>
    var activeTab: Id
    var activeProject: Id

    constructor ()
      ensures View() == S.Empty
    {
      tabs, tabOrder, projects, projectOrder, activeTab, activeProject := map[], [], map[], [], S.NONE, S.NONE;
    }

    function View(): S.Session
      reads this
    {
      S.Session(tabs, tabOrder, projects, projectOrder, activeTab, activeProject)
    }

    method ProjectNamesExcept(u: Text, id: Id) returns (names: seq<string>)
      ensures Used(u, names) == S.NamesExcept(u, View(), id)
    {
      names := [];
      var todo := projects.Keys;
      while todo != {}
        invariant todo <= projects.Keys
        invariant Used(u, names) == set p | p in projects && p !in todo && p != id :: Norm(u, projects[p].name)
        decreases |todo|
      {
        hide Norm;
        var pid :| pid in todo;
        todo := todo - {pid};
        if pid != id {
          UsedAppend(u, names, projects[pid].name);
          names := names + [projects[pid].name];
        }
      }
    }

    method CreateProject(u: Text, id: Id, name: string, rootDir: string)
      requires Valid(u) && id != S.NONE && id !in projects
      modifies this
      ensures id in projects && IsUniqueName(u, S.NamesExcept(u, old(View()), S.NONE), name, projects[id].name)
      ensures View() == S.CreateProject(old(View()), id, projects[id].name, rootDir, false)
    {
      var taken := ProjectNamesExcept(u, S.NONE);
      var unique := UniqueProjectName(u, taken, name);
      projects := projects[id := S.Project(unique, rootDir, [], S.NONE, false)];
      projectOrder := projectOrder + [id];
      if activeProject == S.NONE {
        activeProject := id;
      }
    }

    method UpdateProject(u: Text, id: Id, name: string, rootDir: string, requireBootstrap: bool) returns (ok: bool)
      requires Valid(u)
      modifies this
      ensures ok == (id in old(projects) && (requireBootstrap ==> old(projects)[id].bootstrap))
      ensures !ok ==> View() == old(View())
      ensures ok ==> id in projects && IsUniqueName(u, S.NamesExcept(u, old(View()), id), name, projects[id].name)
                     && View() == S.UpdateProject(old(View()), id, projects[id].name, rootDir)
    {
      if id !in projects {
        return false;
      }
      if requireBootstrap && !projects[id].bootstrap {
        return false;
      }
      var taken := ProjectNamesExcept(u, id);
      var unique := UniqueProjectName(u, taken, name);
      projects := projects[id := projects[id].(name := unique, rootDir := rootDir, bootstrap := false)];
      return true;
    }

    method SwitchProject(id: Id) returns (tab: Id, ok: bool)
      modifies this
      ensures ok == (id in old(projects))
      ensures (View(), tab) == S.SwitchProject(old(View()), id)
    {
      if id !in projects {
        return S.NONE, false;
      }
      activeProject := id;
      var p := projects[id];
      tab := p.activeTab;
      if tab !in tabs {
        tab := S.NONE;
        if |p.tabIDs| > 0 {
          tab := p.tabIDs[0];
        }
      }
      if tab != S.NONE {
        activeTab := tab;
        projects := projects[id := p.(activeTab := tab)];
      }
      return tab, true;
    }

    method ReorderProject(id: Id, newIndex: int) returns (changed: bool)
      modifies this
      ensures View() == S.ReorderProject(old(View()), id, newIndex)
      ensures changed == (id in projects && IndexOf(projectOrder, id) != IndexOf(old(projectOrder), id))
    {
      if id !in projects {
        return false;
      }
      hide IndexOf, Remove, InsertAt, Clamp;
      var before := IndexOf(projectOrder, id);
      projectOrder := Reinsert(Remove(projectOrder, id), newIndex, id);
      return IndexOf(projectOrder, id) != before;
    }

    method CloseTabs(gone: seq<Id>)
      modifies this
      ensures (tabs, tabOrder) == S.CloseTabs(old(tabs), old(tabOrder), gone)
      ensures View() == old(View()).(owner := tabs, tabOrder := tabOrder)
    {
      for i := 0 to |gone|
        invariant (tabs, tabOrder) == S.CloseTabs(old(tabs), old(tabOrder), gone[..i])
        invariant View() == old(View()).(owner := tabs, tabOrder := tabOrder)
      {
        var tab := gone[i];
        assert gone[..i + 1][..i] == gone[..i];
        if tab !in tabs {
          continue;
        }
        tabs := tabs - {tab};
        tabOrder := Remove(tabOrder, tab);
      }
      assert gone[..|gone|] == gone;
    }

    method DestroyProject(id: Id)
      modifies this
      ensures View() == S.DestroyProject(old(View()), id)
    {
      if id !in projects {
        return;
      }
      hide S.CloseTabs, Remove;
      CloseTabs(projects[id].tabIDs);
      DropProject(id);
    }

    // Forget an emptied project and settle what is active.
    method DropProject(id: Id)
      requires id in projects
      modifies this
      ensures View() == S.WithoutProject(old(View()), id, old(tabs), old(tabOrder))
    {
      hide Remove;
      projects := projects - {id};
      projectOrder := Remove(projectOrder, id);
      if activeProject == id {
        activeProject := S.NONE;
        if |projectOrder| > 0 {
          activeProject := projectOrder[0];
        }
      }
      activeTab := S.NONE;
      if activeProject in projects {
        var ap := projects[activeProject];
        if ap.activeTab != S.NONE {
          activeTab := ap.activeTab;
        } else if |ap.tabIDs| > 0 {
          activeTab := ap.tabIDs[0];
        }
      }
    }

    // One absorbed project's tabs, each re-homed on both sides of the link.
    method AbsorbTabs(into: Id, src: seq<Id>)
      requires into in projects
      modifies this
      ensures View() == M.AbsorbTabs(old(View()), into, src)
    {
      for i := 0 to |src|
        invariant into in projects
        invariant View() == M.AbsorbTabs(old(View()), into, src[..i])
      {
        var tab := src[i];
        assert src[..i + 1][..i] == src[..i];
        if tab !in tabs {
          continue;
        }
        tabs := tabs[tab := into];
        var dst := projects[into];
        if IndexOf(dst.tabIDs, tab) >= 0 {
          continue;
        }
        projects := projects[into := dst.(tabIDs := dst.tabIDs + [tab])];
        tabOrder := Reanchor(tabOrder, projects[into].tabIDs, tab);
      }
      assert src[..|src|] == src;
    }

    method AbsorbProjects(into: Id, absorb: seq<Id>)
      requires into in projects
      modifies this
      ensures View() == M.AbsorbAll(old(View()), into, absorb)
    {
      for i := 0 to |absorb|
        invariant into in projects
        invariant View() == M.AbsorbAll(old(View()), into, absorb[..i])
      {
        var id := absorb[i];
        assert absorb[..i + 1][..i] == absorb[..i];
        if id == into || id !in projects {
          continue;
        }
        AbsorbTabs(into, projects[id].tabIDs);
        projects := projects - {id};
        projectOrder := Remove(projectOrder, id);
        if activeProject == id {
          activeProject := into;
        }
      }
      assert absorb[..|absorb|] == absorb;
    }

    method MergeProjects(u: Text, into: Id, absorb: seq<Id>, name: string) returns (ok: bool)
      requires Valid(u)
      modifies this
      ensures ok == (into in old(projects))
      ensures !ok ==> View() == old(View())
      ensures ok ==> into in projects
                     && IsUniqueName(u, S.NamesExcept(u, M.AbsorbAll(old(View()), into, absorb), into), name, projects[into].name)
                     && View() == M.MergeProjects(old(View()), into, absorb, projects[into].name)
    {
      if into !in projects {
        return false;
      }
      AbsorbProjects(into, absorb);
      var taken := ProjectNamesExcept(u, into);
      var unique := UniqueProjectName(u, taken, name);
      hide Norm, IsUniqueName, M.AbsorbAll, M.FinishMerge;
      SettleOn(into, unique);
      return true;
    }

    // The survivor takes the name and the active tab is settled on it.
    method SettleOn(into: Id, name: string)
      requires into in projects
      modifies this
      ensures View() == M.FinishMerge(old(View()), into, name)
    {
      hide IndexOf;
      var dst := projects[into].(name := name, bootstrap := false);
      projects := projects[into := dst];
      if activeProject == into {
        if IndexOf(dst.tabIDs, activeTab) >= 0 {
          projects := projects[into := dst.(activeTab := activeTab)];
        } else if dst.activeTab != S.NONE && IndexOf(dst.tabIDs, dst.activeTab) >= 0 {
          activeTab := dst.activeTab;
        } else if |dst.tabIDs| > 0 {
          activeTab := dst.tabIDs[0];
          projects := projects[into := dst.(activeTab := dst.tabIDs[0])];
        }
      }
    }

    method CreateTab(projectID: Id, tab: Id, newProject: Id, cwd: string)
      requires tab != S.NONE && tab !in tabs && newProject != S.NONE && newProject !in projects
      modifies this
      ensures var (r, p) := S.ResolveProject(old(View()), projectID, newProject, cwd);
              View() == S.AddTab(r, p, tab)
    {
      var home := projectID;
      if home == S.NONE || home !in projects {
        if activeProject in projects {
          home := activeProject;
        } else if |projectOrder| > 0 {
          home := projectOrder[0];
        } else {
          projects := projects[newProject := S.Project("Default", cwd, [], S.NONE, true)];
          projectOrder := projectOrder + [newProject];
          home := newProject;
        }
        activeProject := home;
      }
      tabs := tabs[tab := home];
      tabOrder := tabOrder + [tab];
      if activeTab == S.NONE {
        activeTab := tab;
      }
      if home in projects {
        projects := projects[home := S.WithTab(projects[home], tab)];
      }
    }

    method DestroyTab(tab: Id) returns (ok: bool)
      modifies this
      ensures ok == (tab in old(tabs))
      ensures View() == S.DestroyTab(old(View()), tab)
    {
      hide S.Successor, Remove;
      if tab !in tabs {
        return false;
      }
      var successor := S.NONE;
      var home := tabs[tab];
      if home in projects {
        var p := projects[home];
        successor := Neighbour(p.tabIDs, tab);
        p := p.(tabIDs := Remove(p.tabIDs, tab));
        if p.activeTab == tab {
          p := p.(activeTab := successor);
        }
        projects := projects[home := p];
        assert projects[home] == S.WithoutTab(old(projects)[home], tab);
      }
      tabs := tabs - {tab};
      tabOrder := Remove(tabOrder, tab);
      if activeTab == tab {
        activeTab := successor;
        if activeTab == S.NONE && |tabOrder| > 0 {
          activeTab := tabOrder[0];
        }
      }
      return true;
    }

    method SwitchTab(tab: Id)
      modifies this
      ensures View() == S.SwitchTab(old(View()), tab)
    {
      if tab !in tabs {
        return;
      }
      activeTab := tab;
      if tabs[tab] in projects {
        projects := projects[tabs[tab] := projects[tabs[tab]].(activeTab := tab)];
      }
    }

    method ReorderTab(tab: Id, newIdx: int) returns (moved: bool)
      modifies this
      ensures View() == S.ReorderTab(old(View()), tab, newIdx)
      ensures !moved ==> View() == old(View())
    {
      if tab !in tabs {
        return false;
      }
      var home := tabs[tab];
      if home !in projects || IndexOf(projects[home].tabIDs, tab) < 0 {
        moved, tabOrder := Slide(tabOrder, tab, newIdx);
        return;
      }
      var ids;
      moved, ids := Slide(projects[home].tabIDs, tab, newIdx);
      if !moved {
        return;
      }
      projects := projects[home := projects[home].(tabIDs := ids)];
      tabOrder := Reanchor(tabOrder, ids, tab);
    }
  }

  // The clamped reinsertion of a reorder.
  method Reinsert(order: seq<Id>, newIndex: int, id: Id) returns (r: seq<Id>)
    ensures r == InsertAt(order, Clamp(newIndex, |order|), id)
  {
    var k := newIndex;
    if k < 0 {
      k := 0;
    }
    if k > |order| {
      k := |order|;
    }
    var rest := [id] + order[k..];
    r := order[..k] + rest;
  }

  // The neighbour that slid into the closed tab's slot.
  method Neighbour(ids: seq<Id>, tab: Id) returns (successor: Id)
    ensures successor == S.Successor(ids, tab)
  {
    successor := S.NONE;
    var idx := IndexOf(ids, tab);
    var rest := Remove(ids, tab);
    hide IndexOf, Remove;
    if |rest| > 0 {
      if idx < 0 || idx >= |rest| {
        idx := |rest| - 1;
      }
      successor := rest[idx];
    }
  }

  // SlideString on a list held as a value.
  method Slide(ids: seq<Id>, tab: Id, newIdx: int) returns (moved: bool, r: seq<Id>)
    ensures tab !in ids ==> !moved && r == ids
    ensures tab in ids ==> r == Move(ids, tab, newIdx) && moved == (IndexOf(ids, tab) != Clamp(newIdx, |ids| - 1))
    ensures !moved ==> r == ids
  {
    var a := new Id[|ids|](i requires 0 <= i < |ids| => ids[i]);
    assert a[..] == ids;
    moved := SlideString(a, tab, newIdx);
    r := a[..];
    if tab in ids && !moved {
      MoveToItsPlace(ids, tab, newIdx);
    }
  }

  lemma MoveToItsPlace(ids: seq<Id>, tab: Id, k: int)
    requires tab in ids && IndexOf(ids, tab) == Clamp(k, |ids| - 1)
    ensures Move(ids, tab, k) == ids
  {
    Around(ids, tab);
  }

  lemma UsedAppend(u: Text, names: seq<string>, name: string)
    ensures Used(u, names + [name]) == Used(u, names) + {Norm(u, name)}
  {
    hide Norm;
    var more := names + [name];
    forall x ensures x in Used(u, more) <==> x in Used(u, names) + {Norm(u, name)} {
      if x in Used(u, names) {
        var i :| 0 <= i < |names| && x == Norm(u, names[i]);
        assert more[i] == names[i];
      }
      assert more[|names|] == name;
    }
  }
}
