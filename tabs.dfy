/** The tabs section (components/TabsSection.tsx): which tasks and tabs
    belong to the selected project, and what each child component is given. */
module TabsSection {
  import opened Types
  import opened Seqs
  import TaskList

  function InProject(projectId: int): Task -> bool {
    (t: Task) => t.project == projectId
  }

  /** The `tasks` state the effect stores: the tasks of the selected
      project in `allTask` order, none without a selection. */
  function ProjectTasks(allTask: seq<Task>, selected: Option<Project>): (r: seq<Task>)
    ensures selected.None? ==> r == []
    ensures selected.Some? ==> forall i :: 0 <= i < |r| ==> r[i].project == selected.value.id
  {
    if selected.Some? then Filter(allTask, InProject(selected.value.id)) else []
  }

  /** A task of `allTask` is in the project's list exactly when it belongs
      to the project. */
  lemma ProjectTasksIff(allTask: seq<Task>, p: Project, t: Task)
    ensures t in ProjectTasks(allTask, Some(p)) <==> t in allTask && t.project == p.id
  {
    FilterMembers(allTask, InProject(p.id));
  }

  lemma ProjectTasksOrder(a: seq<Task>, b: seq<Task>, selected: Option<Project>)
    ensures ProjectTasks(a + b, selected) == ProjectTasks(a, selected) + ProjectTasks(b, selected)
  {
    if selected.Some? {
      FilterConcat(a, b, InProject(selected.value.id));
    }
  }

  /** The tabs that get a trigger and a panel: those of the selected project. */
  function ProjectTabs(tabs: seq<Tab>, projectId: int): (r: seq<Tab>)
    ensures forall i :: 0 <= i < |r| ==> r[i].project == projectId
  {
    Filter(tabs, (tab: Tab) => tab.project == projectId)
  }

  lemma ProjectTabsIff(tabs: seq<Tab>, projectId: int, tab: Tab)
    ensures tab in ProjectTabs(tabs, projectId) <==> tab in tabs && tab.project == projectId
  {
    FilterMembers(tabs, (tab: Tab) => tab.project == projectId);
  }

  /** A tab's panel: its task list is given the project's tasks and the
      tab's id as `currentTab`. */
  datatype Panel = Panel(tab: Tab, tasks: seq<Task>, currentTab: int)

  /** What the section hands to its children: the reminder and the calendar
      get every task; the review, the tree and each tab's list get the
      project's tasks; with no project only the first two are shown. */
  datatype Wiring = Wiring(reminderTasks: seq<Task>, calendarTasks: seq<Task>,
                           projectView: Option<(seq<Task>, seq<Task>, seq<Panel>)>)

  function Panels(tabs: seq<Tab>, tasks: seq<Task>): (r: seq<Panel>)
    ensures |r| == |tabs|
    ensures forall i :: 0 <= i < |r| ==> r[i] == Panel(tabs[i], tasks, tabs[i].id)
  {
    if tabs == [] then [] else [Panel(tabs[0], tasks, tabs[0].id)] + Panels(tabs[1..], tasks)
  }

  function Wire(allTask: seq<Task>, selected: Option<Project>, tabs: seq<Tab>): (w: Wiring)
    ensures w.reminderTasks == allTask && w.calendarTasks == allTask
    ensures w.projectView.Some? <==> selected.Some?
    ensures selected.Some? ==>
              var tasks := ProjectTasks(allTask, selected);
              var shown := ProjectTabs(tabs, selected.value.id);
              && w.projectView.value.0 == tasks && w.projectView.value.1 == tasks
              && |w.projectView.value.2| == |shown|
              && forall i :: 0 <= i < |shown| ==>
                   w.projectView.value.2[i] == Panel(shown[i], tasks, shown[i].id)
  {
    if selected.None? then Wiring(allTask, allTask, None)
    else
      var tasks := ProjectTasks(allTask, selected);
      Wiring(allTask, allTask, Some((tasks, tasks, Panels(ProjectTabs(tabs, selected.value.id), tasks))))
  }

  /** A tab's list shows exactly the tasks of the selected project that
      carry that tab. */
  lemma PanelShows(allTask: seq<Task>, p: Project, tabs: seq<Tab>, i: nat, t: Task)
    requires i < |ProjectTabs(tabs, p.id)|
    ensures var panel := Wire(allTask, Some(p), tabs).projectView.value.2[i];
            t in TaskList.Listed(panel.tasks, panel.currentTab) <==>
              t in allTask && t.project == p.id && t.tab == ProjectTabs(tabs, p.id)[i].id
  {
    var panel := Wire(allTask, Some(p), tabs).projectView.value.2[i];
    var tasks := ProjectTasks(allTask, Some(p));
    ProjectTasksIff(allTask, p, t);
    TaskList.ListedIff(tasks, panel.currentTab, t);
  }
}
