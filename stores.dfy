/** The client-side caches of the server's records: the task list shared by
    `TaskProvider` (hooks/TaskContext.tsx) and `useTasks` (hooks/useTasks.tsx),
    which apply the same four updates, the project list of `useProjects`
    (hooks/useProjects.tsx) and the tab list of `useTabs` (hooks/useTabs.tsx).

    Each call to the server is an oracle: the method receives what the
    awaited request produced, a value or a thrown error, and applies the
    state update at the moment the request settles. */
module Stores {
  import opened Types
  import opened Seqs
  import Auth

  /** What an awaited request chain produced: its JSON body, or a thrown
      error (network failure, invalid JSON, a failed token fetch). */
  datatype Awaited<T> = Threw | Value(value: T)

  /** The `allTask` state cell. */
  class TaskStore {
    var allTask: seq<Task>

    constructor ()
      ensures allTask == []
    {
      allTask := [];
    }

    /** The initial load: the fetched array replaces the list. */
    method Load(response: Awaited<seq<Task>>)
      modifies this
      ensures allTask == (if response.Value? then response.value else old(allTask))
    {
      if response.Value? {
        allTask := response.value;
      }
    }

    /** `addTask`: the server's record goes after the cached ones. */
    method AddTask(response: Awaited<Task>)
      modifies this
      ensures allTask == (if response.Value? then Append(old(allTask), response.value) else old(allTask))
    {
      if response.Value? {
        allTask := Append(allTask, response.value);
      }
    }

    /** `updateTask`: every cached record with the id of the server's
        record (not of the argument) is replaced by it. */
    method UpdateTask(response: Awaited<Task>)
      modifies this
      ensures allTask == (if response.Value? then ReplaceById(old(allTask), response.value, TaskId) else old(allTask))
    {
      if response.Value? {
        allTask := ReplaceById(allTask, response.value, TaskId);
      }
    }

    /** `deleteTask(taskId)`: once the DELETE settles, whatever its status,
        every record with the id goes; a thrown error skips the update. */
    method DeleteTask(taskId: Option<int>, response: Awaited<()>)
      modifies this
      ensures allTask == (if response.Value? then RemoveById(old(allTask), taskId, TaskId) else old(allTask))
    {
      if response.Value? {
        allTask := RemoveById(allTask, taskId, TaskId);
      }
    }
  }

  /** The `projects` and `selectedProject` state cells. */
  class ProjectStore {
    var projects: seq<Project>
    var selectedProject: Option<Project>

    constructor ()
      ensures projects == [] && selectedProject.None?
    {
      projects := [];
      selectedProject := None;
    }

    /** The initial load happens only when a token was obtained. */
    method Load(token: Option<string>, response: Awaited<seq<Project>>)
      modifies this
      ensures projects == (if Auth.Present(token) && response.Value? then response.value else old(projects))
      ensures selectedProject == old(selectedProject)
    {
      if Auth.Present(token) && response.Value? {
        projects := response.value;
      }
    }

    method AddProject(response: Awaited<Project>)
      modifies this
      ensures projects == (if response.Value? then Append(old(projects), response.value) else old(projects))
      ensures selectedProject == old(selectedProject)
    {
      if response.Value? {
        projects := Append(projects, response.value);
      }
    }

    method UpdateProject(response: Awaited<Project>)
      modifies this
      ensures projects == (if response.Value? then ReplaceById(old(projects), response.value, ProjectId) else old(projects))
      ensures selectedProject == old(selectedProject)
    {
      if response.Value? {
        projects := ReplaceById(projects, response.value, ProjectId);
      }
    }

    method DeleteProject(projectId: int, response: Awaited<()>)
      modifies this
      ensures projects == (if response.Value? then RemoveById(old(projects), Some(projectId), ProjectId) else old(projects))
      ensures selectedProject == old(selectedProject)
    {
      if response.Value? {
        projects := RemoveById(projects, Some(projectId), ProjectId);
      }
    }

    /** `setSelectedProject`: the selection is stored as given, even a
        project no longer in the list. */
    method SetSelectedProject(p: Option<Project>)
      modifies this
      ensures selectedProject == p && projects == old(projects)
    {
      selectedProject := p;
    }
  }

  /** The `tabs` state cell. */
  class TabStore {
    var tabs: seq<Tab>

    constructor ()
      ensures tabs == []
    {
      tabs := [];
    }

    method Load(token: Option<string>, response: Awaited<seq<Tab>>)
      modifies this
      ensures tabs == (if Auth.Present(token) && response.Value? then response.value else old(tabs))
    {
      if Auth.Present(token) && response.Value? {
        tabs := response.value;
      }
    }

    method AddTab(response: Awaited<Tab>)
      modifies this
      ensures tabs == (if response.Value? then Append(old(tabs), response.value) else old(tabs))
    {
      if response.Value? {
        tabs := Append(tabs, response.value);
      }
    }

    method UpdateTab(response: Awaited<Tab>)
      modifies this
      ensures tabs == (if response.Value? then ReplaceById(old(tabs), response.value, TabId) else old(tabs))
    {
      if response.Value? {
        tabs := ReplaceById(tabs, response.value, TabId);
      }
    }

    method DeleteTab(tabId: int, response: Awaited<()>)
      modifies this
      ensures tabs == (if response.Value? then RemoveById(old(tabs), Some(tabId), TabId) else old(tabs))
    {
      if response.Value? {
        tabs := RemoveById(tabs, Some(tabId), TabId);
      }
    }
  }

  /** A deleted task is gone from the list and every other record stays,
      in order: deleting after adding a record removes it again. */
  lemma DeleteUndoesAdd(xs: seq<Task>, t: Task)
    requires forall i :: 0 <= i < |xs| ==> xs[i].id != t.id
    ensures RemoveById(Append(xs, t), Some(t.id), TaskId) == xs
  {
    RemoveAfterAppend(xs, t, TaskId);
    RemoveUnknown(xs, Some(t.id), TaskId);
  }

  /** Deleting with an undefined id removes nothing: `undefined !== id`
      holds for every record. */
  lemma DeleteUndefinedKeepsAll(xs: seq<Task>)
    ensures RemoveById(xs, None, TaskId) == xs
  {
    RemoveUnknown(xs, None, TaskId);
  }

  /** Updating with a record the list already holds under its own id
      changes nothing when it is the only record with that id. */
  lemma UpdateWithCachedRecord(xs: seq<Task>, k: nat)
    requires k < |xs|
    requires forall i :: 0 <= i < |xs| && i != k ==> xs[i].id != xs[k].id
    ensures ReplaceById(xs, xs[k], TaskId) == xs
  {
  }
}
