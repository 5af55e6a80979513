/** The records the client caches (src/types.ts) and the few value
    conventions every component shares. */
module Types {

  datatype Option<+T> = None | Some(value: T)

  /** The three status strings the application uses. Status stays a string
      because the backend may send anything. */
  const NotStarted: string := "未着手"
  const InProgress: string := "進行中"
  const Done: string := "完了"

  /** The placeholder shown for a missing date. */
  const Unset: string := "未設定"

  /** A date property of a record: absent (null or undefined), or a string
      together with what `new Date` makes of it (None for an Invalid Date). */
  datatype DateField = Absent | Text(raw: string, time: Option<int>)

  /** JavaScript truthiness of the property: present and not the empty string. */
  predicate Truthy(d: DateField) {
    d.Text? && d.raw != ""
  }

  /** `field || fallback` for a date property. */
  function OrElse(d: DateField, fallback: string): (r: string)
    ensures Truthy(d) ==> r == d.raw
    ensures !Truthy(d) ==> r == fallback
  {
    if Truthy(d) then d.raw else fallback
  }

  /** A reading of the clock: its millisecond value and its ISO-8601 text. */
  datatype Instant = Instant(ms: int, iso: string)

  datatype Task = Task(
    id: int,
    title: string,
    status: string,
    scheduledStart: DateField,
    dueDate: DateField,
    actualStart: DateField,
    completionDate: DateField,
    difficulty: Option<int>,
    expectedWorkTime: Option<int>,
    actualWorkTime: Option<int>,
    overtime: Option<int>,
    achievement: Option<int>,
    tab: int,
    project: int,
    // the `project_id` property the task list adds to the records it sends
    projectIdSent: Option<int>)

  datatype Project = Project(id: int, name: string)

  datatype Tab = Tab(id: int, name: string, project: int)

  function TaskId(t: Task): int { t.id }
  function ProjectId(p: Project): int { p.id }
  function TabId(t: Tab): int { t.id }
}
