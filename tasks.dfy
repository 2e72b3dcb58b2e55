/** The task record of the TaskFlow board, its status cycle, the form draft
    that creates and edits tasks, and the demo tasks seeded into an empty store. */
module Tasks {

  datatype Option<+T> = None | Some(value: T)

  /** A calendar date as a day number (the `yyyy-MM-dd` strings of the form). */
  type Day = int

  /** A point in time (the ISO timestamps the handlers write). */
  type Instant = int

  /** A task's lifecycle stage. Tasks read back from storage may hold any
      other string, which `OtherStatus` carries; its `raw` is never one of
      the three recognised names `todo`, `inprogress` and `done`, which
      are always read as the matching constructor. */
  datatype Status = Todo | InProgress | Done | OtherStatus(raw: string)
  {
    /** One of the three board columns. */
    predicate IsColumn() {
      !OtherStatus?
    }
  }

  /** A task's priority; `OtherPriority` carries any other stored string,
      never `low`, `medium` or `high`, which are read as the matching
      constructor. */
  datatype Priority = Low | Medium | High | OtherPriority(raw: string)

  /** The categories offered by the form and the filter. */
  datatype Category = Personal | Work | Health | Learning | Shopping

  /** One task record. A missing `dueDate`, `category`, `createdAt` or
      `updatedAt` (an empty date field, or a key the record never had) is `None`. */
  datatype Task = Task(
    id: string,
    title: string,
    description: string,
    dueDate: Option<Day>,
    priority: Priority,
    category: Option<Category>,
    status: Status,
    createdAt: Option<Instant>,
    updatedAt: Option<Instant>)

  /** The task form (`newTask`): the six fields a user can set. */
  datatype Draft = Draft(
    title: string,
    description: string,
    dueDate: Option<Day>,
    priority: Priority,
    category: Option<Category>,
    status: Status)

  /** The status cycle of the toggle button: todo, then in progress, then
      done, then back to todo; any unrecognised value also goes to todo. */
  function NextStatus(s: Status): (r: Status)
    ensures s == Todo ==> r == InProgress
    ensures s == InProgress ==> r == Done
    ensures s != Todo && s != InProgress ==> r == Todo
    ensures r.IsColumn() && r != s
  {
    match s
    case Todo => InProgress
    case InProgress => Done
    case _ => Todo
  }

  /** Three steps of the cycle bring every column status back to itself. */
  lemma StatusCycleCloses(s: Status)
    requires s.IsColumn()
    ensures NextStatus(NextStatus(NextStatus(s))) == s
    ensures NextStatus(s) != s && NextStatus(NextStatus(s)) != s
  {
  }

  /** The form as `handleEdit` fills it from a task. */
  function DraftOf(t: Task): Draft {
    Draft(t.title, t.description, t.dueDate, t.priority, t.category, t.status)
  }

  /** A task created from the form: the draft's fields, the new id and status
      `todo`, whatever the form's status field says; no timestamps are set. */
  function NewTask(id: string, d: Draft): (t: Task)
    ensures t.id == id && t.status == Todo
    ensures DraftOf(t) == d.(status := Todo)
    ensures t.createdAt.None? && t.updatedAt.None?
  {
    Task(id, d.title, d.description, d.dueDate, d.priority, d.category, Todo, None, None)
  }

  /** A task after the form has been submitted for it: the form's six fields
      overwrite the task's, `updatedAt` becomes `now`, the rest is kept. */
  function Edited(t: Task, d: Draft, now: Instant): (r: Task)
    ensures DraftOf(r) == d
    ensures r.id == t.id && r.createdAt == t.createdAt && r.updatedAt == Some(now)
  {
    t.(title := d.title, description := d.description, dueDate := d.dueDate,
       priority := d.priority, category := d.category, status := d.status,
       updatedAt := Some(now))
  }

  /** Submitting the form unchanged, as `handleEdit` filled it, only
      refreshes `updatedAt`. */
  lemma EditUnchangedDraft(t: Task, now: Instant)
    ensures Edited(t, DraftOf(t), now) == t.(updatedAt := Some(now))
  {
  }

  /** The task as moved to column `st` by the toggle button or a drop. */
  function MovedTo(t: Task, st: Status, now: Instant): (r: Task)
    ensures r.status == st && r.updatedAt == Some(now)
    ensures r.(status := t.status, updatedAt := t.updatedAt) == t
  {
    t.(status := st, updatedAt := Some(now))
  }

  /** The two demo tasks seeded when storage holds nothing: one due today and
      in progress (it has no category), one due tomorrow and done (it has no
      creation time). */
  function SampleTasks(today: Day, now: Instant): (r: seq<Task>)
    ensures |r| == 2 && r[0].id != r[1].id
    ensures r[0].status == InProgress && r[1].status == Done
    ensures r[0].dueDate == Some(today) && r[1].dueDate == Some(today + 1)
  {
    [ Task("1", "Complete project proposal",
           "Finish the quarterly project proposal for client review",
           Some(today), High, None, InProgress, Some(now), None),
      Task("2", "Morning workout", "30 minutes cardio and strength training",
           Some(today + 1), Medium, Some(Health), Done, None, None) ]
  }

  /** The tasks the board starts with: whatever storage held, even an empty
      list, or the demo tasks when storage held nothing. */
  function InitialTasks(stored: Option<seq<Task>>, today: Day, now: Instant): (r: seq<Task>)
    ensures stored.Some? ==> r == stored.value
    ensures stored.None? ==> r == SampleTasks(today, now)
    ensures r == [] <==> stored == Some([])
  {
    match stored
    case Some(saved) => saved
    case None => SampleTasks(today, now)
  }
}
