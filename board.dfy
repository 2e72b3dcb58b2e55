/** The `MainFeature` component's task state and the handlers that replace
    it: submitting the form, deleting, toggling the status, dropping a card
    on a column, and computing the list view (which sorts the task array
    itself when neither a filter nor a search term is set). */
module Board {
  import opened Text
  import opened Tasks
  import opened TaskList
  import opened Ordering
  import opened Queries

  /** What a form submission did. */
  datatype SubmitOutcome = Rejected | Updated | Created

  /** The end of a drag: the dragged card's task id and the column it was
      dropped on, if any. */
  datatype DropResult = DropResult(draggableId: string, destination: Option<Status>)

  /** The replacement the toggle and the drop apply to the matching tasks. */
  function Mover(st: Status, now: Instant): Task -> Task {
    (t: Task) => MovedTo(t, st, now)
  }

  /** The replacement an edit applies to the matching tasks. */
  function Editor(d: Draft, now: Instant): Task -> Task {
    (t: Task) => Edited(t, d, now)
  }

  /** The list after moving every task with id `id` to column `st`: those
      tasks change only their status and `updatedAt`, the others not at all. */
  lemma MoveChangesOnlyStatus(s: seq<Task>, id: string, st: Status, now: Instant)
    ensures var r := ApplyWhere(s, id, Mover(st, now));
            && |r| == |s|
            && (forall i :: 0 <= i < |s| && s[i].id != id ==> r[i] == s[i])
            && (forall i :: 0 <= i < |s| && s[i].id == id ==>
                  r[i].status == st && r[i].updatedAt == Some(now)
                  && r[i].(status := s[i].status, updatedAt := s[i].updatedAt) == s[i])
  {
  }

  /** The list after an edit of task `id`: that task takes the draft's six
      fields and `now` as `updatedAt`, keeps its id and creation time; the
      other tasks are untouched. */
  lemma EditChangesOnlyTarget(s: seq<Task>, id: string, d: Draft, now: Instant)
    ensures var r := ApplyWhere(s, id, Editor(d, now));
            && |r| == |s|
            && (forall i :: 0 <= i < |s| && s[i].id != id ==> r[i] == s[i])
            && (forall i :: 0 <= i < |s| && s[i].id == id ==>
                  DraftOf(r[i]) == d && r[i].id == id && r[i].createdAt == s[i].createdAt
                  && r[i].updatedAt == Some(now))
  {
  }

  /** `toggleTaskStatus(id)` as a value: the first task with that id picks
      the next status and every task with that id moves there, so with
      unique ids the task moves one step along its own cycle; `None` when
      no task has the id (the handler's `find` yields `undefined` and it
      throws before changing anything). */
  function Toggled(s: seq<Task>, id: string, now: Instant): (r: Option<seq<Task>>)
    ensures r.None? <==> !HasId(s, id)
    ensures r.Some? ==> |r.value| == |s|
    ensures r.Some? ==> forall i :: 0 <= i < |s| && s[i].id != id ==> r.value[i] == s[i]
    ensures r.Some? ==> forall i :: 0 <= i < |s| && s[i].id == id ==>
              r.value[i].updatedAt == Some(now)
              && r.value[i].(status := s[i].status, updatedAt := s[i].updatedAt) == s[i]
    ensures r.Some? ==> forall i :: 0 <= i < |s| && s[i].id == id ==>
              r.value[i].status == NextStatus(FindById(s, id).value.status)
    ensures r.Some? && UniqueIds(s) ==> forall i :: 0 <= i < |s| && s[i].id == id ==>
              r.value[i].status == NextStatus(s[i].status)
  {
    match FindById(s, id)
    case None => None
    case Some(t) => Some(ApplyWhere(s, id, Mover(NextStatus(t.status), now)))
  }

  /** A second toggle after a first one that succeeded. */
  function ToggledAgain(r: Option<seq<Task>>, id: string, now: Instant): Option<seq<Task>> {
    match r
    case None => None
    case Some(s) => Toggled(s, id, now)
  }

  /** Toggling a task three times restores it, except for `updatedAt`; the
      other tasks are as they were. */
  lemma ToggleThrice(s: seq<Task>, k: nat, n1: Instant, n2: Instant, n3: Instant)
    requires UniqueIds(s) && k < |s| && s[k].status.IsColumn()
    ensures var r := ToggledAgain(ToggledAgain(Toggled(s, s[k].id, n1), s[k].id, n2), s[k].id, n3);
            && r.Some? && |r.value| == |s|
            && r.value[k] == s[k].(updatedAt := Some(n3))
            && forall j :: 0 <= j < |s| && j != k ==> r.value[j] == s[j]
  {
    var id := s[k].id;
    assert HasId(s, id);
    var s1 := Toggled(s, id, n1).value;
    assert forall i :: 0 <= i < |s| ==> s1[i].id == s[i].id;
    assert HasId(s1, id) && UniqueIds(s1);
    var s2 := Toggled(s1, id, n2).value;
    assert forall i :: 0 <= i < |s| ==> s2[i].id == s[i].id;
    assert HasId(s2, id) && UniqueIds(s2);
    var s3 := Toggled(s2, id, n3).value;
    StatusCycleCloses(s[k].status);
    assert s3[k].status == s[k].status;
  }

  /** Moving, editing and deleting keep the task ids unique. */
  lemma MovesKeepIdsUnique(s: seq<Task>, id: string, st: Status, d: Draft, now: Instant)
    requires UniqueIds(s)
    ensures UniqueIds(ApplyWhere(s, id, Mover(st, now)))
    ensures UniqueIds(ApplyWhere(s, id, Editor(d, now)))
    ensures UniqueIds(RemoveId(s, id))
  {
    ApplyWhereKeepsIds(s, id, Mover(st, now));
    ApplyWhereKeepsIds(s, id, Editor(d, now));
    KeepUnique(s, WithoutId(id));
  }

  /** A created task with an id the list does not hold keeps the ids
      unique, and it shows up in the unfiltered view. */
  lemma CreateKeepsIdsUnique(s: seq<Task>, newId: string, d: Draft, today: Day)
    requires UniqueIds(s) && !HasId(s, newId)
    ensures UniqueIds([NewTask(newId, d)] + s)
    ensures NewTask(newId, d) in View([NewTask(newId, d)] + s, All, "", today)
  {
    var r := [NewTask(newId, d)] + s;
    forall i, j | 0 <= i < j < |r| ensures r[i].id != r[j].id {
      if i == 0 {
        assert r[j] == s[j - 1];
      } else {
        assert r[i] == s[i - 1] && r[j] == s[j - 1];
      }
    }
    ContainsEmpty(ToLower(NewTask(newId, d).title));
  }

  /** The component's task state. */
  class TaskBoard {
    var tasks: seq<Task>

    /** The mount effect: the stored tasks, or the demo tasks when storage
        holds nothing. */
    constructor (stored: Option<seq<Task>>, today: Day, now: Instant)
      ensures tasks == InitialTasks(stored, today, now)
    {
      tasks := InitialTasks(stored, today, now);
    }

    /** `handleSubmit`: a title that trims to nothing is rejected and
        nothing changes; otherwise the task being edited takes the form's
        fields, or a new `todo` task is put in front of the list. */
    method Submit(draft: Draft, editing: Option<string>, newId: string, now: Instant)
      returns (outcome: SubmitOutcome)
      modifies this
      ensures outcome == Rejected <==> Trim(draft.title) == ""
      ensures outcome == Rejected ==> tasks == old(tasks)
      ensures outcome == Updated <==> Trim(draft.title) != "" && editing.Some?
      ensures outcome == Updated ==> tasks == ApplyWhere(old(tasks), editing.value, Editor(draft, now))
      ensures outcome == Created ==> |tasks| == |old(tasks)| + 1
      ensures outcome == Created ==> tasks[0] == NewTask(newId, draft) && tasks[1..] == old(tasks)
    {
      if Trim(draft.title) == "" {
        return Rejected;
      }
      match editing {
        case Some(id) =>
          tasks := ApplyWhere(tasks, id, Editor(draft, now));
          outcome := Updated;
        case None =>
          tasks := [NewTask(newId, draft)] + tasks;
          outcome := Created;
      }
    }

    /** `handleDelete`: every task with the id is removed, the rest keep
        their order. */
    method Delete(id: string)
      modifies this
      ensures tasks == RemoveId(old(tasks), id)
      ensures !HasId(old(tasks), id) ==> tasks == old(tasks)
    {
      if !HasId(tasks, id) {
        RemoveAbsent(tasks, id);
      }
      tasks := RemoveId(tasks, id);
    }

    /** `toggleTaskStatus`: moves the tasks with the id one step along the
        status cycle; reports `false` and changes nothing when no task has
        the id (where the handler throws). */
    method ToggleStatus(id: string, now: Instant) returns (found: bool)
      modifies this
      ensures found <==> HasId(old(tasks), id)
      ensures found ==> Some(tasks) == Toggled(old(tasks), id, now)
      ensures !found ==> tasks == old(tasks)
    {
      var toggled := Toggled(tasks, id, now);
      found := toggled.Some?;
      if found {
        tasks := toggled.value;
      }
    }

    /** `handleDragEnd`: a drop outside every column changes nothing; a drop
        on a column moves the dragged tasks there. */
    method DragEnd(result: DropResult, now: Instant)
      modifies this
      ensures result.destination.None? ==> tasks == old(tasks)
      ensures result.destination.Some? ==>
                tasks == ApplyWhere(old(tasks), result.draggableId, Mover(result.destination.value, now))
    {
      if result.destination.None? {
        return;
      }
      tasks := ApplyWhere(tasks, result.draggableId, Mover(result.destination.value, now));
    }

    /** `getFilteredTasks`: the selected tasks sorted by status, then
        priority. Without a filter and a search term the array sorted is the
        task array itself, so the list takes the view's order. */
    method FilteredTasks(f: Filter, term: string, today: Day) returns (view: seq<Task>)
      modifies this
      ensures view == View(old(tasks), f, term, today)
      ensures f == All && term == "" ==> tasks == view
      ensures !(f == All && term == "") ==> tasks == old(tasks)
    {
      var selected := Select(tasks, f, term, today);
      var a := new Task[|selected|](i requires 0 <= i < |selected| => selected[i]);
      assert a[..] == selected;
      SortInPlace(a);
      view := a[..];
      if f == All && term == "" {
        SelectAllEmpty(tasks, today);
        tasks := view;
      }
    }
  }
}
