/** The top-level dialog state: open flag, the task being edited, and the list's refresh counter. */
module App {
  import opened Wrappers
  import opened ClientTask

  datatype AppState = AppState(formOpen: bool, editing: Option<Task>, refreshTrigger: nat)

  const Initial := AppState(false, None, 0)

  /** The user-visible events that change the state. */
  datatype Event =
    | EditTask(task: Task)    // a card's "Edit" button
    | TaskSaved               // the form's `onTaskSaved`
    | CancelEdit              // the form's "Cancel" button
    | OpenChange(open: bool)  // the dialog's `onOpenChange`, including the "Add Task" trigger

  /** The state after one event, as the source's handlers set it. */
  function Step(s: AppState, e: Event): (s': AppState)
    ensures e.EditTask? ==> s' == AppState(true, Some(e.task), s.refreshTrigger)
    ensures e.TaskSaved? ==> !s'.formOpen && s'.editing.None? && s'.refreshTrigger == s.refreshTrigger + 1
    ensures e.CancelEdit? ==> s' == s.(formOpen := false)
    ensures e.OpenChange? ==> s' == s.(formOpen := e.open)
    ensures s'.refreshTrigger >= s.refreshTrigger
  {
    match e
    case EditTask(t) => s.(editing := Some(t), formOpen := true)
    case TaskSaved => AppState(false, None, s.refreshTrigger + 1)
    case CancelEdit => s.(formOpen := false)
    case OpenChange(open) => s.(formOpen := open)
  }

  /** The state after a run of events. */
  function Run(s: AppState, events: seq<Event>): AppState
    decreases events
  {
    if events == [] then s else Run(Step(s, events[0]), events[1..])
  }

  function SavedCount(events: seq<Event>): nat {
    if events == [] then 0 else (if events[0].TaskSaved? then 1 else 0) + SavedCount(events[1..])
  }

  /** The list refreshes once per save and at no other time. */
  lemma {:induction false} RefreshCountsSaves(s: AppState, events: seq<Event>)
    ensures Run(s, events).refreshTrigger == s.refreshTrigger + SavedCount(events)
    decreases events
  {
    if events != [] {
      RefreshCountsSaves(Step(s, events[0]), events[1..]);
    }
  }

  /** The dialog heading. */
  function DialogTitle(s: AppState): (title: string)
    ensures title == "Edit Task" <==> s.editing.Some?
    ensures title == "Add Task" <==> s.editing.None?
  {
    if s.editing.Some? then "Edit Task" else "Add Task"
  }

  /**
    Cancelling an edit and then pressing "Add Task" opens the dialog in edit
    mode on the cancelled task, because neither event clears `editing`.
   */
  lemma AddAfterCancelShowsStaleEdit(t: Task)
    ensures var s := Run(Initial, [EditTask(t), CancelEdit, OpenChange(true)]);
      s.formOpen && s.editing == Some(t) && DialogTitle(s) == "Edit Task"
  {
    var s1 := Step(Initial, EditTask(t));
    var s2 := Step(s1, CancelEdit);
    var s3 := Step(s2, OpenChange(true));
    assert Run(s3, []) == s3;
    assert Run(s2, [OpenChange(true)]) == s3;
    assert Run(s1, [CancelEdit, OpenChange(true)]) == s3;
  }

  /** The evidently intended handling: closing the dialog in any way forgets the edited task. */
  function StepFixed(s: AppState, e: Event): (s': AppState)
    ensures e.CancelEdit? ==> s' == AppState(false, None, s.refreshTrigger)
    ensures e.OpenChange? && !e.open ==> s' == AppState(false, None, s.refreshTrigger)
    ensures !e.CancelEdit? && !(e.OpenChange? && !e.open) ==> s' == Step(s, e)
  {
    match e
    case CancelEdit => AppState(false, None, s.refreshTrigger)
    case OpenChange(false) => AppState(false, None, s.refreshTrigger)
    case _ => Step(s, e)
  }

  function RunFixed(s: AppState, events: seq<Event>): AppState
    decreases events
  {
    if events == [] then s else RunFixed(StepFixed(s, events[0]), events[1..])
  }

  /** Under the fixed handling, whenever the dialog is closed no task is being edited. */
  lemma {:induction false} FixedClosedMeansNotEditing(events: seq<Event>)
    ensures var s := RunFixed(Initial, events); !s.formOpen ==> s.editing.None?
  {
    ClosedInvariant(Initial, events);
  }

  lemma {:induction false} ClosedInvariant(s: AppState, events: seq<Event>)
    requires !s.formOpen ==> s.editing.None?
    ensures var r := RunFixed(s, events); !r.formOpen ==> r.editing.None?
    decreases events
  {
    if events != [] {
      ClosedInvariant(StepFixed(s, events[0]), events[1..]);
    }
  }

  /** Under the fixed handling, "Add Task" from a closed dialog always opens it in add mode. */
  lemma FixedAddOpensAddDialog(events: seq<Event>)
    ensures var s := RunFixed(Initial, events);
      !s.formOpen ==> DialogTitle(StepFixed(s, OpenChange(true))) == "Add Task"
  {
    FixedClosedMeansNotEditing(events);
  }
}
