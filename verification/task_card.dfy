/** One task card: its badge and the completion checkbox. */
module TaskCard {
  import opened Wrappers
  import opened ClientTask
  import TaskUtils
  import JsText

  /** The badge text, derived from the status classifier. */
  function BadgeLabel(task: Task, today: string): (badge: string)
    ensures badge == TaskUtils.CompletedLabel <==> task.completed
    ensures badge == TaskUtils.OverdueLabel <==> !task.completed && JsText.Less(task.dueDate, today)
    ensures badge == TaskUtils.InProgressLabel <==> !task.completed && !JsText.Less(task.dueDate, today)
  {
    TaskUtils.GetStatusDetails(task, today).labelText
  }

  /** The body `handleToggleComplete` sends: the task's own fields with completion flipped. */
  function TogglePayload(task: Task): (d: Draft)
    ensures d.completed != task.completed
    ensures d.title == Some(task.title) && d.description == Some(task.description)
    ensures d.dueDate == task.dueDate
  {
    Draft(Some(task.title), Some(task.description), task.dueDate, !task.completed)
  }

  /** The success toast after a toggle. */
  function ToggleMessage(task: Task): (message: string)
    ensures message == "Task marked as incomplete" <==> task.completed
    ensures message == "Task marked as complete" <==> !task.completed
  {
    if task.completed then "Task marked as incomplete" else "Task marked as complete"
  }

  /** The second toggle of a toggled task sends the first toggle's body with the original completion back. */
  lemma ToggleTwiceRestores(task: Task)
    ensures var toggled := task.(completed := TogglePayload(task).completed);
      TogglePayload(toggled) == Draft(Some(task.title), Some(task.description), task.dueDate, task.completed)
  {
  }

  /** After a successful toggle the badge is "Completed" exactly when the task was open before. */
  lemma ToggleFlipsCompletedBadge(task: Task, today: string)
    ensures BadgeLabel(task.(completed := TogglePayload(task).completed), today) == TaskUtils.CompletedLabel
      <==> !task.completed
  {
  }
}
