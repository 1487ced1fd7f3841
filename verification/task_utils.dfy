/** The status badge of a task: Completed, Overdue or In Progress. */
module TaskUtils {
  import opened ClientTask
  import JsText

  /** The `label`, `variant` and `color` of the badge (`label` is a reserved word here). */
  datatype StatusDetails = StatusDetails(labelText: string, variant: string, color: string)

  const CompletedLabel := "Completed"
  const OverdueLabel := "Overdue"
  const InProgressLabel := "In Progress"

  const CompletedColor := "text-green-600 border-green-600 bg-green-50"
  const OverdueColor := "text-red-600 border-red-600 bg-red-50"
  const InProgressColor := "text-amber-600 border-amber-600 bg-amber-50"

  /**
    The badge for `task`, where `today` is the current UTC calendar date as
    `YYYY-MM-DD`. Due dates compare as strings.
   */
  function GetStatusDetails(task: Task, today: string): (r: StatusDetails)
    ensures r.variant == "outline"
    ensures r.labelText == CompletedLabel <==> task.completed
    ensures r.labelText == OverdueLabel <==> !task.completed && JsText.Less(task.dueDate, today)
    ensures r.labelText == InProgressLabel <==> !task.completed && !JsText.Less(task.dueDate, today)
    ensures r.labelText == CompletedLabel ==> r.color == CompletedColor
    ensures r.labelText == OverdueLabel ==> r.color == OverdueColor
    ensures r.labelText == InProgressLabel ==> r.color == InProgressColor
  {
    if task.completed then
      StatusDetails(CompletedLabel, "outline", CompletedColor)
    else if JsText.Less(task.dueDate, today) then
      StatusDetails(OverdueLabel, "outline", OverdueColor)
    else
      StatusDetails(InProgressLabel, "outline", InProgressColor)
  }

  /** Exactly one of the three labels is produced. */
  lemma LabelsExclusive(task: Task, today: string)
    ensures var l := GetStatusDetails(task, today).labelText;
      (l == CompletedLabel || l == OverdueLabel || l == InProgressLabel)
      && !(l == CompletedLabel && l == OverdueLabel)
      && !(l == CompletedLabel && l == InProgressLabel)
      && !(l == OverdueLabel && l == InProgressLabel)
  {
  }

  /** Completion wins whatever the due date. */
  lemma CompletedIgnoresDueDate(task: Task, dueDate: string, today: string)
    requires task.completed
    ensures GetStatusDetails(task.(dueDate := dueDate), today) == GetStatusDetails(task, today)
  {
  }

  /** A missing (empty) due date is before every non-empty date, so an open task without one is overdue. */
  lemma EmptyDueDateIsOverdue(task: Task, today: string)
    requires !task.completed && task.dueDate == "" && today != ""
    ensures GetStatusDetails(task, today).labelText == OverdueLabel
  {
  }

  /** Once overdue, an open task stays overdue on every later day. */
  lemma OverdueStaysOverdue(task: Task, today: string, later: string)
    requires GetStatusDetails(task, today).labelText == OverdueLabel
    requires !JsText.Less(later, today)
    ensures GetStatusDetails(task, later).labelText == OverdueLabel
  {
    if !JsText.Less(task.dueDate, later) {
      JsText.NotLessTransitive(today, later, task.dueDate);
      assert false;
    }
  }

  /** A task due on `today` itself is still in progress. */
  lemma DueTodayIsInProgress(task: Task, today: string)
    requires !task.completed && task.dueDate == today
    ensures GetStatusDetails(task, today).labelText == InProgressLabel
  {
    JsText.LessIrreflexive(today);
  }
}
