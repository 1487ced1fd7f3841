/** The create/edit form: pre-filling, validation and the request it submits. */
module TaskForm {
  import opened Wrappers
  import opened ClientTask
  import JsText

  /** The three controlled inputs of the form. */
  datatype Fields = Fields(title: string, description: string, dueDate: string)

  const TitleTooShort := "Title must be at least 3 characters"
  const DueDateRequired := "Due date is required"

  /**
    The due date shown when editing. `isoDate` stands for
    `new Date(d).toISOString()`, `None` when that throws.
   */
  function PrefillDueDate(dueDate: string, isoDate: string -> Option<string>): (r: string)
    ensures dueDate == "" ==> r == ""
    ensures 'T' in dueDate ==> r == JsText.BeforeFirst(dueDate, 'T') && |r| < |dueDate|
    ensures 'T' !in dueDate && '-' in dueDate ==> r == dueDate
    ensures dueDate != "" && 'T' !in dueDate && '-' !in dueDate ==>
      r == (match isoDate(dueDate) case Some(iso) => JsText.BeforeFirst(iso, 'T') case None => "")
    ensures 'T' !in r || (dueDate != "" && 'T' !in dueDate && '-' in dueDate && r == dueDate)
  {
    if dueDate == "" then ""
    else if 'T' in dueDate then JsText.BeforeFirst(dueDate, 'T')
    else if '-' in dueDate then dueDate
    else
      match isoDate(dueDate)
      case Some(iso) => JsText.BeforeFirst(iso, 'T')
      case None => ""
  }

  /** The `useEffect` on `editingTask`: copy the task in, or reset to a blank form due today. */
  function Prefill(editing: Option<Task>, today: string, isoDate: string -> Option<string>): (f: Fields)
    ensures editing.None? ==> f == Fields("", "", today)
    ensures editing.Some? ==> f.title == editing.value.title && f.description == editing.value.description
    ensures editing.Some? ==> f.dueDate == PrefillDueDate(editing.value.dueDate, isoDate)
  {
    match editing
    case None => Fields("", "", today)
    case Some(t) => Fields(t.title, t.description, PrefillDueDate(t.dueDate, isoDate))
  }

  /** Prefilling a task whose date is already `YYYY-MM-DD` leaves every field as stored. */
  lemma PrefillKeepsCalendarDate(t: Task, today: string, isoDate: string -> Option<string>)
    requires |t.dueDate| == 10 && t.dueDate[4] == '-' && 'T' !in t.dueDate
    ensures Prefill(Some(t), today, isoDate) == Fields(t.title, t.description, t.dueDate)
  {
  }

  /**
    `validateForm`: `None` when the form may be submitted, else the message it
    shows. `title.trim().length` counts UTF-16 code units.
   */
  function ValidateForm(f: Fields): (error: Option<string>)
    ensures error.None? <==> JsText.Length(JsText.Trim(f.title)) >= 3 && f.dueDate != ""
    ensures JsText.Length(JsText.Trim(f.title)) < 3 ==> error == Some(TitleTooShort)
    ensures JsText.Length(JsText.Trim(f.title)) >= 3 && f.dueDate == "" ==> error == Some(DueDateRequired)
  {
    var length := JsText.Length(JsText.Trim(f.title));
    if f.title == "" || length < 3 then Some(TitleTooShort)
    else if f.dueDate == "" then Some(DueDateRequired)
    else None
  }

  /** An accepted title is at least three code units long before trimming too, so at least two characters. */
  lemma ValidTitleHasThreeCodeUnits(f: Fields)
    requires ValidateForm(f).None?
    ensures JsText.Length(f.title) >= 3
    ensures |f.title| >= 2
  {
    var k :| JsText.OccursAt(f.title, JsText.Trim(f.title), k);
    JsText.LengthOfInfix(f.title, JsText.Trim(f.title), k);
  }

  /**
    The title check counting characters (`[...title.trim()].length`), as the
    server's `min=3` counts runes; otherwise the same as `ValidateForm`.
   */
  function ValidateFormByCodePoints(f: Fields): (error: Option<string>)
    ensures error.None? <==> |JsText.Trim(f.title)| >= 3 && f.dueDate != ""
    ensures |JsText.Trim(f.title)| < 3 ==> error == Some(TitleTooShort)
    ensures |JsText.Trim(f.title)| >= 3 && f.dueDate == "" ==> error == Some(DueDateRequired)
  {
    var characters := |JsText.Trim(f.title)|;
    if f.title == "" || characters < 3 then Some(TitleTooShort)
    else if f.dueDate == "" then Some(DueDateRequired)
    else None
  }

  /** The two title checks differ only on titles with characters outside the Basic Multilingual Plane. */
  lemma ValidationsAgreeOnBmpTitles(f: Fields)
    requires forall i :: 0 <= i < |f.title| ==> f.title[i] <= '\U{FFFF}'
    ensures ValidateForm(f) == ValidateFormByCodePoints(f)
  {
    JsText.TrimmedBmpLength(f.title);
  }

  /** What pressing "Create Task" / "Update Task" does. */
  datatype Submission =
    | Rejected(error: string)
    | CreateCall(draft: Draft)
    | UpdateCall(id: string, draft: Draft)

  /** `handleSubmit`: validate, then create or update with the form's fields. */
  function HandleSubmit(editing: Option<Task>, f: Fields): (s: Submission)
    ensures ValidateForm(f).Some? <==> s.Rejected?
    ensures s.Rejected? ==> s.error == ValidateForm(f).value
    ensures ValidateForm(f).None? && editing.None? ==> s == CreateCall(Draft(Some(f.title), Some(f.description), f.dueDate, false))
    ensures ValidateForm(f).None? && editing.Some? ==>
      s == UpdateCall(editing.value.id, Draft(Some(f.title), Some(f.description), f.dueDate, editing.value.completed))
  {
    match ValidateForm(f)
    case Some(e) => Rejected(e)
    case None =>
      match editing
      case Some(t) => UpdateCall(t.id, Draft(Some(f.title), Some(f.description), f.dueDate, t.completed))
      case None => CreateCall(Draft(Some(f.title), Some(f.description), f.dueDate, false))
  }

  /** A new task is always created open; an edit never changes completion. */
  lemma SubmitCompletion(editing: Option<Task>, f: Fields)
    ensures HandleSubmit(editing, f).CreateCall? ==> !HandleSubmit(editing, f).draft.completed
    ensures HandleSubmit(editing, f).UpdateCall? ==>
      editing.Some? && HandleSubmit(editing, f).draft.completed == editing.value.completed
  {
  }

  /** Editing a well-formed task and submitting unchanged sends back exactly its fields. */
  lemma UnchangedEditRoundTrips(t: Task, today: string, isoDate: string -> Option<string>)
    requires JsText.Length(JsText.Trim(t.title)) >= 3
    requires |t.dueDate| == 10 && t.dueDate[4] == '-' && 'T' !in t.dueDate
    ensures HandleSubmit(Some(t), Prefill(Some(t), today, isoDate))
      == UpdateCall(t.id, Draft(Some(t.title), Some(t.description), t.dueDate, t.completed))
  {
  }

  /** The card header. */
  function CardTitle(editing: Option<Task>): (title: string)
    ensures title == "Edit Task" <==> editing.Some?
    ensures title == "Create New Task" <==> editing.None?
  {
    if editing.Some? then "Edit Task" else "Create New Task"
  }
}
