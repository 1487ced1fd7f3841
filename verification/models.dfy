/** The server's task record, its two input bodies, their validation tags and due-date parsing. */
module Models {
  import opened Wrappers
  import CalendarDate

  /** A reading of the server clock; `ZeroInstant` stands for Go's zero `time.Time`. */
  datatype Instant = Instant(reading: int)

  const ZeroInstant := Instant(0)

  datatype Task = Task(
    id: string,
    title: string,
    description: string,
    completed: bool,
    dueDate: CalendarDate.Date,
    createdAt: Instant,
    updatedAt: Instant)

  /** `models.Task{}`. */
  const ZeroTask := Task("", "", "", false, CalendarDate.ZeroDate, ZeroInstant, ZeroInstant)

  datatype CreateTaskInput = CreateTaskInput(title: string, description: string, dueDate: string, completed: bool)

  datatype UpdateTaskInput = UpdateTaskInput(title: string, description: string, dueDate: string, completed: bool)

  /** The tags of `validate:"required,min=3,max=100"`, checked in that order. */
  datatype Tag = Required | Min | Max

  /** One failed field rule as go-playground/validator reports it. */
  datatype FieldError = FieldError(structName: string, field: string, tag: Tag)

  function TagName(tag: Tag): string {
    match tag
    case Required => "required"
    case Min => "min"
    case Max => "max"
  }

  /** `FieldError.Error()` (the text `ValidationErrors.Error()` joins). */
  function FieldErrorText(e: FieldError): string {
    "Key: '" + e.structName + "." + e.field + "' Error:Field validation for '" + e.field
      + "' failed on the '" + TagName(e.tag) + "' tag"
  }

  const MinTitle := 3
  const MaxTitle := 100

  /**
    The first failing tag on a title; lengths count characters (runes).
    `None` means the title is accepted.
   */
  function TitleTag(title: string): (r: Option<Tag>)
    ensures r.None? <==> MinTitle <= |title| <= MaxTitle
    ensures r == Some(Required) <==> title == ""
    ensures r == Some(Min) <==> 0 < |title| < MinTitle
    ensures r == Some(Max) <==> |title| > MaxTitle
  {
    if title == "" then Some(Required)
    else if |title| < MinTitle then Some(Min)
    else if |title| > MaxTitle then Some(Max)
    else None
  }

  /** `validator.Struct(input)` for a create body: only the title carries rules. */
  function ValidateCreateInput(input: CreateTaskInput): (r: Option<FieldError>)
    ensures r.None? <==> MinTitle <= |input.title| <= MaxTitle
    ensures r.Some? ==> r.value.field == "Title" && Some(r.value.tag) == TitleTag(input.title)
  {
    match TitleTag(input.title)
    case None => None
    case Some(tag) => Some(FieldError("CreateTaskInput", "Title", tag))
  }

  /** `validator.Struct(input)` for an update body. */
  function ValidateUpdateInput(input: UpdateTaskInput): (r: Option<FieldError>)
    ensures r.None? <==> MinTitle <= |input.title| <= MaxTitle
    ensures r.Some? ==> r.value.field == "Title" && Some(r.value.tag) == TitleTag(input.title)
  {
    match TitleTag(input.title)
    case None => None
    case Some(tag) => Some(FieldError("UpdateTaskInput", "Title", tag))
  }

  /** Description, due date and completion are not validated: changing them never changes the verdict. */
  lemma OnlyTitleIsValidated(a: CreateTaskInput, b: UpdateTaskInput)
    requires a.title == b.title
    ensures ValidateCreateInput(a).None? <==> ValidateUpdateInput(b).None?
    ensures forall d, due, c :: ValidateCreateInput(CreateTaskInput(a.title, d, due, c)) == ValidateCreateInput(a)
  {
  }

  /** An empty date string means "no due date" (the zero time); anything else must parse. */
  function ParseDueDateField(dueDate: string): (r: Result<CalendarDate.Date, CalendarDate.ParseError>)
    ensures dueDate == "" ==> r == Success(CalendarDate.ZeroDate)
    ensures dueDate != "" ==> (r.Success? <==> CalendarDate.IsFullDate(dueDate))
    ensures r.Success? ==> CalendarDate.Valid(r.value)
    ensures dueDate != "" && r.Success? ==> CalendarDate.Format(r.value) == dueDate
  {
    if dueDate == "" then Success(CalendarDate.ZeroDate)
    else
      CalendarDate.ParseAcceptsExactlyFullDates(dueDate);
      var r := CalendarDate.Parse(dueDate);
      if r.Success? then CalendarDate.ParseThenFormat(dueDate); r else r
  }

  /** `(*CreateTaskInput).ValidateDueDate`. */
  function CreateDueDate(input: CreateTaskInput): (r: Result<CalendarDate.Date, CalendarDate.ParseError>)
    ensures input.dueDate == "" ==> r == Success(CalendarDate.ZeroDate)
    ensures input.dueDate != "" ==> (r.Success? <==> CalendarDate.IsFullDate(input.dueDate))
    ensures r.Success? ==> CalendarDate.Valid(r.value)
    ensures input.dueDate != "" && r.Success? ==> CalendarDate.Format(r.value) == input.dueDate
  {
    ParseDueDateField(input.dueDate)
  }

  /** `(*UpdateTaskInput).ValidateDueDate`. */
  function UpdateDueDate(input: UpdateTaskInput): (r: Result<CalendarDate.Date, CalendarDate.ParseError>)
    ensures input.dueDate == "" ==> r == Success(CalendarDate.ZeroDate)
    ensures input.dueDate != "" ==> (r.Success? <==> CalendarDate.IsFullDate(input.dueDate))
    ensures r.Success? ==> CalendarDate.Valid(r.value)
    ensures input.dueDate != "" && r.Success? ==> CalendarDate.Format(r.value) == input.dueDate
  {
    ParseDueDateField(input.dueDate)
  }

  /** The two `ValidateDueDate` methods behave identically on the same fields. */
  lemma DueDateParsersAgree(a: CreateTaskInput, b: UpdateTaskInput)
    requires a.dueDate == b.dueDate
    ensures CreateDueDate(a) == UpdateDueDate(b)
  {
  }
}
