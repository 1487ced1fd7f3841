/** The server's validator adapter and its custom `datetime` rule. */
module Validator {
  import opened Wrappers
  import Models
  import CalendarDate

  /** The tag `RegisterCustomValidators` registers `validateDateTime` under. */
  const DateTimeTag := "datetime"

  const DefaultLayout := CalendarDate.Layout

  /**
    `validateDateTime` for a field value and the tag's parameter. Layouts other
    than `2006-01-02` go to `parseWith`, which stands for `time.Parse` with that
    layout (Go's general layout language is not modelled).
   */
  function ValidateDateTime(field: string, param: string, parseWith: (string, string) -> bool): (ok: bool)
    ensures field == "" ==> !ok
    ensures field != "" && (param == "" || param == DefaultLayout) ==> (ok <==> CalendarDate.IsFullDate(field))
    ensures field != "" && param != "" && param != DefaultLayout ==> (ok <==> parseWith(param, field))
  {
    if field == "" then false
    else
      var layout := if param == "" then DefaultLayout else param;
      if layout == DefaultLayout then
        CalendarDate.ParseAcceptsExactlyFullDates(field);
        CalendarDate.Parse(field).Success?
      else
        parseWith(layout, field)
  }

  /** An empty parameter and the explicit default layout accept the same values. */
  lemma DefaultLayoutIsImplicit(field: string, parseWith: (string, string) -> bool)
    ensures ValidateDateTime(field, "", parseWith) == ValidateDateTime(field, DefaultLayout, parseWith)
  {
  }

  /** The two request bodies the handlers bind and hand to `c.Validate`. */
  datatype Bound = CreateBody(create: Models.CreateTaskInput) | UpdateBody(update: Models.UpdateTaskInput)

  function TitleOf(b: Bound): string {
    match b
    case CreateBody(c) => c.title
    case UpdateBody(u) => u.title
  }

  /** `CustomValidator.Validate`: plain struct validation, nothing added. */
  function Validate(b: Bound): (r: Option<Models.FieldError>)
    ensures r.None? <==> Models.MinTitle <= |TitleOf(b)| <= Models.MaxTitle
    ensures b.CreateBody? ==> r == Models.ValidateCreateInput(b.create)
    ensures b.UpdateBody? ==> r == Models.ValidateUpdateInput(b.update)
  {
    match b
    case CreateBody(c) => Models.ValidateCreateInput(c)
    case UpdateBody(u) => Models.ValidateUpdateInput(u)
  }
}
