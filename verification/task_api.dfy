/**
  The REST client: normalisation of the task collection returned by the
  server, the error message every failed call rethrows, and the request
  bodies of create and update. Transport is abstract: each call takes the
  outcome of its HTTP request as a parameter.
 */
module TaskApi {
  import opened Wrappers
  import opened ClientTask
  import JsText

  /** A JSON value as the client receives it; an absent property reads as `Undefined`. */
  datatype Js =
    | Undefined
    | Null
    | Bool(b: bool)
    | Num(n: int)
    | Str(s: string)
    | Arr(elems: seq<Js>)
    | Obj(props: map<string, Js>)

  /** JavaScript truthiness (`Boolean(v)`). */
  predicate Truthy(v: Js) {
    match v
    case Undefined => false
    case Null => false
    case Bool(b) => b
    case Num(n) => n != 0
    case Str(s) => s != ""
    case Arr(_) => true
    case Obj(_) => true
  }

  /** `a || b`. */
  function Or(a: Js, b: Js): Js {
    if Truthy(a) then a else b
  }

  predicate Nullish(v: Js) {
    v.Undefined? || v.Null?
  }

  /** `v.key` for a value that is not null or undefined: only objects carry the task fields. */
  function Prop(v: Js, key: string): Js {
    if v.Obj? && key in v.props then v.props[key] else Undefined
  }

  /**
    A caught error as `handleApiError` sees it: `serverMessage` is
    `error.response?.data?.message` ("" when absent or empty, both falsy) and
    `message` is `error.message`.
   */
  datatype ErrorInfo = ErrorInfo(serverMessage: string, message: string)

  const FetchFailed := "Failed to fetch tasks"
  const CreateFailed := "Failed to create task"
  const UpdateFailed := "Failed to update task"
  const DeleteFailed := "Failed to delete task"
  const UnexpectedFormat := "Unexpected API response format"

  /** The message of the error `handleApiError` throws: the server's message, else the error's own, else the default. */
  function HandleApiError(e: ErrorInfo, defaultMessage: string): (message: string)
    ensures e.serverMessage != "" ==> message == e.serverMessage
    ensures e.serverMessage == "" && e.message != "" ==> message == e.message
    ensures e.serverMessage == "" && e.message == "" ==> message == defaultMessage
    ensures defaultMessage != "" ==> message != ""
  {
    if e.serverMessage != "" then e.serverMessage
    else if e.message != "" then e.message
    else defaultMessage
  }

  /** The outcome of one HTTP request: the parsed body, or the error axios threw. */
  datatype HttpOutcome = Response(data: Js) | Failed(error: ErrorInfo)

  /** One task as `fetchTasks` builds it; fields hold whatever JSON value the server sent. */
  datatype FetchedTask = FetchedTask(
    id: Js,
    title: Js,
    description: Js,
    dueDate: Js,
    completed: bool,
    createdAt: Js,
    updatedAt: Js)

  /** `due_date || dueDate || ""`, cut before the first 'T' when it is a string containing one. */
  function DueDateOf(item: Js): (d: Js)
    ensures Truthy(Prop(item, "due_date")) && Prop(item, "due_date").Str? ==>
      d == Str(JsText.BeforeFirst(Prop(item, "due_date").s, 'T'))
    ensures Truthy(Prop(item, "due_date")) && !Prop(item, "due_date").Str? ==> d == Prop(item, "due_date")
    ensures !Truthy(Prop(item, "due_date")) && Truthy(Prop(item, "dueDate")) && Prop(item, "dueDate").Str? ==>
      d == Str(JsText.BeforeFirst(Prop(item, "dueDate").s, 'T'))
    ensures !Truthy(Prop(item, "due_date")) && Truthy(Prop(item, "dueDate")) && !Prop(item, "dueDate").Str? ==>
      d == Prop(item, "dueDate")
    ensures !Truthy(Prop(item, "due_date")) && !Truthy(Prop(item, "dueDate")) ==> d == Str("")
    ensures d.Str? ==> 'T' !in d.s
  {
    var raw := Or(Or(Prop(item, "due_date"), Prop(item, "dueDate")), Str(""));
    if Truthy(raw) && raw.Str? && 'T' in raw.s then Str(JsText.BeforeFirst(raw.s, 'T'))
    else raw
  }

  /** V8's TypeError text for reading `key` off null or undefined. */
  function ReadPropertyError(v: Js, key: string): ErrorInfo
    requires Nullish(v)
  {
    var what := if v.Null? then "null" else "undefined";
    ErrorInfo("", "Cannot read properties of " + what + " (reading '" + key + "')")
  }

  /** The callback of `.map(...)`: the first property read on a null item throws. */
  function NormaliseItem(item: Js): (r: Result<FetchedTask, ErrorInfo>)
    ensures r.Success? <==> !Nullish(item)
    ensures r.Success? ==>
      && r.value.id == Prop(item, "id")
      && r.value.title == Prop(item, "title")
      && r.value.completed == Truthy(Prop(item, "completed"))
      && r.value.dueDate == DueDateOf(item)
      && (Truthy(Prop(item, "description")) ==> r.value.description == Prop(item, "description"))
      && (!Truthy(Prop(item, "description")) ==> r.value.description == Str(""))
      && (Truthy(Prop(item, "created_at")) ==> r.value.createdAt == Prop(item, "created_at"))
      && (!Truthy(Prop(item, "created_at")) && Truthy(Prop(item, "createdAt")) ==> r.value.createdAt == Prop(item, "createdAt"))
      && (!Truthy(Prop(item, "created_at")) && !Truthy(Prop(item, "createdAt")) ==> r.value.createdAt == Str(""))
      && (Truthy(Prop(item, "updated_at")) ==> r.value.updatedAt == Prop(item, "updated_at"))
      && (!Truthy(Prop(item, "updated_at")) && Truthy(Prop(item, "updatedAt")) ==> r.value.updatedAt == Prop(item, "updatedAt"))
      && (!Truthy(Prop(item, "updated_at")) && !Truthy(Prop(item, "updatedAt")) ==> r.value.updatedAt == Str(""))
    ensures r.Failure? ==> r.error == ReadPropertyError(item, "due_date")
  {
    if Nullish(item) then Failure(ReadPropertyError(item, "due_date"))
    else
      Success(FetchedTask(
        id := Prop(item, "id"),
        title := Prop(item, "title"),
        description := Or(Prop(item, "description"), Str("")),
        dueDate := DueDateOf(item),
        completed := Truthy(Prop(item, "completed")),
        createdAt := Or(Or(Prop(item, "created_at"), Prop(item, "createdAt")), Str("")),
        updatedAt := Or(Or(Prop(item, "updated_at"), Prop(item, "updatedAt")), Str(""))))
  }

  /** Item `i` is null or undefined and every item before it is not. */
  predicate FirstNullishAt(items: seq<Js>, i: int) {
    0 <= i < |items| && Nullish(items[i]) && forall j :: 0 <= j < i ==> !Nullish(items[j])
  }

  /** `items.map(...)`: the first item that throws aborts the whole map. */
  function NormaliseAll(items: seq<Js>): (r: Result<seq<FetchedTask>, ErrorInfo>)
    ensures r.Success? <==> forall i :: 0 <= i < |items| ==> !Nullish(items[i])
    ensures r.Failure? ==> exists i :: FirstNullishAt(items, i) && r.error == ReadPropertyError(items[i], "due_date")
    ensures r.Success? ==> |r.value| == |items|
    ensures r.Success? ==> forall i :: 0 <= i < |items| ==> NormaliseItem(items[i]) == Success(r.value[i])
  {
    if items == [] then Success([])
    else
      match NormaliseItem(items[0])
      case Failure(e) =>
        assert FirstNullishAt(items, 0);
        Failure(e)
      case Success(head) =>
        match NormaliseAll(items[1..])
        case Failure(e) =>
          var i :| FirstNullishAt(items[1..], i) && e == ReadPropertyError(items[1..][i], "due_date");
          assert FirstNullishAt(items, i + 1);
          Failure(e)
        case Success(tail) =>
          assert forall i :: 1 <= i < |items| ==> items[i] == items[1..][i - 1];
          Success([head] + tail)
  }

  /** The two accepted envelopes: a bare array, or an object with an array under `data`. */
  function Envelope(data: Js): (items: Option<seq<Js>>)
    ensures items.Some? <==> data.Arr? || (data.Obj? && "data" in data.props && data.props["data"].Arr?)
    ensures data.Arr? ==> items == Some(data.elems)
    ensures items.Some? && !data.Arr? ==> items.value == data.props["data"].elems
  {
    if Truthy(data) && data.Arr? then Some(data.elems)
    else if Truthy(data) && Prop(data, "data").Arr? then Some(Prop(data, "data").elems)
    else None
  }

  /** `fetchTasks`: the normalised list, or the message of the error it throws. */
  function FetchTasks(outcome: HttpOutcome): (r: Result<seq<FetchedTask>, string>)
    ensures outcome.Failed? ==> r == Failure(HandleApiError(outcome.error, FetchFailed))
    ensures outcome.Response? && Envelope(outcome.data).None? ==> r == Failure(UnexpectedFormat)
    ensures r.Success? ==> outcome.Response? && Envelope(outcome.data).Some?
    ensures r.Success? ==> NormaliseAll(Envelope(outcome.data).value) == Success(r.value)
    ensures outcome.Response? && Envelope(outcome.data).Some? && NormaliseAll(Envelope(outcome.data).value).Failure? ==>
      r == Failure(HandleApiError(NormaliseAll(Envelope(outcome.data).value).error, FetchFailed))
    ensures outcome.Response? && Envelope(outcome.data).Some? ==>
      (r.Success? <==> forall i :: 0 <= i < |Envelope(outcome.data).value| ==> !Nullish(Envelope(outcome.data).value[i]))
  {
    match outcome
    case Failed(e) => Failure(HandleApiError(e, FetchFailed))
    case Response(data) =>
      match Envelope(data)
      case None => Failure(HandleApiError(ErrorInfo("", UnexpectedFormat), FetchFailed))
      case Some(items) =>
        match NormaliseAll(items)
        case Failure(e) => Failure(HandleApiError(e, FetchFailed))
        case Success(tasks) => Success(tasks)
  }

  /** A bare array and the same array wrapped under `data` normalise identically. */
  lemma EnvelopesAgree(items: seq<Js>, wrapper: map<string, Js>)
    requires "data" in wrapper && wrapper["data"] == Arr(items)
    ensures FetchTasks(Response(Arr(items))) == FetchTasks(Response(Obj(wrapper)))
  {
  }

  /** Normalisation maps over the items: same length, same order, item by item. */
  lemma FetchIsItemwise(items: seq<Js>, i: int)
    requires 0 <= i < |items|
    requires FetchTasks(Response(Arr(items))).Success?
    ensures |FetchTasks(Response(Arr(items))).value| == |items|
    ensures NormaliseItem(items[i]) == Success(FetchTasks(Response(Arr(items))).value[i])
  {
  }

  /** A property that is a string or absent, as a well-behaved server sends it. */
  predicate StrOrAbsent(item: Js, key: string) {
    Prop(item, key).Str? || Prop(item, key).Undefined?
  }

  /** A task object whose fields all carry JSON strings (and `completed` anything). */
  predicate WellTypedItem(item: Js) {
    && item.Obj?
    && Prop(item, "id").Str? && Prop(item, "title").Str?
    && StrOrAbsent(item, "description")
    && StrOrAbsent(item, "due_date") && StrOrAbsent(item, "dueDate")
    && StrOrAbsent(item, "created_at") && StrOrAbsent(item, "createdAt")
    && StrOrAbsent(item, "updated_at") && StrOrAbsent(item, "updatedAt")
  }

  /** The client `Task` a fetched record stands for, when every field is a string. */
  function AsTask(f: FetchedTask): Option<Task> {
    if f.id.Str? && f.title.Str? && f.description.Str? && f.dueDate.Str? && f.createdAt.Str? && f.updatedAt.Str?
    then Some(Task(f.id.s, f.title.s, f.description.s, f.dueDate.s, f.completed, f.createdAt.s, f.updatedAt.s))
    else None
  }

  /**
    A well-typed item becomes a `Task`: its date has no time part, the snake_case
    fields win over the camelCase ones, and missing text fields become "".
   */
  lemma WellTypedItemGivesTask(item: Js)
    requires WellTypedItem(item)
    ensures NormaliseItem(item).Success?
    ensures AsTask(NormaliseItem(item).value).Some?
    ensures var t := AsTask(NormaliseItem(item).value).value;
      && t.id == Prop(item, "id").s
      && t.title == Prop(item, "title").s
      && 'T' !in t.dueDate
      && (Prop(item, "description").Undefined? ==> t.description == "")
      && (Prop(item, "description").Str? ==> t.description == Prop(item, "description").s)
      && (Truthy(Prop(item, "due_date")) ==> t.dueDate == JsText.BeforeFirst(Prop(item, "due_date").s, 'T'))
      && (!Truthy(Prop(item, "due_date")) && Truthy(Prop(item, "dueDate")) ==>
            t.dueDate == JsText.BeforeFirst(Prop(item, "dueDate").s, 'T'))
      && (Truthy(Prop(item, "created_at")) ==> t.createdAt == Prop(item, "created_at").s)
      && (!Truthy(Prop(item, "created_at")) && Truthy(Prop(item, "createdAt")) ==> t.createdAt == Prop(item, "createdAt").s)
      && (!Truthy(Prop(item, "created_at")) && !Truthy(Prop(item, "createdAt")) ==> t.createdAt == "")
      && (Truthy(Prop(item, "updated_at")) ==> t.updatedAt == Prop(item, "updated_at").s)
      && (!Truthy(Prop(item, "updated_at")) && Truthy(Prop(item, "updatedAt")) ==> t.updatedAt == Prop(item, "updatedAt").s)
      && (!Truthy(Prop(item, "updated_at")) && !Truthy(Prop(item, "updatedAt")) ==> t.updatedAt == "")
  {
    var d := Prop(item, "dueDate");
    if !Truthy(Prop(item, "due_date")) && Truthy(d) && 'T' !in d.s {
      assert JsText.BeforeFirst(d.s, 'T') == d.s;
    }
  }

  /** The wire body of a create or update: `dueDate` renamed to `due_date`. */
  datatype RequestBody = RequestBody(
    title: Option<string>,
    description: Option<string>,
    due_date: string,
    completed: bool)

  /**
    `createTask`'s body. `formatDate` stands for `formatDateForAPI`, whose
    JavaScript `Date` round trip is not modelled.
   */
  function CreateBody(draft: Draft, formatDate: string -> string): (b: RequestBody)
    ensures b.title == draft.title && b.description == draft.description
    ensures b.completed == draft.completed
    ensures b.due_date == formatDate(draft.dueDate)
  {
    RequestBody(draft.title, draft.description, formatDate(draft.dueDate), draft.completed)
  }

  /** `updateTask`'s body: a null title or description is sent as "". */
  function UpdateBody(draft: Draft, formatDate: string -> string): (b: RequestBody)
    ensures b.title == Some(draft.title.GetOr("")) && b.description == Some(draft.description.GetOr(""))
    ensures b.completed == draft.completed
    ensures b.due_date == formatDate(draft.dueDate)
  {
    RequestBody(Some(draft.title.GetOr("")), Some(draft.description.GetOr("")),
                formatDate(draft.dueDate), draft.completed)
  }

  /** When nothing is null, create and update send the same body. */
  lemma CreateAndUpdateBodiesAgree(draft: Draft, formatDate: string -> string)
    requires draft.title.Some? && draft.description.Some?
    ensures CreateBody(draft, formatDate) == UpdateBody(draft, formatDate)
  {
  }

  /** The three writes the client sends. */
  datatype Write = Create | Update | Delete

  /** The default message each write passes to `handleApiError`. */
  function DefaultMessage(write: Write): string {
    match write
    case Create => CreateFailed
    case Update => UpdateFailed
    case Delete => DeleteFailed
  }

  /**
    How `createTask`, `updateTask` and `deleteTask` finish: create and update
    resolve to the response body, delete to `undefined`; a failed request
    rethrows the `handleApiError` message for the call's default.
   */
  function Settle(write: Write, outcome: HttpOutcome): (r: Result<Js, string>)
    ensures r.Success? <==> outcome.Response?
    ensures outcome.Response? && write != Delete ==> r.value == outcome.data
    ensures outcome.Response? && write == Delete ==> r.value == Undefined
    ensures outcome.Failed? ==> r.error == HandleApiError(outcome.error, DefaultMessage(write))
    ensures r.Failure? ==> r.error != ""
  {
    match outcome
    case Response(data) => if write == Delete then Success(Undefined) else Success(data)
    case Failed(e) => Failure(HandleApiError(e, DefaultMessage(write)))
  }

}
