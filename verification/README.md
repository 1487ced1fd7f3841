# Task manager: a Dafny model of its decision rules

The repository is a small task manager: a React client (`client/src`) that
lists, filters, searches, creates, edits and toggles tasks over a REST
resource `/api/v1/tasks`, and a Go server (`server/internal`) whose handlers,
service and validation decide what happens to each request. This project
models the deterministic core of both sides as pure Dafny functions over
immutable datatypes and proves what the code promises.

Client side:

- `TaskUtils` — the three-way status badge (`getStatusDetails`), with today's date as a parameter.
- `TaskList` — the `filteredTasks` pipeline (tab filter, case-insensitive search, stable sort by due date) and the tab counts.
- `TaskApi` — `fetchTasks` over an abstract HTTP outcome. It covers both response envelopes, snake_case/camelCase fallbacks, truncation of the time part and defaults. It also covers the message precedence of `handleApiError` and the create/update request bodies. JSON values are a small JavaScript value type, so `||`, `Boolean(...)` and reading a property of `null` behave as in the source.
- `TaskForm` — prefill on edit, `validateForm`, and the create-or-update decision of `handleSubmit`.
- `TaskCard` — the completion toggle body and message, and the badge.
- `App` — the dialog state (open flag, task being edited, refresh counter).
- `JsText` — the JavaScript string operations used above: `trim`, `length` (in UTF-16 code units), `toLowerCase`, `includes`, `split(c)[0]` and `<`.

Server side:

- `CalendarDate` — Go's `time.Parse("2006-01-02", s)`, written out element by element in Go's order. It is proved to accept exactly the `full-date` strings of section 5.6 of RFC 3339 that respect the day-of-month limits of its section 5.7, and to round-trip with formatting.
- `Models` — the task record, the two input bodies, the `required,min=3,max=100` title rule and both `ValidateDueDate` methods.
- `Validator` — the custom `datetime` rule and `CustomValidator.Validate`.
- `Errors` — `ValidationError` and the `HandleError` status mapping.
- `TaskRepository` — the database table modelled as a map from id to task, with an injected database fault.
- `TaskService` — get, create, update and delete, with the uuid generator and `time.Now()` passed in as parameters.
- `TaskHandler` — status code and body of each of the five handlers.
- `EndToEnd` — how the client form's title check relates to the server's rule, and how a stored due date travels to the client and back.

The model follows these behaviours of the code:

- Due dates sort by string comparison of `YYYY-MM-DD`, which agrees with the source's `Date` comparison on well-formed dates.
- The search query is lower-cased but not trimmed.
- An undated open task is labelled Overdue.
- `DELETE` of an unknown id answers 204.
- `PUT` of an unknown id answers 500, not 404.

## Model

| member | source | states |
|---|---|---|
| `TaskUtils.GetStatusDetails` | client/src/lib/taskUtils.ts:3-26 | "Completed" iff completed; "Overdue" iff open and due date < today (string order); "In Progress" iff open and not before today; variant always "outline"; each label has its fixed colour |
| `TaskUtils.LabelsExclusive` | client/src/lib/taskUtils.ts:4-25 | exactly one of the three labels is returned |
| `TaskUtils.CompletedIgnoresDueDate` | client/src/lib/taskUtils.ts:4-10 | a completed task's badge does not depend on its due date |
| `TaskUtils.EmptyDueDateIsOverdue` | client/src/lib/taskUtils.ts:12-19 | an open task with due date "" is Overdue whenever today is non-empty |
| `TaskUtils.OverdueStaysOverdue` | client/src/lib/taskUtils.ts:12-19 | an overdue task stays overdue on every later day |
| `TaskUtils.DueTodayIsInProgress` | client/src/lib/taskUtils.ts:21-25 | an open task due exactly today is In Progress |
| `JsText.Trim` | client/src/components/TaskForm.tsx:79 | `trim()` returns a piece of its input that neither starts nor ends with ECMAScript whitespace or a line terminator, and strips only such characters |
| `JsText.Length` | client/src/components/TaskForm.tsx:79 | `length` counts UTF-16 code units: between one and two per character |
| `JsText.LengthIsCountIffBmp` | client/src/components/TaskForm.tsx:79 | `length` equals the character count iff every character is in the Basic Multilingual Plane |
| `JsText.Lower` | client/src/components/TaskList.tsx:47-51 | `toLowerCase()` keeps the length and lower-cases each character in place |
| `JsText.Includes` | client/src/components/TaskList.tsx:50-51 | `includes(q)` holds iff `q` occurs at some position of the string |
| `JsText.Less` | client/src/lib/taskUtils.ts:13 | string `<`: the first differing character decides, and a proper prefix is smaller; `LessIrreflexive`, `LessTransitive`, `LessTotal` and `LessAsymmetric` prove it a strict total order |
| `JsText.TrimEmptyIffBlank` | client/src/components/TaskList.tsx:46 | a query trims to "" exactly when all its characters are JavaScript whitespace |
| `JsText.BeforeFirst` | client/src/api/taskApi.ts:30 | `split(c)[0]` is the longest prefix free of `c`; it stops right at the first `c` |
| `TaskList.Keep` | client/src/components/TaskList.tsx:43-44 | `filter` keeps each element the predicate accepts as many times as it occurs, and no others |
| `TaskList.KeepNoLonger` | client/src/components/TaskList.tsx:43-44 | `filter` never lengthens the list |
| `TaskList.KeepDistributes` | client/src/components/TaskList.tsx:43-44 | `filter` keeps order: filtering `a` followed by `b` gives the filtered `a` followed by the filtered `b` |
| `TaskList.DueOnKeep` | client/src/components/TaskList.tsx:43-53 | filtering and then picking the tasks due on one date is the same as picking first and then filtering |
| `TaskList.SortByDueDate` | client/src/components/TaskList.tsx:55 | the output is ordered by due date and is a permutation of the input |
| `TaskList.SortIsStable` | client/src/components/TaskList.tsx:55 | tasks with equal due dates keep their relative order |
| `TaskList.FilteredTasks` | client/src/components/TaskList.tsx:41-56 | the projection is sorted; each task occurs in it as often as in the input if it is on the tab and matches the search, otherwise never |
| `TaskList.PipelineIsKeep` | client/src/components/TaskList.tsx:42-53 | the tab stage followed by the search stage is a single order-keeping filter by "on the tab and matches the search" |
| `TaskList.FilteredKeepsFetchedOrder` | client/src/components/TaskList.tsx:41-56 | in the displayed list, the tasks due on any one date are exactly the selected fetched tasks due on that date, in fetched order |
| `TaskList.AllTabBlankQueryIsPermutation` | client/src/components/TaskList.tsx:41-56 | "all" with a blank query yields a permutation of every task |
| `TaskList.TabsSelectExactly` | client/src/components/TaskList.tsx:43-44 | "active" shows exactly the open tasks, "completed" exactly the finished ones |
| `TaskList.SearchSelectsExactly` | client/src/components/TaskList.tsx:46-53 | a non-blank query keeps a task iff the lower-cased title, or the non-empty lower-cased description, contains the lower-cased untrimmed query |
| `TaskList.FilteredIsSubMultiset` | client/src/components/TaskList.tsx:41-56 | nothing is added or duplicated |
| `TaskList.ActiveCount` | client/src/components/TaskList.tsx:58 | the active count is 0 iff every task is completed |
| `TaskList.CompletedCount` | client/src/components/TaskList.tsx:59 | the completed count is 0 iff no task is completed |
| `TaskList.CountsPartition` | client/src/components/TaskList.tsx:58-59 | active count + completed count = number of tasks |
| `TaskList.ActiveCountMatchesActiveTab` | client/src/components/TaskList.tsx:58 | the active count equals the size of the "active" tab under a blank query, whatever the current tab and query |
| `TaskList.CompletedCountMatchesCompletedTab` | client/src/components/TaskList.tsx:59 | the completed count equals the size of the "completed" tab under a blank query |
| `TaskApi.HandleApiError` | client/src/api/taskApi.ts:8-13 | the thrown message is the server's message, else the error's own, else the default; never empty when the default is not |
| `TaskApi.DueDateOf` | client/src/api/taskApi.ts:25-32 | due date is `due_date`, else `dueDate`, else ""; a string is cut before its first 'T'; a string result never contains 'T' |
| `TaskApi.NormaliseItem` | client/src/api/taskApi.ts:23-43 | a null or undefined item throws reading `due_date`; otherwise id and title pass through, description defaults to "", completed is coerced, snake_case timestamps win over camelCase and default to "" |
| `TaskApi.NormaliseAll` | client/src/api/taskApi.ts:23 | the map succeeds iff no item is null or undefined, and then has the same length and normalises item by item; otherwise it throws the TypeError of reading `due_date` on the first null or undefined item |
| `TaskApi.Envelope` | client/src/api/taskApi.ts:22-44 | the items are the body itself when it is an array, else its `data` property when that is an array; any other body has no items |
| `TaskApi.FetchTasks` | client/src/api/taskApi.ts:15-75 | transport errors rethrow through `handleApiError`; any shape other than the two envelopes fails with "Unexpected API response format"; otherwise success iff every item normalises, and a failing item's TypeError is rethrown through `handleApiError` with "Failed to fetch tasks" |
| `TaskApi.EnvelopesAgree` | client/src/api/taskApi.ts:22-66 | a bare array and `{data: sameArray}` give identical results |
| `TaskApi.FetchIsItemwise` | client/src/api/taskApi.ts:23-43 | a successful fetch preserves length and order |
| `TaskApi.WellTypedItemGivesTask` | client/src/api/taskApi.ts:34-42 | an item with string fields becomes a client task whose date has no time part, with the stated fallbacks |
| `TaskApi.CreateBody` | client/src/api/taskApi.ts:84-89 | create sends title, description and completed unchanged and `due_date` = the formatted `dueDate` |
| `TaskApi.UpdateBody` | client/src/api/taskApi.ts:107-112 | update sends a null title or description as "", and the same date and completion |
| `TaskApi.CreateAndUpdateBodiesAgree` | client/src/api/taskApi.ts:84-112 | without nulls, create and update send the same body |
| `TaskApi.Settle` | client/src/api/taskApi.ts:90-128 | create and update resolve to the response body and delete to `undefined`; a failed request rethrows the `handleApiError` message for the call's own default, which is never empty |
| `TaskForm.PrefillDueDate` | client/src/components/TaskForm.tsx:45-70 | "" stays ""; a date containing 'T' becomes its prefix before 'T'; one containing '-' is kept; anything else goes through the `Date` round trip or becomes "" |
| `TaskForm.Prefill` | client/src/components/TaskForm.tsx:39-76 | editing copies title and description and normalises the date; no editing task resets to "", "", today |
| `TaskForm.PrefillKeepsCalendarDate` | client/src/components/TaskForm.tsx:52-54 | a `YYYY-MM-DD` task is pre-filled exactly as stored |
| `TaskForm.ValidateForm` | client/src/components/TaskForm.tsx:78-91 | valid iff the trimmed title is at least 3 UTF-16 code units long and the date is non-empty; the title message takes precedence over the date message |
| `TaskForm.ValidTitleHasThreeCodeUnits` | client/src/components/TaskForm.tsx:79-82 | an accepted title is at least 3 code units long untrimmed, so it has at least 2 characters |
| `TaskForm.ValidateFormByCodePoints` | client/src/components/TaskForm.tsx:79-82 | corrected check: the same rule with the trimmed title counted in characters |
| `TaskForm.ValidationsAgreeOnBmpTitles` | client/src/components/TaskForm.tsx:79-82 | the two checks give the same verdict on every title within the Basic Multilingual Plane |
| `TaskForm.HandleSubmit` | client/src/components/TaskForm.tsx:93-118 | invalid forms send nothing; otherwise create with completed = false, or update the edited id with its completion |
| `TaskForm.SubmitCompletion` | client/src/components/TaskForm.tsx:100-116 | a create is always open; an edit never changes completion |
| `TaskForm.UnchangedEditRoundTrips` | client/src/components/TaskForm.tsx:39-116 | editing a well-formed task and submitting unchanged sends back its own fields |
| `TaskForm.CardTitle` | client/src/components/TaskForm.tsx:134 | "Edit Task" iff editing, otherwise "Create New Task" |
| `TaskCard.BadgeLabel` | client/src/components/TaskCard.tsx:95-97 | the badge says Completed iff the task is completed, Overdue iff it is open and due before today, and In Progress iff it is open and not due before today |
| `TaskCard.TogglePayload` | client/src/components/TaskCard.tsx:43-48 | the toggle flips completion and keeps title, description and due date |
| `TaskCard.ToggleMessage` | client/src/components/TaskCard.tsx:49-51 | "Task marked as incomplete" iff the task was completed before |
| `TaskCard.ToggleTwiceRestores` | client/src/components/TaskCard.tsx:43-48 | toggling the toggled task sends the task's own title, description, due date and original completion |
| `TaskCard.ToggleFlipsCompletedBadge` | client/src/components/TaskCard.tsx:43-51 | after a toggle the badge is Completed iff the task was open before |
| `App.Step` | client/src/App.tsx:21-62 | edit sets the task and opens; save closes, clears and bumps the counter by 1; cancel and `onOpenChange` change only the open flag |
| `App.RefreshCountsSaves` | client/src/App.tsx:26-30 | over any run of events the counter grows by exactly the number of saves |
| `App.DialogTitle` | client/src/App.tsx:50-52 | "Edit Task" iff a task is being edited, otherwise "Add Task" |
| `App.AddAfterCancelShowsStaleEdit` | client/src/App.tsx:41-62 | edit, cancel, then "Add Task" opens the dialog in edit mode on the cancelled task |
| `App.StepFixed` | client/src/App.tsx:41-62 | corrected handling: cancel and closing the dialog also clear the edited task |
| `App.FixedClosedMeansNotEditing` | client/src/App.tsx:41-62 | under the corrected handling a closed dialog never holds an edited task |
| `App.FixedAddOpensAddDialog` | client/src/App.tsx:41-51 | under the corrected handling "Add Task" always opens an add dialog |
| `CalendarDate.Parse` | server/internal/models/task.go:39 | a successful parse yields a valid calendar date; errors carry the whole input |
| `CalendarDate.ParseAcceptsExactlyFullDates` | server/internal/models/task.go:39 | the `2006-01-02` parse succeeds iff the input is an RFC 3339 full-date with a real day of its month, and reads year, month and day off it |
| `CalendarDate.FormatThenParse` | server/internal/models/task.go:39 | formatting a valid date and parsing it gives the date back |
| `CalendarDate.ParseThenFormat` | server/internal/models/task.go:39 | an accepted string is the canonical spelling of its date |
| `Models.TitleTag` | server/internal/models/task.go:20 | a title passes iff 3 ≤ length ≤ 100; otherwise the failing tag is required (empty), min (1-2 characters) or max (over 100) |
| `Models.ValidateCreateInput` | server/internal/models/task.go:19-24 | struct validation of a create body fails only on the title, with the title's tag |
| `Models.ValidateUpdateInput` | server/internal/models/task.go:27-32 | struct validation of an update body fails only on the title, with the title's tag |
| `Models.OnlyTitleIsValidated` | server/internal/models/task.go:19-32 | description, due date and completion never change the verdict; both bodies share the rule |
| `Models.ParseDueDateField` | server/internal/models/task.go:35-48 | "" yields the zero date without error; anything else succeeds iff it is a full-date, and formats back to itself |
| `Models.CreateDueDate` | server/internal/models/task.go:35-40 | the create body's `ValidateDueDate` |
| `Models.UpdateDueDate` | server/internal/models/task.go:43-48 | the update body's `ValidateDueDate` |
| `Models.DueDateParsersAgree` | server/internal/models/task.go:35-48 | the two `ValidateDueDate` methods agree on equal strings |
| `Validator.ValidateDateTime` | server/internal/validator/validator.go:22-33 | an empty field is invalid; an empty parameter means `2006-01-02`; otherwise valid iff the parse with that layout succeeds |
| `Validator.DefaultLayoutIsImplicit` | server/internal/validator/validator.go:27-30 | an empty parameter and the explicit default layout accept the same values |
| `Validator.Validate` | server/internal/validator/validator.go:14-16 | `Validate` is exactly struct validation: it passes iff the title has 3 to 100 characters |
| `Errors.NewValidationError` | server/internal/errors/errors.go:15-17 | message and details are stored unchanged |
| `Errors.ErrorText` | server/internal/errors/errors.go:19-21 | `Error()` returns the message |
| `Errors.HandleError` | server/internal/errors/errors.go:23-37 | validation errors give 400 with message and details; any other error gives 500 "Internal server error" with its text |
| `Errors.ValidationErrorRoundTrip` | server/internal/errors/errors.go:15-30 | a constructed validation error surfaces as 400 with its own message and details |
| `TaskRepository.FindAll` | server/internal/repository/task_repository.go:26-33 | every stored task, or exactly the database fault |
| `TaskRepository.FindByID` | server/internal/repository/task_repository.go:35-42 | the stored task, "record not found" for a missing id, or the fault |
| `TaskRepository.Create` | server/internal/repository/task_repository.go:44-50 | inserts under the task's id; a database fault returns that fault, otherwise a taken key returns a duplicate-key error naming the id; a failure changes nothing |
| `TaskRepository.Update` | server/internal/repository/task_repository.go:52-58 | writes the row under the task's id, or returns exactly the database fault and changes nothing |
| `TaskRepository.Delete` | server/internal/repository/task_repository.go:60-66 | removes the id (a missing id is not an error), or returns exactly the database fault and changes nothing |
| `TaskService.GetAllTasks` | server/internal/service/task_service.go:34-41 | all stored tasks, or the database fault wrapped as a store error |
| `TaskService.GetTaskByID` | server/internal/service/task_service.go:43-50 | the stored task, or the zero task with the store error: the database fault when there is one, else "record not found" |
| `TaskService.CreateTask` | server/internal/service/task_service.go:52-81 | invalid input or an unparsable date fails first and changes nothing; success stores a task with the fresh id, the input's title, description and completion, the parsed date and the two clock readings; after valid input and date, a database fault or a taken id gives exactly that store error and changes nothing |
| `TaskService.Revise` | server/internal/service/task_service.go:96-109 | the revised row keeps its id and creation time, takes title, description and completion from the input, takes the parsed date only when one was given, and is stamped with the clock reading |
| `TaskService.UpdateTask` | server/internal/service/task_service.go:83-118 | validation, then lookup (the database fault, or "record not found" for an absent id), then date parse (the parse error for a bad non-empty date on a stored id); success overwrites title, description and completion, keeps id and created time, keeps the old date when the input date is "", and touches only that row; failure changes nothing |
| `TaskService.DeleteTask` | server/internal/service/task_service.go:120-126 | removes the id, or propagates the repository error and changes nothing |
| `TaskService.CreateThenGet` | server/internal/service/task_service.go:64-80 | a created task is read back under its id; other ids read as before |
| `TaskService.UpdateTouchesOnlyItsRow` | server/internal/service/task_service.go:89-117 | no other id reads differently after an update |
| `TaskService.UpdatePreservesConsistency` | server/internal/service/task_service.go:83-118 | every row stays stored under its own id |
| `TaskService.CreatePreservesConsistency` | server/internal/service/task_service.go:52-81 | every row stays stored under its own id |
| `TaskService.UpdateIsIdempotent` | server/internal/service/task_service.go:83-118 | repeating an update at the same clock reading changes nothing further |
| `TaskService.DeleteThenGet` | server/internal/service/task_service.go:120-126 | a deleted id reads as not found, and deleting it again succeeds identically |
| `TaskHandler.GetAllTasks` | server/internal/controllers/task_handler.go:20-30 | 200 with the tasks, or 500 "Failed to fetch tasks" whose message is the database fault's text |
| `TaskHandler.GetTaskByID` | server/internal/controllers/task_handler.go:32-43 | 200 with the task, or 404 "Task not found" for every service error, its message the fault's text or "record not found" |
| `TaskHandler.CreateTask` | server/internal/controllers/task_handler.go:45-72 | 400 "Invalid input" on bind failure, then 400 "Validation error", then 500 "Failed to create task" whose message is the service error's text, else 201 with the task; only 201 changes the store |
| `TaskHandler.UpdateTask` | server/internal/controllers/task_handler.go:74-102 | the same precedence with 200 on success, the 500 message being the service error's text; only 200 changes the store |
| `TaskHandler.DeleteTask` | server/internal/controllers/task_handler.go:104-114 | 204 with no body, or 500 "Failed to delete task" whose message is the database fault's text |
| `TaskHandler.CreateFailureIsNeverValidation` | server/internal/controllers/task_handler.go:55-70 | behind the handler, a 500 never comes from the service's own validation |
| `TaskHandler.CreatedTaskIsServed` | server/internal/controllers/task_handler.go:45-72 | after a 201, `GET /:id` returns 200 with the same task |
| `TaskHandler.UpdateOfMissingIdIs500` | server/internal/controllers/task_handler.go:93-100 | a valid update of an unknown id is a 500 "record not found" and stores nothing |
| `EndToEnd.FormTitlePassesServerMinimum` | client/src/components/TaskForm.tsx:79-82 | a title the form accepts never fails the server's `required` tag, and fails `min` only if it holds a character outside the Basic Multilingual Plane |
| `EndToEnd.AstralTitleSplitsClientAndServer` | client/src/components/TaskForm.tsx:79 | a title of two emoji passes the form (4 code units) and fails the server's `min=3` (2 runes) |
| `EndToEnd.CodePointFormPassesServerMinimum` | server/internal/models/task.go:20 | with the corrected check, no title the form accepts fails the server's `required` or `min` tag |
| `EndToEnd.FormAcceptsOverlongTitle` | client/src/components/TaskForm.tsx:79-82 | a 101-character title passes the form but fails the server's max tag |
| `EndToEnd.DueDateRoundTrip` | client/src/api/taskApi.ts:25-32 | a stored date, sent as `YYYY-MM-DDT00:00:00Z`, reaches the client as `YYYY-MM-DD`, and the server parses that back to the same date |

## Left out

- Rendering, styling, toasts, loading spinners, `toLocaleDateString` and the `isSubmitting`/`loading`/`error` flags: presentation only.
- axios transport, URLs, headers and async ordering: each call takes the outcome of its request as a parameter (`TaskApi.HttpOutcome`), and the races between in-flight requests are not modelled.
- `formatDateForAPI` (`client/src/lib/dateUtils.ts`) and the `new Date(...).toISOString()` fallback in the form's prefill: parameters, because their time-zone dependent `Date` semantics are not visible.
- `TaskList.SortByDueDate`: compares the due-date strings instead of `new Date(...).getTime()`. The two agree on `YYYY-MM-DD` dates; NaN from malformed dates is not modelled.
- `JsText.LowerChar`: folds only the ASCII letters, where `toLowerCase` applies full Unicode case mapping.
- `JsText.Less`: compares code points, where JavaScript compares UTF-16 code units. They differ only between supplementary-plane characters and BMP characters above U+D7FF.
- `TaskApi.Truthy`: numbers are integers, so NaN and fractions are not modelled.
- `TaskApi.HandleApiError`: server messages are strings, with absent and empty merged. A non-string truthy `message` is not modelled.
- The TypeError text for a null item follows V8's wording.
- The form's error display after a failed request, `TaskCard`'s `handleDelete` (it only forwards `task.id` and shows a toast) and `TaskList`'s fetch error state: I/O and presentation.
- `time.Now()` and `uuid.New()`: parameters. Create takes two clock readings, as the source calls `time.Now()` twice.
- `TaskRepository`: a map stands in for GORM and Postgres. One fault flag makes every operation fail at once, so a failure between lookup and save in an update is not modelled. Driver error texts are abstracted.
- `TaskRepository.FindAll`: returns a set, because SQL without ORDER BY promises no order.
- `CalendarDate.ErrorText`: Go's `quote` escaping is not modelled. Go parses UTF-8 bytes rather than characters; this changes no verdict, because every accepted character is an ASCII digit or '-'.
- `Validator.ValidateDateTime`: layouts other than `2006-01-02` go to a parameter. `RegisterCustomValidators` is only the `DateTimeTag` constant, since no struct tag uses `datetime` any more.
- `Models.TitleTag`: counts characters as runes. Invalid UTF-8 is not modelled.
- `ErrorMiddleware`: the handlers answer every failure themselves, so `HandleError` is reached only through framework errors, which are not modelled.
- `EndToEnd.DueDateRoundTrip`: assumes Go's JSON encoding of a midnight-UTC `time.Time` (`YYYY-MM-DDT00:00:00Z`). That encoding is library code and is not modelled.
- Process wiring, configuration, logging, routes and CORS, migrations and the database connection (`server/cmd`, `server/migrations`, `config`, `logging`, `routes`, `db`): not decision logic.

## Findings

| source | as written | input that shows it | evidently intended | confidence | as-written member | corrected member |
|---|---|---|---|---|---|---|
| client/src/components/TaskForm.tsx:79 | `title.trim().length < 3` counts UTF-16 code units, while the server's `min=3` counts runes | the title made of two U+1F600 emoji is 4 code units long, so the form accepts it and submits; the server counts 2 runes and answers 400 "Validation error" | the client and the server apply the same minimum, so a title the form accepts is not rejected as too short | medium, not executed | `EndToEnd.AstralTitleSplitsClientAndServer` | `TaskForm.ValidateFormByCodePoints` |
| client/src/App.tsx:41-62 | Cancel (`onCancelEdit`) and closing the dialog (`onOpenChange(false)`) only clear the open flag, so `editingTask` survives | edit task t, press Cancel, then press "Add Task": the dialog opens titled "Edit Task" on t, and submitting updates t | closing the dialog forgets the edited task, so "Add Task" always opens an add form | medium, not executed | `App.AddAfterCancelShowsStaleEdit` | `App.StepFixed` |
