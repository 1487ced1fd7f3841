/**
  The five HTTP handlers: which status and body each outcome of binding,
  validation and the service call produces.
 */
module TaskHandler {
  import opened Wrappers
  import opened Models
  import opened Errors
  import Validator
  import TaskService
  import TaskRepository

  type Repo = TaskRepository.Repo

  /** A reply together with the repository it leaves behind. */
  datatype Handled = Handled(repo: Repo, reply: Reply)

  /** `GET /api/v1/tasks`. */
  function GetAllTasks(repo: Repo): (r: Reply)
    ensures r.status == StatusOK <==> repo.fault.None?
    ensures r.status == StatusInternalServerError <==> repo.fault.Some?
    ensures r.status == StatusOK ==> r.body == TaskListBody(repo.tasks.Values)
    ensures r.status == StatusInternalServerError ==> r.body == ErrorBody("Failed to fetch tasks", repo.fault.value)
  {
    match TaskService.GetAllTasks(repo)
    case Failure(e) => Reply(StatusInternalServerError, ErrorBody("Failed to fetch tasks", TaskService.ErrorText(e)))
    case Success(tasks) => Reply(StatusOK, TaskListBody(tasks))
  }

  /** `GET /api/v1/tasks/:id`: every service error, a database fault included, is a 404. */
  function GetTaskByID(repo: Repo, id: string): (r: Reply)
    ensures r.status == StatusOK <==> repo.fault.None? && id in repo.tasks
    ensures r.status == StatusNotFound <==> !(repo.fault.None? && id in repo.tasks)
    ensures r.status == StatusOK ==> r.body == TaskBody(repo.tasks[id])
    ensures r.status == StatusNotFound ==>
      r.body == ErrorBody("Task not found", if repo.fault.Some? then repo.fault.value else "record not found")
  {
    match TaskService.GetTaskByID(repo, id)
    case (_, Some(e)) => Reply(StatusNotFound, ErrorBody("Task not found", TaskService.ErrorText(e)))
    case (task, None) => Reply(StatusOK, TaskBody(task))
  }

  /**
    `POST /api/v1/tasks`. `bound` is the outcome of `c.Bind` (its error text on
    failure); `newId`, `created` and `updated` feed the service.
   */
  function CreateTask(repo: Repo, bound: Result<CreateTaskInput, string>, newId: string, created: Instant, updated: Instant): (r: Handled)
    ensures bound.Failure? ==> r == Handled(repo, Reply(StatusBadRequest, ErrorBody("Invalid input", bound.error)))
    ensures bound.Success? && ValidateCreateInput(bound.value).Some? ==>
      r == Handled(repo, Reply(StatusBadRequest, ErrorBody("Validation error", FieldErrorText(ValidateCreateInput(bound.value).value))))
    ensures r.reply.status in {StatusCreated, StatusBadRequest, StatusInternalServerError}
    ensures r.reply.status != StatusCreated ==> r.repo == repo
    ensures r.reply.status == StatusInternalServerError ==>
      && bound.Success? && ValidateCreateInput(bound.value).None?
      && TaskService.CreateTask(repo, bound.value, newId, created, updated).err.Some?
      && r.reply.body == ErrorBody("Failed to create task",
           TaskService.ErrorText(TaskService.CreateTask(repo, bound.value, newId, created, updated).err.value))
    ensures r.reply.status == StatusCreated <==>
      bound.Success? && TaskService.CreateTask(repo, bound.value, newId, created, updated).err.None?
    ensures r.reply.status == StatusCreated ==>
      var s := TaskService.CreateTask(repo, bound.value, newId, created, updated);
      r.repo == s.repo && r.reply.body == TaskBody(s.task)
  {
    match bound
    case Failure(text) => Handled(repo, Reply(StatusBadRequest, ErrorBody("Invalid input", text)))
    case Success(input) =>
      match Validator.Validate(Validator.CreateBody(input))
      case Some(f) => Handled(repo, Reply(StatusBadRequest, ErrorBody("Validation error", FieldErrorText(f))))
      case None =>
        var s := TaskService.CreateTask(repo, input, newId, created, updated);
        match s.err
        case Some(e) => Handled(s.repo, Reply(StatusInternalServerError, ErrorBody("Failed to create task", TaskService.ErrorText(e))))
        case None => Handled(s.repo, Reply(StatusCreated, TaskBody(s.task)))
  }

  /** `PUT /api/v1/tasks/:id`: the same precedence as create, 200 on success. */
  function UpdateTask(repo: Repo, id: string, bound: Result<UpdateTaskInput, string>, now: Instant): (r: Handled)
    ensures bound.Failure? ==> r == Handled(repo, Reply(StatusBadRequest, ErrorBody("Invalid input", bound.error)))
    ensures bound.Success? && ValidateUpdateInput(bound.value).Some? ==>
      r == Handled(repo, Reply(StatusBadRequest, ErrorBody("Validation error", FieldErrorText(ValidateUpdateInput(bound.value).value))))
    ensures r.reply.status in {StatusOK, StatusBadRequest, StatusInternalServerError}
    ensures r.reply.status != StatusOK ==> r.repo == repo
    ensures r.reply.status == StatusInternalServerError ==>
      && bound.Success? && ValidateUpdateInput(bound.value).None?
      && TaskService.UpdateTask(repo, id, bound.value, now).err.Some?
      && r.reply.body == ErrorBody("Failed to update task",
           TaskService.ErrorText(TaskService.UpdateTask(repo, id, bound.value, now).err.value))
    ensures r.reply.status == StatusOK <==>
      bound.Success? && TaskService.UpdateTask(repo, id, bound.value, now).err.None?
    ensures r.reply.status == StatusOK ==>
      var s := TaskService.UpdateTask(repo, id, bound.value, now);
      r.repo == s.repo && r.reply.body == TaskBody(s.task)
  {
    match bound
    case Failure(text) => Handled(repo, Reply(StatusBadRequest, ErrorBody("Invalid input", text)))
    case Success(input) =>
      match Validator.Validate(Validator.UpdateBody(input))
      case Some(f) => Handled(repo, Reply(StatusBadRequest, ErrorBody("Validation error", FieldErrorText(f))))
      case None =>
        var s := TaskService.UpdateTask(repo, id, input, now);
        match s.err
        case Some(e) => Handled(s.repo, Reply(StatusInternalServerError, ErrorBody("Failed to update task", TaskService.ErrorText(e))))
        case None => Handled(s.repo, Reply(StatusOK, TaskBody(s.task)))
  }

  /** `DELETE /api/v1/tasks/:id`: 204 with no body, even when no such task exists. */
  function DeleteTask(repo: Repo, id: string): (r: Handled)
    ensures r.reply.status == StatusNoContent <==> repo.fault.None?
    ensures r.reply.status == StatusNoContent ==> r.reply.body == NoBody && r.repo.tasks == repo.tasks - {id}
    ensures r.reply.status != StatusNoContent ==>
      r.reply.status == StatusInternalServerError && r.repo == repo
      && r.reply.body == ErrorBody("Failed to delete task", repo.fault.value)
  {
    match TaskService.DeleteTask(repo, id)
    case (repo', Some(e)) => Handled(repo', Reply(StatusInternalServerError, ErrorBody("Failed to delete task", TaskService.ErrorText(e))))
    case (repo', None) => Handled(repo', Reply(StatusNoContent, NoBody))
  }

  /**
    Behind the handler the service's own validation never fires: a 500 from
    create is never a validation failure.
   */
  lemma CreateFailureIsNeverValidation(repo: Repo, input: CreateTaskInput, newId: string, created: Instant, updated: Instant)
    requires CreateTask(repo, Success(input), newId, created, updated).reply.status == StatusInternalServerError
    ensures TaskService.CreateTask(repo, input, newId, created, updated).err.Some?
    ensures !TaskService.CreateTask(repo, input, newId, created, updated).err.value.Invalid?
  {
  }

  /** A task answered with 201 is then served by `GET /:id` with 200 and the same body. */
  lemma CreatedTaskIsServed(repo: Repo, bound: Result<CreateTaskInput, string>, newId: string, created: Instant, updated: Instant)
    requires CreateTask(repo, bound, newId, created, updated).reply.status == StatusCreated
    ensures var h := CreateTask(repo, bound, newId, created, updated);
      GetTaskByID(h.repo, newId) == Reply(StatusOK, h.reply.body)
  {
    TaskService.CreateThenGet(repo, bound.value, newId, created, updated);
  }

  /** Updating an id that is not stored is a 500 (not a 404), and stores nothing. */
  lemma UpdateOfMissingIdIs500(repo: Repo, id: string, input: UpdateTaskInput, now: Instant)
    requires repo.fault.None? && id !in repo.tasks
    requires MinTitle <= |input.title| <= MaxTitle
    ensures UpdateTask(repo, id, Success(input), now) ==
      Handled(repo, Reply(StatusInternalServerError, ErrorBody("Failed to update task", "record not found")))
  {
  }
}
