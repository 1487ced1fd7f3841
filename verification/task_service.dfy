/**
  The task service: validation, due-date parsing and field updates over the
  repository. The uuid generator and `time.Now()` are parameters.
 */
module TaskService {
  import opened Wrappers
  import opened Models
  import CalendarDate
  import TaskRepository

  type Repo = TaskRepository.Repo

  datatype ServiceError =
    | Invalid(field: FieldError)
    | BadDueDate(parse: CalendarDate.ParseError)
    | Store(repo: TaskRepository.RepoError)

  /** `err.Error()` of a service error. */
  function ErrorText(e: ServiceError): string {
    match e
    case Invalid(f) => FieldErrorText(f)
    case BadDueDate(p) => CalendarDate.ErrorText(p)
    case Store(r) => TaskRepository.RepoErrorText(r)
  }

  /** Go's `(models.Task, error)` pair together with the repository after the call. */
  datatype Outcome = Outcome(repo: Repo, task: Task, err: Option<ServiceError>)

  /** `GetAllTasks`. */
  function GetAllTasks(repo: Repo): (r: Result<set<Task>, ServiceError>)
    ensures r.Success? <==> repo.fault.None?
    ensures r.Success? ==> r.value == repo.tasks.Values
    ensures r.Failure? ==> r.error == Store(TaskRepository.DatabaseFault(repo.fault.value))
  {
    match TaskRepository.FindAll(repo)
    case Failure(e) => Failure(Store(e))
    case Success(tasks) => Success(tasks)
  }

  /** `GetTaskByID`: the stored task, or the zero task with the repository's error. */
  function GetTaskByID(repo: Repo, id: string): (r: (Task, Option<ServiceError>))
    ensures r.1.None? <==> repo.fault.None? && id in repo.tasks
    ensures r.1.None? ==> r.0 == repo.tasks[id]
    ensures r.1.Some? ==> r.0 == ZeroTask && r.1.value.Store?
    ensures repo.fault.None? && id !in repo.tasks ==> r.1 == Some(Store(TaskRepository.RecordNotFound))
    ensures repo.fault.Some? ==> r.1 == Some(Store(TaskRepository.DatabaseFault(repo.fault.value)))
  {
    match TaskRepository.FindByID(repo, id)
    case Failure(e) => (ZeroTask, Some(Store(e)))
    case Success(t) => (t, None)
  }

  /**
    `CreateTask`: validate, parse the due date, then insert a task with the
    fresh id `newId` and the two clock readings `created` and `updated`.
   */
  function CreateTask(repo: Repo, input: CreateTaskInput, newId: string, created: Instant, updated: Instant): (r: Outcome)
    ensures ValidateCreateInput(input).Some? ==> r == Outcome(repo, ZeroTask, Some(Invalid(ValidateCreateInput(input).value)))
    ensures ValidateCreateInput(input).None? && CreateDueDate(input).Failure? ==>
      r == Outcome(repo, ZeroTask, Some(BadDueDate(CreateDueDate(input).error)))
    ensures ValidateCreateInput(input).None? && CreateDueDate(input).Success? && repo.fault.Some? ==>
      r == Outcome(repo, ZeroTask, Some(Store(TaskRepository.DatabaseFault(repo.fault.value))))
    ensures ValidateCreateInput(input).None? && CreateDueDate(input).Success? && repo.fault.None? && newId in repo.tasks ==>
      r == Outcome(repo, ZeroTask, Some(Store(TaskRepository.DuplicateKey(newId))))
    ensures r.err.None? <==>
      ValidateCreateInput(input).None? && CreateDueDate(input).Success? && repo.fault.None? && newId !in repo.tasks
    ensures r.err.Some? ==> r.repo == repo && r.task == ZeroTask
    ensures r.err.None? ==>
      && r.task == Task(newId, input.title, input.description, input.completed, CreateDueDate(input).value, created, updated)
      && r.repo == repo.(tasks := repo.tasks[newId := r.task])
  {
    match ValidateCreateInput(input)
    case Some(f) => Outcome(repo, ZeroTask, Some(Invalid(f)))
    case None =>
      match CreateDueDate(input)
      case Failure(p) => Outcome(repo, ZeroTask, Some(BadDueDate(p)))
      case Success(dueDate) =>
        var task := Task(newId, input.title, input.description, input.completed, dueDate, created, updated);
        match TaskRepository.Create(repo, task)
        case (repo', Failure(e)) => Outcome(repo', ZeroTask, Some(Store(e)))
        case (repo', Success(t)) => Outcome(repo', t, None)
  }

  /** The stored task after an update: the date only when one was given, the three input fields always. */
  function Revise(stored: Task, input: UpdateTaskInput, dueDate: CalendarDate.Date, now: Instant): (t: Task)
    ensures t.id == stored.id && t.createdAt == stored.createdAt
    ensures t.title == input.title && t.description == input.description && t.completed == input.completed
    ensures t.dueDate == (if input.dueDate == "" then stored.dueDate else dueDate)
    ensures t.updatedAt == now
  {
    stored.(dueDate := if input.dueDate == "" then stored.dueDate else dueDate,
         title := input.title, description := input.description, completed := input.completed,
         updatedAt := now)
  }

  /**
    `UpdateTask`: validate, look the task up, parse a non-empty due date,
    overwrite the fields and save.
   */
  function UpdateTask(repo: Repo, id: string, input: UpdateTaskInput, now: Instant): (r: Outcome)
    ensures ValidateUpdateInput(input).Some? ==> r == Outcome(repo, ZeroTask, Some(Invalid(ValidateUpdateInput(input).value)))
    ensures ValidateUpdateInput(input).None? && repo.fault.None? && id !in repo.tasks ==>
      r == Outcome(repo, ZeroTask, Some(Store(TaskRepository.RecordNotFound)))
    ensures ValidateUpdateInput(input).None? && repo.fault.Some? ==>
      r == Outcome(repo, ZeroTask, Some(Store(TaskRepository.DatabaseFault(repo.fault.value))))
    ensures ValidateUpdateInput(input).None? && repo.fault.None? && id in repo.tasks && UpdateDueDate(input).Failure? ==>
      r == Outcome(repo, ZeroTask, Some(BadDueDate(UpdateDueDate(input).error)))
    ensures r.err.None? <==>
      && ValidateUpdateInput(input).None? && repo.fault.None? && id in repo.tasks
      && UpdateDueDate(input).Success?
    ensures r.err.Some? ==> r.repo == repo && r.task == ZeroTask
    ensures r.err.None? ==>
      && r.task.id == repo.tasks[id].id
      && r.task.createdAt == repo.tasks[id].createdAt
      && r.task.title == input.title && r.task.description == input.description
      && r.task.completed == input.completed
      && r.task.updatedAt == now
      && (input.dueDate == "" ==> r.task.dueDate == repo.tasks[id].dueDate)
      && (input.dueDate != "" ==> CalendarDate.Valid(r.task.dueDate) && CalendarDate.Format(r.task.dueDate) == input.dueDate)
      && r.repo == repo.(tasks := repo.tasks[r.task.id := r.task])
  {
    match ValidateUpdateInput(input)
    case Some(f) => Outcome(repo, ZeroTask, Some(Invalid(f)))
    case None =>
      match TaskRepository.FindByID(repo, id)
      case Failure(e) => Outcome(repo, ZeroTask, Some(Store(e)))
      case Success(stored) =>
        if input.dueDate != "" && UpdateDueDate(input).Failure? then
          Outcome(repo, ZeroTask, Some(BadDueDate(UpdateDueDate(input).error)))
        else
          var task := Revise(stored, input, UpdateDueDate(input).value, now);
          match TaskRepository.Update(repo, task)
          case (repo', Failure(e)) => Outcome(repo', ZeroTask, Some(Store(e)))
          case (repo', Success(t)) => Outcome(repo', t, None)
  }

  /** `DeleteTask`: propagates the repository's error and nothing else. */
  function DeleteTask(repo: Repo, id: string): (r: (Repo, Option<ServiceError>))
    ensures r.1.None? <==> repo.fault.None?
    ensures r.1.None? ==> r.0.tasks == repo.tasks - {id} && r.0.fault == repo.fault
    ensures r.1.Some? ==> r.0 == repo && r.1 == Some(Store(TaskRepository.DatabaseFault(repo.fault.value)))
  {
    match TaskRepository.Delete(repo, id)
    case (repo', Some(e)) => (repo', Some(Store(e)))
    case (repo', None) => (repo', None)
  }

  /** A created task can be read back under its new id, and nothing else changed. */
  lemma CreateThenGet(repo: Repo, input: CreateTaskInput, newId: string, created: Instant, updated: Instant)
    requires CreateTask(repo, input, newId, created, updated).err.None?
    ensures var r := CreateTask(repo, input, newId, created, updated);
      && GetTaskByID(r.repo, newId) == (r.task, None)
      && r.task.title == input.title && r.task.description == input.description
      && r.task.completed == input.completed
      && forall k :: k != newId ==> GetTaskByID(r.repo, k) == GetTaskByID(repo, k)
  {
  }

  /** An update touches only its own row: every other id reads back as before. */
  lemma UpdateTouchesOnlyItsRow(repo: Repo, id: string, input: UpdateTaskInput, now: Instant, other: string)
    requires TaskRepository.Consistent(repo)
    requires other != id
    ensures var r := UpdateTask(repo, id, input, now);
      GetTaskByID(r.repo, other) == GetTaskByID(repo, other)
  {
    var r := UpdateTask(repo, id, input, now);
    if r.err.None? {
      assert r.task.id == id;
    }
  }

  /** An update keeps every row stored under its own id. */
  lemma UpdatePreservesConsistency(repo: Repo, id: string, input: UpdateTaskInput, now: Instant)
    requires TaskRepository.Consistent(repo)
    ensures TaskRepository.Consistent(UpdateTask(repo, id, input, now).repo)
  {
  }

  /** Creation keeps every row stored under its own id. */
  lemma CreatePreservesConsistency(repo: Repo, input: CreateTaskInput, newId: string, created: Instant, updated: Instant)
    requires TaskRepository.Consistent(repo)
    ensures TaskRepository.Consistent(CreateTask(repo, input, newId, created, updated).repo)
  {
  }

  /** Repeating the same update (at the same clock reading) changes nothing further. */
  lemma UpdateIsIdempotent(repo: Repo, id: string, input: UpdateTaskInput, now: Instant)
    requires TaskRepository.Consistent(repo)
    requires UpdateTask(repo, id, input, now).err.None?
    ensures var once := UpdateTask(repo, id, input, now);
      UpdateTask(once.repo, id, input, now) == once
  {
    var once := UpdateTask(repo, id, input, now);
    assert once.task.id == id;
    assert once.repo.tasks[id] == once.task;
  }

  /** After a successful delete the id reads as not found; deleting again also succeeds. */
  lemma DeleteThenGet(repo: Repo, id: string)
    requires DeleteTask(repo, id).1.None?
    ensures GetTaskByID(DeleteTask(repo, id).0, id) == (ZeroTask, Some(Store(TaskRepository.RecordNotFound)))
    ensures DeleteTask(DeleteTask(repo, id).0, id) == DeleteTask(repo, id)
  {
    var once := DeleteTask(repo, id).0;
    assert once.tasks - {id} == once.tasks;
  }
}
