/**
  The task table as a map from id to task. `fault` stands for a database
  failure: while it is set every operation fails with it.
 */
module TaskRepository {
  import opened Wrappers
  import opened Models

  datatype Repo = Repo(tasks: map<string, Task>, fault: Option<string>)

  datatype RepoError = RecordNotFound | DuplicateKey(id: string) | DatabaseFault(text: string)

  /** The `Error()` text of a repository error (GORM's "record not found"; driver texts abstracted). */
  function RepoErrorText(e: RepoError): string {
    match e
    case RecordNotFound => "record not found"
    case DuplicateKey(id) => "duplicate key value violates unique constraint: " + id
    case DatabaseFault(text) => text
  }

  /** Every row is stored under its own id. */
  predicate Consistent(repo: Repo) {
    forall id :: id in repo.tasks ==> repo.tasks[id].id == id
  }

  /** `FindAll`: every row (SQL returns them in no particular order). */
  function FindAll(repo: Repo): (r: Result<set<Task>, RepoError>)
    ensures r.Success? <==> repo.fault.None?
    ensures r.Success? ==> r.value == repo.tasks.Values
    ensures r.Failure? ==> r.error == DatabaseFault(repo.fault.value)
  {
    match repo.fault
    case Some(text) => Failure(DatabaseFault(text))
    case None => Success(repo.tasks.Values)
  }

  /** `FindByID`. */
  function FindByID(repo: Repo, id: string): (r: Result<Task, RepoError>)
    ensures r.Success? <==> repo.fault.None? && id in repo.tasks
    ensures r.Success? ==> r.value == repo.tasks[id]
    ensures repo.fault.None? && id !in repo.tasks ==> r == Failure(RecordNotFound)
    ensures repo.fault.Some? ==> r == Failure(DatabaseFault(repo.fault.value))
  {
    match repo.fault
    case Some(text) => Failure(DatabaseFault(text))
    case None => if id in repo.tasks then Success(repo.tasks[id]) else Failure(RecordNotFound)
  }

  /** `Create`: an INSERT, refused when the primary key is taken. */
  function Create(repo: Repo, task: Task): (r: (Repo, Result<Task, RepoError>))
    ensures r.1.Success? <==> repo.fault.None? && task.id !in repo.tasks
    ensures r.1.Success? ==> r.0 == repo.(tasks := repo.tasks[task.id := task]) && r.1.value == task
    ensures r.1.Failure? ==> r.0 == repo
    ensures r.1.Failure? ==> r.1.error == (if repo.fault.Some? then DatabaseFault(repo.fault.value) else DuplicateKey(task.id))
  {
    match repo.fault
    case Some(text) => (repo, Failure(DatabaseFault(text)))
    case None =>
      if task.id in repo.tasks then (repo, Failure(DuplicateKey(task.id)))
      else (repo.(tasks := repo.tasks[task.id := task]), Success(task))
  }

  /** `Update` (GORM `Save`): writes every column of the row with this id, inserting it if missing. */
  function Update(repo: Repo, task: Task): (r: (Repo, Result<Task, RepoError>))
    ensures r.1.Success? <==> repo.fault.None?
    ensures r.1.Success? ==> r.0 == repo.(tasks := repo.tasks[task.id := task]) && r.1.value == task
    ensures r.1.Failure? ==> r.0 == repo && r.1.error == DatabaseFault(repo.fault.value)
  {
    match repo.fault
    case Some(text) => (repo, Failure(DatabaseFault(text)))
    case None => (repo.(tasks := repo.tasks[task.id := task]), Success(task))
  }

  /** `Delete`: removing no row is not an error. */
  function Delete(repo: Repo, id: string): (r: (Repo, Option<RepoError>))
    ensures r.1.None? <==> repo.fault.None?
    ensures r.1.None? ==> r.0 == repo.(tasks := repo.tasks - {id})
    ensures r.1.Some? ==> r.0 == repo && r.1.value == DatabaseFault(repo.fault.value)
  {
    match repo.fault
    case Some(text) => (repo, Some(DatabaseFault(text)))
    case None => (repo.(tasks := repo.tasks - {id}), None)
  }
}
