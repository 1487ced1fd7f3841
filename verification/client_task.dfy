/** The client's in-memory task record and the body it hands to the API layer. */
module ClientTask {
  import opened Wrappers

  /** A task as the list, the card and the form see it; `dueDate` is a `YYYY-MM-DD` calendar date. */
  datatype Task = Task(
    id: string,
    title: string,
    description: string,
    dueDate: string,
    completed: bool,
    createdAt: string,
    updatedAt: string)

  /**
    The four fields passed to `createTask`/`updateTask`. Title and description
    are declared strings but may arrive as null at run time, hence `Option`.
   */
  datatype Draft = Draft(
    title: Option<string>,
    description: Option<string>,
    dueDate: string,
    completed: bool)
}
