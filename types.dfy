/** The records the page exchanges with the task resource. */
module Types {
  import opened Wrappers

  /** A task as listed by the remote store; its fields are fixed by the store. */
  datatype Task = Task(
    id: int,
    projectId: int,
    title: string,
    dueDate: Option<string>,
    isCompleted: bool)

  /** Body of a create request: the title and an optional due date. */
  datatype CreateTaskDto = CreateTaskDto(title: string, dueDate: Option<string>)

  /** Body of an update request; the page only ever sends the completion flag. */
  datatype UpdateTaskDto = UpdateTaskDto(isCompleted: bool)
}
