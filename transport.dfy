/**
 * The HTTP layer seen from the page: the requests it hands over and the
 * outcome each one comes back with. The transport itself is an input.
 */
module Transport {
  import opened Wrappers
  import opened Types

  /** What a call resolves to: the response payload, or a rejection that may
      carry the server's `message`. */
  datatype Outcome<+T> = Ok(payload: T) | Fail(message: Option<string>)

  /** A request addressed to the task resource. */
  datatype Request =
    | ListTasks(projectId: string)                          // GET /projects/{id}/tasks
    | CreateTask(projectId: string, create: CreateTaskDto)  // POST /projects/{id}/tasks
    | UpdateTask(taskId: int, update: UpdateTaskDto)        // PUT /tasks/{taskId}
    | DeleteTask(taskId: int)                               // DELETE /tasks/{taskId}
}
