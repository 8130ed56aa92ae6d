/**
 * The `ProjectDetails` component as an object: the five state cells are
 * fields, each handler is a method that sets them in the order the
 * component's setters run, and `sent` records what went to the transport.
 */
module ProjectDetailsPage {
  import opened Wrappers
  import opened Types
  import opened Transport
  import opened Handlers

  class Page {
    /** The `id` route parameter the page was opened with. */
    const projectId: string

    var tasks: seq<Task>
    var showForm: bool
    var title: string
    var dueDate: string
    var error: string

    /** Requests handed to the transport so far, oldest first. */
    var sent: seq<Request>

    /** The component state as a value. */
    function State(): PageState
      reads this
    {
      PageState(tasks, showForm, title, dueDate, error)
    }

    /** Mounting: every state cell takes its initial value. */
    constructor (projectId: string)
      ensures this.projectId == projectId
      ensures tasks == [] && !showForm && title == "" && dueDate == "" && error == ""
      ensures State() == Initial && sent == []
    {
      this.projectId := projectId;
      tasks, showForm, title, dueDate, error := [], false, "", "", "";
      sent := [];
    }

    /** `fetchTasks`: replace the list on success, keep it on failure. */
    method FetchTasks(listed: Outcome<seq<Task>>)
      modifies this
      ensures sent == old(sent) + [ListTasks(projectId)]
      ensures listed.Ok? ==> tasks == listed.payload
      ensures listed.Fail? ==> tasks == old(tasks)
      ensures showForm == old(showForm) && title == old(title)
      ensures dueDate == old(dueDate) && error == old(error)
      ensures State() == Step(old(State()), Fetched(listed))
    {
      sent := sent + [ListTasks(projectId)];
      match listed
      case Ok(payload) => tasks := payload;
      case Fail(_) =>
    }

    /**
     * `handleCreateTask`: clear the error, post the form, then either clear
     * and hide the form and refresh, or show the failure's message.
     */
    method HandleCreateTask(created: Outcome<Task>, refreshed: Outcome<seq<Task>>)
      modifies this
      ensures created.Ok? ==>
        title == "" && dueDate == "" && !showForm && error == "" &&
        tasks == (if refreshed.Ok? then refreshed.payload else old(tasks)) &&
        sent == old(sent) + [CreateTask(projectId, CreatePayload(old(title), old(dueDate))), ListTasks(projectId)]
      ensures created.Fail? ==>
        error == CreateErrorMessage(created.message) &&
        title == old(title) && dueDate == old(dueDate) && showForm == old(showForm) && tasks == old(tasks) &&
        sent == old(sent) + [CreateTask(projectId, CreatePayload(old(title), old(dueDate)))]
      ensures State() == Step(old(State()), CreateSubmitted(created, refreshed))
      ensures sent == old(sent) + Requests(projectId, old(State()), CreateSubmitted(created, refreshed))
    {
      error := "";
      var dto := CreatePayload(title, dueDate);
      sent := sent + [CreateTask(projectId, dto)];
      match created
      case Ok(_) =>
        title := "";
        dueDate := "";
        showForm := false;
        FetchTasks(refreshed);
      case Fail(message) =>
        error := CreateErrorMessage(message);
    }

    /** `handleToggleComplete`: send the negated flag, refresh on success. */
    method HandleToggleComplete(task: Task, updated: Outcome<Task>, refreshed: Outcome<seq<Task>>)
      modifies this
      ensures updated.Ok? ==>
        tasks == (if refreshed.Ok? then refreshed.payload else old(tasks)) &&
        sent == old(sent) + [UpdateTask(task.id, UpdateTaskDto(!task.isCompleted)), ListTasks(projectId)]
      ensures updated.Fail? ==>
        tasks == old(tasks) &&
        sent == old(sent) + [UpdateTask(task.id, UpdateTaskDto(!task.isCompleted))]
      ensures showForm == old(showForm) && title == old(title)
      ensures dueDate == old(dueDate) && error == old(error)
      ensures State() == Step(old(State()), ToggleClicked(task, updated, refreshed))
      ensures sent == old(sent) + Requests(projectId, old(State()), ToggleClicked(task, updated, refreshed))
    {
      var dto := TogglePayload(task);
      sent := sent + [UpdateTask(task.id, dto)];
      if updated.Ok? {
        FetchTasks(refreshed);
      }
    }

    /** `handleDeleteTask`: ask first; when confirmed, delete and refresh on success. */
    method HandleDeleteTask(taskId: int, confirmed: bool, deleted: Outcome<()>, refreshed: Outcome<seq<Task>>)
      modifies this
      ensures !confirmed ==> State() == old(State()) && sent == old(sent)
      ensures confirmed && deleted.Ok? ==>
        tasks == (if refreshed.Ok? then refreshed.payload else old(tasks)) &&
        sent == old(sent) + [DeleteTask(taskId), ListTasks(projectId)]
      ensures confirmed && deleted.Fail? ==>
        tasks == old(tasks) && sent == old(sent) + [DeleteTask(taskId)]
      ensures showForm == old(showForm) && title == old(title)
      ensures dueDate == old(dueDate) && error == old(error)
      ensures State() == Step(old(State()), DeleteClicked(taskId, confirmed, deleted, refreshed))
      ensures sent == old(sent) + Requests(projectId, old(State()), DeleteClicked(taskId, confirmed, deleted, refreshed))
    {
      if !confirmed {
        return;
      }
      sent := sent + [DeleteTask(taskId)];
      if deleted.Ok? {
        FetchTasks(refreshed);
      }
    }

    /** The "+ Add Task" / "Cancel" button: flip the form, keep what was typed. */
    method ToggleForm()
      modifies this
      ensures showForm == !old(showForm)
      ensures tasks == old(tasks) && title == old(title) && dueDate == old(dueDate) && error == old(error)
      ensures sent == old(sent)
      ensures State() == Step(old(State()), FormToggled)
    {
      showForm := !showForm;
    }

    /** The title input's change handler. */
    method SetTitle(value: string)
      modifies this
      ensures title == value
      ensures tasks == old(tasks) && showForm == old(showForm) && dueDate == old(dueDate) && error == old(error)
      ensures sent == old(sent)
      ensures State() == Step(old(State()), TitleTyped(value))
    {
      title := value;
    }

    /** The due-date input's change handler. */
    method SetDueDate(value: string)
      modifies this
      ensures dueDate == value
      ensures tasks == old(tasks) && showForm == old(showForm) && title == old(title) && error == old(error)
      ensures sent == old(sent)
      ensures State() == Step(old(State()), DueDateTyped(value))
    {
      dueDate := value;
    }
  }
}
