/**
 * The task-list state machine of the project details page, as values.
 * A user intent together with the outcomes of the remote calls it makes is
 * an `Event`; `Step` gives the page state after the event and `Requests`
 * the requests it hands to the transport, in order.
 */
module Handlers {
  import opened Wrappers
  import opened Types
  import opened Transport

  /** Shown when a failed create carries no usable message. */
  const CreateTaskFallback: string := "Failed to create task"

  /** The five pieces of component state. */
  datatype PageState = PageState(
    tasks: seq<Task>,
    showForm: bool,
    title: string,
    dueDate: string,
    error: string)

  /** The state the component mounts with. */
  const Initial: PageState := PageState([], false, "", "", "")

  /**
   * A user intent and the outcomes of the calls it issues. A `refreshed`
   * outcome is that of the list request sent after a successful mutation;
   * it is ignored when no refresh is sent.
   */
  datatype Event =
    | Fetched(listed: Outcome<seq<Task>>)
    | CreateSubmitted(created: Outcome<Task>, refreshed: Outcome<seq<Task>>)
    | ToggleClicked(task: Task, updated: Outcome<Task>, refreshed: Outcome<seq<Task>>)
    | DeleteClicked(taskId: int, confirmed: bool, deleted: Outcome<()>, refreshed: Outcome<seq<Task>>)
    | FormToggled
    | TitleTyped(value: string)
    | DueDateTyped(value: string)

  /**
   * The create payload built from the form. JavaScript's `dueDate || undefined`
   * drops the date exactly when it is falsy, and the only falsy string is "".
   */
  function CreatePayload(title: string, dueDate: string): (dto: CreateTaskDto)
    ensures dto.title == title
    ensures dto.dueDate.None? <==> dueDate == ""
    ensures dto.dueDate.GetOr("") == dueDate
  {
    CreateTaskDto(title, if dueDate == "" then None else Some(dueDate))
  }

  /** The update payload for a checkbox click: the flag negated. */
  function TogglePayload(task: Task): (dto: UpdateTaskDto)
    ensures dto.isCompleted != task.isCompleted
  {
    UpdateTaskDto(!task.isCompleted)
  }

  /**
   * The message shown after a failed create: the server's message when it is
   * present and non-empty (`||` treats "" like undefined), else the fallback.
   */
  function CreateErrorMessage(message: Option<string>): (r: string)
    ensures r != ""
    ensures message.Some? && message.value != "" ==> r == message.value
    ensures message.None? || message.value == "" ==> r == CreateTaskFallback
  {
    match message
    case Some(m) => if m != "" then m else CreateTaskFallback
    case None => CreateTaskFallback
  }

  /** An event after which the page state is exactly what it was before. */
  predicate IsNoOp(e: Event) {
    match e
    case Fetched(listed) => listed.Fail?
    case ToggleClicked(_, updated, _) => updated.Fail?
    case DeleteClicked(_, confirmed, deleted, _) => !confirmed || deleted.Fail?
    case _ => false
  }

  /** Whether the event dispatched a mutation that the server accepted. */
  predicate MutationSucceeded(e: Event) {
    match e
    case CreateSubmitted(created, _) => created.Ok?
    case ToggleClicked(_, updated, _) => updated.Ok?
    case DeleteClicked(_, confirmed, deleted, _) => confirmed && deleted.Ok?
    case _ => false
  }

  /** The listing, if any, that the event puts into `tasks`. */
  function Listing(e: Event): Option<seq<Task>> {
    match e
    case Fetched(listed) => if listed.Ok? then Some(listed.payload) else None
    case _ =>
      if MutationSucceeded(e) && e.refreshed.Ok? then Some(e.refreshed.payload) else None
  }

  /** `fetchTasks`: a successful listing replaces the whole list. */
  function Refresh(s: PageState, listed: Outcome<seq<Task>>): PageState {
    if listed.Ok? then s.(tasks := listed.payload) else s
  }

  /** The page state after one event. */
  function Step(s: PageState, e: Event): (t: PageState)
    ensures Listing(e).Some? ==> t.tasks == Listing(e).value
    ensures Listing(e).None? ==> t.tasks == s.tasks
    ensures IsNoOp(e) ==> t == s
    ensures t.error != s.error ==> e.CreateSubmitted?
    ensures t.showForm != s.showForm ==>
      e.FormToggled? || (e.CreateSubmitted? && e.created.Ok? && !t.showForm)
    ensures t.title != s.title || t.dueDate != s.dueDate ==>
      e.TitleTyped? || e.DueDateTyped? ||
      (e.CreateSubmitted? && e.created.Ok? && t.title == "" && t.dueDate == "")
  {
    match e
    case Fetched(listed) => Refresh(s, listed)
    case CreateSubmitted(created, refreshed) =>
      if created.Ok? then
        Refresh(s.(title := "", dueDate := "", showForm := false, error := ""), refreshed)
      else
        s.(error := CreateErrorMessage(created.message))
    case ToggleClicked(_, updated, refreshed) =>
      if updated.Ok? then Refresh(s, refreshed) else s
    case DeleteClicked(_, confirmed, deleted, refreshed) =>
      if !confirmed then s
      else if deleted.Ok? then Refresh(s, refreshed) else s
    case FormToggled => s.(showForm := !s.showForm)
    case TitleTyped(value) => s.(title := value)
    case DueDateTyped(value) => s.(dueDate := value)
  }

  /** The requests one event hands to the transport, in the order sent. */
  function Requests(projectId: string, s: PageState, e: Event): (r: seq<Request>)
    ensures e.DeleteClicked? && !e.confirmed ==> r == []
    ensures forall i :: 0 <= i < |r| && r[i].DeleteTask? ==>
      e.DeleteClicked? && e.confirmed && r[i].taskId == e.taskId
    ensures e.CreateSubmitted? ==>
      |r| > 0 && r[0] == CreateTask(projectId, CreatePayload(s.title, s.dueDate))
    ensures e.ToggleClicked? ==>
      |r| > 0 && r[0] == UpdateTask(e.task.id, TogglePayload(e.task))
    ensures e.DeleteClicked? && e.confirmed ==>
      |r| > 0 && r[0] == DeleteTask(e.taskId)
    ensures e.Fetched? ==> r == [ListTasks(projectId)]
    ensures e.FormToggled? || e.TitleTyped? || e.DueDateTyped? ==> r == []
    ensures !e.Fetched? ==>
      (ListTasks(projectId) in r <==> MutationSucceeded(e))
  {
    var refresh := [ListTasks(projectId)];
    match e
    case Fetched(_) => refresh
    case CreateSubmitted(created, _) =>
      [CreateTask(projectId, CreatePayload(s.title, s.dueDate))] + (if created.Ok? then refresh else [])
    case ToggleClicked(task, updated, _) =>
      [UpdateTask(task.id, TogglePayload(task))] + (if updated.Ok? then refresh else [])
    case DeleteClicked(taskId, confirmed, deleted, _) =>
      if !confirmed then []
      else [DeleteTask(taskId)] + (if deleted.Ok? then refresh else [])
    case _ => []
  }

  /** The page state after a whole trace of events. */
  function Run(s: PageState, es: seq<Event>): PageState
    decreases |es|
  {
    if es == [] then s else Run(Step(s, es[0]), es[1..])
  }

  /** Every request the page sends during a trace, in order. */
  function Sent(projectId: string, s: PageState, es: seq<Event>): seq<Request>
    decreases |es|
  {
    if es == [] then [] else Requests(projectId, s, es[0]) + Sent(projectId, Step(s, es[0]), es[1..])
  }
}
