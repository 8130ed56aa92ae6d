# Project details page: task-list state machine

This project models the task list of the project details page of a small
project manager front end (`ProjectDetails`, a React component). The page
holds five state cells: the task list, whether the create form is shown,
the form's title and due date, and the create error text. Four handlers
change them. `fetchTasks` replaces the list. `handleCreateTask` posts the
form. `handleToggleComplete` flips a task's completion flag. `handleDeleteTask`
asks for confirmation and then deletes. A button also shows and hides the
form, and two inputs update the title and due date.

Every remote call is an input here. An `Outcome` is either `Ok(payload)` or
`Fail(message)`, and the message is optional. The delete confirmation is a
boolean argument.

Files and modules:

- `wrappers.dfy` (`Wrappers`): `Option`.
- `types.dfy` (`Types`): `Task`, `CreateTaskDto`, `UpdateTaskDto`. The types
  file `frontend/src/types` is not part of this model. The page reads a
  task's `id`, `title`, `dueDate` and `isCompleted` (lines 139-160) and sends
  the two payloads (lines 44-47, 60). `Task.projectId` is never read by the
  page; it is kept because the store assigns each task to one project.
- `transport.dfy` (`Transport`): `Outcome`, and `Request`, the four requests
  the page sends (list, create, update, delete).
- `handlers.dfy` (`Handlers`): the specification as values. It holds
  `PageState` (the five cells) and `Event` (one user intent together with
  the outcomes of the calls it makes). `Step` gives the state after an
  event and `Requests` gives what the event sends. It also has the payload
  builders and the error fallback.
- `page.dfy` (`ProjectDetailsPage`): class `Page`, with the five cells as
  fields and `sent`, the log of requests. Each handler is a method that
  sets the fields in the order the component's setters run. Its `ensures`
  give every field after the call, branch by branch, and tie the new state
  to `Step` and the new log to `Requests`.
- `traces.dfy` (`Traces`): lemmas about whole sessions (`Run`, `Sent`),
  proved by induction.

A refresh that a mutation triggers is modelled as one atomic step right
after the mutation succeeds. Its outcome is the event's `refreshed` field.

Two behaviours of the code are worth stating plainly:

- A create with an empty title is not rejected by the handler.
  `handleCreateTask` does not check the title; only the form input's
  `required` attribute (line 112) blocks an empty submit. The model posts
  whatever title is in the form.
- A late list response is never discarded, even if it was issued for a
  project that is no longer shown. The model adds no such guard, and each
  refresh applies its payload.

## Model

| member | source | states |
|---|---|---|
| `Handlers.CreatePayload` | frontend/src/pages/ProjectDetails.tsx:44-47 | The create payload carries the form's title unchanged. Its due date is absent exactly when the form's due date is `""`, and otherwise it is the form value, so the form value can be read back from the payload. |
| `Handlers.TogglePayload` | frontend/src/pages/ProjectDetails.tsx:60 | The update payload's `isCompleted` is the opposite of the clicked task's flag. |
| `Handlers.CreateErrorMessage` | frontend/src/pages/ProjectDetails.tsx:54 | The create error text is never empty. It is the failure's message when that is present and non-empty, and `'Failed to create task'` when it is absent or `""`. |
| `Handlers.Step` | frontend/src/pages/ProjectDetails.tsx:30-76 | After any event, `tasks` is the listing the event applied, or the old list when none was applied. Failed refreshes, failed toggles, and declined or failed deletes leave the state equal to the old one. Only a create changes `error`. Only the form button (line 97) or a successful create changes `showForm`, and a create only hides the form. Only typing (lines 111, 121) or a successful create changes `title`/`dueDate`, and a create only clears them. |
| `Handlers.Requests` | frontend/src/pages/ProjectDetails.tsx:30-76 | A fetch sends exactly one list request. A declined delete sends nothing, and a confirmed one first sends a delete for its task id; no delete request is sent for any other id. A create first posts `CreatePayload` of the current form. A toggle first sends `TogglePayload` to the task's id. The form button and the two inputs send nothing. A mutation is followed by a list request exactly when it succeeded. |
| `Traces.RunSnoc` | frontend/src/pages/ProjectDetails.tsx:30-76 | Running a session one event longer is one more `Step`: the handlers compose sequentially. |
| `Traces.RunTasksIsLastListing` | frontend/src/pages/ProjectDetails.tsx:30-37 | After any session, the list equals the last listing an event applied (a successful fetch, or the refresh after a successful mutation), or the starting list if none was applied. |
| `Traces.LastListingIsReceived` | frontend/src/pages/ProjectDetails.tsx:33 | The last applied listing is the starting list or one of the listings the session received. |
| `Traces.TasksAreSnapshot` | frontend/src/pages/ProjectDetails.tsx:33 | The list the page holds is always the starting list or a list the store returned during the session. It is never patched locally. |
| `Traces.LastFetchWins` | frontend/src/pages/ProjectDetails.tsx:32-33 | A session that ends with a successful listing shows exactly that listing, whatever came before. |
| `Traces.NoOpsAreInvisible` | frontend/src/pages/ProjectDetails.tsx:58-76 | Dropping every failed refresh, failed toggle, and declined or failed delete from a session leaves its final state unchanged. |
| `Traces.DeleteNeedsConfirmation` | frontend/src/pages/ProjectDetails.tsx:68-72 | Every delete request sent in a session belongs to a delete the user confirmed for that same task id. |
| `Traces.ErrorComesFromFailedCreate` | frontend/src/pages/ProjectDetails.tsx:39-55 | After any session, `error` is its starting value, `""`, or the error text of a create in the session that failed. |
| `Traces.RunErrorIsLastError` | frontend/src/pages/ProjectDetails.tsx:41-54 | After any session, `error` is exactly what the last create left: `""` if it succeeded, `CreateErrorMessage` of its failure if it failed, or the starting value if the session held no create. |
| `Traces.RetryResendsSamePayload` | frontend/src/pages/ProjectDetails.tsx:41-55 | After a failed create, submitting again posts the same payload, because a failure keeps the title and due date. |
| `ProjectDetailsPage.Page.constructor` | frontend/src/pages/ProjectDetails.tsx:10-14 | The page mounts with an empty list, the form hidden, and empty title, due date and error. |
| `ProjectDetailsPage.Page.FetchTasks` | frontend/src/pages/ProjectDetails.tsx:30-37 | Sends one list request. On success `tasks` is exactly the payload, and on failure it is unchanged. The form fields and `error` are unchanged. |
| `ProjectDetailsPage.Page.HandleCreateTask` | frontend/src/pages/ProjectDetails.tsx:39-56 | Posts `CreatePayload` of the form as it was. On success, title and due date are `""`, the form is hidden, `error` is `""`, and a refresh is sent. The list is then the refreshed payload, or unchanged if the refresh failed, and the form stays cleared either way. On failure, `error` is `CreateErrorMessage` of the failure, and title, due date, form visibility and list are unchanged. |
| `ProjectDetailsPage.Page.HandleToggleComplete` | frontend/src/pages/ProjectDetails.tsx:58-66 | Sends `{isCompleted: !task.isCompleted}` to `task.id`. It refreshes only when the update succeeded. A failed update changes no state. Form fields and `error` are never touched. |
| `ProjectDetailsPage.Page.HandleDeleteTask` | frontend/src/pages/ProjectDetails.tsx:68-77 | When declined, it sends nothing and changes nothing. When confirmed, it sends a delete for `taskId` and refreshes only on success. A failed delete changes no state. |
| `ProjectDetailsPage.Page.ToggleForm` | frontend/src/pages/ProjectDetails.tsx:97 | Flips `showForm` and keeps `title`, `dueDate`, `error` and the list. It sends nothing. |
| `ProjectDetailsPage.Page.SetTitle` | frontend/src/pages/ProjectDetails.tsx:111 | Sets `title` to the typed value. Nothing else changes. |
| `ProjectDetailsPage.Page.SetDueDate` | frontend/src/pages/ProjectDetails.tsx:121 | Sets `dueDate` to the typed value. Nothing else changes. |

## Left out

- Rendering, CSS classes, and the loading and empty-list views (lines 79-172): these are presentation only.
- The `fetchProject` call, the project header and navigation back to the dashboard (lines 21-28, 83-90): they are read-only page chrome and never touch the task state.
- The `api` HTTP module: it is not part of this model. Each call's result is an `Outcome` input, and the request log `sent` stands for the calls made.
- `console.error` logging: a logged failure is modelled as no state change.
- Events run one at a time: each event runs from its first request to its last response with no other event in between. The code has no in-flight guard and never disables the submit button (line 125), so two behaviours are not captured. First, submitting twice before the first post resolves posts the same `{title, dueDate}` twice in the code, because lines 44-48 read a title that has not been cleared yet; in the model the second submit posts the cleared form. Second, text typed while a create is pending is never sent, and line 49 wipes it on success; the model cannot express typing during a request. `HandleCreateTask` ("posts the form as it was") and `RetryResendsSamePayload` rely on this one-at-a-time reading.
- Concurrency: the initial `useEffect` fetch and its re-run when `id` changes (lines 16-19) are not modelled, and neither is the interleaving of un-awaited `fetchTasks()` calls. A caller performs the mount-time fetch as an explicit `FetchTasks`. Each refresh is one atomic step.
- The remote store itself: whether a refreshed listing contains a newly created task, or shows a toggled flag, depends on the server and is not modelled.
- Messages that are not strings: `err.response?.data?.message` is modelled as an optional string, so a truthy non-string message is outside the model.
- Locale-dependent date display (line 153): it depends on the platform.
