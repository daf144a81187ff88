# Task tracker store — a Dafny model

This project models the in-memory task store of the task-tracker backend
(`backend/src/index.js`): the ordered `tasks` list, the `tasks_total` counter
labelled by `operation`, and the `active_tasks` gauge. Each `/api/tasks` route
handler is a pure transition from a state and a request to an HTTP status, a
response body and the next state. Node runs each synchronous handler body to
completion, so a request is one atomic step and a run of the server is a
sequence of steps.

Modules:

- `Optional` (`optional.dfy`): absent-or-present request-body fields.
- `Counters` (`counters.dfy`): the counter as a map from label to count, with the
  four label values the handlers use: `created`, `deleted`, `task_completed`
  and `task_reopened`.
- `Tasks` (`tasks.dfy`): the task record, `findIndex` by id, `splice` of one
  element and the `filter(t => !t.completed)` count behind the gauge, with
  lemmas on how that count moves when a task is appended, replaced or removed.
- `TaskApi` (`api.dfy`): the state, GET/POST/PUT/DELETE handlers and the gauge
  recompute.
- `Trace` (`trace.dfy`): requests as steps, runs of requests, and the
  reachable-state invariant (unique ids, gauge equal to the number of
  uncompleted tasks, `created` minus `deleted` equal to the list length).

The uuid of a new task and the ISO timestamps are inputs to the handlers. A
create must be given an id no stored task carries. The code does not check
this and relies on the uuid generator, for which a collision is improbable but
not impossible. The counter label names follow the code (`task_completed`,
`task_reopened`).

## Model

| member | source | states |
|---|---|---|
| Counters.Inc | backend/src/index.js:74 | incrementing a label raises that label's count by exactly one and leaves every other label's count unchanged |
| Tasks.FindIndex | backend/src/index.js:91 | the lookup yields the first index whose task has the id, and yields nothing exactly when no task has that id |
| Tasks.RemoveAt | backend/src/index.js:132 | removing one element shortens the list by one, keeps the elements before it in place and shifts the ones after it down by one |
| Tasks.RemoveAtKeepsUniqueIds | backend/src/index.js:132 | removing one task from a list with unique ids leaves the ids unique |
| Tasks.ActiveMembers | backend/src/index.js:41 | the filtered list holds exactly the uncompleted tasks of the list |
| Tasks.ActiveConcat | backend/src/index.js:41 | filtering a concatenation is the concatenation of the filtered parts, so the filter keeps list order |
| Tasks.ActiveCountAppend | backend/src/index.js:40-43 | appending a task raises the uncompleted count by one exactly when that task is uncompleted |
| Tasks.ActiveCountRemove | backend/src/index.js:40-43 | removing a task lowers the uncompleted count by one exactly when that task was uncompleted |
| Tasks.ActiveCountReplace | backend/src/index.js:40-43 | replacing a task changes the uncompleted count by the difference of the two tasks' completion weights |
| TaskApi.Falsy | backend/src/index.js:60 | `!title` holds exactly for an absent title and for the empty string; any title it lets through is a non-empty string |
| Tasks.Active | backend/src/index.js:41 | the filtered list is never longer than the list; its contents are stated by `Tasks.ActiveMembers` |
| Tasks.ActiveCount | backend/src/index.js:41 | the count of uncompleted tasks, summed task by task, equals the length of the filtered list and is at most the list length |
| Tasks.ActiveSplit | backend/src/index.js:41 | the filtered length of a list is the filtered length before a position, plus the weight of the task there, plus the filtered length after it |
| TaskApi.RecomputeGauge | backend/src/index.js:40-43 | the gauge is set to the length of the filtered list of uncompleted tasks, which is at most the number of tasks, and the tasks and counters are left as they are |
| TaskApi.Merge | backend/src/index.js:99-105 | the merged task keeps its id and creation time, gets the update time, takes each present field from the request and keeps each absent one; an empty request changes only the update time |
| TaskApi.MergeIdempotent | backend/src/index.js:99-105 | applying the same update again at the same time changes nothing further |
| TaskApi.StatusEvent | backend/src/index.js:108-110 | `task_completed` rises by one exactly on false to true, `task_reopened` exactly on true to false, no other label changes, and an unchanged status leaves the counter as it was |
| TaskApi.List | backend/src/index.js:51-54 | GET returns 200 with the whole list and changes no task, counter or gauge |
| TaskApi.Create | backend/src/index.js:57-84 | POST answers 400 exactly when the title is absent or empty, and then changes nothing; otherwise 201 with one task appended after the unchanged earlier tasks, carrying the given id, title and time, description defaulting to empty, not completed, `created` incremented and the gauge equal to the uncompleted count |
| TaskApi.Update | backend/src/index.js:87-120 | PUT answers 404 exactly when no task has the id, and then changes nothing; otherwise 200, only the first task with the id changes, present fields overwrite and absent ones keep their value, id and creation time are kept, `task_completed` is incremented exactly on false to true, `task_reopened` exactly on true to false, no counter changes when completion is unchanged, and the gauge equals the uncompleted count |
| TaskApi.Delete | backend/src/index.js:123-142 | DELETE answers 404 exactly when no task has the id, and then changes nothing; otherwise 204 with exactly the first task with that id removed, the others kept in order, `deleted` incremented and the gauge equal to the uncompleted count |
| Trace.Step | backend/src/index.js:51-142 | a request answered with an error status leaves the state unchanged, and no request lowers any counter |
| Trace.StepCounterEffect | backend/src/index.js:51-142 | a request leaves the counters unchanged or increments exactly one of the four labels by one, and GET changes nothing |
| Trace.InitInv | backend/src/index.js:37 | the empty start-up store satisfies the invariant |
| Trace.CreateGaugeDelta | backend/src/index.js:73-75 | from a consistent state, a successful create raises the recomputed gauge by one |
| Trace.UpdateGaugeDelta | backend/src/index.js:99-118 | from a consistent state, an update moves the recomputed gauge down one on completion, up one on reopening and not at all otherwise |
| Trace.DeleteGaugeDelta | backend/src/index.js:132-134 | from a consistent state, a delete lowers the recomputed gauge by one exactly when the removed task was uncompleted |
| Trace.StepKeepsInv | backend/src/index.js:65-134 | every handler keeps ids unique, the gauge equal to the number of uncompleted tasks, and `created` equal to `deleted` plus the list length |
| Trace.RunKeepsInv | backend/src/index.js:37-142 | every state reached by a sequence of requests keeps that invariant |
| Trace.RunCountersNoDecrease | backend/src/index.js:74-133 | over any sequence of requests no counter label ever decreases |
| Trace.CreateCompleteDelete | backend/src/index.js:57-142 | creating a task with title "x", completing it and deleting it gives 201, 200, 204; `created`, `task_completed` and `deleted` each rise by one; the gauge goes up one, back down one, and stays put on the delete |

## Left out

- The request-duration middleware and its histogram observation (`backend/src/index.js:15-34`): wall-clock time, floating-point seconds and the metrics library's bucket semantics.
- `backend/src/metrics.js` and the `/metrics` endpoint: configuration and rendering by the metrics library, whose code is not part of this model. The counter is a map from label to count and the gauge a natural number.
- The `/health` route, the top-level error handler, the CORS and JSON-body middleware, `app.listen` and port selection: framework plumbing.
- Logger calls and structured log records: output only, with no effect on the state.
- uuid generation and ISO timestamps: inputs to the handlers, not behaviour.
- Concurrency: each handler is synchronous on Node's single thread, so requests are modelled as a sequence of atomic steps.
- Non-string `title`/`description` and non-boolean `completed` values in a JSON body: the fields are typed, so falsy values other than an absent field or `""` (for example `null`, `0`, `false`) are not modelled.
- TaskApi.Create: requires the new id to be fresh; the code does not check this and relies on the uuid generator.
- TaskApi.Update: the PUT handler does not validate `title`, so an empty title is stored as given; the model does the same.
- The browser client (`frontend/src/App.jsx`): UI state and `fetch` calls to this API.
