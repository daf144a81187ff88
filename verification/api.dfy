/** The `/api/tasks` route handlers as pure transitions over the process state:
    the `tasks` list, the `tasks_total` counter and the `active_tasks` gauge.
    Each handler body runs to completion on Node's single thread, so each
    request is one atomic step. The uuid and the ISO timestamps are inputs; a new task's id is assumed
    not to be in use already, which the code leaves to the uuid generator. */
module TaskApi {
  import opened Optional
  import opened Counters
  import opened Tasks

  datatype State = State(tasks: seq<Task>, counters: Counter, gauge: nat)

  /** The JSON sent back: the list, one task, nothing (204) or an error object. */
  datatype Body = TaskList(all: seq<Task>) | One(task: Task) | NoContent | Error(message: string)

  datatype Reply = Reply(status: int, body: Body, next: State)

  /** The fields `req.body` may carry; an absent field is `undefined`. */
  datatype CreateRequest = CreateRequest(title: Option<string>, description: Option<string>)
  datatype UpdateRequest = UpdateRequest(
    title: Option<string>,
    description: Option<string>,
    completed: Option<bool>)

  /** At start-up: no tasks, no counter series, gauge at zero. */
  const Init: State := State([], map[], 0)

  /** `!title`: an absent or empty title is falsy, any other string is not. */
  predicate Falsy(title: Option<string>): (b: bool)
    ensures b <==> title == None || title == Some("")
    ensures !b ==> |title.value| > 0
  {
    title.None? || title.value == ""
  }

  /** `updateActiveTasksGauge()`: the gauge is set from a full count of the
      uncompleted tasks, never adjusted by a delta. Nothing else changes. */
  function RecomputeGauge(s: State): (r: State)
    ensures r.gauge == |Active(s.tasks)|
    ensures r.gauge <= |s.tasks|
    ensures r.tasks == s.tasks && r.counters == s.counters
  {
    s.(gauge := ActiveCount(s.tasks))
  }

  /** GET /api/tasks. */
  function List(s: State): (r: Reply)
    ensures r.status == 200
    ensures r.body == TaskList(s.tasks)
    ensures r.next == s
  {
    Reply(200, TaskList(s.tasks), s)
  }

  /** POST /api/tasks with a fresh `id` and creation time `now`. */
  function Create(s: State, req: CreateRequest, id: string, now: string): (r: Reply)
    requires !HasId(s.tasks, id)
    ensures r.status == 400 <==> Falsy(req.title)
    ensures r.status == 400 ==> r.next == s && r.body == Error("Title is required")
    ensures r.status != 400 ==> r.status == 201
    ensures r.status == 201 ==>
      && |r.next.tasks| == |s.tasks| + 1
      && r.next.tasks[..|s.tasks|] == s.tasks
      && r.body == One(r.next.tasks[|s.tasks|])
    ensures r.status == 201 ==>
      var t := r.next.tasks[|s.tasks|];
      && t.id == id
      && t.title == req.title.value
      && (req.description.Some? ==> t.description == req.description.value)
      && (req.description.None? ==> t.description == "")
      && !t.completed
      && t.createdAt == now
      && t.updatedAt.None?
    ensures r.status == 201 ==> r.next.counters == Inc(s.counters, Created)
    ensures r.status == 201 ==> r.next.gauge == ActiveCount(r.next.tasks)
  {
    if Falsy(req.title) then
      Reply(400, Error("Title is required"), s)
    else
      var task := Task(id, req.title.value, req.description.GetOr(""), false, now, None);
      var tasks := s.tasks + [task];
      assert tasks[..|s.tasks|] == s.tasks;
      Reply(201, One(task), RecomputeGauge(State(tasks, Inc(s.counters, Created), s.gauge)))
  }

  /** The object spread of the update handler: present fields overwrite,
      absent ones keep the old value, and `updatedAt` is stamped. */
  function Merge(prev: Task, req: UpdateRequest, now: string): (r: Task)
    ensures r.id == prev.id && r.createdAt == prev.createdAt
    ensures r.updatedAt == Some(now)
    ensures req.title.Some? ==> r.title == req.title.value
    ensures req.title.None? ==> r.title == prev.title
    ensures req.description.Some? ==> r.description == req.description.value
    ensures req.description.None? ==> r.description == prev.description
    ensures req.completed.Some? ==> r.completed == req.completed.value
    ensures req.completed.None? ==> r.completed == prev.completed
    ensures req == UpdateRequest(None, None, None) ==> r == prev.(updatedAt := Some(now))
  {
    prev.(
      title := req.title.GetOr(prev.title),
      description := req.description.GetOr(prev.description),
      completed := req.completed.GetOr(prev.completed),
      updatedAt := Some(now))
  }

  /** Applying the same update twice at the same time gives the same task. */
  lemma MergeIdempotent(prev: Task, req: UpdateRequest, now: string)
    ensures Merge(Merge(prev, req, now), req, now) == Merge(prev, req, now)
  {
  }

  /** The business-event counter a status change bumps, if any. */
  function StatusEvent(c: Counter, wasCompleted: bool, isCompleted: bool): (r: Counter)
    ensures Value(r, TaskCompleted) ==
      Value(c, TaskCompleted) + (if !wasCompleted && isCompleted then 1 else 0)
    ensures Value(r, TaskReopened) ==
      Value(c, TaskReopened) + (if wasCompleted && !isCompleted then 1 else 0)
    ensures forall op :: op != TaskCompleted && op != TaskReopened ==> Value(r, op) == Value(c, op)
    ensures wasCompleted == isCompleted ==> r == c
  {
    if wasCompleted == isCompleted then c
    else if isCompleted then Inc(c, TaskCompleted)
    else Inc(c, TaskReopened)
  }

  /** PUT /api/tasks/:id at time `now`. */
  function Update(s: State, id: string, req: UpdateRequest, now: string): (r: Reply)
    ensures r.status == 404 <==> !HasId(s.tasks, id)
    ensures r.status == 404 ==> r.next == s && r.body == Error("Task not found")
    ensures r.status != 404 ==> r.status == 200
    ensures r.status == 200 ==>
      && |r.next.tasks| == |s.tasks|
      && r.next.gauge == ActiveCount(r.next.tasks)
    ensures forall i :: r.status == 200 && IsFirst(s.tasks, id, i) ==>
      && (forall j :: 0 <= j < |s.tasks| && j != i ==> r.next.tasks[j] == s.tasks[j])
      && r.body == One(r.next.tasks[i])
      && r.next.tasks[i].id == s.tasks[i].id
      && r.next.tasks[i].createdAt == s.tasks[i].createdAt
      && r.next.tasks[i].updatedAt == Some(now)
      && r.next.tasks[i].title == (if req.title.Some? then req.title.value else s.tasks[i].title)
      && r.next.tasks[i].description ==
           (if req.description.Some? then req.description.value else s.tasks[i].description)
      && r.next.tasks[i].completed ==
           (if req.completed.Some? then req.completed.value else s.tasks[i].completed)
    ensures forall i :: r.status == 200 && IsFirst(s.tasks, id, i) ==>
      var was, now' := s.tasks[i].completed, r.next.tasks[i].completed;
      && (was == now' ==> r.next.counters == s.counters)
      && (!was && now' ==> r.next.counters == Inc(s.counters, TaskCompleted))
      && (was && !now' ==> r.next.counters == Inc(s.counters, TaskReopened))
  {
    match FindIndex(s.tasks, id)
    case None => Reply(404, Error("Task not found"), s)
    case Some(i) =>
      var prev := s.tasks[i];
      var task := Merge(prev, req, now);
      var tasks := s.tasks[i := task];
      var counters := StatusEvent(s.counters, prev.completed, task.completed);
      Reply(200, One(task), RecomputeGauge(State(tasks, counters, s.gauge)))
  }

  /** DELETE /api/tasks/:id. */
  function Delete(s: State, id: string): (r: Reply)
    ensures r.status == 404 <==> !HasId(s.tasks, id)
    ensures r.status == 404 ==> r.next == s && r.body == Error("Task not found")
    ensures r.status != 404 ==> r.status == 204 && r.body == NoContent
    ensures r.status == 204 ==>
      && |r.next.tasks| == |s.tasks| - 1
      && r.next.counters == Inc(s.counters, Deleted)
      && r.next.gauge == ActiveCount(r.next.tasks)
    ensures forall i :: r.status == 204 && IsFirst(s.tasks, id, i) ==>
      r.next.tasks == s.tasks[..i] + s.tasks[i + 1..]
  {
    match FindIndex(s.tasks, id)
    case None => Reply(404, Error("Task not found"), s)
    case Some(i) =>
      var tasks := RemoveAt(s.tasks, i);
      Reply(204, NoContent, RecomputeGauge(State(tasks, Inc(s.counters, Deleted), s.gauge)))
  }
}
