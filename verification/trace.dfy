/** Requests as a sequence of atomic steps, and the properties every reachable
    state of the store keeps. */
module Trace {
  import opened Optional
  import opened Counters
  import opened Tasks
  import opened TaskApi

  /** One request to the task routes, with the uuid and timestamps it would
      draw already chosen. */
  datatype Request =
    | ListTasks
    | CreateTask(create: CreateRequest, newId: string, createdAt: string)
    | UpdateTask(id: string, update: UpdateRequest, updatedAt: string)
    | DeleteTask(id: string)

  /** A create request must come with an id no stored task has. */
  predicate Admissible(s: State, req: Request) {
    req.CreateTask? ==> !HasId(s.tasks, req.newId)
  }

  /** The handler the router dispatches the request to. */
  function Step(s: State, req: Request): (r: Reply)
    requires Admissible(s, req)
    ensures r.status >= 400 ==> r.next == s
    ensures NoDecrease(s.counters, r.next.counters)
  {
    match req
    case ListTasks => List(s)
    case CreateTask(c, id, now) => Create(s, c, id, now)
    case UpdateTask(id, u, now) => Update(s, id, u, now)
    case DeleteTask(id) => Delete(s, id)
  }

  /** Every step of the trace is admissible in the state it meets. */
  predicate ValidTrace(s: State, reqs: seq<Request>)
    decreases |reqs|
  {
    |reqs| == 0 || (Admissible(s, reqs[0]) && ValidTrace(Step(s, reqs[0]).next, reqs[1..]))
  }

  /** The state after handling the requests in order. */
  function Run(s: State, reqs: seq<Request>): State
    requires ValidTrace(s, reqs)
    decreases |reqs|
  {
    if |reqs| == 0 then s else Run(Step(s, reqs[0]).next, reqs[1..])
  }

  /** What holds of every state the server can reach: ids are unique, the
      gauge equals the number of uncompleted tasks, and every stored task was
      counted as created and not yet as deleted. */
  ghost predicate Inv(s: State) {
    && UniqueIds(s.tasks)
    && s.gauge == ActiveCount(s.tasks)
    && Value(s.counters, Created) == Value(s.counters, Deleted) + |s.tasks|
  }

  lemma InitInv()
    ensures Inv(Init)
  {
  }

  /** A request raises at most one counter label, by exactly one. */
  lemma StepCounterEffect(s: State, req: Request)
    requires Admissible(s, req)
    ensures var c := Step(s, req).next.counters;
      || c == s.counters
      || c == Inc(s.counters, Created)
      || c == Inc(s.counters, Deleted)
      || c == Inc(s.counters, TaskCompleted)
      || c == Inc(s.counters, TaskReopened)
    ensures req.ListTasks? ==> Step(s, req).next == s
  {
  }

  /** Creating a task with a title raises the gauge by one, as a delta-tracked
      gauge would. */
  lemma CreateGaugeDelta(s: State, req: CreateRequest, id: string, now: string)
    requires !HasId(s.tasks, id) && s.gauge == ActiveCount(s.tasks)
    requires !Falsy(req.title)
    ensures Create(s, req, id, now).next.gauge == s.gauge + 1
  {
    var r := Create(s, req, id, now);
    var t := r.next.tasks[|s.tasks|];
    assert r.next.tasks == s.tasks + [t];
    ActiveCountAppend(s.tasks, t);
  }

  /** Updating a task moves the recomputed gauge by the change in that task's
      weight: down one on completion, up one on reopening, otherwise unchanged. */
  lemma UpdateGaugeDelta(s: State, id: string, req: UpdateRequest, now: string, i: nat)
    requires s.gauge == ActiveCount(s.tasks) && IsFirst(s.tasks, id, i)
    ensures var r := Update(s, id, req, now);
      r.next.gauge + Weight(s.tasks[i]) == s.gauge + Weight(r.next.tasks[i])
  {
    var r := Update(s, id, req, now);
    assert r.status == 200;
    assert r.next.tasks == s.tasks[i := r.next.tasks[i]];
    ActiveCountReplace(s.tasks, i, r.next.tasks[i]);
  }

  /** Deleting a task lowers the gauge by one exactly when it was uncompleted. */
  lemma DeleteGaugeDelta(s: State, id: string, i: nat)
    requires s.gauge == ActiveCount(s.tasks) && IsFirst(s.tasks, id, i)
    ensures Delete(s, id).next.gauge + Weight(s.tasks[i]) == s.gauge
  {
    var r := Delete(s, id);
    assert r.status == 204;
    assert r.next.tasks == RemoveAt(s.tasks, i);
    ActiveCountRemove(s.tasks, i);
  }

  /** Each handler keeps the reachable-state invariant. */
  lemma StepKeepsInv(s: State, req: Request)
    requires Inv(s) && Admissible(s, req)
    ensures Inv(Step(s, req).next)
  {
    var r := Step(s, req);
    match req
    case ListTasks =>
    case CreateTask(c, id, now) =>
      if r.status == 201 {
        var t := r.next.tasks[|s.tasks|];
        assert r.next.tasks == s.tasks + [t];
        assert t.id == id && t in r.next.tasks;
        forall a, b | 0 <= a < b < |r.next.tasks|
          ensures r.next.tasks[a].id != r.next.tasks[b].id
        {
          if b == |s.tasks| {
            assert r.next.tasks[a] in s.tasks;
          }
        }
      }
    case UpdateTask(id, u, now) =>
      if r.status == 200 {
        var i := FindIndex(s.tasks, id).value;
        assert IsFirst(s.tasks, id, i);
        forall a, b | 0 <= a < b < |r.next.tasks|
          ensures r.next.tasks[a].id != r.next.tasks[b].id
        {
          assert s.tasks[a].id != s.tasks[b].id;
        }
      }
    case DeleteTask(id) =>
      if r.status == 204 {
        var i := FindIndex(s.tasks, id).value;
        assert IsFirst(s.tasks, id, i);
        RemoveAtKeepsUniqueIds(s.tasks, i);
      }
  }

  /** Every state reached from an invariant state keeps the invariant. */
  lemma {:induction false} RunKeepsInv(s: State, reqs: seq<Request>)
    requires Inv(s) && ValidTrace(s, reqs)
    ensures Inv(Run(s, reqs))
    decreases |reqs|
  {
    if |reqs| > 0 {
      StepKeepsInv(s, reqs[0]);
      RunKeepsInv(Step(s, reqs[0]).next, reqs[1..]);
    }
  }

  /** Counters never decrease over any sequence of requests. */
  lemma {:induction false} RunCountersNoDecrease(s: State, reqs: seq<Request>)
    requires ValidTrace(s, reqs)
    ensures NoDecrease(s.counters, Run(s, reqs).counters)
    decreases |reqs|
  {
    if |reqs| > 0 {
      var s' := Step(s, reqs[0]).next;
      RunCountersNoDecrease(s', reqs[1..]);
      NoDecreaseTransitive(s.counters, s'.counters, Run(s, reqs).counters);
    }
  }

  /** The end-to-end scenario: POST {title: "x"}, then PUT {completed: true}
      on the new task, then DELETE it. */
  lemma CreateCompleteDelete(s: State, id: string, t0: string, t1: string)
    requires Inv(s) && !HasId(s.tasks, id)
    ensures var s1 := Create(s, CreateRequest(Some("x"), None), id, t0);
      var s2 := Update(s1.next, id, UpdateRequest(None, None, Some(true)), t1);
      var s3 := Delete(s2.next, id);
      && s1.status == 201 && s2.status == 200 && s3.status == 204
      && Value(s1.next.counters, Created) == Value(s.counters, Created) + 1
      && s1.next.gauge == s.gauge + 1
      && Value(s2.next.counters, TaskCompleted) == Value(s.counters, TaskCompleted) + 1
      && s2.next.gauge == s.gauge
      && Value(s3.next.counters, Deleted) == Value(s.counters, Deleted) + 1
      && s3.next.gauge == s.gauge
  {
    var n := |s.tasks|;
    var s1 := Create(s, CreateRequest(Some("x"), None), id, t0);
    CreateGaugeDelta(s, CreateRequest(Some("x"), None), id, t0);
    assert IsFirst(s1.next.tasks, id, n) by {
      forall j | 0 <= j < n ensures s1.next.tasks[j].id != id {
        assert s1.next.tasks[j] == s.tasks[j];
        assert s.tasks[j] in s.tasks;
      }
    }
    assert !s1.next.tasks[n].completed;
    var s2 := Update(s1.next, id, UpdateRequest(None, None, Some(true)), t1);
    assert s2.status == 200;
    assert s2.next.tasks[n].completed;
    assert s2.next.counters == Inc(s1.next.counters, TaskCompleted);
    UpdateGaugeDelta(s1.next, id, UpdateRequest(None, None, Some(true)), t1, n);
    assert IsFirst(s2.next.tasks, id, n);
    var s3 := Delete(s2.next, id);
    assert s3.status == 204;
    DeleteGaugeDelta(s2.next, id, n);
  }
}
