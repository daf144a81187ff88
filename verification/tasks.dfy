/** The task record and the array operations the handlers perform on the
    in-memory `tasks` list: `findIndex` by id, `splice` of one element, and the
    `filter(t => !t.completed)` behind the `active_tasks` gauge. */
module Tasks {
  import opened Optional

  /** One stored task. `updatedAt` is absent until the first update. */
  datatype Task = Task(
    id: string,
    title: string,
    description: string,
    completed: bool,
    createdAt: string,
    updatedAt: Option<string>)

  /** `i` is the first index of `tasks` whose task has this id. */
  ghost predicate IsFirst(tasks: seq<Task>, id: string, i: int) {
    && 0 <= i < |tasks|
    && tasks[i].id == id
    && forall j :: 0 <= j < i ==> tasks[j].id != id
  }

  /** Some task in the list carries this id. */
  predicate HasId(tasks: seq<Task>, id: string) {
    exists j :: 0 <= j < |tasks| && tasks[j].id == id
  }

  /** No two tasks in the list share an id. */
  ghost predicate UniqueIds(tasks: seq<Task>) {
    forall i, j :: 0 <= i < j < |tasks| ==> tasks[i].id != tasks[j].id
  }

  /** `tasks.findIndex(t => t.id === id)`, with the `-1` result as `None`. */
  function FindIndex(tasks: seq<Task>, id: string): (r: Option<nat>)
    ensures r.Some? ==> IsFirst(tasks, id, r.value)
    ensures r.None? <==> !HasId(tasks, id)
  {
    if |tasks| == 0 then None
    else if tasks[0].id == id then Some(0)
    else
      match FindIndex(tasks[1..], id)
      case None => None
      case Some(i) => Some(i + 1)
  }

  /** `tasks.splice(i, 1)`: the list without its element at `i`. */
  function RemoveAt(tasks: seq<Task>, i: nat): (r: seq<Task>)
    requires i < |tasks|
    ensures |r| == |tasks| - 1
    ensures forall j :: 0 <= j < i ==> r[j] == tasks[j]
    ensures forall j :: i <= j < |r| ==> r[j] == tasks[j + 1]
  {
    tasks[..i] + tasks[i + 1..]
  }

  /** `tasks.filter(t => !t.completed)`: the uncompleted tasks, in list order. */
  function Active(tasks: seq<Task>): (r: seq<Task>)
    ensures |r| <= |tasks|
  {
    if |tasks| == 0 then []
    else (if tasks[0].completed then [] else [tasks[0]]) + Active(tasks[1..])
  }

  /** The filtered list holds exactly the uncompleted tasks of the list. */
  lemma {:induction false} ActiveMembers(tasks: seq<Task>)
    ensures forall t :: t in Active(tasks) <==> t in tasks && !t.completed
  {
    if |tasks| > 0 {
      assert tasks == [tasks[0]] + tasks[1..];
      ActiveMembers(tasks[1..]);
    }
  }

  /** How much one task contributes to the gauge. */
  function Weight(t: Task): nat {
    if t.completed then 0 else 1
  }

  /** The value the `active_tasks` gauge is set to: the number of uncompleted
      tasks, which is the length of the filtered list. */
  function ActiveCount(tasks: seq<Task>): (n: nat)
    ensures n == |Active(tasks)|
    ensures n <= |tasks|
  {
    if |tasks| == 0 then 0 else Weight(tasks[0]) + ActiveCount(tasks[1..])
  }

  /** Filtering distributes over concatenation. */
  lemma {:induction false} ActiveConcat(a: seq<Task>, b: seq<Task>)
    ensures Active(a + b) == Active(a) + Active(b)
  {
    if |a| == 0 {
      assert a + b == b;
    } else {
      assert (a + b)[1..] == a[1..] + b;
      ActiveConcat(a[1..], b);
    }
  }

  /** Appending one task raises the count by that task's weight. */
  lemma ActiveCountAppend(tasks: seq<Task>, t: Task)
    ensures ActiveCount(tasks + [t]) == ActiveCount(tasks) + Weight(t)
  {
    ActiveConcat(tasks, [t]);
    assert [t][1..] == [];
  }

  /** Removing the task at `i` lowers the count by that task's weight. */
  lemma ActiveCountRemove(tasks: seq<Task>, i: nat)
    requires i < |tasks|
    ensures ActiveCount(RemoveAt(tasks, i)) == ActiveCount(tasks) - Weight(tasks[i])
  {
    ActiveSplit(tasks, i);
    ActiveConcat(tasks[..i], tasks[i + 1..]);
    assert RemoveAt(tasks, i) == tasks[..i] + tasks[i + 1..];
  }

  /** The filter over a list is the filter of the part before `i`, then the
      task at `i` if uncompleted, then the filter of the part after it. */
  lemma ActiveSplit(tasks: seq<Task>, i: nat)
    requires i < |tasks|
    ensures |Active(tasks)| == |Active(tasks[..i])| + Weight(tasks[i]) + |Active(tasks[i + 1..])|
  {
    var pre, post := tasks[..i], tasks[i + 1..];
    assert tasks == pre + ([tasks[i]] + post);
    ActiveConcat(pre, [tasks[i]] + post);
    ActiveConcat([tasks[i]], post);
    assert [tasks[i]][1..] == [];
  }

  /** Replacing the task at `i` by `t` changes the count by the difference of
      their weights. */
  lemma ActiveCountReplace(tasks: seq<Task>, i: nat, t: Task)
    requires i < |tasks|
    ensures ActiveCount(tasks[i := t]) + Weight(tasks[i]) == ActiveCount(tasks) + Weight(t)
  {
    var pre, post := tasks[..i], tasks[i + 1..];
    assert tasks == pre + ([tasks[i]] + post);
    assert tasks[i := t] == pre + ([t] + post);
    ActiveConcat(pre, [tasks[i]] + post);
    ActiveConcat([tasks[i]], post);
    ActiveConcat(pre, [t] + post);
    ActiveConcat([t], post);
    assert [tasks[i]][1..] == [];
    assert [t][1..] == [];
  }

  /** Removing one element keeps ids unique. */
  lemma RemoveAtKeepsUniqueIds(tasks: seq<Task>, i: nat)
    requires i < |tasks| && UniqueIds(tasks)
    ensures UniqueIds(RemoveAt(tasks, i))
  {
    var r := RemoveAt(tasks, i);
    forall a, b | 0 <= a < b < |r| ensures r[a].id != r[b].id {
      var a' := if a < i then a else a + 1;
      var b' := if b < i then b else b + 1;
      assert r[a] == tasks[a'] && r[b] == tasks[b'];
    }
  }
}
