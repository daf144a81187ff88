/** The labelled counter `tasks_total{operation}`. A label that has never been
    incremented has no entry and reads as zero; `inc()` adds exactly one. */
module Counters {

  type Counter = map<string, nat>

  /** The four `operation` label values the task handlers use. */
  const Created: string := "created"
  const Deleted: string := "deleted"
  const TaskCompleted: string := "task_completed"
  const TaskReopened: string := "task_reopened"

  /** The current count of one label. */
  function Value(c: Counter, op: string): nat {
    if op in c then c[op] else 0
  }

  /** `taskCounter.labels(op).inc()`. */
  function Inc(c: Counter, op: string): (r: Counter)
    ensures Value(r, op) == Value(c, op) + 1
    ensures forall other :: other != op ==> Value(r, other) == Value(c, other)
    ensures r.Keys == c.Keys + {op}
  {
    c[op := Value(c, op) + 1]
  }

  /** No op's count is smaller in `c'` than in `c`. */
  ghost predicate NoDecrease(c: Counter, c': Counter) {
    forall op :: Value(c, op) <= Value(c', op)
  }

  lemma NoDecreaseTransitive(c0: Counter, c1: Counter, c2: Counter)
    requires NoDecrease(c0, c1) && NoDecrease(c1, c2)
    ensures NoDecrease(c0, c2)
  {
  }
}
