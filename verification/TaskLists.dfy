/** The intrusive task lists of Kernel/Scheduler/tasks.cpp: singly linked through the one `next`
    pointer every task block has, with a head and a tail. A task is named by the address of its
    block, and the `next` fields of all blocks together form one map. */
module TaskLists {

  /** Address of a task block; no block is at NULL. */
  type Task = int
  const NULL: Task := 0

  /** Address of a waiting list. */
  type Sync = int

  datatype TaskState = Running | Ready | Sleeping | Blocked | Stopped | Paused

  predicate NoDup(q: seq<Task>) {
    forall i, j :: 0 <= i < j < |q| ==> q[i] != q[j]
  }

  function IndexOf(q: seq<Task>, t: Task): (i: nat)
    requires t in q
    ensures i < |q| && q[i] == t
    ensures t !in q[..i]
  {
    if q[0] == t then 0 else 1 + IndexOf(q[1..], t)
  }

  /** The list after `_enqueue_task`. A task that is on the list already becomes its tail, which
      cuts off every task that stood behind it. */
  function Enqueued(q: seq<Task>, t: Task): seq<Task> {
    if t in q then q[..IndexOf(q, t) + 1] else q + [t]
  }

  /** Enqueueing a task twice is harmless exactly when it is the last one. */
  lemma EnqueuedTwice(q: seq<Task>, t: Task)
    requires t in q && NoDup(q)
    ensures Enqueued(q, t) == q <==> q[|q| - 1] == t
  {
    var i := IndexOf(q, t);
    if q[|q| - 1] == t {
      assert i == |q| - 1;
    } else {
      assert |Enqueued(q, t)| < |q|;
    }
  }

  // ---------- Chains of next pointers ----------

  datatype Queue = Queue(head: Task, tail: Task)

  /** The task at position i, or NULL past either end. */
  function At(items: seq<Task>, i: int): Task {
    if 0 <= i < |items| then items[i] else NULL
  }

  /** Following `next` from the head visits `items` and ends in NULL at the tail. */
  predicate Links(next: map<Task, Task>, q: Queue, items: seq<Task>) {
    && q.head == At(items, 0) && q.tail == At(items, |items| - 1)
    && (forall i :: 0 <= i < |items| ==> items[i] != NULL && items[i] in next && next[items[i]] == At(items, i + 1))
  }

  /** The task at position k stands nowhere else. */
  predicate Alone(items: seq<Task>, k: int) {
    forall i :: 0 <= i < |items| && i != k && 0 <= k < |items| ==> items[i] != items[k]
  }

  /** A list in memory: its links visit every one of `items` exactly once. */
  predicate Chain(next: map<Task, Task>, q: Queue, items: seq<Task>) {
    NoDup(items) && Links(next, q, items)
  }

  /** Writes to the `next` fields of other tasks leave a list alone. */
  lemma ChainElsewhere(next: map<Task, Task>, next': map<Task, Task>, q: Queue, items: seq<Task>)
    requires Chain(next, q, items)
    requires forall t | t in items :: t in next' && t in next && next'[t] == next[t]
    ensures Chain(next', q, items)
  {
  }

  /** The memory determines the list. */
  lemma {:induction false} LinksUnique(next: map<Task, Task>, q: Queue, items: seq<Task>, others: seq<Task>, n: nat)
    requires Links(next, q, items) && Links(next, q, others) && n <= |items|
    ensures n <= |others| && forall i :: 0 <= i < n ==> items[i] == others[i]
  {
    if n > 0 {
      LinksUnique(next, q, items, others, n - 1);
      assert items[n - 1] == if n == 1 then q.head else next[items[n - 2]];
      assert items[n - 1] == At(others, n - 1);
    }
  }

  lemma LinksAppended(next: map<Task, Task>, q: Queue, items: seq<Task>, t: Task)
    requires Links(next, q, items) && t != NULL && t !in items && Alone(items, |items| - 1)
    ensures var linked := if q.tail != NULL then next[q.tail := t] else next;
            Links(linked[t := NULL], Queue(if q.head == NULL then t else q.head, t), items + [t])
  {
    assert forall i :: 0 <= i < |items| ==> items[i] in items;
  }

  lemma LinksCut(next: map<Task, Task>, q: Queue, items: seq<Task>, k: nat)
    requires Links(next, q, items) && k < |items| && Alone(items, |items| - 1) && Alone(items, k)
    ensures Links(next[q.tail := items[k]][items[k] := NULL], Queue(q.head, items[k]), items[..k + 1])
  {
  }

  lemma ChainEnqueued(next: map<Task, Task>, q: Queue, items: seq<Task>, t: Task)
    requires Chain(next, q, items) && t != NULL
    ensures var linked := if q.tail != NULL then next[q.tail := t] else next;
            Chain(linked[t := NULL], Queue(if q.head == NULL then t else q.head, t), Enqueued(items, t))
  {
    Distinct(items, |items| - 1);
    if t in items {
      Distinct(items, IndexOf(items, t));
      LinksCut(next, q, items, IndexOf(items, t));
    } else {
      LinksAppended(next, q, items, t);
    }
  }

  lemma Distinct(items: seq<Task>, k: int)
    requires NoDup(items)
    ensures Alone(items, k)
  {
  }

  lemma LinksDequeued(next: map<Task, Task>, q: Queue, items: seq<Task>)
    requires Links(next, q, items) && items != [] && Alone(items, 0)
    ensures var head := next[q.head];
            Links(next[q.head := NULL], Queue(head, if head == NULL then NULL else q.tail), items[1..])
  {
    assert forall i :: 0 <= i < |items| - 1 ==> items[1..][i] == items[i + 1];
  }

  lemma ChainDequeued(next: map<Task, Task>, q: Queue, items: seq<Task>)
    requires Chain(next, q, items) && items != []
    ensures var head := next[q.head];
            Chain(next[q.head := NULL], Queue(head, if head == NULL then NULL else q.tail), items[1..])
  {
    Distinct(items, 0);
    LinksDequeued(next, q, items);
  }

  /** Position i of a list that lost its position k, in the list as it was. */
  function Skip(i: int, k: int): int {
    if i < k then i else i + 1
  }

  lemma Without(items: seq<Task>, k: nat)
    requires NoDup(items) && k < |items|
    ensures NoDup(items[..k] + items[k + 1..])
  {
    var rest := items[..k] + items[k + 1..];
    assert forall i :: 0 <= i < |rest| ==> rest[i] == items[Skip(i, k)];
  }

  lemma LinksRemoved(next: map<Task, Task>, q: Queue, items: seq<Task>, k: nat)
    requires Links(next, q, items) && k < |items| && Alone(items, k) && Alone(items, k - 1)
    ensures var t, previous := items[k], At(items, k - 1);
            var linked := if previous != NULL then next[previous := next[t]] else next;
            Links(linked[t := NULL],
                  Queue(if q.head == t then next[t] else q.head, if q.tail == t then previous else q.tail),
                  items[..k] + items[k + 1..])
  {
    var rest, t, previous := items[..k] + items[k + 1..], items[k], At(items, k - 1);
    var linked := (if previous != NULL then next[previous := next[t]] else next)[t := NULL];
    forall i | 0 <= i < |rest|
      ensures rest[i] != NULL && rest[i] in linked && linked[rest[i]] == At(rest, i + 1)
    {
      if i < k - 1 {
        assert rest[i] == items[i] && rest[i + 1] == items[i + 1];
      } else if i == k - 1 {
        assert rest[i] == items[i] && At(rest, i + 1) == At(items, i + 2);
      } else {
        assert rest[i] == items[i + 1] && At(rest, i + 1) == At(items, i + 2);
      }
    }
    assert At(rest, 0) == if k == 0 then At(items, 1) else items[0];
    assert At(rest, |rest| - 1) == if k == |items| - 1 then previous else items[|items| - 1];
  }

  /** Taking out the task at position k, behind `previous`. */
  lemma ChainRemoved(next: map<Task, Task>, q: Queue, items: seq<Task>, k: nat)
    requires Chain(next, q, items) && k < |items|
    ensures var t, previous := items[k], At(items, k - 1);
            var linked := if previous != NULL then next[previous := next[t]] else next;
            Chain(linked[t := NULL],
                  Queue(if q.head == t then next[t] else q.head, if q.tail == t then previous else q.tail),
                  items[..k] + items[k + 1..])
  {
    Distinct(items, k);
    Distinct(items, k - 1);
    Without(items, k);
    LinksRemoved(next, q, items, k);
  }
}
