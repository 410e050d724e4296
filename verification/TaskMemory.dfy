/** The memory of the scheduler's task blocks in Kernel/Scheduler/tasks.cpp: all its lists share the one
    `next` pointer of a block, so a write for one list must leave every other list as it is. */
module TaskMemory {
  import opened TaskLists

  /** The list whose chain of `next` pointers a task block is part of. */
  datatype Place = InReady | InSleeping | InStopped | InWaiting(sync: Sync)

  /** In memory, the queue holds `items`, and these are the tasks whose place it is. */
  ghost predicate On(next: map<Task, Task>, home: map<Task, Place>, q: Queue, items: seq<Task>, place: Place) {
    && Chain(next, q, items)
    && (forall t | t in items :: t in home)
    && (forall t | t in home :: t in items <==> home[t] == place)
  }

  /** Where the blocks are after `t` joined the list at `place`. */
  ghost function Joined(home: map<Task, Place>, place: Place, items: seq<Task>, t: Task): map<Task, Place> {
    (map u | u in home && (home[u] == place ==> u in items) :: home[u])[t := place]
  }

  /** Every list but the one at `place` is as it was. */
  ghost predicate OthersKept(next: map<Task, Task>, home: map<Task, Place>, next': map<Task, Task>,
          home': map<Task, Place>, place: Place) {
    forall q, items, p | p != place && On(next, home, q, items, p) :: On(next', home', q, items, p)
  }

  lemma OtherKept(next: map<Task, Task>, home: map<Task, Place>, next': map<Task, Task>,
          home': map<Task, Place>, q: Queue, items: seq<Task>, p: Place)
    requires On(next, home, q, items, p)
    requires forall t | t in home && home[t] == p :: t in home' && home'[t] == p
    requires forall t | t in home' && home'[t] == p :: t in home && home[t] == p
    requires forall t | t in home && home[t] == p && t in next :: t in next' && next'[t] == next[t]
    ensures On(next', home', q, items, p)
  {
    assert forall i :: 0 <= i < |items| ==> items[i] in items;
    ChainElsewhere(next, next', q, items);
  }

  lemma OthersKeptBy(next: map<Task, Task>, home: map<Task, Place>, next': map<Task, Task>,
          home': map<Task, Place>, place: Place)
    requires forall t | t in home && home[t] != place :: t in home' && home'[t] == home[t]
    requires forall t | t in home' && home'[t] != place :: t in home && home[t] == home'[t]
    requires forall t | t in home && home[t] != place && t in next :: t in next' && next'[t] == next[t]
    ensures OthersKept(next, home, next', home', place)
  {
    forall q, items, p | p != place && On(next, home, q, items, p)
      ensures On(next', home', q, items, p)
    {
      OtherKept(next, home, next', home', q, items, p);
    }
  }

  lemma WithoutMembers(items: seq<Task>, k: nat)
    requires NoDup(items) && k < |items|
    ensures forall t :: t in items[..k] + items[k + 1..] <==> t in items && t != items[k]
    ensures items[k] in items && (k > 0 ==> items[k - 1] in items)
  {
    assert items == items[..k] + [items[k]] + items[k + 1..];
    Distinct(items, k);
  }

  lemma RemovedMembers(home: map<Task, Place>, items: seq<Task>, rest: seq<Task>, t: Task, place: Place)
    requires forall u | u in items :: u in home
    requires forall u | u in home :: u in items <==> home[u] == place
    requires forall u :: u in rest <==> u in items && u != t
    ensures forall u | u in rest :: u in home - {t}
    ensures forall u | u in home - {t} :: u in rest <==> (home - {t})[u] == place
  {
  }

  lemma RemovedOthers(next: map<Task, Task>, home: map<Task, Place>, linked: map<Task, Task>, t: Task,
          previous: Task, place: Place)
    requires t in home && home[t] == place
    requires previous != NULL ==> previous in home && home[previous] == place
    requires forall u | u in next && u != t && (u != previous || previous == NULL) :: u in linked && linked[u] == next[u]
    ensures OthersKept(next, home, linked, home - {t}, place)
  {
    OthersKeptBy(next, home, linked, home - {t}, place);
  }

  // ---------- The writes of the three list operations ----------

  function LinkTail(next: map<Task, Task>, q: Queue, t: Task): map<Task, Task> {
    (if q.tail != NULL then next[q.tail := t] else next)[t := NULL]
  }

  function WithTail(q: Queue, t: Task): Queue {
    Queue(if q.head == NULL then t else q.head, t)
  }

  function WithoutHead(q: Queue, second: Task): Queue {
    Queue(second, if second == NULL then NULL else q.tail)
  }

  function Unlink(next: map<Task, Task>, t: Task, previous: Task): map<Task, Task>
    requires t in next
  {
    (if previous != NULL then next[previous := next[t]] else next)[t := NULL]
  }

  function WithoutTask(q: Queue, t: Task, after: Task, previous: Task): Queue {
    Queue(if q.head == t then after else q.head, if q.tail == t then previous else q.tail)
  }

  lemma RemovedOn(next: map<Task, Task>, home: map<Task, Place>, q: Queue, items: seq<Task>, k: nat, place: Place)
    requires On(next, home, q, items, place) && k < |items|
    ensures var t, previous := items[k], At(items, k - 1);
            && t in next && t in home && t != NULL
            && On(Unlink(next, t, previous), home - {t}, WithoutTask(q, t, next[t], previous), items[..k] + items[k + 1..], place)
            && OthersKept(next, home, Unlink(next, t, previous), home - {t}, place)
  {
    var t, previous := items[k], At(items, k - 1);
    WithoutMembers(items, k);
    RemovedMembers(home, items, items[..k] + items[k + 1..], t, place);
    RemovedOthers(next, home, Unlink(next, t, previous), t, previous, place);
    ChainRemoved(next, q, items, k);
  }

  lemma EnqueuedOn(next: map<Task, Task>, home: map<Task, Place>, q: Queue, items: seq<Task>, place: Place, t: Task)
    requires On(next, home, q, items, place) && t != NULL && (t in home ==> home[t] == place)
    ensures var home' := Joined(home, place, Enqueued(items, t), t);
            && On(LinkTail(next, q, t), home', WithTail(q, t), Enqueued(items, t), place)
            && OthersKept(next, home, LinkTail(next, q, t), home', place)
  {
    ChainEnqueued(next, q, items, t);
    assert q.tail != NULL ==> items[|items| - 1] in items;
    OthersKeptBy(next, home, LinkTail(next, q, t), Joined(home, place, Enqueued(items, t), t), place);
  }

  lemma DequeuedOn(next: map<Task, Task>, home: map<Task, Place>, q: Queue, items: seq<Task>, place: Place)
    requires On(next, home, q, items, place) && items != []
    ensures q.head == items[0] && q.head in next && q.head in home && q.head != NULL
    ensures On(next[q.head := NULL], home - {q.head}, WithoutHead(q, next[q.head]), items[1..], place)
    ensures OthersKept(next, home, next[q.head := NULL], home - {q.head}, place)
  {
    ChainDequeued(next, q, items);
    assert items[0] in items && items == [items[0]] + items[1..];
    OthersKeptBy(next, home, next[q.head := NULL], home - {q.head}, place);
  }

  // ---------- All lists together ----------

  /** The `next` fields, the list heads and tails, and what they mean: which tasks each list holds. */
  datatype Memory = Memory(
    next: map<Task, Task>,
    lists: map<Place, Queue>,
    home: map<Task, Place>,
    ready: seq<Task>,
    sleeping: seq<Task>,
    stopped: seq<Task>,
    waiting: map<Sync, seq<Task>>)

  function Items(m: Memory, p: Place): seq<Task> {
    match p
    case InReady => m.ready
    case InSleeping => m.sleeping
    case InStopped => m.stopped
    case InWaiting(w) => if w in m.waiting then m.waiting[w] else []
  }

  function WithItems(m: Memory, p: Place, items: seq<Task>): Memory {
    match p
    case InReady => m.(ready := items)
    case InSleeping => m.(sleeping := items)
    case InStopped => m.(stopped := items)
    case InWaiting(w) => m.(waiting := m.waiting[w := items])
  }

  /** Every list in memory holds the tasks it means to hold. */
  ghost predicate WellLinked(m: Memory) {
    && {InReady, InSleeping, InStopped} <= m.lists.Keys
    && (forall w :: w in m.waiting <==> InWaiting(w) in m.lists)
    && (forall t | t in m.home :: m.home[t] in m.lists)
    && (forall p {:trigger On(m.next, m.home, m.lists[p], Items(m, p), p)} | p in m.lists ::
          On(m.next, m.home, m.lists[p], Items(m, p), p))
  }

  const EMPTY: Queue := Queue(NULL, NULL)

  function AllPlaces(syncs: set<Sync>): set<Place> {
    {InReady, InSleeping, InStopped} + set w | w in syncs :: InWaiting(w)
  }

  /** Every list is empty. */
  ghost function Nothing(syncs: set<Sync>): Memory {
    Memory(map[], map p | p in AllPlaces(syncs) :: EMPTY, map[],
           [], [], [], map w | w in syncs :: [])
  }

  type Linked = m: Memory | WellLinked(m) ghost witness Nothing({})

  function Relinked(m: Memory, next': map<Task, Task>, home': map<Task, Place>, place: Place, q: Queue,
          items: seq<Task>): Memory {
    WithItems(m, place, items).(next := next', home := home', lists := m.lists[place := q])
  }

  lemma ItemsOfRelinked(m: Memory, next': map<Task, Task>, home': map<Task, Place>, place: Place, q: Queue,
          items: seq<Task>, p: Place)
    requires forall w | p == InWaiting(w) :: w in m.waiting
    ensures Items(Relinked(m, next', home', place, q, items), p) == if p == place then items else Items(m, p)
  {
  }

  lemma OtherListKept(m: Memory, next': map<Task, Task>, home': map<Task, Place>, place: Place, p: Place)
    requires WellLinked(m) && p in m.lists && p != place
    requires OthersKept(m.next, m.home, next', home', place)
    ensures On(next', home', m.lists[p], Items(m, p), p)
  {
    assert On(m.next, m.home, m.lists[p], Items(m, p), p);
  }

  /** One list changed and the others were kept. */
  lemma RelinkedWell(m: Memory, next': map<Task, Task>, home': map<Task, Place>, place: Place, q: Queue,
          items: seq<Task>)
    requires WellLinked(m) && place in m.lists
    requires forall t | t in home' :: home'[t] == place || (t in m.home && home'[t] == m.home[t])
    requires On(next', home', q, items, place) && OthersKept(m.next, m.home, next', home', place)
    ensures WellLinked(Relinked(m, next', home', place, q, items))
  {
    var r := Relinked(m, next', home', place, q, items);
    assert r.waiting.Keys == m.waiting.Keys;
    forall p | p in r.lists
      ensures On(r.next, r.home, r.lists[p], Items(r, p), p)
    {
      ItemsOfRelinked(m, next', home', place, q, items, p);
      if p != place {
        OtherListKept(m, next', home', place, p);
      }
    }
  }

  // ---------- The three list operations on memory ----------

  lemma EnqueueWell(m: Memory, place: Place, t: Task)
    requires WellLinked(m) && place in m.lists && t != NULL && (t in m.home ==> m.home[t] == place)
    ensures var q, items := m.lists[place], Items(m, place);
            WellLinked(Relinked(m, LinkTail(m.next, q, t), Joined(m.home, place, Enqueued(items, t), t), place, WithTail(q, t), Enqueued(items, t)))
  {
    var q, items := m.lists[place], Items(m, place);
    EnqueuedOn(m.next, m.home, q, items, place, t);
    RelinkedWell(m, LinkTail(m.next, q, t), Joined(m.home, place, Enqueued(items, t), t), place, WithTail(q, t), Enqueued(items, t));
  }

  /** `_enqueue_task` */
  ghost function Enqueue(m: Linked, place: Place, t: Task): Linked
    requires place in m.lists && t != NULL && (t in m.home ==> m.home[t] == place)
  {
    var q, items := m.lists[place], Items(m, place);
    EnqueueWell(m, place, t);
    Relinked(m, LinkTail(m.next, q, t), Joined(m.home, place, Enqueued(items, t), t), place, WithTail(q, t), Enqueued(items, t))
  }

  lemma HeadOf(m: Linked, place: Place)
    requires place in m.lists
    ensures m.lists[place].head == At(Items(m, place), 0)
    ensures Items(m, place) != [] ==> m.lists[place].head != NULL && m.lists[place].head in m.next
  {
    assert On(m.next, m.home, m.lists[place], Items(m, place), place);
  }

  lemma ListDistinct(m: Linked, place: Place)
    requires place in m.lists
    ensures NoDup(Items(m, place)) && NULL !in Items(m, place)
  {
    assert On(m.next, m.home, m.lists[place], Items(m, place), place);
  }

  lemma DequeueWell(m: Memory, place: Place)
    requires WellLinked(m) && place in m.lists && Items(m, place) != []
    ensures var q, items := m.lists[place], Items(m, place);
            && q.head in m.next
            && WellLinked(Relinked(m, m.next[q.head := NULL], m.home - {q.head}, place, WithoutHead(q, m.next[q.head]), items[1..]))
  {
    var q, items := m.lists[place], Items(m, place);
    DequeuedOn(m.next, m.home, q, items, place);
    RelinkedWell(m, m.next[q.head := NULL], m.home - {q.head}, place, WithoutHead(q, m.next[q.head]), items[1..]);
  }

  /** `_dequeue_task` of a list that is not empty. */
  ghost function Dequeue(m: Linked, place: Place): Linked
    requires place in m.lists && Items(m, place) != []
  {
    var q, items := m.lists[place], Items(m, place);
    DequeueWell(m, place);
    Relinked(m, m.next[q.head := NULL], m.home - {q.head}, place, WithoutHead(q, m.next[q.head]), items[1..])
  }

  lemma TaskAt(m: Linked, place: Place, k: nat)
    requires place in m.lists && k < |Items(m, place)|
    ensures var t := Items(m, place)[k];
            t != NULL && t in m.next && m.next[t] == At(Items(m, place), k + 1) && t in m.home && m.home[t] == place
  {
    assert On(m.next, m.home, m.lists[place], Items(m, place), place);
    assert Items(m, place)[k] in Items(m, place);
  }

  lemma RemoveWell(m: Memory, place: Place, k: nat)
    requires WellLinked(m) && place in m.lists && k < |Items(m, place)|
    ensures var q, items := m.lists[place], Items(m, place);
            var t, previous := items[k], At(items, k - 1);
            && t in m.next
            && WellLinked(Relinked(m, Unlink(m.next, t, previous), m.home - {t}, place, WithoutTask(q, t, m.next[t], previous), items[..k] + items[k + 1..]))
  {
    var q, items := m.lists[place], Items(m, place);
    var t, previous := items[k], At(items, k - 1);
    RemovedOn(m.next, m.home, q, items, k, place);
    RelinkedWell(m, Unlink(m.next, t, previous), m.home - {t}, place, WithoutTask(q, t, m.next[t], previous), items[..k] + items[k + 1..]);
  }

  /** `_remove_task` of the task at position k. */
  ghost function Remove(m: Linked, place: Place, k: nat): Linked
    requires place in m.lists && k < |Items(m, place)|
  {
    var q, items := m.lists[place], Items(m, place);
    var t, previous := items[k], At(items, k - 1);
    RemoveWell(m, place, k);
    Relinked(m, Unlink(m.next, t, previous), m.home - {t}, place, WithoutTask(q, t, m.next[t], previous), items[..k] + items[k + 1..])
  }

  lemma TailOf(m: Linked, place: Place)
    requires place in m.lists
    ensures m.lists[place].tail != NULL ==> m.lists[place].tail in m.home
  {
    assert On(m.next, m.home, m.lists[place], Items(m, place), place);
  }

  /** The memory without one waiting list, whose blocks are about to be linked elsewhere. */
  ghost function Detached(m: Linked, w: Sync): Linked
    requires w in m.waiting
  {
    var r := m.(lists := m.lists - {InWaiting(w)}, waiting := m.waiting - {w},
                home := map t | t in m.home && m.home[t] != InWaiting(w) :: m.home[t]);
    DetachedWell(m, w);
    r
  }

  lemma DetachedWell(m: Memory, w: Sync)
    requires WellLinked(m) && w in m.waiting
    ensures WellLinked(m.(lists := m.lists - {InWaiting(w)}, waiting := m.waiting - {w},
                          home := map t | t in m.home && m.home[t] != InWaiting(w) :: m.home[t]))
  {
    var home' := map t | t in m.home && m.home[t] != InWaiting(w) :: m.home[t];
    forall p | p in m.lists && p != InWaiting(w)
      ensures On(m.next, home', m.lists[p], Items(m, p), p)
    {
      assert On(m.next, m.home, m.lists[p], Items(m, p), p);
    }
    var r := m.(lists := m.lists - {InWaiting(w)}, waiting := m.waiting - {w}, home := home');
    forall p | p in r.lists
      ensures On(r.next, r.home, r.lists[p], Items(r, p), p)
    {
      assert Items(r, p) == Items(m, p);
    }
  }

  /** The waiting list is back, empty. */
  ghost function Reattached(m: Linked, w: Sync): Linked
    requires w !in m.waiting && forall t | t in m.home :: m.home[t] != InWaiting(w)
  {
    ReattachedWell(m, w);
    m.(lists := m.lists[InWaiting(w) := EMPTY], waiting := m.waiting[w := []])
  }

  lemma ReattachedWell(m: Memory, w: Sync)
    requires WellLinked(m) && w !in m.waiting && forall t | t in m.home :: m.home[t] != InWaiting(w)
    ensures WellLinked(m.(lists := m.lists[InWaiting(w) := EMPTY], waiting := m.waiting[w := []]))
  {
    var r := m.(lists := m.lists[InWaiting(w) := EMPTY], waiting := m.waiting[w := []]);
    forall p | p in r.lists
      ensures On(r.next, r.home, r.lists[p], Items(r, p), p)
    {
      if p != InWaiting(w) {
        assert Items(r, p) == Items(m, p);
        assert On(m.next, m.home, m.lists[p], Items(m, p), p);
      }
    }
  }

  /** A block with a place is on the list there. */
  lemma HomeIsList(m: Linked, t: Task)
    requires t in m.home
    ensures m.home[t] in m.lists && t in Items(m, m.home[t])
  {
    var p := m.home[t];
    assert On(m.next, m.home, m.lists[p], Items(m, p), p);
  }
}
