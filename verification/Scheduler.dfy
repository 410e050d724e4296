/** The scheduler of Kernel/Scheduler/tasks.cpp on the memory of its task blocks. Every method is
    proved to have, on the lists the memory holds, the effect its namesake in SchedulerSpec has. */
module Schedulers {
  import opened TaskLists
  import opened TaskMemory
  import Spec = SchedulerSpec

  /** What one round of the sweep adds to either part of the split. */
  lemma SweepStep(q: seq<Task>, n: nat, wakeup: map<Task, nat>, time: nat)
    requires n < |q| && q[n] in wakeup && forall t | t in q[..n] :: t in wakeup
    ensures forall t | t in q[..n + 1] :: t in wakeup
    ensures Spec.Due(q[..n + 1], wakeup, time) == Spec.Due(q[..n], wakeup, time) + if time >= wakeup[q[n]] then [q[n]] else []
    ensures Spec.NotDue(q[..n + 1], wakeup, time) == Spec.NotDue(q[..n], wakeup, time) + if time >= wakeup[q[n]] then [] else [q[n]]
  {
    assert q[..n + 1] == q[..n] + [q[n]];
    assert q[..n + 1][..n] == q[..n];
  }

  /** The first n tasks of a list without repetition, split by whether they are due. */
  ghost predicate IsSplit(time: nat, wakeup: map<Task, nat>, q: seq<Task>, n: nat, due: seq<Task>, done: seq<Task>) {
    && n <= |q| && (forall t | t in q[..n] :: t in wakeup)
    && due == Spec.Due(q[..n], wakeup, time) && done == Spec.NotDue(q[..n], wakeup, time)
    && NoDup(q) && NULL !in q
  }

  lemma SplitNext(time: nat, wakeup: map<Task, nat>, q: seq<Task>, n: nat, due: seq<Task>, done: seq<Task>)
    requires IsSplit(time, wakeup, q, n, due, done) && n < |q| && q[n] in wakeup
    ensures if time >= wakeup[q[n]] then IsSplit(time, wakeup, q, n + 1, due + [q[n]], done)
            else IsSplit(time, wakeup, q, n + 1, due, done + [q[n]])
  {
    SweepStep(q, n, wakeup, time);
    assert due + [] == due && done + [] == done;
  }

  lemma WakeOneMore(v: Spec.Sched, due: seq<Task>, task: Task, items: seq<Task>, rest: seq<Task>)
    ensures Spec.Wakeup(Spec.WakeAll(v, due).(sleeping := items), task).(sleeping := rest)
         == Spec.WakeAll(v, due + [task]).(sleeping := rest)
  {
    assert (due + [task])[..|due|] == due;
  }

  lemma WalkOn(done: seq<Task>, q: seq<Task>, n: nat)
    requires n < |q|
    ensures var items := done + q[n..];
            && items[|done|] == q[n] && At(items, |done| + 1) == At(q, n + 1)
            && items[..|done|] + items[|done| + 1..] == done + q[n + 1..]
            && items == done + [q[n]] + q[n + 1..]
  {
  }

  /** Waking tasks does not touch the waiting or the sleeping lists. */
  lemma {:induction false} WakeAllBeside(v: Spec.Sched, q: seq<Task>, waiting: map<Sync, seq<Task>>, sleeping: seq<Task>)
    ensures Spec.WakeAll(v, q).(waiting := waiting) == Spec.WakeAll(v.(waiting := waiting), q)
    ensures Spec.WakeAll(v, q).(sleeping := sleeping) == Spec.WakeAll(v.(sleeping := sleeping), q)
  {
    if q != [] {
      WakeAllBeside(v, q[..|q| - 1], waiting, sleeping);
    }
  }

  ghost function Members(q: seq<Task>): set<Task> {
    set t | t in q
  }

  /** Giving back the first task and then the others gives back all. */
  lemma GivenBack<T>(m: map<Task, T>, q: seq<Task>)
    requires q != []
    ensures m - Members(q) == (m - {q[0]}) - Members(q[1..])
  {
    assert q == [q[0]] + q[1..];
  }

  /** The state with every stopped task given back. */
  ghost function Cleaned(v: Spec.Sched): Spec.Sched {
    Spec.Forget(v, Members(v.stopped)).(stopped := [])
  }

  lemma CleanedNext(v: Spec.Sched)
    requires v.stopped != []
    ensures Cleaned(Spec.Forget(v, {v.stopped[0]}).(stopped := v.stopped[1..])) == Cleaned(v)
  {
    GivenBack(v.state, v.stopped);
    GivenBack(v.wakeup, v.stopped);
    GivenBack(v.flow.points, v.stopped);
  }

  lemma CleanedAll(v: Spec.Sched)
    requires v.stopped == []
    ensures Cleaned(v) == v
  {
    assert v.state - {} == v.state && v.wakeup - {} == v.wakeup && v.flow.points - {} == v.flow.points;
  }

  lemma ListAhead(m: Linked, sync: Sync)
    requires sync in m.waiting && InWaiting(sync) in m.lists
    ensures var q := m.waiting[sync];
            && NoDup(q)
            && (forall i :: 0 <= i < |q| ==> q[i] != NULL && q[i] in m.next && m.next[q[i]] == At(q, i + 1) && q[i] !in Detached(m, sync).home)
  {
    var q := m.waiting[sync];
    ListDistinct(m, InWaiting(sync));
    forall i | 0 <= i < |q|
      ensures q[i] != NULL && q[i] in m.next && m.next[q[i]] == At(q, i + 1) && q[i] !in Detached(m, sync).home
    {
      TaskAt(m, InWaiting(sync), i);
    }
  }

  /** The state with the list at a place replaced. */
  function WithList(v: Spec.Sched, place: Place, q: seq<Task>): Spec.Sched {
    match place
    case InReady => v.(ready := q)
    case InSleeping => v.(sleeping := q)
    case InStopped => v.(stopped := q)
    case InWaiting(sync) => v.(waiting := v.waiting[sync := q])
  }

  class Scheduler {
    /** The `next`, `state` and `wakeup_time` fields of all task blocks. */
    var next: map<Task, Task>
    var state: map<Task, TaskState>
    var wakeup: map<Task, nat>
    /** `tasks_ready`, `tasks_sleeping`, `tasks_stopped` and the waiting list of every mutex and semaphore. */
    var lists: map<Place, Queue>
    var current: Task
    /** The local variable of `_schedule` that holds the task whose stack idles. */
    var borrowed: Task
    const cleaner: Task
    var slice: nat
    var lastTimer: nat
    var lock: nat
    var postpone: nat
    var postponed: bool
    /** Where every task that waits for the CPU goes on, as its stack says, with a record of the switches. */
    var flow: Spec.Flow
    /** What the links mean. */
    ghost var mem: Linked

    ghost predicate Valid()
      reads this
    {
      mem.next == next && mem.lists == lists && NULL !in state
    }

    static function Maybe(t: Task): Spec.Option {
      if t == NULL then Spec.None else Spec.Some(t)
    }

    /** The memory, read as a value of the specification. */
    ghost function View(): Spec.Sched
      reads this
    {
      Spec.Sched(Maybe(current), Maybe(borrowed), mem.ready, mem.sleeping, mem.stopped, mem.waiting,
                 state, wakeup, slice, lastTimer, Spec.Locks(lock, postpone, postponed), flow)
    }

    /** `tasks_init`: the boot task runs, the cleaner is paused, every list is empty. `syncs` are the
        waiting lists of all mutexes and semaphores, empty after `tasks_sync_init`. */
    constructor (first: Task, cleaner: Task, syncs: set<Sync>, now: nat)
      requires first != cleaner && first != NULL && cleaner != NULL
      ensures Valid() && this.cleaner == cleaner
      ensures View() == Spec.Sched(Spec.Some(first), Spec.None, [], [], [], map w | w in syncs :: [],
                                   map[first := Running, cleaner := Paused], map[first := 0, cleaner := 0],
                                   Spec.TIME_SLICE_SIZE, now, Spec.Locks(0, 0, false),
                                   Spec.Flow(map[cleaner := Spec.Starting], []))
    {
      next := map[];
      lists := map p | p in AllPlaces(syncs) :: EMPTY;
      state, wakeup := map[first := Running, cleaner := Paused], map[first := 0, cleaner := 0];
      current, borrowed := first, NULL;
      this.cleaner := cleaner;
      slice, lastTimer, lock, postpone, postponed := Spec.TIME_SLICE_SIZE, now, 0, 0, false;
      flow := Spec.Flow(map[cleaner := Spec.Starting], []);
      mem := Nothing(syncs);
    }

    // ---------- Steps on one list ----------

    /** `_enqueue_task` */
    method EnqueueTask(place: Place, task: Task)
      requires mem.next == next && place in mem.lists && place in lists && lists[place] == mem.lists[place]
      requires task != NULL && (task in mem.home ==> mem.home[task] == place)
      modifies this`next, this`lists, this`mem
      ensures mem == Enqueue(old(mem), place, task)
      ensures next == mem.next && lists == old(lists)[place := mem.lists[place]]
      ensures task in next && next[task] == NULL
    {
      mem := Enqueue(mem, place, task);
      var list := lists[place];
      if list.head == NULL {
        list := list.(head := task);
      }
      if list.tail != NULL {
        next := next[list.tail := task];
      }
      next := next[task := NULL];
      list := list.(tail := task);
      lists := lists[place := list];
    }

    /** `_enqueue_task`, on the whole state. */
    method Enlist(place: Place, task: Task)
      requires Valid() && place in lists && task != NULL && (task in mem.home ==> mem.home[task] == place)
      modifies this`next, this`lists, this`mem
      ensures Valid() && View() == WithList(old(View()), place, Enqueued(Items(old(mem), place), task))
      ensures mem == Enqueue(old(mem), place, task)
      ensures task in next && next[task] == NULL
    {
      EnqueueTask(place, task);
    }

    /** `_dequeue_task` */
    method DequeueTask(place: Place) returns (task: Task)
      requires Valid() && place in lists
      modifies this`next, this`lists, this`mem
      ensures Valid() && task == At(Items(old(mem), place), 0)
      ensures mem == if Items(old(mem), place) == [] then old(mem) else Dequeue(old(mem), place)
      ensures Items(old(mem), place) != [] ==> task != NULL
    {
      HeadOf(mem, place);
      if lists[place].head == NULL {
        return NULL;
      }
      mem := Dequeue(mem, place);
      var list := lists[place];
      task := list.head;
      list := list.(head := next[task]);
      if list.head == NULL {
        list := list.(tail := NULL);
      }
      next := next[task := NULL];
      lists := lists[place := list];
    }

    /** `_dequeue_task` of the ready list, on the whole state. */
    method DequeueReady() returns (task: Task)
      requires Valid()
      modifies this`next, this`lists, this`mem
      ensures Valid() && task == At(old(mem.ready), 0) && (old(mem.ready) != [] ==> task != NULL)
      ensures View() == if old(mem.ready) == [] then old(View()) else old(View()).(ready := old(mem.ready)[1..])
      ensures mem == if old(mem.ready) == [] then old(mem) else Dequeue(old(mem), InReady)
    {
      task := DequeueTask(InReady);
    }

    /** `_remove_task`, given the task's predecessor. */
    method RemoveTask(place: Place, task: Task, previous: Task, ghost k: nat)
      requires Valid() && place in lists
      requires k < |Items(mem, place)| && task == Items(mem, place)[k] && previous == At(Items(mem, place), k - 1)
      modifies this`next, this`lists, this`mem
      ensures Valid() && mem == Remove(old(mem), place, k)
    {
      TaskAt(mem, place, k);
      mem := Remove(mem, place, k);
      var list := lists[place];
      if list.head == task {
        list := list.(head := next[task]);
      }
      if list.tail == task {
        list := list.(tail := previous);
      }
      if previous != NULL {
        next := next[previous := next[task]];
      }
      next := next[task := NULL];
      lists := lists[place := list];
    }

    // ---------- Locking and dispatching ----------

    /** `_aquire_scheduler_lock` */
    method Acquire()
      requires Valid()
      modifies this`postpone, this`lock
      ensures Valid() && View() == Spec.Acquire(old(View()))
    {
      postpone := postpone + 1;
      lock := lock + 1;
    }

    /** The current task exists, and while it runs it is on no list but perhaps the ready list. */
    ghost predicate Switchable()
      reads this`current, this`state, this`mem
    {
      current != NULL ==> current in state && (state[current] == Running && current in mem.home ==> mem.home[current] == InReady)
    }

    /** A previous task that is still running becomes ready. */
    method PutBack(previous: Task)
      requires Valid() && previous == current != NULL && Switchable()
      modifies this`next, this`lists, this`mem, this`state
      ensures Valid()
      ensures View() == if old(View()).state[previous] != Running then old(View())
                        else Spec.SetState(old(View()), previous, Ready).(ready := Enqueued(old(View()).ready, previous))
    {
      if state[previous] == Running {
        state := state[previous := Ready];
        Enlist(InReady, previous);
      }
    }

    /** `tasks_switch_to` up to its `ret`. */
    method SwitchTo(task: Task)
      requires Valid() && current != NULL && Switchable() && task != NULL
      modifies this`next, this`lists, this`mem, this`state, this`current, this`flow
      ensures Valid() && Spec.HasCurrent(old(View())) && View() == Spec.SwitchTo(old(View()), task)
    {
      var previous := current;
      flow := Spec.Flow(flow.points[previous := Spec.InsideRelease],
                        flow.switches + [Spec.Locks(lock, postpone, postponed)]);
      PutBack(previous);
      current := task;
      state := state[task := Running];
    }

    /** The `ret` of the switch, and what runs there. */
    method Resume()
      requires Valid() && current != NULL
      modifies this`flow, this`lock
      ensures Valid() && View() == Spec.Resume(old(View()))
    {
      if current in flow.points {
        var point := flow.points[current];
        flow := flow.(points := flow.points - {current});
        match point
        case InsideRelease => FinishRelease();
        case Starting => TaskStarting();
      }
    }

    /** The end of `_release_scheduler_lock`. */
    method FinishRelease()
      requires Valid()
      modifies this`lock
      ensures Valid() && View() == Spec.FinishRelease(old(View()))
    {
      lock := Spec.LessOne(lock);
    }

    /** `_task_starting` */
    method TaskStarting()
      requires Valid()
      modifies this`lock
      ensures Valid() && View() == Spec.TaskStarting(old(View()))
    {
      lock := Spec.LessOne(lock);
    }

    /** `_schedule` once nothing postpones it, up to the `ret` of its switch or the `hlt` of its idle
        loop; `left` when another task's code runs next. */
    method Dispatch(now: nat) returns (left: bool)
      requires Valid() && Switchable() && current != NULL
      modifies this
      ensures Valid() && Spec.HasCurrent(old(View())) && View() == Spec.Dispatch(old(View()), now)
      ensures left == Spec.Leaves(old(View())) && (left ==> current != NULL)
    {
      var task := DequeueReady();
      if task == NULL {
        if state[current] == Running {
          slice := Spec.TIME_SLICE_SIZE;
          return false;
        }
        slice := 0;
        borrowed := current;
        current := NULL;
        return false;
      }
      slice := Spec.TIME_SLICE_SIZE;
      lastTimer := now;
      SwitchTo(task);
      return true;
    }

    /** `_schedule` */
    method Schedule(now: nat) returns (left: bool)
      requires Valid() && Switchable()
      modifies this
      ensures Valid() && (old(View()).current.Some? ==> Spec.HasCurrent(old(View())))
      ensures View() == Spec.Schedule(old(View()), now)
      ensures left == (old(postpone) == 0 && Spec.Leaves(old(View()))) && (left ==> current != NULL)
      ensures old(postpone) != 0 ==> mem == old(mem)
    {
      if postpone != 0 {
        postponed := true;
        return false;
      }
      if current == NULL {
        return false;
      }
      left := Dispatch(now);
    }

    /** `_release_scheduler_lock`, and what runs next when its schedule switches. */
    method Release(now: nat)
      requires Valid() && Switchable() && postpone > 0
      modifies this
      ensures Valid() && (old(View()).current.Some? ==> Spec.HasCurrent(old(View())))
      ensures View() == Spec.Release(old(View()), now)
      ensures old(postpone) > 1 ==> mem == old(mem)
    {
      postpone := postpone - 1;
      var running := current != NULL;
      if postpone == 0 {
        if postponed {
          postponed := false;
          var left := Schedule(now);
          if left {
            Resume();
            return;
          }
        }
      }
      if running && current == NULL {
        return;
      }
      FinishRelease();
    }

    /** The end of the idle loop, from the dequeue that finds a task to the code that runs next. */
    method IdleEnd(now: nat)
      requires Valid() && current == NULL && borrowed in state && mem.ready != []
      requires state[borrowed] != Running
      modifies this
      ensures Valid() && View() == Spec.IdleEnd(old(View()), now)
    {
      var task := DequeueReady();
      TakeBack(now);
      SwitchTo(task);
      Resume();
    }

    /** The borrowed task is the current one again, and the time slice starts anew. */
    method TakeBack(now: nat)
      requires Valid() && current == NULL && borrowed in state
      modifies this`current, this`borrowed, this`slice, this`lastTimer
      ensures Valid() && current == old(borrowed) && current != NULL
      ensures View() == old(View()).(current := old(View()).borrowed, borrowed := Spec.None,
                                     slice := Spec.TIME_SLICE_SIZE, lastTimer := now)
    {
      current := borrowed;
      borrowed := NULL;
      slice := Spec.TIME_SLICE_SIZE;
      lastTimer := now;
    }

    /** The last two calls of most operations: ask for a schedule, give the lock back. */
    method ScheduleAndRelease(now: nat)
      requires Valid() && Switchable() && postpone > 0
      modifies this
      ensures Valid() && (old(View()).current.Some? ==> Spec.HasCurrent(old(View())))
      ensures View() == Spec.Release(Spec.Schedule(old(View()), now), now)
      ensures old(postpone) > 1 ==> mem == old(mem)
    {
      var left := Schedule(now);
      Release(now);
    }

    // ---------- The operations ----------

    /** `tasks_schedule` */
    method TasksSchedule(now: nat)
      requires Valid() && current != NULL && Switchable()
      modifies this
      ensures Valid() && View() == Spec.Yield(old(View()), now)
    {
      Acquire();
      ScheduleAndRelease(now);
    }

    /** `tasks_block_current` */
    method TasksBlockCurrent(reason: TaskState, now: nat)
      requires Valid() && current != NULL && current in state && reason != Running
      modifies this
      ensures Valid() && View() == Spec.BlockCurrent(old(View()), reason, now)
      ensures old(postpone) > 0 ==> mem == old(mem) && Switchable()
    {
      Acquire();
      state := state[current := reason];
      ScheduleAndRelease(now);
    }

    /** `tasks_unblock` */
    method TasksUnblock(task: Task, now: nat)
      requires Valid() && Switchable() && task != NULL && (task in mem.home ==> mem.home[task] == InReady)
      modifies this
      ensures Valid() && View() == Spec.Unblock(old(View()), task, now)
      ensures old(postpone) > 0 ==> Switchable()
    {
      Acquire();
      state := state[task := Ready];
      Enlist(InReady, task);
      assert View() == Spec.SetState(Spec.Acquire(old(View())), task, Ready).(ready := Enqueued(old(View()).ready, task));
      Release(now);
    }

    /** `tasks_nano_sleep_until` */
    method TasksNanoSleepUntil(time: nat, now: nat)
      requires Valid() && current != NULL && current in state && current !in mem.home
      modifies this
      ensures Valid() && View() == Spec.SleepUntil(old(View()), time, now)
    {
      Acquire();
      state := state[current := Sleeping];
      wakeup := wakeup[current := time];
      Enlist(InSleeping, current);
      assert View() == Spec.SetState(Spec.Acquire(old(View())), current, Sleeping).(
                         wakeup := wakeup, sleeping := Enqueued(old(View()).sleeping, current));
      ScheduleAndRelease(now);
    }

    /** `tasks_exit` */
    method TasksExit(now: nat)
      requires Valid() && current != NULL && current in state && current !in mem.home
      requires cleaner != NULL && cleaner != current && (cleaner in mem.home ==> mem.home[cleaner] == InReady)
      modifies this
      ensures Valid() && View() == Spec.Exit(old(View()), cleaner, now)
    {
      Acquire();
      Enlist(InStopped, current);
      assert View() == Spec.Acquire(old(View())).(stopped := Enqueued(old(View()).stopped, current));
      TasksBlockCurrent(Stopped, now);
      TasksUnblock(cleaner, now);
      Release(now);
    }

    /** `tasks_sync_block` */
    method TasksSyncBlock(sync: Sync, now: nat)
      requires Valid() && current != NULL && current in state && current !in mem.home && sync in mem.waiting
      modifies this
      ensures Valid() && View() == Spec.SyncBlock(old(View()), sync, now)
    {
      Acquire();
      Enlist(InWaiting(sync), current);
      assert View() == Spec.Acquire(old(View())).(waiting := old(View()).waiting[sync := Enqueued(old(View()).waiting[sync], current)]);
      TasksBlockCurrent(Blocked, now);
      Release(now);
    }

    /** The scheduler's part of `tasks_new`. */
    method TasksNew(task: Task, to: TaskState)
      requires Valid() && task != NULL && task !in state && task !in mem.home
      modifies this`next, this`lists, this`mem, this`state, this`wakeup, this`flow
      ensures Valid() && View() == Spec.Create(old(View()), task, to)
    {
      NewBlock(task, to);
      if to == Ready {
        Enlist(InReady, task);
      }
    }

    method NewBlock(task: Task, to: TaskState)
      requires Valid() && task != NULL && task !in state
      modifies this`state, this`wakeup, this`flow
      ensures Valid()
      ensures View() == old(View()).(state := old(state)[task := to], wakeup := old(wakeup)[task := 0],
                                     flow := old(flow).(points := old(flow).points[task := Spec.Starting]))
    {
      state := state[task := to];
      wakeup := wakeup[task := 0];
      flow := flow.(points := flow.points[task := Spec.Starting]);
    }

    /** `_wakeup` */
    method Wakeup(task: Task)
      requires Valid() && Switchable() && task != NULL && task !in mem.home
      modifies this`next, this`lists, this`mem, this`state, this`wakeup
      ensures Valid() && Switchable() && View() == Spec.Wakeup(old(View()), task)
      ensures mem == Enqueue(old(mem), InReady, task)
      ensures task in next && next[task] == NULL
    {
      state := state[task := Ready];
      wakeup := wakeup[task := Spec.NEVER];
      Enlist(InReady, task);
    }

    /** `task->next = NULL` after a wakeup, which has cleared the field already. */
    method ClearNext(task: Task)
      requires task in next && next[task] == NULL
      modifies this`next
      ensures next == old(next)
    {
      next := next[task := NULL];
    }

    /** `_wakeup` and the store behind it, while another list's head and tail may be stale. */
    method WakeupBlock(task: Task)
      requires mem.next == next && InReady in mem.lists && InReady in lists && lists[InReady] == mem.lists[InReady]
      requires task != NULL && task !in mem.home
      modifies this`next, this`lists, this`mem, this`state, this`wakeup
      ensures mem == Enqueue(old(mem), InReady, task)
      ensures next == mem.next && lists == old(lists)[InReady := mem.lists[InReady]]
      ensures state == old(state)[task := Ready] && wakeup == old(wakeup)[task := Spec.NEVER]
    {
      state := state[task := Ready];
      wakeup := wakeup[task := Spec.NEVER];
      EnqueueTask(InReady, task);
      ClearNext(task);
    }

    /** One due task, at position k of the sleeping list, is unlinked and becomes ready. */
    method WakeSleeper(task: Task, previous: Task, ghost k: nat)
      requires Valid() && Switchable()
      requires k < |mem.sleeping| && task == mem.sleeping[k] && previous == At(mem.sleeping, k - 1)
      modifies this`next, this`lists, this`mem, this`state, this`wakeup
      ensures Valid() && Switchable()
      ensures View() == Spec.Wakeup(old(View()), task).(sleeping := old(mem.sleeping)[..k] + old(mem.sleeping)[k + 1..])
    {
      TaskAt(mem, InSleeping, k);
      RemoveTask(InSleeping, task, previous, k);
      Wakeup(task);
      ClearNext(task);
    }

    /** Where the walk over the sleeping list stands: of `q`, the list at the start, the first n tasks
        are split into those still asleep, `done`, and those woken, `due`. */
    ghost predicate Walking(time: nat, v: Spec.Sched, q: seq<Task>, n: nat, due: seq<Task>, done: seq<Task>,
            task: Task, previous: Task)
      reads this
    {
      && IsSplit(time, v.wakeup, q, n, due, done) && task == At(q, n) && previous == At(done, |done| - 1)
      && mem.sleeping == done + q[n..]
      && View() == Spec.WakeAll(v, due).(sleeping := done + q[n..])
      && (forall i :: n <= i < |q| ==> q[i] in wakeup && q[i] in v.wakeup && wakeup[q[i]] == v.wakeup[q[i]])
    }

    /** The walk stands at a due task: it is woken, and the walk goes on behind it. */
    method WakeDue(time: nat, task: Task, previous: Task, ghost v: Spec.Sched, ghost q: seq<Task>,
            ghost n: nat, ghost due: seq<Task>, ghost done: seq<Task>, ghost following: Task)
      requires Valid() && Switchable() && n < |q| && task == q[n] && InSleeping in lists
      requires Walking(time, v, q, n, due, done, task, previous) && time >= v.wakeup[task]
      requires following == At(q, n + 1)
      modifies this`next, this`lists, this`mem, this`state, this`wakeup
      ensures Valid() && Switchable() && InSleeping in lists
      ensures Walking(time, v, q, n + 1, due + [task], done, following, previous)
    {
      SplitNext(time, v.wakeup, q, n, due, done);
      WalkOn(done, q, n);
      WakeOneMore(v, due, task, mem.sleeping, done + q[n + 1..]);
      WakeSleeper(task, previous, |done|);
      assert forall i :: n < i < |q| ==> q[i] != task;
    }

    /** The walk stands at a task that is not due, and passes it. */
    lemma PassSleeper(time: nat, task: Task, previous: Task, v: Spec.Sched, q: seq<Task>, n: nat, due: seq<Task>,
            done: seq<Task>, following: Task)
      requires Valid() && n < |q| && task == q[n]
      requires Walking(time, v, q, n, due, done, task, previous) && time < v.wakeup[task]
      requires following == At(q, n + 1)
      ensures Walking(time, v, q, n + 1, due, done + [task], following, task)
    {
      SplitNext(time, v.wakeup, q, n, due, done);
      assert done + q[n..] == (done + [task]) + q[n + 1..];
    }

    /** One round of the loop of `_on_timer`. */
    method SweepRound(time: nat, task: Task, previous: Task, ghost v: Spec.Sched, ghost q: seq<Task>,
            ghost n: nat, ghost due: seq<Task>, ghost done: seq<Task>)
      returns (following: Task, last: Task, woken: bool)
      requires Valid() && Switchable() && task != NULL && InSleeping in lists
      requires Walking(time, v, q, n, due, done, task, previous)
      modifies this`next, this`lists, this`mem, this`state, this`wakeup
      ensures Valid() && Switchable() && InSleeping in lists
      ensures n < |q|
      ensures if woken then Walking(time, v, q, n + 1, due + [task], done, following, last)
              else Walking(time, v, q, n + 1, due, done + [task], following, last)
    {
      TaskAt(mem, InSleeping, |done|);
      WalkOn(done, q, n);
      following := next[task];
      woken := time >= wakeup[task];
      if woken {
        WakeDue(time, task, previous, v, q, n, due, done, following);
        last := previous;
      } else {
        PassSleeper(time, task, previous, v, q, n, due, done, following);
        last := task;
      }
    }

    /** The loop of `_on_timer`: the sleeping list is walked while due tasks leave it for the ready
        list, by way of the same `next` field the walk follows. */
    method Sweep(time: nat) returns (needSchedule: bool)
      requires Valid() && Switchable() && InSleeping in lists
      requires forall t | t in mem.sleeping :: t in wakeup
      modifies this`next, this`lists, this`mem, this`state, this`wakeup
      ensures Valid() && Switchable()
      ensures View() == Spec.Sweep(old(View()), time)
      ensures needSchedule <==> Spec.Due(old(mem.sleeping), old(wakeup), time) != []
    {
      ghost var v, q, n := View(), mem.sleeping, 0;
      ghost var due, done: seq<Task> := [], [];
      var previous, task := NULL, lists[InSleeping].head;
      needSchedule := false;
      StartWalk(time, v, q, task);
      while task != NULL
        invariant Valid() && Switchable() && InSleeping in lists
        invariant Walking(time, v, q, n, due, done, task, previous)
        invariant needSchedule <==> due != []
        decreases |q| - n
      {
        var following, last, woken := SweepRound(time, task, previous, v, q, n, due, done);
        if woken {
          needSchedule := true;
          due := due + [task];
        } else {
          done := done + [task];
        }
        previous := last;
        task := following;
        n := n + 1;
      }
      EndWalk(time, v, q, n, due, done, previous);
    }

    /** Past the last sleeping task the walk has done the sweep. */
    lemma EndWalk(time: nat, v: Spec.Sched, q: seq<Task>, n: nat, due: seq<Task>, done: seq<Task>, previous: Task)
      requires Walking(time, v, q, n, due, done, NULL, previous) && q == v.sleeping
      ensures forall t | t in v.sleeping :: t in v.wakeup
      ensures View() == Spec.Sweep(v, time) && due == Spec.Due(v.sleeping, v.wakeup, time)
    {
      assert n == |q| && q[..n] == q && q[n..] == [];
      WakeAllBeside(v, due, v.waiting, done);
      assert done + [] == done;
    }

    lemma StartWalk(time: nat, v: Spec.Sched, q: seq<Task>, task: Task)
      requires Valid() && InSleeping in lists && v == View() && q == mem.sleeping && task == lists[InSleeping].head
      requires forall t | t in q :: t in wakeup
      ensures Walking(time, v, q, 0, [], [], task, NULL)
    {
      HeadOf(mem, InSleeping);
      ListDistinct(mem, InSleeping);
      assert q[0..] == q;
    }

    /** The time slice accounting of `_on_timer`. */
    method Tick(time: nat) returns (expired: bool)
      requires Valid() && time >= lastTimer
      modifies this`lastTimer, this`slice
      ensures Valid() && View() == Spec.Tick(old(View()), time) && expired == Spec.Expired(old(View()), time)
      ensures expired <==> old(slice) != 0 && time >= old(lastTimer) + old(slice)
      ensures if old(slice) == 0 then slice == 0 && lastTimer == old(lastTimer)
              else lastTimer == time && slice == if expired then old(slice) else old(lastTimer) + old(slice) - time
    {
      expired := false;
      if slice != 0 {
        var delta := time - lastTimer;
        lastTimer := time;
        if delta >= slice {
          expired := true;
        } else {
          slice := slice - delta;
        }
      }
    }

    /** The middle of `_on_timer`. */
    method SweepAndTick(time: nat) returns (needSchedule: bool)
      requires Valid() && Switchable() && InSleeping in lists && time >= lastTimer
      requires forall t | t in mem.sleeping :: t in wakeup
      modifies this`next, this`lists, this`mem, this`state, this`wakeup, this`lastTimer, this`slice
      ensures Valid() && Switchable()
      ensures Spec.Sweep(old(View()), time).lastTimer == old(lastTimer)
      ensures View() == Spec.Tick(Spec.Sweep(old(View()), time), time)
      ensures needSchedule <==>
                Spec.Due(old(mem.sleeping), old(wakeup), time) != [] || Spec.Expired(old(View()), time)
    {
      var woken := Sweep(time);
      ghost var swept := View();
      var expired := Tick(time);
      assert View() == Spec.Tick(swept, time);
      needSchedule := woken || expired;
    }

    /** The end of `_on_timer`. */
    method ScheduleIf(needed: bool, now: nat)
      requires Valid() && Switchable() && postpone > 0
      modifies this
      ensures Valid() && (old(View()).current.Some? ==> Spec.HasCurrent(old(View())))
      ensures View() == Spec.Release(if needed then Spec.Schedule(old(View()), now) else old(View()), now)
    {
      if needed {
        var left := Schedule(now);
      }
      Release(now);
    }

    /** `_on_timer` */
    method OnTimer(time: nat, now: nat)
      requires Valid() && Switchable() && InSleeping in lists && time >= lastTimer
      requires forall t | t in mem.sleeping :: t in wakeup && t in state
      modifies this
      ensures Valid() && View() == Spec.OnTimer(old(View()), time, now)
    {
      Acquire();
      ghost var v := View();
      Spec.WakeAllKeeps(v.(sleeping := Spec.NotDue(v.sleeping, v.wakeup, time)), Spec.Due(v.sleeping, v.wakeup, time));
      var needSchedule := SweepAndTick(time);
      ScheduleIf(needSchedule, now);
    }

    // ---------- Waking a waiting list ----------

    /** The waiting list's own head and tail are stale; all other lists are in order. */
    ghost predicate Loose(sync: Sync)
      reads this
    {
      && mem.next == next && mem.lists == lists - {InWaiting(sync)} && NULL !in state
      && sync !in mem.waiting && InReady in mem.lists && InWaiting(sync) in lists
      && forall t | t in mem.home :: mem.home[t] != InWaiting(sync)
    }

    /** From position n on, `q` is still chained up and on no list. */
    ghost predicate Ahead(q: seq<Task>, n: nat)
      reads this`next, this`mem
    {
      NoDup(q) && n <= |q| && forall i :: n <= i < |q| ==> q[i] != NULL && q[i] in next && next[q[i]] == At(q, i + 1) && q[i] !in mem.home
    }

    /** `_wakeup` of the first waiting task that is ahead: its block joins the ready list without leaving the other. */
    method WakeWaiter(sync: Sync, task: Task, ghost q: seq<Task>, ghost n: nat)
      requires Loose(sync) && Switchable() && Ahead(q, n) && n < |q| && task == q[n]
      modifies this`next, this`lists, this`mem, this`state, this`wakeup
      ensures Loose(sync) && Switchable() && Ahead(q, n + 1)
      ensures View() == Spec.Wakeup(old(View()), task)
    {
      TailOf(mem, InReady);
      Distinct(q, n);
      WakeupBlock(task);
      assert lists - {InWaiting(sync)} == mem.lists;
    }

    /** The loop of `tasks_sync_unblock`. */
    method WakeLoop(sync: Sync, ghost q: seq<Task>)
      requires Loose(sync) && Switchable() && Ahead(q, 0) && lists[InWaiting(sync)].head == At(q, 0)
      modifies this`next, this`lists, this`mem, this`state, this`wakeup
      ensures Loose(sync) && Switchable() && View() == Spec.WakeAll(old(View()), q)
    {
      ghost var v, n := View(), 0;
      assert q[..0] == [];
      var task := lists[InWaiting(sync)].head;
      while task != NULL
        invariant Loose(sync) && Switchable() && Ahead(q, n) && task == At(q, n)
        invariant View() == Spec.WakeAll(v, q[..n])
        decreases |q| - n
      {
        var following := next[task];
        WakeWaiter(sync, task, q, n);
        assert q[..n + 1][..n] == q[..n];
        task := following;
        n := n + 1;
      }
      assert q[..n] == q;
    }

    /** `ts->waiting.head = NULL; ts->waiting.tail = NULL` */
    method EmptyList(sync: Sync)
      requires Loose(sync) && Switchable()
      modifies this`lists, this`mem
      ensures Valid() && Switchable() && View() == old(View()).(waiting := old(mem.waiting)[sync := []])
    {
      lists := lists[InWaiting(sync) := EMPTY];
      mem := Reattached(mem, sync);
      assert mem.lists == lists;
    }

    /** From here on the waiting list's blocks count as being on no list. */
    ghost method Detach(sync: Sync)
      requires Valid() && Switchable() && sync in mem.waiting && InWaiting(sync) in lists && InReady in lists
      requires current != NULL && current in mem.home ==> mem.home[current] != InWaiting(sync)
      modifies this`mem
      ensures Loose(sync) && Switchable() && View() == old(View()).(waiting := old(mem.waiting) - {sync})
      ensures var q := old(mem.waiting)[sync]; Ahead(q, 0) && lists[InWaiting(sync)].head == At(q, 0)
    {
      HeadOf(mem, InWaiting(sync));
      ListAhead(mem, sync);
      mem := Detached(mem, sync);
    }

    /** All waiting tasks become ready, first to last, and the waiting list is emptied only afterwards. */
    method WakeWaiters(sync: Sync)
      requires Valid() && Switchable() && sync in mem.waiting && InWaiting(sync) in lists && InReady in lists
      requires current != NULL && current in mem.home ==> mem.home[current] != InWaiting(sync)
      modifies this`next, this`lists, this`mem, this`state, this`wakeup
      ensures Valid() && Switchable()
      ensures View() == Spec.WakeAll(old(View()), old(mem.waiting)[sync]).(waiting := old(mem.waiting)[sync := []])
    {
      ghost var v, q := View(), mem.waiting[sync];
      Detach(sync);
      WakeLoop(sync, q);
      WakeAllBeside(v, q, v.waiting - {sync}, v.sleeping);
      EmptyList(sync);
      assert (v.waiting - {sync})[sync := []] == v.waiting[sync := []];
    }

    /** `tasks_sync_unblock` */
    method TasksSyncUnblock(sync: Sync, now: nat)
      requires Valid() && Switchable() && sync in mem.waiting && InWaiting(sync) in lists && InReady in lists
      requires forall t | t in mem.waiting[sync] :: t in state
      requires current != NULL && current in mem.home ==> mem.home[current] != InWaiting(sync)
      modifies this
      ensures Valid() && View() == Spec.SyncUnblock(old(View()), sync, now)
    {
      Acquire();
      HeadOf(mem, InWaiting(sync));
      ghost var s1 := View();
      if lists[InWaiting(sync)].head == NULL {
        assert s1.waiting[sync] == [];
        Release(now);
      } else {
        assert s1.waiting[sync] != [];
        Spec.WakeAllKeeps(s1, s1.waiting[sync]);
        WakeWaiters(sync);
        ScheduleAndRelease(now);
      }
    }

    /** A stopped task is taken off the list and its block is given back. */
    method CleanOne() returns (task: Task)
      requires Valid() && InStopped in lists && mem.stopped != []
      modifies this`next, this`lists, this`mem, this`state, this`wakeup, this`flow
      ensures Valid() && InStopped in lists && lists[InStopped].head == At(mem.stopped, 0)
      ensures lists[InStopped].head == NULL ==> mem.stopped == []
      ensures task == old(mem.stopped)[0]
      ensures View() == Spec.Forget(old(View()), {task}).(stopped := old(mem.stopped)[1..])
    {
      task := DequeueTask(InStopped);
      state := state - {task};
      wakeup := wakeup - {task};
      flow := flow.(points := flow.points - {task});
      HeadOf(mem, InStopped);
    }

    /** The loop of the cleaner task over the stopped list. */
    method CleanAll()
      requires Valid() && InStopped in lists
      modifies this`next, this`lists, this`mem, this`state, this`wakeup, this`flow
      ensures Valid()
      ensures View() == Cleaned(old(View()))
    {
      ghost var v := View();
      HeadOf(mem, InStopped);
      while lists[InStopped].head != NULL
        invariant Valid() && InStopped in lists && lists[InStopped].head == At(mem.stopped, 0)
        invariant lists[InStopped].head == NULL ==> mem.stopped == []
        invariant Cleaned(View()) == Cleaned(v)
        decreases |mem.stopped|
      {
        CleanedNext(View());
        var task := CleanOne();
      }
      CleanedAll(View());
    }

    /** One round of the cleaner task: every stopped task is given back, then the cleaner pauses. */
    method CleanerRound(now: nat)
      requires Valid() && current == cleaner && cleaner != NULL && cleaner in state && InStopped in lists
      requires cleaner !in mem.stopped
      modifies this
      ensures Valid() && View() == Spec.Clean(old(View()), now)
    {
      Acquire();
      CleanAll();
      TasksBlockCurrent(Paused, now);
      Release(now);
    }
  }
}
