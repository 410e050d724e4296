/** The scheduler of Kernel/Scheduler/tasks.cpp and Kernel/Arch/i686/Assembly/tasks.s as functions on
    values: tasks are names, lists are sequences. One application is one stretch of the original that
    runs with interrupts off on one CPU. */
module SchedulerSpec {
  import opened TaskLists

  datatype Option = None | Some(value: Task)

  const TIME_SLICE_SIZE: nat := 1_000_000
  /** Wakeup time given to a task that was woken. */
  const NEVER: nat := 0xFFFF_FFFF_FFFF_FFFF

  /** `_scheduler_lock`, `_scheduler_postpone_count` and `_scheduler_postponed`. */
  datatype Locks = Locks(lock: nat, postpone: nat, postponed: bool)

  /** Where a task that is not executing goes on when it is switched to: at the start, or behind the
      `_schedule` call in its own `_release_scheduler_lock`. */
  datatype Point = Starting | InsideRelease

  /** The resumption point of every task that waits for the CPU, kept on its stack, and the counters as
      they stood at each switch so far. */
  datatype Flow = Flow(points: map<Task, Point>, switches: seq<Locks>)

  /** `borrowed` is the task on whose stack the idle loop runs; it is set exactly while idling. */
  datatype Sched = Sched(
    current: Option,
    borrowed: Option,
    ready: seq<Task>,
    sleeping: seq<Task>,
    stopped: seq<Task>,
    waiting: map<Sync, seq<Task>>,
    state: map<Task, TaskState>,
    wakeup: map<Task, nat>,
    slice: nat,
    lastTimer: nat,
    locks: Locks,
    flow: Flow)

  // ---------- Locking and dispatching ----------

  /** `_aquire_scheduler_lock` */
  function Acquire(s: Sched): Sched {
    s.(locks := s.locks.(lock := s.locks.lock + 1, postpone := s.locks.postpone + 1))
  }

  function SetState(s: Sched, t: Task, state: TaskState): Sched {
    s.(state := s.state[t := state])
  }

  predicate HasCurrent(s: Sched) {
    s.current.Some? && s.current.value in s.state
  }

  /** `tasks_switch_to` up to its `ret`: a previous task that was still running goes to the tail of the
      ready list, and whenever it is switched to again it returns into its release. */
  function SwitchTo(s: Sched, t: Task): Sched
    requires HasCurrent(s)
  {
    var previous := s.current.value;
    var left := Flow(s.flow.points[previous := InsideRelease], s.flow.switches + [s.locks]);
    var requeued :=
      if s.state[previous] == Running
      then SetState(s, previous, Ready).(ready := Enqueued(s.ready, previous))
      else s;
    SetState(requeued.(current := Some(t), flow := left), t, Running)
  }

  /** `size_t` minus one. */
  function LessOne(n: nat): nat {
    if n == 0 then 0xFFFF_FFFF else n - 1
  }

  /** The end of `_release_scheduler_lock`, behind the schedule. */
  function FinishRelease(s: Sched): Sched {
    s.(locks := s.locks.(lock := LessOne(s.locks.lock)))
  }

  /** `_task_starting`, the first code of a new task. */
  function TaskStarting(s: Sched): Sched {
    s.(locks := s.locks.(lock := LessOne(s.locks.lock)))
  }

  /** The `ret` of a switch: the task switched to goes on at its own resumption point, which is used up. */
  function Resume(s: Sched): Sched
    requires s.current.Some?
  {
    var t := s.current.value;
    if t !in s.flow.points then s
    else
      var s1 := s.(flow := s.flow.(points := s.flow.points - {t}));
      match s.flow.points[t]
      case InsideRelease => FinishRelease(s1)
      case Starting => TaskStarting(s1)
  }

  /** A dispatch in this state switches to another resumption point. */
  predicate Leaves(s: Sched) {
    s.current.Some? && s.ready != []
  }

  /** `_schedule` once nothing postpones it, up to the `hlt` of the idle loop. */
  function Dispatch(s: Sched, now: nat): Sched
    requires s.current.Some? ==> HasCurrent(s)
  {
    if s.current.None? then s
    else if s.ready != [] then
      SwitchTo(s.(ready := s.ready[1..], slice := TIME_SLICE_SIZE, lastTimer := now), s.ready[0])
    else if s.state[s.current.value] == Running then s.(slice := TIME_SLICE_SIZE)
    else s.(slice := 0, borrowed := s.current, current := None)
  }

  /** `_schedule` */
  function Schedule(s: Sched, now: nat): Sched
    requires s.current.Some? ==> HasCurrent(s)
  {
    if s.locks.postpone != 0 then s.(locks := s.locks.(postponed := true)) else Dispatch(s, now)
  }

  /** `_release_scheduler_lock`. When its schedule switches, what runs next is the continuation of the
      task switched to, and the end of this release is left for later. When the schedule starts to idle,
      it is left to the end of the idle loop. */
  function Release(s: Sched, now: nat): Sched
    requires s.locks.postpone > 0
    requires s.current.Some? ==> HasCurrent(s)
  {
    var s1 := s.(locks := s.locks.(postpone := s.locks.postpone - 1));
    if s1.locks.postpone == 0 && s1.locks.postponed then
      var s2 := s1.(locks := s1.locks.(postponed := false));
      var s3 := Schedule(s2, now);
      if Leaves(s2) then Resume(s3)
      else if s2.current.Some? && s3.current.None? then s3
      else FinishRelease(s3)
    else FinishRelease(s1)
  }

  /** The end of the idle loop: a task became ready, the borrowed task is given back as the current
      one, and the switch follows. */
  function IdleEnd(s: Sched, now: nat): Sched
    requires s.current.None? && s.borrowed.Some? && s.borrowed.value in s.state
    requires s.ready != []
  {
    var back := s.(ready := s.ready[1..], current := s.borrowed, borrowed := None,
                   slice := TIME_SLICE_SIZE, lastTimer := now);
    Resume(SwitchTo(back, s.ready[0]))
  }

  // ---------- The operations ----------

  /** `tasks_schedule` */
  function Yield(s: Sched, now: nat): Sched
    requires HasCurrent(s)
  {
    Release(Schedule(Acquire(s), now), now)
  }

  /** `tasks_block_current` */
  function BlockCurrent(s: Sched, reason: TaskState, now: nat): Sched
    requires HasCurrent(s)
  {
    Release(Schedule(SetState(Acquire(s), s.current.value, reason), now), now)
  }

  /** `tasks_unblock` */
  function Unblock(s: Sched, t: Task, now: nat): Sched
    requires s.current.Some? ==> HasCurrent(s)
  {
    var s1 := SetState(Acquire(s), t, Ready);
    Release(s1.(ready := Enqueued(s1.ready, t)), now)
  }

  /** `_wakeup` */
  function Wakeup(s: Sched, t: Task): Sched {
    s.(state := s.state[t := Ready], wakeup := s.wakeup[t := NEVER], ready := Enqueued(s.ready, t))
  }

  /** `_wakeup` of every task of a list, first to last. */
  function WakeAll(s: Sched, q: seq<Task>): Sched {
    if q == [] then s else Wakeup(WakeAll(s, q[..|q| - 1]), q[|q| - 1])
  }

  /** The sleeping tasks whose time has come, in list order. */
  function Due(q: seq<Task>, wakeup: map<Task, nat>, time: nat): seq<Task>
    requires forall t | t in q :: t in wakeup
  {
    if q == [] then []
    else
      var last := q[|q| - 1];
      Due(q[..|q| - 1], wakeup, time) + if time >= wakeup[last] then [last] else []
  }

  function NotDue(q: seq<Task>, wakeup: map<Task, nat>, time: nat): seq<Task>
    requires forall t | t in q :: t in wakeup
  {
    if q == [] then []
    else
      var last := q[|q| - 1];
      NotDue(q[..|q| - 1], wakeup, time) + if time >= wakeup[last] then [] else [last]
  }

  /** The loop of `_on_timer` over the sleeping list. */
  function Sweep(s: Sched, time: nat): Sched
    requires forall t | t in s.sleeping :: t in s.wakeup
  {
    WakeAll(s.(sleeping := NotDue(s.sleeping, s.wakeup, time)), Due(s.sleeping, s.wakeup, time))
  }

  /** The time slice has run out at `time`. */
  predicate Expired(s: Sched, time: nat)
    requires time >= s.lastTimer
  {
    s.slice != 0 && time - s.lastTimer >= s.slice
  }

  /** The time slice accounting of `_on_timer`. */
  function Tick(s: Sched, time: nat): Sched
    requires time >= s.lastTimer
  {
    if s.slice == 0 then s
    else if Expired(s, time) then s.(lastTimer := time)
    else s.(lastTimer := time, slice := s.slice - (time - s.lastTimer))
  }

  /** `_on_timer` */
  function OnTimer(s: Sched, time: nat, now: nat): Sched
    requires s.current.Some? ==> HasCurrent(s)
    requires time >= s.lastTimer
    requires forall t | t in s.sleeping :: t in s.wakeup && t in s.state
  {
    var s1 := Acquire(s);
    WakeAllKeeps(s1.(sleeping := NotDue(s1.sleeping, s1.wakeup, time)), Due(s1.sleeping, s1.wakeup, time));
    var s2 := Tick(Sweep(s1, time), time);
    var s3 := if Due(s.sleeping, s.wakeup, time) != [] || Expired(s, time) then Schedule(s2, now) else s2;
    Release(s3, now)
  }

  lemma {:induction false} WakeAllKeeps(s: Sched, q: seq<Task>)
    ensures var r := WakeAll(s, q);
            && r.current == s.current && r.borrowed == s.borrowed && r.sleeping == s.sleeping && r.stopped == s.stopped
            && r.flow == s.flow && r.waiting == s.waiting && r.slice == s.slice && r.lastTimer == s.lastTimer && r.locks == s.locks
            && r.state.Keys == s.state.Keys + (set t | t in q) && r.wakeup.Keys == s.wakeup.Keys + (set t | t in q)
  {
    if q != [] {
      WakeAllKeeps(s, q[..|q| - 1]);
      assert q == q[..|q| - 1] + [q[|q| - 1]];
    }
  }

  /** `tasks_nano_sleep_until` */
  function SleepUntil(s: Sched, time: nat, now: nat): Sched
    requires HasCurrent(s)
  {
    var t := s.current.value;
    var s1 := SetState(Acquire(s), t, Sleeping);
    var s2 := s1.(wakeup := s1.wakeup[t := time], sleeping := Enqueued(s1.sleeping, t));
    Release(Schedule(s2, now), now)
  }

  /** `tasks_exit` */
  function Exit(s: Sched, cleaner: Task, now: nat): Sched
    requires HasCurrent(s)
  {
    var s1 := Acquire(s);
    var s2 := s1.(stopped := Enqueued(s1.stopped, s.current.value));
    Release(Unblock(BlockCurrent(s2, Stopped, now), cleaner, now), now)
  }

  /** The blocks and stacks of these tasks are given back. */
  function Forget(s: Sched, gone: set<Task>): Sched {
    s.(state := s.state - gone, wakeup := s.wakeup - gone, flow := s.flow.(points := s.flow.points - gone))
  }

  /** One round of the cleaner task: every stopped task is released, then the cleaner pauses. */
  function Clean(s: Sched, now: nat): Sched
    requires HasCurrent(s) && s.current.value !in s.stopped
  {
    var s1 := Acquire(s);
    var gone := set t | t in s1.stopped;
    Release(BlockCurrent(Forget(s1, gone).(stopped := []), Paused, now), now)
  }

  /** `tasks_sync_block` */
  function SyncBlock(s: Sched, w: Sync, now: nat): Sched
    requires HasCurrent(s) && w in s.waiting
  {
    var s1 := Acquire(s);
    var s2 := s1.(waiting := s1.waiting[w := Enqueued(s1.waiting[w], s.current.value)]);
    Release(BlockCurrent(s2, Blocked, now), now)
  }

  /** `tasks_sync_unblock` */
  function SyncUnblock(s: Sched, w: Sync, now: nat): Sched
    requires s.current.Some? ==> HasCurrent(s)
    requires w in s.waiting && forall t | t in s.waiting[w] :: t in s.state
  {
    var s1 := Acquire(s);
    if s1.waiting[w] == [] then Release(s1, now)
    else
      WakeAllKeeps(s1, s1.waiting[w]);
      var s2 := WakeAll(s1, s1.waiting[w]);
      Release(Schedule(s2.(waiting := s2.waiting[w := []]), now), now)
  }

  /** `tasks_new`, the part that concerns the scheduler: the stack is built to start the task. */
  function Create(s: Sched, t: Task, state: TaskState): Sched
    requires t !in s.state
  {
    var s1 := s.(state := s.state[t := state], wakeup := s.wakeup[t := 0],
                 flow := s.flow.(points := s.flow.points[t := Starting]));
    if state == Ready then s1.(ready := Enqueued(s1.ready, t)) else s1
  }
}
