/** Properties of whole runs of the scheduler: where tasks are, who runs next, and how nested
    locked sections defer their schedule requests. */
module SchedulerRuns {
  import opened TaskLists
  import opened SchedulerSpec

  // ---------- Where every task is ----------

  /** The list holds exactly the tasks in the given state, each once. */
  ghost predicate Holds(q: seq<Task>, state: map<Task, TaskState>, st: TaskState) {
    && NoDup(q)
    && (forall t | t in q :: t in state)
    && (forall t | t in state :: t in q <==> state[t] == st)
  }

  /** Every blocked task is on exactly one waiting list, once. */
  ghost predicate HoldsBlocked(waiting: map<Sync, seq<Task>>, state: map<Task, TaskState>) {
    && (forall w | w in waiting :: NoDup(waiting[w]))
    && (forall w | w in waiting :: forall t | t in waiting[w] :: t in state && state[t] == Blocked)
    && (forall v, w | v in waiting && w in waiting && v != w :: forall t | t in waiting[v] :: t !in waiting[w])
    && (forall t | t in state && state[t] == Blocked :: exists w | w in waiting :: t in waiting[w])
  }

  ghost predicate Placed(s: Sched) {
    && Holds(s.ready, s.state, Ready)
    && Holds(s.sleeping, s.state, Sleeping)
    && Holds(s.stopped, s.state, Stopped)
    && HoldsBlocked(s.waiting, s.state)
    && (forall t | t in s.state :: t in s.wakeup)
    && (forall t | t in s.state && s.state[t] == Running :: s.current == Some(t))
  }

  /** The locks outside every locked section: the idle loop keeps one lock level. */
  function RestLocks(idle: bool): Locks {
    Locks(if idle then 1 else 0, 0, false)
  }

  function Rested(s: Sched): Sched {
    s.(locks := RestLocks(s.current.None?))
  }

  /** The task whose code the CPU executes; it lends its stack to the idle loop. */
  function Executing(s: Sched): Option {
    if s.current.Some? then s.current else s.borrowed
  }

  /** Every known task but the executing one has a resumption point, and nobody else has. */
  ghost predicate Pointed(s: Sched) {
    forall t :: t in s.flow.points <==> t in s.state && Executing(s) != Some(t)
  }

  /** Every switch so far was made at lock one and postpone count zero. */
  ghost predicate SwitchesInOrder(switches: seq<Locks>) {
    forall i :: 0 <= i < |switches| ==> switches[i] == Locks(1, 0, false)
  }

  /** The state between locked sections: a running task, or an idle CPU with a borrowed task. */
  ghost predicate Settled(s: Sched) {
    && Placed(s) && Pointed(s) && SwitchesInOrder(s.flow.switches)
    && s.locks == RestLocks(s.current.None?)
    && (s.current.Some? ==> HasCurrent(s) && s.state[s.current.value] == Running && s.borrowed.None?)
    && (s.current.None? ==> s.borrowed.Some? && s.borrowed.value in s.state && s.slice == 0)
  }

  /** The states between locked sections. */
  type Quiet = s: Sched | Settled(s)
    ghost witness (InitialSettled(1, 2, {}); Initial(1, 2, {}))

  // ---------- One task changes state ----------

  lemma HoldsJoined(q: seq<Task>, state: map<Task, TaskState>, t: Task, st: TaskState)
    requires Holds(q, state, st) && (t in state ==> state[t] != st)
    ensures Enqueued(q, t) == q + [t]
    ensures Holds(q + [t], state[t := st], st)
  {
  }

  lemma HoldsLeft(q: seq<Task>, state: map<Task, TaskState>, st: TaskState, to: TaskState)
    requires Holds(q, state, st) && q != [] && to != st
    ensures Holds(q[1..], state[q[0] := to], st)
  {
    assert forall t | t in q :: t == q[0] || t in q[1..];
    assert q[0] !in q[1..];
  }

  lemma HoldsAside(q: seq<Task>, state: map<Task, TaskState>, st: TaskState, t: Task, to: TaskState)
    requires Holds(q, state, st) && (t in state ==> state[t] != st) && to != st
    ensures Holds(q, state[t := to], st)
  {
  }

  lemma BlockedAside(waiting: map<Sync, seq<Task>>, state: map<Task, TaskState>, t: Task, to: TaskState)
    requires HoldsBlocked(waiting, state) && (t in state ==> state[t] != Blocked) && to != Blocked
    ensures HoldsBlocked(waiting, state[t := to])
  {
  }

  /** The task at the head of the ready list becomes the running one. */
  lemma HeadRuns(s: Sched)
    requires Placed(s) && s.ready != []
    requires forall u | u in s.state :: s.state[u] != Running
    ensures Placed(SetState(s.(ready := s.ready[1..], current := Some(s.ready[0])), s.ready[0], Running))
  {
    var t := s.ready[0];
    assert t in s.ready && s.state[t] == Ready;
    HoldsLeft(s.ready, s.state, Ready, Running);
    HoldsAside(s.sleeping, s.state, Sleeping, t, Running);
    HoldsAside(s.stopped, s.state, Stopped, t, Running);
    BlockedAside(s.waiting, s.state, t, Running);
  }

  /** A task that is on no list joins the tail of the ready list. */
  lemma JoinsReady(s: Sched, t: Task)
    requires Placed(s) && (t in s.state ==> s.state[t] == Running || s.state[t] == Paused) && t in s.wakeup
    ensures Enqueued(s.ready, t) == s.ready + [t]
    ensures Placed(SetState(s, t, Ready).(ready := s.ready + [t]))
  {
    HoldsJoined(s.ready, s.state, t, Ready);
    HoldsAside(s.sleeping, s.state, Sleeping, t, Ready);
    HoldsAside(s.stopped, s.state, Stopped, t, Ready);
    BlockedAside(s.waiting, s.state, t, Ready);
  }

  /** A dispatch as the outermost release makes it, and the code that runs next. */
  function Landed(b: Sched, now: nat): Sched
    requires b.current.Some? ==> HasCurrent(b)
  {
    if b.current.None? then Rested(b)
    else
      var d := Dispatch(b.(locks := Locks(1, 0, false)), now);
      if Leaves(b) then Resume(d) else Rested(d)
  }

  lemma ResumeMoves(d: Sched)
    requires d.current.Some?
    ensures Resume(d) == d.(locks := Resume(d).locks, flow := Resume(d).flow)
  {
  }

  lemma SwitchUnderLocks(s: Sched, t: Task, locks: Locks)
    requires HasCurrent(s)
    ensures var d := SwitchTo(s.(locks := locks), t);
            d == SwitchTo(s, t).(locks := locks, flow := d.flow)
  {
  }

  lemma DispatchUnderLocks(b: Sched, locks: Locks, now: nat)
    requires HasCurrent(b)
    ensures var d := Dispatch(b.(locks := locks), now);
            d == Dispatch(b, now).(locks := locks, flow := d.flow)
    ensures Dispatch(b, now).current.None? ==> !Leaves(b)
  {
    if b.ready != [] {
      SwitchUnderLocks(b.(ready := b.ready[1..], slice := TIME_SLICE_SIZE, lastTimer := now), b.ready[0], locks);
    }
  }

  /** Counters and resumption points aside, it is the dispatch. */
  lemma LandedIsDispatch(b: Sched, now: nat)
    requires b.current.Some? ==> HasCurrent(b)
    ensures Landed(b, now) == Dispatch(b, now).(locks := Landed(b, now).locks, flow := Landed(b, now).flow)
  {
    if b.current.Some? {
      DispatchUnderLocks(b, Locks(1, 0, false), now);
      var d := Dispatch(b.(locks := Locks(1, 0, false)), now);
      if Leaves(b) {
        ResumeMoves(d);
      }
    }
  }

  /** A switch to the task that was taken off the head of the ready list. */
  lemma SwitchPlaced(s: Sched)
    requires Placed(s) && HasCurrent(s) && s.ready != []
    ensures var r := SwitchTo(s.(ready := s.ready[1..]), s.ready[0]);
            Placed(r) && r.state.Keys == s.state.Keys && r.current == Some(s.ready[0]) && r.state[s.ready[0]] == Running
  {
    var previous := s.current.value;
    assert s.ready[0] in s.ready;
    if s.state[previous] == Running {
      JoinsReady(s, previous);
      var s1 := SetState(s, previous, Ready).(ready := s.ready + [previous]);
      HeadRuns(s1);
      assert s1.ready[1..] == s.ready[1..] + [previous];
      assert previous !in s.ready;
    } else {
      HeadRuns(s);
    }
  }

  /** The task switched to has a resumption point, whichever it is, and the code there takes the lock
      down to zero. */
  lemma SwitchResumes(s: Sched)
    requires Placed(s) && Pointed(s) && HasCurrent(s) && s.ready != [] && s.locks == Locks(1, 0, false)
    ensures var d := SwitchTo(s.(ready := s.ready[1..]), s.ready[0]);
            && s.ready[0] in d.flow.points
            && Resume(d).locks == Locks(0, 0, false) && Pointed(Resume(d))
            && Resume(d) == d.(locks := Locks(0, 0, false), flow := Resume(d).flow)
            && Resume(d).flow.switches == s.flow.switches + [Locks(1, 0, false)]
  {
    SwitchPlaced(s);
    assert s.ready[0] in s.ready;
  }

  /** A dispatch, with the current task in any state, ends with the CPU either running one task or idle. */
  lemma DispatchSettles(s: Sched, now: nat)
    requires Placed(s) && Pointed(s) && SwitchesInOrder(s.flow.switches) && HasCurrent(s) && s.borrowed.None?
    ensures Settled(Landed(s, now))
  {
    if s.ready != [] {
      var s1 := s.(slice := TIME_SLICE_SIZE, lastTimer := now, locks := Locks(1, 0, false));
      SwitchPlaced(s1);
      SwitchResumes(s1);
    }
  }

  // ---------- Waking several tasks ----------

  lemma WakeupOne(s: Sched, t: Task)
    requires t !in s.ready
    ensures Wakeup(s, t).ready == s.ready + [t]
  {
  }

  lemma {:induction false} WakeAllReady(s: Sched, q: seq<Task>)
    requires NoDup(q) && forall t | t in q :: t !in s.ready
    ensures WakeAll(s, q).ready == s.ready + q
  {
    if q != [] {
      var front, last := q[..|q| - 1], q[|q| - 1];
      assert q == front + [last];
      assert last !in front && last in q;
      WakeAllReady(s, front);
      WakeupOne(WakeAll(s, front), last);
    }
  }

  lemma {:induction false} WakeAllStates(s: Sched, q: seq<Task>)
    ensures var r := WakeAll(s, q);
            && (forall t | t in q :: t in r.state && r.state[t] == Ready && t in r.wakeup && r.wakeup[t] == NEVER)
            && (forall t | t in s.state && t !in q :: t in r.state && r.state[t] == s.state[t])
            && (forall t | t in s.wakeup && t !in q :: t in r.wakeup && r.wakeup[t] == s.wakeup[t])
  {
    if q != [] {
      var front, last := q[..|q| - 1], q[|q| - 1];
      assert q == front + [last];
      WakeAllStates(s, front);
    }
  }

  lemma WakeAllAppends(s: Sched, q: seq<Task>)
    requires NoDup(q) && forall t | t in q :: t !in s.ready
    ensures var r := WakeAll(s, q);
            && r.ready == s.ready + q
            && (forall t | t in q :: t in r.state && r.state[t] == Ready && t in r.wakeup && r.wakeup[t] == NEVER)
            && (forall t | t in s.state && t !in q :: t in r.state && r.state[t] == s.state[t])
            && (forall t | t in s.wakeup && t !in q :: t in r.wakeup && r.wakeup[t] == s.wakeup[t])
  {
    WakeAllReady(s, q);
    WakeAllStates(s, q);
  }

  lemma {:induction false} WakeAllUnderLocks(s: Sched, q: seq<Task>, locks: Locks)
    ensures WakeAll(s.(locks := locks), q) == WakeAll(s, q).(locks := locks)
  {
    if q != [] {
      WakeAllUnderLocks(s, q[..|q| - 1], locks);
    }
  }

  /** The sweep splits the sleeping list by wakeup time. */
  lemma {:induction false} DueMembers(q: seq<Task>, wakeup: map<Task, nat>, time: nat)
    requires forall t | t in q :: t in wakeup
    ensures forall t | t in q :: t in Due(q, wakeup, time) <==> time >= wakeup[t]
    ensures forall t | t in q :: t in NotDue(q, wakeup, time) <==> time < wakeup[t]
    ensures forall t | t in Due(q, wakeup, time) :: t in q
    ensures forall t | t in NotDue(q, wakeup, time) :: t in q
  {
    if q != [] {
      assert q == q[..|q| - 1] + [q[|q| - 1]];
      DueMembers(q[..|q| - 1], wakeup, time);
    }
  }

  /** Nobody is lost or repeated by the split. */
  lemma {:induction false} DuePartition(q: seq<Task>, wakeup: map<Task, nat>, time: nat)
    requires forall t | t in q :: t in wakeup
    ensures multiset(Due(q, wakeup, time)) + multiset(NotDue(q, wakeup, time)) == multiset(q)
  {
    if q != [] {
      assert q == q[..|q| - 1] + [q[|q| - 1]];
      DuePartition(q[..|q| - 1], wakeup, time);
    }
  }

  /** `part` comes from `q` by leaving elements out. */
  predicate Subsequence(part: seq<Task>, q: seq<Task>) {
    if part == [] then true
    else if q == [] then false
    else
      || Subsequence(part, q[..|q| - 1])
      || (part[|part| - 1] == q[|q| - 1] && Subsequence(part[..|part| - 1], q[..|q| - 1]))
  }

  lemma {:induction false} SubsequenceNoDup(part: seq<Task>, q: seq<Task>)
    requires Subsequence(part, q) && NoDup(q)
    ensures NoDup(part) && forall t | t in part :: t in q
  {
    if part != [] {
      var front := q[..|q| - 1];
      assert q == front + [q[|q| - 1]];
      if Subsequence(part, front) {
        SubsequenceNoDup(part, front);
      } else {
        var before := part[..|part| - 1];
        SubsequenceNoDup(before, front);
        assert part == before + [part[|part| - 1]];
        assert q[|q| - 1] !in front;
      }
    }
  }

  lemma {:induction false} SubsequenceExtend(part: seq<Task>, q: seq<Task>, t: Task)
    requires Subsequence(part, q)
    ensures Subsequence(part, q + [t]) && Subsequence(part + [t], q + [t])
  {
    assert (q + [t])[..|q + [t]| - 1] == q;
    assert (part + [t])[..|part + [t]| - 1] == part;
  }

  lemma DueLast(q: seq<Task>, wakeup: map<Task, nat>, time: nat)
    requires q != [] && forall t | t in q :: t in wakeup
    ensures var front, last := q[..|q| - 1], q[|q| - 1];
            && q == front + [last] && (forall t | t in front :: t in wakeup)
            && (time >= wakeup[last] ==>
                  Due(q, wakeup, time) == Due(front, wakeup, time) + [last] && NotDue(q, wakeup, time) == NotDue(front, wakeup, time))
            && (time < wakeup[last] ==>
                  Due(q, wakeup, time) == Due(front, wakeup, time) && NotDue(q, wakeup, time) == NotDue(front, wakeup, time) + [last])
  {
    var front := q[..|q| - 1];
    assert Due(front, wakeup, time) + [] == Due(front, wakeup, time);
    assert NotDue(front, wakeup, time) + [] == NotDue(front, wakeup, time);
  }

  /** Both parts of the split keep the order of the list. */
  lemma {:induction false} DueInOrder(q: seq<Task>, wakeup: map<Task, nat>, time: nat)
    requires forall t | t in q :: t in wakeup
    ensures Subsequence(Due(q, wakeup, time), q) && Subsequence(NotDue(q, wakeup, time), q)
    decreases |q|
  {
    if q != [] {
      var front, last := q[..|q| - 1], q[|q| - 1];
      DueLast(q, wakeup, time);
      DueInOrder(front, wakeup, time);
      SubsequenceExtend(Due(front, wakeup, time), front, last);
      SubsequenceExtend(NotDue(front, wakeup, time), front, last);
    }
  }

  // ---------- Events ----------

  datatype Event =
    | YieldNow
    | Pause
    | WakeTask(task: Task)
    | Timer(time: nat)
    | Sleep(time: nat)
    | ExitTask
    | CleanUp
    | WaitOn(sync: Sync)
    | Notify(sync: Sync)
    | NewTask(task: Task, state: TaskState)
    | IdleOver

  /** Unblocking the cleaner is sound when it is paused, or is the last ready task already. */
  ghost predicate CleanerWakes(s: Sched, cleaner: Task) {
    (cleaner in s.state && s.state[cleaner] == Paused) || (s.ready != [] && s.ready[|s.ready| - 1] == cleaner)
  }

  /** What each operation expects of its caller. While the CPU idles only interrupts get in. */
  ghost predicate Legal(s: Sched, e: Event, cleaner: Task)
    requires cleaner in s.state
  {
    match e
    case YieldNow => s.current.Some?
    case Pause => s.current.Some?
    case WakeTask(t) => t in s.state && s.state[t] == Paused
    case Timer(time) => time >= s.lastTimer
    case Sleep(_) => s.current.Some?
    case ExitTask => s.current.Some? && s.current != Some(cleaner) && CleanerWakes(s, cleaner)
    case CleanUp => s.current == Some(cleaner)
    case WaitOn(w) => s.current.Some? && w in s.waiting
    case Notify(w) => w in s.waiting
    case NewTask(t, state) => s.current.Some? && t !in s.state && (state == Ready || state == Paused)
    case IdleOver => s.current.None? && s.ready != []
  }

  /** One operation as the kernel runs it. */
  ghost function Step(s: Quiet, e: Event, cleaner: Task, now: nat): Sched
    requires cleaner in s.state && Legal(s, e, cleaner)
  {
    match e
    case YieldNow => Yield(s, now)
    case Pause => BlockCurrent(s, Paused, now)
    case WakeTask(t) => Unblock(s, t, now)
    case Timer(time) => OnTimer(s, time, now)
    case Sleep(time) => SleepUntil(s, time, now)
    case ExitTask => Exit(s, cleaner, now)
    case CleanUp => Clean(s, now)
    case WaitOn(w) => SyncBlock(s, w, now)
    case Notify(w) => SyncUnblock(s, w, now)
    case NewTask(t, state) => Create(s, t, state)
    case IdleOver => IdleEnd(s, now)
  }

  ghost function CleanBody(s: Sched, cleaner: Task): Sched {
    var gone := set t | t in s.stopped;
    SetState(Forget(s, gone).(stopped := []), cleaner, Paused)
  }

  ghost function TimerBody(s: Sched, time: nat): Sched
    requires time >= s.lastTimer && forall t | t in s.sleeping :: t in s.wakeup
  {
    WakeAllKeeps(s.(sleeping := NotDue(s.sleeping, s.wakeup, time)), Due(s.sleeping, s.wakeup, time));
    Tick(Sweep(s, time), time)
  }

  ghost function NotifyBody(s: Sched, w: Sync): Sched
    requires w in s.waiting
  {
    if s.waiting[w] == [] then s else WakeAll(s, s.waiting[w]).(waiting := s.waiting[w := []])
  }

  /** What an operation does to tasks and lists, all locking aside. */
  ghost function Body(s: Quiet, e: Event, cleaner: Task): Sched
    requires cleaner in s.state && Legal(s, e, cleaner)
  {
    match e
    case YieldNow => s
    case Pause => SetState(s, s.current.value, Paused)
    case WakeTask(t) => SetState(s, t, Ready).(ready := Enqueued(s.ready, t))
    case Timer(time) => TimerBody(s, time)
    case Sleep(time) => SetState(s, s.current.value, Sleeping).(
                          wakeup := s.wakeup[s.current.value := time], sleeping := Enqueued(s.sleeping, s.current.value))
    case ExitTask => SetState(SetState(s, s.current.value, Stopped), cleaner, Ready).(
                       stopped := Enqueued(s.stopped, s.current.value), ready := Enqueued(s.ready, cleaner))
    case CleanUp => CleanBody(s, cleaner)
    case WaitOn(w) => SetState(s, s.current.value, Blocked).(
                        waiting := s.waiting[w := Enqueued(s.waiting[w], s.current.value)])
    case Notify(w) => NotifyBody(s, w)
    case NewTask(t, state) => Create(s, t, state)
    case IdleOver => s.(current := s.borrowed, borrowed := None)
  }

  /** Whether the operation asks for a schedule. */
  ghost predicate Requests(s: Quiet, e: Event, cleaner: Task)
    requires cleaner in s.state && Legal(s, e, cleaner)
  {
    match e
    case WakeTask(_) => false
    case Timer(time) => Due(s.sleeping, s.wakeup, time) != [] || Expired(s, time)
    case Notify(w) => s.waiting[w] != []
    case NewTask(_, _) => false
    case _ => true
  }

  lemma RequestedSection(b: Sched, now: nat)
    requires b.current.Some? ==> HasCurrent(b)
    requires b.locks == RestLocks(b.current.None?)
    ensures Release(Schedule(Acquire(b), now), now) == Landed(b, now)
  {
  }

  lemma BlockingSection(b: Sched, reason: TaskState, now: nat)
    requires HasCurrent(b) && b.locks == RestLocks(false)
    ensures Release(BlockCurrent(Acquire(b), reason, now), now)
         == Landed(SetState(b, b.current.value, reason), now)
  {
    var c := SetState(b, b.current.value, reason);
    assert BlockCurrent(Acquire(b), reason, now) == c.(locks := Locks(1, 1, true));
  }

  lemma UnrequestedSection(b: Sched, now: nat)
    requires b.current.Some? ==> HasCurrent(b)
    requires b.locks == RestLocks(b.current.None?)
    ensures Release(Acquire(b), now) == b
  {
  }

  lemma ExitSection(s: Sched, cleaner: Task, now: nat)
    requires HasCurrent(s) && s.locks == RestLocks(false)
    ensures var b := SetState(SetState(s, s.current.value, Stopped), cleaner, Ready).(
                       stopped := Enqueued(s.stopped, s.current.value), ready := Enqueued(s.ready, cleaner));
            Exit(s, cleaner, now) == Landed(b, now)
  {
    var stopped := s.(stopped := Enqueued(s.stopped, s.current.value));
    var blocked := BlockCurrent(Acquire(stopped), Stopped, now);
    assert blocked == SetState(stopped, s.current.value, Stopped).(locks := Locks(1, 1, true));
    var woken := SetState(blocked, cleaner, Ready).(ready := Enqueued(s.ready, cleaner));
    assert Unblock(blocked, cleaner, now) == woken;
  }

  lemma TimerBodyUnderLocks(s: Sched, time: nat, locks: Locks)
    requires time >= s.lastTimer && forall t | t in s.sleeping :: t in s.wakeup
    ensures TimerBody(s.(locks := locks), time) == TimerBody(s, time).(locks := locks)
    ensures var b := TimerBody(s, time);
            b.current == s.current && b.locks == s.locks && (forall t | t in s.state :: t in b.state)
  {
    var rest, due := NotDue(s.sleeping, s.wakeup, time), Due(s.sleeping, s.wakeup, time);
    WakeAllKeeps(s.(sleeping := rest), due);
    WakeAllUnderLocks(s.(sleeping := rest), due, locks);
  }

  lemma TimerSection(s: Sched, time: nat, now: nat)
    requires s.locks == RestLocks(s.current.None?) && (s.current.Some? ==> HasCurrent(s))
    requires time >= s.lastTimer && forall t | t in s.sleeping :: t in s.wakeup && t in s.state
    ensures var b := TimerBody(s, time);
            && b.current == s.current && (b.current.Some? ==> HasCurrent(b))
            && OnTimer(s, time, now)
            == if Due(s.sleeping, s.wakeup, time) != [] || Expired(s, time) then Landed(b, now) else Rested(b)
  {
    TimerBodyUnderLocks(s, time, Acquire(s).locks);
    var b := TimerBody(s, time);
    assert s.current.Some? ==> s.current.value in b.state;
    assert TimerBody(Acquire(s), time) == Acquire(b);
    RequestedSection(b, now);
    UnrequestedSection(b, now);
  }

  lemma NotifySection(s: Sched, w: Sync, now: nat)
    requires s.locks == RestLocks(s.current.None?) && (s.current.Some? ==> HasCurrent(s))
    requires w in s.waiting && forall t | t in s.waiting[w] :: t in s.state
    ensures var b := NotifyBody(s, w);
            && b.current == s.current && (b.current.Some? ==> HasCurrent(b))
            && SyncUnblock(s, w, now) == if s.waiting[w] != [] then Landed(b, now) else Rested(b)
  {
    var q, b := s.waiting[w], NotifyBody(s, w);
    if q == [] {
      UnrequestedSection(s, now);
    } else {
      WakeAllKeeps(s, q);
      WakeAllUnderLocks(s, q, Acquire(s).locks);
      assert WakeAll(Acquire(s), q).(waiting := s.waiting[w := []]) == Acquire(b);
      RequestedSection(b, now);
    }
  }

  lemma CleanSection(s: Sched, cleaner: Task, now: nat)
    requires s.current == Some(cleaner) && cleaner in s.state && cleaner !in s.stopped && s.locks == RestLocks(false)
    ensures HasCurrent(CleanBody(s, cleaner))
    ensures Clean(s, now) == Landed(CleanBody(s, cleaner), now)
  {
    var gone := set t | t in s.stopped;
    BlockingSection(Forget(s, gone).(stopped := []), Paused, now);
  }

  lemma WaitSection(s: Quiet, w: Sync, cleaner: Task, now: nat)
    requires cleaner in s.state && Legal(s, WaitOn(w), cleaner)
    ensures HasCurrent(Body(s, WaitOn(w), cleaner))
    ensures SyncBlock(s, w, now) == Landed(Body(s, WaitOn(w), cleaner), now)
  {
    var b := s.(waiting := s.waiting[w := Enqueued(s.waiting[w], s.current.value)]);
    BlockingSection(b, Blocked, now);
    assert Acquire(s).(waiting := b.waiting) == Acquire(b);
  }

  lemma PauseSection(s: Sched, reason: TaskState, now: nat)
    requires HasCurrent(s) && s.locks == RestLocks(false)
    ensures BlockCurrent(s, reason, now) == Landed(SetState(s, s.current.value, reason), now)
  {
    var b := SetState(s, s.current.value, reason);
    RequestedSection(b, now);
    assert SetState(Acquire(s), s.current.value, reason) == Acquire(b);
  }

  lemma SleepSection(s: Sched, time: nat, now: nat)
    requires HasCurrent(s) && s.locks == RestLocks(false)
    ensures var t := s.current.value;
            var b := SetState(s, t, Sleeping).(wakeup := s.wakeup[t := time], sleeping := Enqueued(s.sleeping, t));
            HasCurrent(b) && SleepUntil(s, time, now) == Landed(b, now)
  {
    var t := s.current.value;
    var b := SetState(s, t, Sleeping).(wakeup := s.wakeup[t := time], sleeping := Enqueued(s.sleeping, t));
    RequestedSection(b, now);
    assert SetState(Acquire(s), t, Sleeping).(wakeup := b.wakeup, sleeping := b.sleeping) == Acquire(b);
  }

  lemma WakeSection(s: Quiet, t: Task, now: nat)
    requires t in s.state && s.state[t] == Paused
    ensures var b := SetState(s, t, Ready).(ready := Enqueued(s.ready, t));
            (b.current.Some? ==> HasCurrent(b)) && Unblock(s, t, now) == b
  {
    UnrequestedSection(SetState(s, t, Ready).(ready := Enqueued(s.ready, t)), now);
  }

  lemma IdleSection(s: Quiet, cleaner: Task, now: nat)
    requires cleaner in s.state && Legal(s, IdleOver, cleaner)
    ensures var b := Body(s, IdleOver, cleaner);
            HasCurrent(b) && IdleEnd(s, now) == Landed(b, now)
  {
  }

  /** However deeply an operation nests its locked sections, it amounts to its body followed by at
      most one dispatch, made exactly when a schedule was requested on the way. */
  lemma StepIsBodyThenDispatch(s: Quiet, e: Event, cleaner: Task, now: nat)
    requires cleaner in s.state && Legal(s, e, cleaner)
    ensures var b := Body(s, e, cleaner);
            && (b.current.Some? ==> HasCurrent(b))
            && Step(s, e, cleaner, now) == if Requests(s, e, cleaner) then Landed(b, now) else Rested(b)
  {
    match e
    case Timer(time) => TimerSection(s, time, now);
    case ExitTask => ExitSection(s, cleaner, now);
    case CleanUp => CleanSection(s, cleaner, now);
    case WaitOn(w) => WaitSection(s, w, cleaner, now);
    case Notify(w) => NotifySection(s, w, now);
    case IdleOver => IdleSection(s, cleaner, now);
    case WakeTask(t) => WakeSection(s, t, now);
    case NewTask(_, _) =>
    case YieldNow => RequestedSection(s, now);
    case Pause => PauseSection(s, Paused, now);
    case Sleep(time) => SleepSection(s, time, now);
  }

  // ---------- Every operation leaves every task in its place ----------

  lemma PausePlaced(s: Sched, t: Task)
    requires Placed(s) && t in s.state && s.state[t] == Running
    ensures Placed(SetState(s, t, Paused))
  {
    HoldsAside(s.ready, s.state, Ready, t, Paused);
    HoldsAside(s.sleeping, s.state, Sleeping, t, Paused);
    HoldsAside(s.stopped, s.state, Stopped, t, Paused);
    BlockedAside(s.waiting, s.state, t, Paused);
  }

  lemma SleepPlaced(s: Sched, t: Task, time: nat)
    requires Placed(s) && t in s.state && s.state[t] == Running
    ensures Placed(SetState(s, t, Sleeping).(wakeup := s.wakeup[t := time], sleeping := Enqueued(s.sleeping, t)))
  {
    HoldsAside(s.ready, s.state, Ready, t, Sleeping);
    HoldsJoined(s.sleeping, s.state, t, Sleeping);
    HoldsAside(s.stopped, s.state, Stopped, t, Sleeping);
    BlockedAside(s.waiting, s.state, t, Sleeping);
  }

  lemma StopPlaced(s: Sched, t: Task)
    requires Placed(s) && t in s.state && s.state[t] == Running
    ensures Placed(SetState(s, t, Stopped).(stopped := Enqueued(s.stopped, t)))
  {
    HoldsAside(s.ready, s.state, Ready, t, Stopped);
    HoldsAside(s.sleeping, s.state, Sleeping, t, Stopped);
    HoldsJoined(s.stopped, s.state, t, Stopped);
    BlockedAside(s.waiting, s.state, t, Stopped);
  }

  lemma BlockPlaced(s: Sched, t: Task, w: Sync)
    requires Placed(s) && t in s.state && s.state[t] == Running && w in s.waiting
    ensures Placed(SetState(s, t, Blocked).(waiting := s.waiting[w := Enqueued(s.waiting[w], t)]))
  {
    HoldsAside(s.ready, s.state, Ready, t, Blocked);
    HoldsAside(s.sleeping, s.state, Sleeping, t, Blocked);
    HoldsAside(s.stopped, s.state, Stopped, t, Blocked);
    BlockedJoined(s.waiting, s.state, t, w);
  }

  lemma BlockedJoined(waiting: map<Sync, seq<Task>>, state: map<Task, TaskState>, t: Task, w: Sync)
    requires HoldsBlocked(waiting, state) && w in waiting && t in state && state[t] == Running
    ensures HoldsBlocked(waiting[w := Enqueued(waiting[w], t)], state[t := Blocked])
  {
    var after, state' := waiting[w := Enqueued(waiting[w], t)], state[t := Blocked];
    assert t !in waiting[w];
    forall u | u in state' && state'[u] == Blocked
      ensures exists v | v in after :: u in after[v]
    {
      if u == t {
        assert u in after[w];
      } else {
        var v :| v in waiting && u in waiting[v];
        assert u in after[v];
      }
    }
  }

  lemma CleanPlaced(s: Sched)
    requires Placed(s)
    ensures var gone := set t | t in s.stopped;
            Placed(Forget(s, gone).(stopped := []))
  {
    var gone := set t | t in s.stopped;
    var state' := s.state - gone;
    forall t | t in state' && state'[t] == Blocked
      ensures exists w | w in s.waiting :: t in s.waiting[w]
    {
      assert t in s.state && s.state[t] == Blocked;
    }
  }

  lemma NewPlaced(s: Sched, t: Task, st: TaskState)
    requires Placed(s) && t !in s.state && (st == Ready || st == Paused)
    ensures Placed(Create(s, t, st))
  {
    var s1 := s.(wakeup := s.wakeup[t := 0]);
    if st == Ready {
      JoinsReady(s1, t);
    } else {
      HoldsAside(s.ready, s.state, Ready, t, Paused);
      HoldsAside(s.sleeping, s.state, Sleeping, t, Paused);
      HoldsAside(s.stopped, s.state, Stopped, t, Paused);
      BlockedAside(s.waiting, s.state, t, Paused);
    }
  }

  /** The tasks of `q`, and no others, became ready. */
  ghost predicate MadeReady(state: map<Task, TaskState>, state': map<Task, TaskState>, q: seq<Task>) {
    && state'.Keys == state.Keys
    && NoDup(q) && (forall t | t in q :: t in state && state[t] != Ready)
    && (forall t | t in state :: state'[t] == if t in q then Ready else state[t])
  }

  lemma ReadyJoinedAll(ready: seq<Task>, state: map<Task, TaskState>, state': map<Task, TaskState>, q: seq<Task>)
    requires Holds(ready, state, Ready) && MadeReady(state, state', q)
    ensures Holds(ready + q, state', Ready)
  {
    forall i, j | 0 <= i < j < |ready + q|
      ensures (ready + q)[i] != (ready + q)[j]
    {
      assert i < |ready| <= j ==> ready[i] in ready && q[j - |ready|] in q;
    }
  }

  lemma UnmovedAll(list: seq<Task>, state: map<Task, TaskState>, state': map<Task, TaskState>, q: seq<Task>,
          st: TaskState)
    requires Holds(list, state, st) && MadeReady(state, state', q) && st != Ready
    requires forall t | t in q :: state[t] != st
    ensures Holds(list, state', st)
  {
  }

  lemma SweepPlaced(s: Sched, time: nat)
    requires Placed(s)
    ensures Placed(Sweep(s, time))
    ensures Sweep(s, time).ready == s.ready + Due(s.sleeping, s.wakeup, time)
  {
    var rest, due := NotDue(s.sleeping, s.wakeup, time), Due(s.sleeping, s.wakeup, time);
    DueInOrder(s.sleeping, s.wakeup, time);
    SubsequenceNoDup(rest, s.sleeping);
    SubsequenceNoDup(due, s.sleeping);
    DueMembers(s.sleeping, s.wakeup, time);
    var s1 := s.(sleeping := rest);
    var r := Sweep(s, time);
    SleepersWake(s, s1, due);
  }

  lemma SleepersWake(s: Sched, s1: Sched, due: seq<Task>)
    requires Placed(s) && s1 == s.(sleeping := s1.sleeping)
    requires NoDup(s1.sleeping) && NoDup(due)
    requires forall t | t in s1.sleeping :: t in s.sleeping && t !in due
    requires forall t | t in due :: t in s.sleeping
    requires forall t | t in s.sleeping :: t in due || t in s1.sleeping
    ensures Placed(WakeAll(s1, due)) && WakeAll(s1, due).ready == s.ready + due
  {
    var r := WakeAll(s1, due);
    WakeAllKeeps(s1, due);
    WakeAllAppends(s1, due);
    assert r.state.Keys == s.state.Keys;
    ReadyJoinedAll(s.ready, s.state, r.state, due);
    UnmovedAll(s.stopped, s.state, r.state, due, Stopped);
    BlockedUnmoved(s.waiting, s.state, r.state, due);
    assert Holds(s1.sleeping, r.state, Sleeping);
  }

  lemma BlockedUnmoved(waiting: map<Sync, seq<Task>>, state: map<Task, TaskState>, state': map<Task, TaskState>,
          q: seq<Task>)
    requires HoldsBlocked(waiting, state) && MadeReady(state, state', q)
    requires forall t | t in q :: state[t] != Blocked
    ensures HoldsBlocked(waiting, state')
  {
    forall t | t in state' && state'[t] == Blocked
      ensures exists w | w in waiting :: t in waiting[w]
    {
      assert state[t] == Blocked;
    }
  }

  lemma WaitersWake(waiting: map<Sync, seq<Task>>, state: map<Task, TaskState>, state': map<Task, TaskState>, w: Sync)
    requires HoldsBlocked(waiting, state) && w in waiting && MadeReady(state, state', waiting[w])
    ensures HoldsBlocked(waiting[w := []], state')
  {
    var after := waiting[w := []];
    forall t | t in state' && state'[t] == Blocked
      ensures exists v | v in after :: t in after[v]
    {
      var v :| v in waiting && t in waiting[v];
      assert v in after && t in after[v];
    }
  }

  lemma NotifyPlaced(s: Sched, w: Sync)
    requires Placed(s) && w in s.waiting
    ensures Placed(WakeAll(s, s.waiting[w]).(waiting := s.waiting[w := []]))
    ensures WakeAll(s, s.waiting[w]).ready == s.ready + s.waiting[w]
  {
    var q := s.waiting[w];
    WakeAllKeeps(s, q);
    WakeAllAppends(s, q);
    var r := WakeAll(s, q);
    assert r.state.Keys == s.state.Keys;
    ReadyJoinedAll(s.ready, s.state, r.state, q);
    UnmovedAll(s.sleeping, s.state, r.state, q, Sleeping);
    UnmovedAll(s.stopped, s.state, r.state, q, Stopped);
    WaitersWake(s.waiting, s.state, r.state, w);
  }

  lemma ExitPlaced(s: Quiet, cleaner: Task)
    requires s.current.Some? && cleaner in s.state && s.current != Some(cleaner) && CleanerWakes(s, cleaner)
    ensures var b := Body(s, ExitTask, cleaner); Placed(b) && s.ready <= b.ready
  {
    var t := s.current.value;
    StopPlaced(s, t);
    var s1 := SetState(s, t, Stopped).(stopped := Enqueued(s.stopped, t));
    if s.state[cleaner] == Paused {
      JoinsReady(s1, cleaner);
    } else {
      assert s.ready[|s.ready| - 1] in s.ready;
      EnqueuedTwice(s.ready, cleaner);
      assert s1.state[cleaner := Ready] == s1.state;
    }
  }

  lemma DueAsleep(s: Sched, time: nat)
    requires Placed(s)
    ensures var due := Due(s.sleeping, s.wakeup, time);
            NoDup(due) && forall t | t in due :: t in s.sleeping && t in s.state && s.state[t] == Sleeping && t !in s.ready
  {
    var due := Due(s.sleeping, s.wakeup, time);
    DueMembers(s.sleeping, s.wakeup, time);
    DueInOrder(s.sleeping, s.wakeup, time);
    SubsequenceNoDup(due, s.sleeping);
  }

  lemma SweepStates(s: Sched, time: nat)
    requires Placed(s)
    ensures var r := Sweep(s, time);
            r.state.Keys == s.state.Keys && forall t | t in s.state && s.state[t] == Running :: r.state[t] == Running
  {
    var rest, due := NotDue(s.sleeping, s.wakeup, time), Due(s.sleeping, s.wakeup, time);
    DueAsleep(s, time);
    var s1 := s.(sleeping := rest);
    WakeAllKeeps(s1, due);
    WakeAllStates(s1, due);
    assert WakeAll(s1, due).state.Keys == s.state.Keys;
  }

  lemma SweepKeeps(s: Sched, time: nat)
    requires Placed(s)
    ensures var r := Sweep(s, time);
            && r.current == s.current && r.borrowed == s.borrowed && r.slice == s.slice && r.lastTimer == s.lastTimer
            && r.flow == s.flow && r.state.Keys == s.state.Keys
            && (forall t | t in s.state && s.state[t] == Running :: r.state[t] == Running)
  {
    SweepStates(s, time);
    WakeAllKeeps(s.(sleeping := NotDue(s.sleeping, s.wakeup, time)), Due(s.sleeping, s.wakeup, time));
  }

  lemma ClockAside(s: Sched, slice: nat, lastTimer: nat)
    requires Placed(s)
    ensures Placed(s.(slice := slice, lastTimer := lastTimer))
  {
  }

  lemma TimerPlaced(s: Quiet, time: nat)
    requires time >= s.lastTimer
    ensures Sweep(s, time).lastTimer == s.lastTimer
    ensures var b := Tick(Sweep(s, time), time);
            && Placed(b) && s.ready <= b.ready && b.current == s.current && b.borrowed == s.borrowed
            && b.state.Keys == s.state.Keys
            && (s.slice == 0 ==> b.slice == 0)
            && (s.current.Some? ==> b.state[s.current.value] == Running)
  {
    SweepKeeps(s, time);
    SweepPlaced(s, time);
    assert s.current.Some? ==> s.state[s.current.value] == Running;
    var r := Sweep(s, time);
    var b := Tick(r, time);
    ClockAside(r, b.slice, b.lastTimer);
    assert b == r.(slice := b.slice, lastTimer := b.lastTimer);
  }

  /** Every body keeps every task in the place its state names, and ready tasks only ever gain followers. */
  lemma BodyPlaced(s: Quiet, e: Event, cleaner: Task)
    requires cleaner in s.state && Legal(s, e, cleaner)
    ensures var b := Body(s, e, cleaner);
            && Placed(b) && s.ready <= b.ready
            && (!e.IdleOver? ==> b.current == s.current && b.borrowed == s.borrowed)
            && (s.slice == 0 ==> b.slice == 0)
            && (s.current.Some? && !Requests(s, e, cleaner) ==> HasCurrent(b) && b.state[s.current.value] == Running)
            && (s.current.None? ==> s.borrowed.value in b.state)
            && cleaner in b.state
  {
    match e
    case YieldNow =>
    case Pause => PausePlaced(s, s.current.value);
    case WakeTask(t) => JoinsReady(s, t);
    case Timer(time) =>
      TimerPlaced(s, time);
      WakeAllKeeps(s.(sleeping := NotDue(s.sleeping, s.wakeup, time)), Due(s.sleeping, s.wakeup, time));
    case Sleep(time) => SleepPlaced(s, s.current.value, time);
    case ExitTask => ExitPlaced(s, cleaner);
    case CleanUp =>
      CleanPlaced(s);
      assert cleaner !in s.stopped;
      var gone := set t | t in s.stopped;
      PausePlaced(Forget(s, gone).(stopped := []), cleaner);
    case WaitOn(w) => BlockPlaced(s, s.current.value, w);
    case Notify(w) =>
      NotifyPlaced(s, w);
      WakeAllKeeps(s, s.waiting[w]);
      WakeAllAppends(s, s.waiting[w]);
    case NewTask(t, st) =>
      NewPlaced(s, t, st);
      if st == Ready {
        HoldsJoined(s.ready, s.state, t, Ready);
      }
    case IdleOver =>
  }

  /** No body touches a resumption point, but for the tasks it creates or gives back. */
  lemma BodyPointed(s: Quiet, e: Event, cleaner: Task)
    requires cleaner in s.state && Legal(s, e, cleaner)
    ensures var b := Body(s, e, cleaner);
            Pointed(b) && b.flow.switches == s.flow.switches && Executing(b) == Executing(s)
  {
    match e
    case Timer(time) => TimerPointed(s, time);
    case Notify(w) =>
      WakeAllKeeps(s, s.waiting[w]);
      SamePoints(s, Body(s, e, cleaner));
    case CleanUp =>
    case NewTask(t, state) =>
    case _ =>
      SamePoints(s, Body(s, e, cleaner));
  }

  lemma TimerPointed(s: Sched, time: nat)
    requires Placed(s) && Pointed(s) && time >= s.lastTimer
    ensures var b := TimerBody(s, time);
            Pointed(b) && b.flow.switches == s.flow.switches && Executing(b) == Executing(s)
  {
    SweepKeeps(s, time);
    var b := TimerBody(s, time);
    assert b == Tick(Sweep(s, time), time) && b.state.Keys == s.state.Keys;
    SamePoints(s, b);
  }

  lemma SamePoints(s: Sched, b: Sched)
    requires Pointed(s) && b.flow == s.flow && Executing(b) == Executing(s)
    requires forall t :: t in b.state <==> t in s.state
    ensures Pointed(b)
  {
  }

  lemma RestedSettles(b: Sched)
    requires Placed(b) && Pointed(b) && SwitchesInOrder(b.flow.switches)
    requires b.current.Some? ==> HasCurrent(b) && b.state[b.current.value] == Running && b.borrowed.None?
    requires b.current.None? ==> b.borrowed.Some? && b.borrowed.value in b.state && b.slice == 0
    ensures Settled(Rested(b))
  {
  }

  /** The place invariant holds between locked sections after every operation. */
  lemma StepSettles(s: Quiet, e: Event, cleaner: Task, now: nat)
    requires cleaner in s.state && Legal(s, e, cleaner)
    ensures Settled(Step(s, e, cleaner, now)) && cleaner in Step(s, e, cleaner, now).state
  {
    var b := Body(s, e, cleaner);
    BodyPlaced(s, e, cleaner);
    BodyPointed(s, e, cleaner);
    StepIsBodyThenDispatch(s, e, cleaner, now);
    if Requests(s, e, cleaner) && b.current.Some? {
      DispatchSettles(b, now);
      LandedIsDispatch(b, now);
    } else {
      RestedSettles(b);
    }
  }

  // ---------- Whole runs ----------

  /** An operation and the time `_schedule` reads while it runs. */
  datatype Act = Act(event: Event, now: nat)

  ghost function Next(s: Quiet, act: Act, cleaner: Task): (r: Quiet)
    requires cleaner in s.state && Legal(s, act.event, cleaner)
    ensures cleaner in r.state
  {
    StepSettles(s, act.event, cleaner, act.now);
    Step(s, act.event, cleaner, act.now)
  }

  ghost predicate LegalRun(s: Quiet, acts: seq<Act>, cleaner: Task)
    requires cleaner in s.state
    decreases |acts|
  {
    if acts == [] then true
    else
      Legal(s, acts[0].event, cleaner) && LegalRun(Next(s, acts[0], cleaner), acts[1..], cleaner)
  }

  /** The state after a run; that it is settled again is the place invariant over whole runs. */
  ghost function Run(s: Quiet, acts: seq<Act>, cleaner: Task): (r: Quiet)
    requires cleaner in s.state && LegalRun(s, acts, cleaner)
    ensures cleaner in r.state
    decreases |acts|
  {
    if acts == [] then s
    else Run(Next(s, acts[0], cleaner), acts[1..], cleaner)
  }

  /** The task an operation switches to, if it switches. */
  ghost function Switched(s: Quiet, e: Event, cleaner: Task): seq<Task>
    requires cleaner in s.state && Legal(s, e, cleaner)
  {
    var b := Body(s, e, cleaner);
    if Requests(s, e, cleaner) && b.current.Some? && b.ready != [] then [b.ready[0]] else []
  }

  /** The tasks a run switches to, in order. */
  ghost function Dispatches(s: Quiet, acts: seq<Act>, cleaner: Task): seq<Task>
    requires cleaner in s.state && LegalRun(s, acts, cleaner)
    decreases |acts|
  {
    if acts == [] then []
    else Switched(s, acts[0].event, cleaner) + Dispatches(Next(s, acts[0], cleaner), acts[1..], cleaner)
  }

  lemma DispatchTakesHead(b: Sched, now: nat)
    requires Placed(b) && HasCurrent(b) && b.ready != []
    ensures Dispatch(b, now).current == Some(b.ready[0]) && b.ready[1..] <= Dispatch(b, now).ready
  {
    if b.state[b.current.value] == Running {
      assert b.current.value !in b.ready;
      assert b.ready == [b.ready[0]] + b.ready[1..];
    }
  }

  /** Ready tasks enter at the tail only and leave at the head only, by being switched to. */
  lemma ReadyIsFifo(s: Quiet, e: Event, cleaner: Task, now: nat)
    requires cleaner in s.state && Legal(s, e, cleaner)
    ensures var r, switched := Step(s, e, cleaner, now), Switched(s, e, cleaner);
            && (switched == [] ==> s.ready <= r.ready)
            && (switched != [] ==>
                  && |switched| == 1 && r.current == Some(switched[0])
                  && (s.ready != [] ==> switched[0] == s.ready[0] && s.ready[1..] <= r.ready))
  {
    var b := Body(s, e, cleaner);
    BodyPlaced(s, e, cleaner);
    StepIsBodyThenDispatch(s, e, cleaner, now);
    LandedIsDispatch(b, now);
    if Switched(s, e, cleaner) != [] {
      DispatchTakesHead(b, now);
      if s.ready != [] {
        PrefixTail(s.ready, b.ready, Dispatch(b, now).ready);
      }
    }
  }

  lemma PrefixTail(q: seq<Task>, r: seq<Task>, t: seq<Task>)
    requires q != [] && q <= r && r[1..] <= t
    ensures q[0] == r[0] && q[1..] <= t
  {
  }

  /** The task at position k of `before` was the (k+1)-th to be switched to, or is still waiting and
      has moved up one place per switch. */
  predicate Served(before: seq<Task>, k: nat, switches: seq<Task>, after: seq<Task>)
    requires k < |before|
  {
    if |switches| <= k then k - |switches| < |after| && after[k - |switches|] == before[k]
    else switches[k] == before[k]
  }

  lemma ServedLater(before: seq<Task>, k: nat, middle: seq<Task>, later: seq<Task>, after: seq<Task>)
    requires k < |before| && before <= middle && Served(middle, k, later, after)
    ensures Served(before, k, [] + later, after)
  {
    assert [] + later == later;
  }

  lemma ServedNext(before: seq<Task>, k: nat, first: seq<Task>, middle: seq<Task>, later: seq<Task>, after: seq<Task>)
    requires 0 < k < |before| && |first| == 1 && before[1..] <= middle && Served(middle, k - 1, later, after)
    ensures Served(before, k, first + later, after)
  {
    assert middle[k - 1] == before[1..][k - 1] == before[k];
  }

  lemma ServedNow(before: seq<Task>, first: seq<Task>, later: seq<Task>, after: seq<Task>)
    requires before != [] && first != [] && first[0] == before[0]
    ensures Served(before, 0, first + later, after)
  {
  }

  /** What one operation does to the ready list: the tasks it switched to, and the list it leaves. */
  datatype Move = Move(switched: seq<Task>, ready: seq<Task>)

  predicate Fifo(before: seq<Task>, m: Move) {
    && |m.switched| <= 1
    && (m.switched == [] ==> before <= m.ready)
    && (m.switched != [] && before != [] ==> m.switched[0] == before[0] && before[1..] <= m.ready)
  }

  /** A run is its first operation, which moves the ready list first in first out, and then the rest. */
  lemma FirstAct(s: Quiet, acts: seq<Act>, cleaner: Task) returns (s1: Quiet, first: seq<Task>)
    requires cleaner in s.state && acts != [] && LegalRun(s, acts, cleaner)
    ensures cleaner in s1.state && LegalRun(s1, acts[1..], cleaner)
    ensures Run(s, acts, cleaner) == Run(s1, acts[1..], cleaner)
    ensures Dispatches(s, acts, cleaner) == first + Dispatches(s1, acts[1..], cleaner)
    ensures Fifo(s.ready, Move(first, s1.ready))
  {
    s1, first := Next(s, acts[0], cleaner), Switched(s, acts[0].event, cleaner);
    ReadyIsFifo(s, acts[0].event, cleaner, acts[0].now);
  }

  predicate AllFifo(before: seq<Task>, moves: seq<Move>)
    decreases |moves|
  {
    moves == [] || (Fifo(before, moves[0]) && AllFifo(moves[0].ready, moves[1..]))
  }

  function AllSwitched(moves: seq<Move>): seq<Task> {
    if moves == [] then [] else moves[0].switched + AllSwitched(moves[1..])
  }

  function LastReady(before: seq<Task>, moves: seq<Move>): seq<Task>
    decreases |moves|
  {
    if moves == [] then before else LastReady(moves[0].ready, moves[1..])
  }

  /** On a list that is first in first out, position k is served by the (k+1)-th switch. */
  lemma {:induction false} FifoServes(before: seq<Task>, moves: seq<Move>, k: nat)
    requires AllFifo(before, moves) && k < |before|
    ensures Served(before, k, AllSwitched(moves), LastReady(before, moves))
    decreases |moves|
  {
    if moves != [] {
      var m, rest := moves[0], moves[1..];
      var later, last := AllSwitched(rest), LastReady(m.ready, rest);
      if m.switched == [] {
        FifoServes(m.ready, rest, k);
        ServedLater(before, k, m.ready, later, last);
      } else if k > 0 {
        FifoServes(m.ready, rest, k - 1);
        ServedNext(before, k, m.switched, m.ready, later, last);
      } else {
        ServedNow(before, m.switched, later, last);
      }
    }
  }

  /** The moves of a run. */
  lemma {:induction false} RunIsFifo(s: Quiet, acts: seq<Act>, cleaner: Task) returns (moves: seq<Move>)
    requires cleaner in s.state && LegalRun(s, acts, cleaner)
    ensures AllFifo(s.ready, moves)
    ensures AllSwitched(moves) == Dispatches(s, acts, cleaner)
    ensures LastReady(s.ready, moves) == Run(s, acts, cleaner).ready
    decreases |acts|
  {
    moves := [];
    if acts != [] {
      var s1, first := FirstAct(s, acts, cleaner);
      var rest := RunIsFifo(s1, acts[1..], cleaner);
      moves := [Move(first, s1.ready)] + rest;
      assert moves[1..] == rest;
    }
  }

  /** Bounded waiting: over every run, the task at position k of the ready list is the (k+1)-th to be
      switched to, and until then it moves up one place per switch. */
  lemma BoundedWaiting(s: Quiet, acts: seq<Act>, cleaner: Task, k: nat)
    requires cleaner in s.state && k < |s.ready|
    requires LegalRun(s, acts, cleaner)
    ensures Served(s.ready, k, Dispatches(s, acts, cleaner), Run(s, acts, cleaner).ready)
  {
    var moves := RunIsFifo(s, acts, cleaner);
    FifoServes(s.ready, moves, k);
  }

  // ---------- Handing over the lock ----------

  /** What a dispatch does to counters and resumption points. */
  lemma LandedHandsOver(b: Sched, now: nat, t: Task)
    requires Placed(b) && Pointed(b) && HasCurrent(b) && b.borrowed.None?
    ensures var r := Landed(b, now);
            if b.ready == [] then r.flow == b.flow && (r.current.Some? ==> r.locks == Locks(0, 0, false))
            else
              && r.current == Some(b.ready[0]) && r.locks == Locks(0, 0, false)
              && r.flow.switches == b.flow.switches + [Locks(1, 0, false)]
              && (t in r.flow.points ==> r.flow.points[t] == if b.current == Some(t) then InsideRelease
                                                              else if t in b.flow.points then b.flow.points[t] else Starting)
  {
    if b.ready != [] {
      var s1 := b.(slice := TIME_SLICE_SIZE, lastTimer := now, locks := Locks(1, 0, false));
      SwitchPlaced(s1);
      SwitchResumes(s1);
    }
  }

  /** The resumption points an operation leaves: the task that was executing returns into its release, a
      new task starts, everybody else keeps the point it had. */
  ghost predicate PointsFollow(s: Sched, r: Sched, t: Task) {
    t in r.flow.points ==>
      r.flow.points[t] == if Executing(s) == Some(t) then InsideRelease
                          else if t in s.flow.points then s.flow.points[t] else Starting
  }

  /** With the body done: one switch or none, at lock one and postpone count zero, and what runs next
      leaves the lock at zero. */
  ghost predicate HandsOver(s: Sched, b: Sched, requested: bool, r: Sched, t: Task) {
    && PointsFollow(s, r, t)
    && (!(requested && Leaves(b)) ==> r.flow.switches == s.flow.switches)
    && (requested && Leaves(b) ==>
        && r.flow.switches == s.flow.switches + [Locks(1, 0, false)]
        && r.current == Some(b.ready[0]) && r.locks == Locks(0, 0, false)
        && (Executing(s) == Some(b.ready[0]) || b.ready[0] in s.flow.points))
  }

  lemma BodyHandsOver(s: Sched, b: Sched, requested: bool, now: nat, t: Task)
    requires Placed(b) && Pointed(b) && Executing(b) == Executing(s) && b.flow.switches == s.flow.switches
    requires b.current.Some? ==> HasCurrent(b) && b.borrowed.None?
    requires forall u :: u in b.flow.points ==> b.flow.points[u] == if u in s.flow.points then s.flow.points[u] else Starting
    requires requested ==> forall u :: u in b.flow.points ==> u in s.flow.points
    ensures HandsOver(s, b, requested, if requested then Landed(b, now) else Rested(b), t)
  {
    if requested && b.current.Some? {
      LandedHandsOver(b, now, t);
      assert b.ready != [] ==> b.ready[0] in b.ready;
    }
  }

  /** An operation that switches does so once, at lock one and postpone count zero, and the code at the
      resumption point of the task switched to, resumed or brand new, leaves the lock at zero. */
  lemma StepHandsOver(s: Quiet, e: Event, cleaner: Task, now: nat, t: Task)
    requires cleaner in s.state && Legal(s, e, cleaner)
    ensures HandsOver(s, Body(s, e, cleaner), Requests(s, e, cleaner), Step(s, e, cleaner, now), t)
  {
    var b := Body(s, e, cleaner);
    BodyPlaced(s, e, cleaner);
    BodyPointed(s, e, cleaner);
    forall u
      ensures u in b.flow.points ==> b.flow.points[u] == if u in s.flow.points then s.flow.points[u] else Starting
      ensures Requests(s, e, cleaner) && u in b.flow.points ==> u in s.flow.points
    {
      BodyPoints(s, e, cleaner, u);
    }
    StepIsBodyThenDispatch(s, e, cleaner, now);
    BodyHandsOver(s, b, Requests(s, e, cleaner), now, t);
  }

  lemma BodyPoints(s: Quiet, e: Event, cleaner: Task, t: Task)
    requires cleaner in s.state && Legal(s, e, cleaner)
    ensures var b := Body(s, e, cleaner);
            t in b.flow.points ==>
              && (t in s.flow.points || e.NewTask?)
              && b.flow.points[t] == if t in s.flow.points then s.flow.points[t] else Starting
  {
    match e
    case Timer(time) =>
      WakeAllKeeps(s.(sleeping := NotDue(s.sleeping, s.wakeup, time)), Due(s.sleeping, s.wakeup, time));
    case Notify(w) =>
      WakeAllKeeps(s, s.waiting[w]);
    case _ =>
  }

  /** The settled state a kernel starts from. */
  ghost function Boot(first: Task, cleaner: Task, syncs: set<Sync>): (s: Quiet)
    requires first != cleaner
    ensures cleaner in s.state
  {
    InitialSettled(first, cleaner, syncs);
    Initial(first, cleaner, syncs)
  }

  /** Over any run from the start: every switch was made at lock one and postpone count zero, there were
      as many as tasks switched to, every task but the executing one has its one resumption point, and
      whenever a task runs between operations, however it was resumed, both counters are zero. */
  lemma LockHandedOver(first: Task, cleaner: Task, syncs: set<Sync>, acts: seq<Act>)
    requires first != cleaner
    requires LegalRun(Boot(first, cleaner, syncs), acts, cleaner)
    ensures var s := Boot(first, cleaner, syncs);
            var r := Run(s, acts, cleaner);
            && (forall i :: 0 <= i < |r.flow.switches| ==> r.flow.switches[i] == Locks(1, 0, false))
            && |r.flow.switches| == |Dispatches(s, acts, cleaner)|
            && (forall t :: t in r.flow.points <==> t in r.state && Executing(r) != Some(t))
            && (r.current.Some? ==> r.locks == Locks(0, 0, false))
  {
    SwitchesCounted(Boot(first, cleaner, syncs), acts, cleaner);
  }

  lemma {:induction false} SwitchesCounted(s: Quiet, acts: seq<Act>, cleaner: Task)
    requires cleaner in s.state && LegalRun(s, acts, cleaner)
    ensures |Run(s, acts, cleaner).flow.switches| == |s.flow.switches| + |Dispatches(s, acts, cleaner)|
    decreases |acts|
  {
    if acts != [] {
      StepHandsOver(s, acts[0].event, cleaner, acts[0].now, cleaner);
      SwitchesCounted(Next(s, acts[0], cleaner), acts[1..], cleaner);
    }
  }

  /** The state `tasks_init` leaves: the boot task runs, the cleaner is paused. */
  function Initial(first: Task, cleaner: Task, syncs: set<Sync>): Sched {
    Sched(Some(first), None, [], [], [], map w | w in syncs :: [],
          map[first := Running, cleaner := Paused], map[first := 0, cleaner := 0], TIME_SLICE_SIZE, 0, RestLocks(false),
          Flow(map[cleaner := Starting], []))
  }

  lemma InitialSettled(first: Task, cleaner: Task, syncs: set<Sync>)
    requires first != cleaner
    ensures Settled(Initial(first, cleaner, syncs))
  {
    var s := Initial(first, cleaner, syncs);
    assert s.state[first] == Running && s.state[cleaner] == Paused;
  }

  // ---------- Unblocking a cleaner that is not paused ----------

  lemma SwitchFromStopped(b: Sched, now: nat, u: Task)
    requires HasCurrent(b) && b.ready != [] && b.state[b.current.value] != Running
    requires u in b.state && b.state[u] == Ready
    ensures var r := Landed(b, now);
            && r.ready == b.ready[1..] && r.sleeping == b.sleeping && r.stopped == b.stopped && r.waiting == b.waiting
            && u in r.state && r.state[u] == if u == b.ready[0] then Running else Ready
  {
  }

  /** `tasks_exit` with the cleaner ready but not last: the last ready task stays ready, on no list. */
  lemma ExitLosesLast(s: Quiet, cleaner: Task, now: nat)
    requires s.current.Some? && s.current != Some(cleaner)
    requires cleaner in s.ready && s.ready[|s.ready| - 1] != cleaner
    ensures var r, lost := Exit(s, cleaner, now), s.ready[|s.ready| - 1];
            lost in r.state && r.state[lost] == Ready && lost !in r.ready
  {
    var lost := s.ready[|s.ready| - 1];
    assert lost in s.ready && s.current.value !in s.ready;
    LosesLast(s, cleaner, now, lost);
  }

  lemma LosesLast(s: Sched, cleaner: Task, now: nat, lost: Task)
    requires HasCurrent(s) && s.locks == RestLocks(false)
    requires s.current != Some(lost) && lost in s.state && s.state[lost] == Ready
    requires NoDup(s.ready) && cleaner in s.ready && s.ready[|s.ready| - 1] == lost != cleaner
    ensures var r := Exit(s, cleaner, now); lost in r.state && r.state[lost] == Ready && lost !in r.ready
  {
    var t := s.current.value;
    var b := SetState(SetState(s, t, Stopped), cleaner, Ready).(
               stopped := Enqueued(s.stopped, t), ready := Enqueued(s.ready, cleaner));
    ExitSection(s, cleaner, now);
    CutShort(s.ready, cleaner);
    SwitchFromStopped(b, now, lost);
  }

  lemma CutShort(q: seq<Task>, t: Task)
    requires NoDup(q) && t in q && q[|q| - 1] != t
    ensures Enqueued(q, t) != [] && q[|q| - 1] !in Enqueued(q, t)
  {
    var kept := Enqueued(q, t);
    assert kept <= q && kept != q && kept != [];
  }

  /** `tasks_exit` with the cleaner asleep, blocked or stopped: it leaves that state and stays on that list. */
  lemma ExitStraysCleaner(s: Quiet, cleaner: Task, now: nat)
    requires s.current.Some? && cleaner in s.state && s.current != Some(cleaner)
    requires s.state[cleaner] == Sleeping || s.state[cleaner] == Blocked || s.state[cleaner] == Stopped
    ensures var r := Exit(s, cleaner, now);
            && cleaner in r.state && (r.state[cleaner] == Ready || r.state[cleaner] == Running)
            && (cleaner in r.sleeping || cleaner in r.stopped || exists w | w in r.waiting :: cleaner in r.waiting[w])
  {
    var t := s.current.value;
    var b := SetState(SetState(s, t, Stopped), cleaner, Ready).(
               stopped := Enqueued(s.stopped, t), ready := Enqueued(s.ready, cleaner));
    ExitSection(s, cleaner, now);
    assert t !in s.stopped && cleaner !in s.ready;
    assert b.ready == s.ready + [cleaner] && b.stopped == s.stopped + [t];
    SwitchFromStopped(b, now, cleaner);
  }

  /** `tasks_exit` unblocks the cleaner without looking at its state: the place invariant survives exactly
      when the cleaner is paused or is the last ready task. */
  lemma ExitKeepsPlacesIff(s: Quiet, cleaner: Task, now: nat)
    requires s.current.Some? && cleaner in s.state && s.current != Some(cleaner)
    ensures Settled(Exit(s, cleaner, now)) <==> CleanerWakes(s, cleaner)
  {
    if CleanerWakes(s, cleaner) {
      StepSettles(s, ExitTask, cleaner, now);
    } else if s.state[cleaner] == Ready {
      assert cleaner in s.ready;
      ExitLosesLast(s, cleaner, now);
    } else {
      ExitStraysCleaner(s, cleaner, now);
    }
  }

  /** One legal operation. */
  ghost predicate Leads(s: Quiet, act: Act, cleaner: Task, r: Quiet) {
    cleaner in s.state && cleaner in r.state && Legal(s, act.event, cleaner) && Step(s, act.event, cleaner, act.now) == r
  }

  /** These operations lead from s to r. */
  ghost predicate Reaches(s: Quiet, acts: seq<Act>, cleaner: Task, r: Quiet) {
    cleaner in s.state && LegalRun(s, acts, cleaner) && Run(s, acts, cleaner) == r
  }

  /** Each state leads to the next by the operation of the same place. */
  ghost predicate Follow<S(!new)>(leads: (S, Act, S) -> bool, states: seq<S>, acts: seq<Act>) {
    0 < |states| <= |acts| + 1 && forall i | 0 <= i < |states| - 1 :: leads(states[i], acts[i], states[i + 1])
  }

  lemma FollowOne<S(!new)>(leads: (S, Act, S) -> bool, states: seq<S>, acts: seq<Act>, r: S)
    requires Follow(leads, states, acts) && |states| <= |acts|
    requires leads(states[|states| - 1], acts[|states| - 1], r)
    ensures Follow(leads, states + [r], acts)
  {
  }

  lemma FollowRest<S(!new)>(leads: (S, Act, S) -> bool, states: seq<S>, acts: seq<Act>)
    requires Follow(leads, states, acts) && |states| > 1
    ensures leads(states[0], acts[0], states[1]) && Follow(leads, states[1..], acts[1..])
  {
    assert forall i | 0 <= i < |states| - 2 :: states[1..][i] == states[i + 1] && acts[1..][i] == acts[i + 1];
  }

  ghost function LeadsFor(cleaner: Task): (Quiet, Act, Quiet) -> bool {
    (s: Quiet, act: Act, r: Quiet) => Leads(s, act, cleaner, r)
  }

  ghost function ReachesFor(cleaner: Task): (Quiet, seq<Act>, Quiet) -> bool {
    (s: Quiet, acts: seq<Act>, r: Quiet) => Reaches(s, acts, cleaner, r)
  }

  /** Whatever can be put in front of a run step by step holds from the first state to the last. */
  lemma {:induction false} FollowToLast<S(!new)>(leads: (S, Act, S) -> bool, reaches: (S, seq<Act>, S) -> bool,
                                                 states: seq<S>, acts: seq<Act>)
    requires Follow(leads, states, acts) && |states| == |acts| + 1
    requires reaches(states[|acts|], [], states[|acts|])
    requires forall s, act, s1, rest, r :: leads(s, act, s1) && reaches(s1, rest, r) ==> reaches(s, [act] + rest, r)
    ensures reaches(states[0], acts, states[|acts|])
    decreases |acts|
  {
    if acts != [] {
      FollowRest(leads, states, acts);
      FollowToLast(leads, reaches, states[1..], acts[1..]);
      assert acts == [acts[0]] + acts[1..];
    }
  }

  lemma ReachesFirst(s: Quiet, act: Act, cleaner: Task, s1: Quiet, rest: seq<Act>, r: Quiet)
    requires Leads(s, act, cleaner, s1) && Reaches(s1, rest, cleaner, r)
    ensures Reaches(s, [act] + rest, cleaner, r)
  {
    assert ([act] + rest)[1..] == rest;
  }

  /** States that follow one another are those of a legal run. */
  lemma FollowReaches(states: seq<Quiet>, acts: seq<Act>, cleaner: Task)
    requires Follow(LeadsFor(cleaner), states, acts) && |states| == |acts| + 1 && cleaner in states[|acts|].state
    ensures Reaches(states[0], acts, cleaner, states[|acts|])
  {
    forall s, act, s1, rest, r | LeadsFor(cleaner)(s, act, s1) && ReachesFor(cleaner)(s1, rest, r)
      ensures ReachesFor(cleaner)(s, [act] + rest, r)
    {
      ReachesFirst(s, act, cleaner, s1, rest, r);
    }
    FollowToLast(LeadsFor(cleaner), ReachesFor(cleaner), states, acts);
  }

  /** The running task makes a ready one. */
  lemma Makes(s: Quiet, cleaner: Task, t: Task, now: nat) returns (r: Quiet)
    requires s.current.Some? && t !in s.state && cleaner in s.state
    ensures Leads(s, Act(NewTask(t, Ready), now), cleaner, r)
    ensures r.current == s.current && r.ready == s.ready + [t] && r.state == s.state[t := Ready]
  {
    StepSettles(s, NewTask(t, Ready), cleaner, now);
    r := Create(s, t, Ready);
    assert t !in s.ready;
  }

  lemma ExitMoves(s: Quiet, cleaner: Task, now: nat) returns (r: Sched)
    requires s.current.Some? && s.ready != [] && cleaner in s.state && s.state[cleaner] == Paused
    ensures r == Exit(s, cleaner, now)
    ensures r.current == Some(s.ready[0]) && r.ready == s.ready[1..] + [cleaner] && r.state.Keys == s.state.Keys
  {
    var t := s.current.value;
    var b := SetState(SetState(s, t, Stopped), cleaner, Ready).(
               stopped := Enqueued(s.stopped, t), ready := Enqueued(s.ready, cleaner));
    ExitSection(s, cleaner, now);
    LandedIsDispatch(b, now);
    assert cleaner !in s.ready && s.ready[0] in s.ready;
    assert (s.ready + [cleaner])[1..] == s.ready[1..] + [cleaner];
    r := Landed(b, now);
  }

  /** The running task exits, the cleaner being paused: the head of the ready list runs, the cleaner is last. */
  lemma Exits(s: Quiet, cleaner: Task, now: nat) returns (r: Quiet)
    requires s.current.Some? && s.ready != [] && cleaner in s.state && s.state[cleaner] == Paused
    ensures Leads(s, Act(ExitTask, now), cleaner, r)
    ensures r.current == Some(s.ready[0]) && r.ready == s.ready[1..] + [cleaner] && r.state.Keys == s.state.Keys
  {
    StepSettles(s, ExitTask, cleaner, now);
    r := ExitMoves(s, cleaner, now);
  }

  /** The running task makes two tasks and exits, the first of them makes a third. */
  function Prelude(a: Task, b: Task, c: Task, now: nat): seq<Act> {
    [Act(NewTask(a, Ready), now), Act(NewTask(b, Ready), now), Act(ExitTask, now), Act(NewTask(c, Ready), now)]
  }

  function Latest(states: seq<Sched>): Sched
    requires states != []
  {
    states[|states| - 1]
  }

  lemma MakesNext(states: seq<Quiet>, acts: seq<Act>, cleaner: Task, t: Task, now: nat) returns (more: seq<Quiet>)
    requires Follow(LeadsFor(cleaner), states, acts) && |states| <= |acts|
    requires acts[|states| - 1] == Act(NewTask(t, Ready), now)
    requires Latest(states).current.Some? && t !in Latest(states).state && cleaner in Latest(states).state
    ensures Follow(LeadsFor(cleaner), more, acts) && |more| == |states| + 1 && more[0] == states[0]
    ensures Latest(more).current == Latest(states).current && Latest(more).ready == Latest(states).ready + [t]
    ensures Latest(more).state == Latest(states).state[t := Ready]
  {
    var r := Makes(Latest(states), cleaner, t, now);
    FollowOne(LeadsFor(cleaner), states, acts, r);
    more := states + [r];
  }

  lemma ExitsNext(states: seq<Quiet>, acts: seq<Act>, cleaner: Task, now: nat) returns (more: seq<Quiet>)
    requires Follow(LeadsFor(cleaner), states, acts) && |states| <= |acts|
    requires acts[|states| - 1] == Act(ExitTask, now)
    requires Latest(states).current.Some? && Latest(states).ready != []
    requires cleaner in Latest(states).state && Latest(states).state[cleaner] == Paused
    ensures Follow(LeadsFor(cleaner), more, acts) && |more| == |states| + 1 && more[0] == states[0]
    ensures Latest(more).current == Some(Latest(states).ready[0])
    ensures Latest(more).ready == Latest(states).ready[1..] + [cleaner]
    ensures Latest(more).state.Keys == Latest(states).state.Keys
  {
    var r := Exits(Latest(states), cleaner, now);
    FollowOne(LeadsFor(cleaner), states, acts, r);
    more := states + [r];
  }

  lemma TwoMade(s: Quiet, acts: seq<Act>, cleaner: Task, a: Task, b: Task, now: nat) returns (states: seq<Quiet>)
    requires |acts| > 2 && acts[0] == Act(NewTask(a, Ready), now) && acts[1] == Act(NewTask(b, Ready), now)
    requires s.current.Some? && s.ready == [] && cleaner in s.state
    requires a !in s.state && b !in s.state && a != b
    ensures Follow(LeadsFor(cleaner), states, acts) && |states| == 3 && states[0] == s
    ensures Latest(states).current.Some? && Latest(states).ready == [a, b]
    ensures Latest(states).state == s.state[a := Ready][b := Ready]
  {
    states := MakesNext([s], acts, cleaner, a, now);
    states := MakesNext(states, acts, cleaner, b, now);
  }

  lemma MakerExits(s: Quiet, acts: seq<Act>, cleaner: Task, a: Task, b: Task, now: nat) returns (states: seq<Quiet>)
    requires |acts| == 4 && acts[2] == Act(ExitTask, now)
    requires acts[0] == Act(NewTask(a, Ready), now) && acts[1] == Act(NewTask(b, Ready), now)
    requires s.current.Some? && s.ready == [] && cleaner in s.state && s.state[cleaner] == Paused
    requires a !in s.state && b !in s.state && a != b
    ensures Follow(LeadsFor(cleaner), states, acts) && |states| == 4 && states[0] == s
    ensures Latest(states).current == Some(a) && Latest(states).ready == [b, cleaner]
    ensures cleaner in Latest(states).state && forall u | u in Latest(states).state :: u in s.state || u == a || u == b
  {
    states := TwoMade(s, acts, cleaner, a, b, now);
    states := ExitsNext(states, acts, cleaner, now);
    assert [a, b][1..] == [b];
  }

  /** These operations leave the cleaner ready, and not last. */
  lemma CleanerNotLast(s: Quiet, acts: seq<Act>, cleaner: Task, a: Task, b: Task, c: Task, now: nat)
    returns (states: seq<Quiet>)
    requires |acts| == 4 && acts[2] == Act(ExitTask, now) && acts[3] == Act(NewTask(c, Ready), now)
    requires acts[0] == Act(NewTask(a, Ready), now) && acts[1] == Act(NewTask(b, Ready), now)
    requires s.current.Some? && s.ready == [] && cleaner in s.state && s.state[cleaner] == Paused
    requires a !in s.state && b !in s.state && c !in s.state && a != b && a != c && b != c
    ensures Follow(LeadsFor(cleaner), states, acts) && |states| == |acts| + 1 && states[0] == s
    ensures Latest(states).current == Some(a) && Latest(states).ready == [b, cleaner, c]
    ensures cleaner in Latest(states).state
  {
    states := MakerExits(s, acts, cleaner, a, b, now);
    states := MakesNext(states, acts, cleaner, c, now);
  }

  /** A legal run from the start reaches a state where one more exit, before the cleaner has run, drops
      the last task from the ready list. */
  lemma ExitLosesTask(first: Task, cleaner: Task, syncs: set<Sync>, a: Task, b: Task, c: Task, now: nat)
    returns (s: Quiet)
    requires first != cleaner && a !in {first, cleaner} && b !in {first, cleaner, a} && c !in {first, cleaner, a, b}
    ensures Reaches(Boot(first, cleaner, syncs), Prelude(a, b, c, now), cleaner, s)
    ensures s.current == Some(a) && s.ready == [b, cleaner, c]
    ensures var r := Exit(s, cleaner, now); c in r.state && r.state[c] == Ready && c !in r.ready
  {
    var acts := Prelude(a, b, c, now);
    var states := CleanerNotLast(Boot(first, cleaner, syncs), acts, cleaner, a, b, c, now);
    FollowReaches(states, acts, cleaner);
    s := Latest(states);
    assert s.ready[1] == cleaner;
    ExitLosesLast(s, cleaner, now);
  }

  // ---------- Nested locked sections ----------

  /** Take the scheduler lock, ask for a schedule, give the lock back. */
  datatype LockOp = Take | Ask | Give

  function DepthAfter(depth: int, op: LockOp): int {
    match op case Take => depth + 1 case Ask => depth case Give => depth - 1
  }

  function Depth(ops: seq<LockOp>): int {
    if ops == [] then 0
    else DepthAfter(Depth(ops[..|ops| - 1]), ops[|ops| - 1])
  }

  /** A section that has been entered and not yet left. */
  ghost predicate Open(ops: seq<LockOp>) {
    Depth(ops) >= 0 && forall n | 1 <= n <= |ops| :: Depth(ops[..n]) >= 1
  }

  function Apply(s: Sched, op: LockOp, now: nat): Sched
    requires s.current.Some? ==> HasCurrent(s)
    requires op.Give? ==> s.locks.postpone > 0
  {
    match op
    case Take => Acquire(s)
    case Ask => Schedule(s, now)
    case Give => Release(s, now)
  }

  /** Inside a section nothing but the counters and the flag moves. */
  lemma ApplyInside(s: Sched, base: nat, depth: nat, asked: bool, op: LockOp, now: nat)
    requires s.current.Some? ==> HasCurrent(s)
    requires (op.Take? || depth > 0) && (op.Give? ==> depth > 1)
    ensures var d := DepthAfter(depth, op);
            Apply(s.(locks := Locks(base + depth, depth, asked)), op, now) == s.(locks := Locks(base + d, d, asked || op.Ask?))
  {
  }

  /** All but the last operation of an open section make an open section. */
  lemma OpenFront(ops: seq<LockOp>)
    requires Open(ops) && ops != []
    ensures var front, op := ops[..|ops| - 1], ops[|ops| - 1];
            && Open(front) && Depth(ops) == DepthAfter(Depth(front), op)
            && (op.Take? || Depth(front) > 0) && (op.Give? ==> Depth(front) > 1)
            && (Ask in ops <==> Ask in front || op.Ask?)
  {
    var front, op := ops[..|ops| - 1], ops[|ops| - 1];
    assert ops[..|ops|] == ops == front + [op];
    if front != [] {
      assert front[..|front|] == front == ops[..|front|];
    }
    assert forall n | 1 <= n <= |front| :: front[..n] == ops[..n];
  }

  /** Inside a section, whatever its nesting and however often a schedule was asked for, nothing but
      the locks changed: the lock is ahead of the postpone count by one exactly when idling, and
      the postponed flag remembers whether a schedule was asked for. */
  function InSection(s: Sched, ops: seq<LockOp>, now: nat): (r: Sched)
    requires s.current.Some? ==> HasCurrent(s)
    requires s.locks == RestLocks(s.current.None?) && Open(ops)
    ensures r == s.(locks := Locks(s.locks.lock + Depth(ops), Depth(ops), Ask in ops))
    decreases |ops|
  {
    if ops == [] then s
    else
      var front, op := ops[..|ops| - 1], ops[|ops| - 1];
      OpenFront(ops);
      ApplyInside(s, s.locks.lock, Depth(front), Ask in front, op, now);
      Apply(InSection(s, front, now), op, now)
  }

  lemma LastRelease(s: Sched, asked: bool, now: nat)
    requires s.current.Some? ==> HasCurrent(s)
    requires s.locks == RestLocks(s.current.None?)
    ensures var open := s.(locks := Locks(s.locks.lock + 1, 1, asked));
            Release(open, now) == if asked then Landed(s, now) else s
  {
    if asked {
      RequestedSection(s, now);
      assert Schedule(Acquire(s), now) == s.(locks := Locks(s.locks.lock + 1, 1, true));
    } else {
      UnrequestedSection(s, now);
    }
  }

  /** The outermost release serves every request of its section with one dispatch, at postpone count
      zero and lock one (or leaves it to the idle loop), and without a request it dispatches nothing. */
  lemma SectionServesRequests(s: Sched, ops: seq<LockOp>, now: nat)
    requires s.current.Some? ==> HasCurrent(s)
    requires s.locks == RestLocks(s.current.None?) && Open(ops) && Depth(ops) == 1
    ensures Release(InSection(s, ops, now), now) == if Ask in ops then Landed(s, now) else s
  {
    var open := Entered(s, ops, now);
    LastRelease(s, Ask in ops, now);
  }

  lemma Entered(s: Sched, ops: seq<LockOp>, now: nat) returns (open: Sched)
    requires s.current.Some? ==> HasCurrent(s)
    requires s.locks == RestLocks(s.current.None?) && Open(ops) && Depth(ops) == 1
    ensures open == InSection(s, ops, now) == s.(locks := Locks(s.locks.lock + 1, 1, Ask in ops))
  {
    open := InSection(s, ops, now);
  }
}
