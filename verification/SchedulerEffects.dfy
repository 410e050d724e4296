/** What each operation of the scheduler does, field by field, in a state between locked sections. */
module SchedulerEffects {
  import opened TaskLists
  import opened SchedulerSpec
  import opened SchedulerRuns

  /** The CPU goes from the current task, which does not stay ready, to the head of q, or idles on its stack. */
  ghost predicate HandedTo(q: seq<Task>, s: Sched, r: Sched, now: nat) {
    if q == [] then
      r.current.None? && r.borrowed == s.current && r.ready == [] && r.slice == 0
    else
      && r.current == Some(q[0]) && r.borrowed.None? && r.ready == q[1..]
      && r.slice == 1_000_000 && r.lastTimer == now
  }

  /** The task handed to runs; u is in the state `st` otherwise. */
  ghost predicate StateAfter(q: seq<Task>, r: Sched, u: Task, st: TaskState) {
    u in r.state && r.state[u] == if q != [] && q[0] == u then Running else st
  }

  ghost predicate SameLists(s: Sched, r: Sched) {
    r.sleeping == s.sleeping && r.stopped == s.stopped && r.waiting == s.waiting && r.wakeup == s.wakeup
  }

  lemma LandedHands(b: Sched, now: nat, u: Task)
    requires HasCurrent(b) && b.borrowed.None? && b.state[b.current.value] != Running
    requires b.ready != [] ==> b.ready[0] in b.state
    ensures var r := Landed(b, now);
            && HandedTo(b.ready, b, r, now) && SameLists(b, r) && (u in r.state <==> u in b.state)
            && (u in b.state ==> StateAfter(b.ready, r, u, b.state[u]))
  {
  }

  lemma LandedRotates(b: Sched, now: nat)
    requires HasCurrent(b) && b.borrowed.None? && b.state[b.current.value] == Running && b.ready != []
    requires b.current.value !in b.ready
    ensures var r := Landed(b, now);
            && r.current == Some(b.ready[0]) && r.borrowed.None? && r.ready == b.ready[1..] + [b.current.value]
            && r.slice == 1_000_000 && r.lastTimer == now && SameLists(b, r)
            && r.state == b.state[b.current.value := Ready][b.ready[0] := Running]
  {
    assert b.current.value !in b.ready[1..];
  }

  /** A yield goes to the head of the ready list and to its tail; with nobody ready the slice starts anew. */
  lemma YieldEffect(s: Quiet, cleaner: Task, now: nat)
    requires cleaner in s.state && s.current.Some?
    ensures var r, t := Step(s, YieldNow, cleaner, now), s.current.value;
            && SameLists(s, r)
            && if s.ready == [] then r == s.(slice := 1_000_000)
               else && r.current == Some(s.ready[0]) && r.borrowed.None? && r.ready == s.ready[1..] + [t]
                    && r.slice == 1_000_000 && r.lastTimer == now
                    && r.state == s.state[t := Ready][s.ready[0] := Running]
  {
    StepIsBodyThenDispatch(s, YieldNow, cleaner, now);
    if s.ready != [] {
      LandedRotates(s, now);
    }
  }

  lemma PauseEffect(s: Quiet, cleaner: Task, now: nat, u: Task)
    requires cleaner in s.state && s.current.Some? && u in s.state
    ensures var r, t := Step(s, Pause, cleaner, now), s.current.value;
            && HandedTo(s.ready, s, r, now) && SameLists(s, r)
            && StateAfter(s.ready, r, u, if u == t then Paused else s.state[u])
  {
    StepIsBodyThenDispatch(s, Pause, cleaner, now);
    assert s.ready != [] ==> s.ready[0] in s.ready;
    LandedHands(Body(s, Pause, cleaner), now, u);
  }

  /** A sleeping task is last on the sleeping list, with the time it asked for. */
  lemma SleepEffect(s: Quiet, cleaner: Task, time: nat, now: nat, u: Task)
    requires cleaner in s.state && s.current.Some? && u in s.state
    ensures var r, t := Step(s, Sleep(time), cleaner, now), s.current.value;
            && HandedTo(s.ready, s, r, now)
            && r.sleeping == s.sleeping + [t] && r.wakeup == s.wakeup[t := time]
            && r.stopped == s.stopped && r.waiting == s.waiting
            && StateAfter(s.ready, r, u, if u == t then Sleeping else s.state[u])
  {
    var b := Body(s, Sleep(time), cleaner);
    assert s.current.value !in s.sleeping && (s.ready != [] ==> s.ready[0] in s.ready);
    StepIsBodyThenDispatch(s, Sleep(time), cleaner, now);
    LandedHands(b, now, u);
  }

  /** A task that blocks is last on its waiting list. */
  lemma WaitEffect(s: Quiet, cleaner: Task, w: Sync, now: nat, u: Task)
    requires cleaner in s.state && s.current.Some? && w in s.waiting && u in s.state
    ensures var r, t := Step(s, WaitOn(w), cleaner, now), s.current.value;
            && HandedTo(s.ready, s, r, now)
            && r.waiting == s.waiting[w := s.waiting[w] + [t]] && r.sleeping == s.sleeping && r.stopped == s.stopped
            && r.wakeup == s.wakeup
            && StateAfter(s.ready, r, u, if u == t then Blocked else s.state[u])
  {
    var b := Body(s, WaitOn(w), cleaner);
    assert s.current.value !in s.waiting[w] && (s.ready != [] ==> s.ready[0] in s.ready);
    StepIsBodyThenDispatch(s, WaitOn(w), cleaner, now);
    LandedHands(b, now, u);
  }

  /** A task that exits is last on the stopped list, and the cleaner is ready. */
  lemma ExitEffect(s: Quiet, cleaner: Task, now: nat, u: Task)
    requires cleaner in s.state && Legal(s, ExitTask, cleaner) && u in s.state
    ensures var r, t := Step(s, ExitTask, cleaner, now), s.current.value;
            var q := if s.state[cleaner] == Paused then s.ready + [cleaner] else s.ready;
            && HandedTo(q, s, r, now)
            && r.stopped == s.stopped + [t] && r.sleeping == s.sleeping && r.waiting == s.waiting
            && StateAfter(q, r, u, if u == t then Stopped else if u == cleaner then Ready else s.state[u])
  {
    var b, q := ExitBodyIs(s, cleaner);
    StepIsBodyThenDispatch(s, ExitTask, cleaner, now);
    LandedHands(b, now, u);
  }

  lemma ExitBodyIs(s: Quiet, cleaner: Task) returns (b: Sched, q: seq<Task>)
    requires cleaner in s.state && Legal(s, ExitTask, cleaner)
    ensures b == Body(s, ExitTask, cleaner) && q == if s.state[cleaner] == Paused then s.ready + [cleaner] else s.ready
    ensures var t := s.current.value;
            && b == s.(state := s.state[t := Stopped][cleaner := Ready], stopped := s.stopped + [t], ready := q)
            && q != [] && q[0] in b.state && HasCurrent(b)
  {
    assert s.current.value !in s.stopped;
    q := if s.state[cleaner] == Paused then s.ready + [cleaner] else s.ready;
    if s.state[cleaner] == Paused {
      assert cleaner !in s.ready;
    } else {
      assert cleaner in s.ready;
      EnqueuedTwice(s.ready, cleaner);
    }
    assert q[0] in q;
    b := Body(s, ExitTask, cleaner);
  }

  /** The cleaner forgets exactly the stopped tasks, and pauses. */
  lemma CleanEffect(s: Quiet, cleaner: Task, now: nat, u: Task)
    requires s.current == Some(cleaner) && cleaner in s.state
    ensures var r := Step(s, CleanUp, cleaner, now);
            && HandedTo(s.ready, s, r, now) && r.stopped == [] && r.sleeping == s.sleeping && r.waiting == s.waiting
            && (u in r.state <==> u in s.state && u !in s.stopped)
            && (u in r.state ==> StateAfter(s.ready, r, u, if u == cleaner then Paused else s.state[u]))
  {
    CleanSection(s, cleaner, now);
    CleanBodyIs(s, cleaner, u);
    LandedHands(CleanBody(s, cleaner), now, u);
  }

  lemma CleanBodyIs(s: Quiet, cleaner: Task, u: Task)
    requires s.current == Some(cleaner) && cleaner in s.state
    ensures cleaner !in s.stopped
    ensures var b := CleanBody(s, cleaner);
            && HasCurrent(b) && b.borrowed.None? && b.state[cleaner] == Paused && b.ready == s.ready && b.stopped == []
            && (u in b.state <==> u in s.state && u !in s.stopped)
            && (u in b.state && u != cleaner ==> b.state[u] == s.state[u])
            && (s.ready != [] ==> b.ready[0] in b.state)
  {
    if s.ready != [] {
      var head := s.ready[0];
      assert head in s.ready;
      assert head in s.state && s.state[head] == Ready;
    }
  }

  /** A paused task that is woken is ready, at the tail, and nothing else moves. */
  lemma WakeEffect(s: Quiet, cleaner: Task, t: Task, now: nat)
    requires cleaner in s.state && t in s.state && s.state[t] == Paused
    ensures Step(s, WakeTask(t), cleaner, now) == s.(state := s.state[t := Ready], ready := s.ready + [t])
  {
    assert t !in s.ready;
    WakeSection(s, t, now);
  }

  /** A new task is in the state asked for, at the tail of the ready list exactly when that is Ready, will start
      at its beginning, and nothing else moves. */
  lemma CreateEffect(s: Quiet, cleaner: Task, t: Task, st: TaskState, now: nat)
    requires cleaner in s.state && Legal(s, NewTask(t, st), cleaner)
    ensures Step(s, NewTask(t, st), cleaner, now)
         == s.(state := s.state[t := st], wakeup := s.wakeup[t := 0],
               ready := if st == Ready then s.ready + [t] else s.ready,
               flow := s.flow.(points := s.flow.points[t := Starting]))
  {
    assert t !in s.ready;
  }

  /** At the end of idling the head of the ready list runs, and the task that lent its stack keeps its state. */
  lemma IdleEffect(s: Quiet, cleaner: Task, now: nat, u: Task)
    requires cleaner in s.state && s.current.None? && s.ready != [] && u in s.state
    ensures var r := Step(s, IdleOver, cleaner, now);
            && r.current == Some(s.ready[0]) && r.borrowed.None? && r.ready == s.ready[1..] && SameLists(s, r)
            && r.slice == 1_000_000 && r.lastTimer == now && StateAfter(s.ready, r, u, s.state[u])
  {
    var b := Body(s, IdleOver, cleaner);
    assert s.ready[0] in s.ready;
    StepIsBodyThenDispatch(s, IdleOver, cleaner, now);
    LandedHands(b, now, u);
  }

  // ---------- Waking many ----------

  /** Woken tasks are ready and wake no more by time; the others keep state and time. */
  ghost predicate Woken(s: Sched, q: seq<Task>, b: Sched, u: Task) {
    && (u in b.state <==> u in s.state) && (u in b.wakeup <==> u in s.wakeup)
    && (u in s.state ==> b.state[u] == if u in q then Ready else s.state[u])
    && (u in s.wakeup ==> b.wakeup[u] == if u in q then 0xFFFF_FFFF_FFFF_FFFF else s.wakeup[u])
  }

  /** What waking the tasks of q does next: the running task goes behind them, and the head of all ready tasks
      runs; while the CPU idles they only join the ready list. */
  ghost predicate Rotated(s: Sched, q: seq<Task>, r: Sched, now: nat) {
    if s.current.None? then r.current.None? && r.ready == s.ready + q && r.slice == s.slice
    else
      && s.ready + q != []
      && r.current == Some((s.ready + q)[0]) && r.ready == (s.ready + q)[1..] + [s.current.value]
      && r.slice == 1_000_000 && r.lastTimer == now
  }

  /** The state of u after that. */
  ghost predicate RotatedState(s: Sched, q: seq<Task>, r: Sched, u: Task)
    requires s.current.Some? ==> s.ready + q != []
  {
    u in s.state ==>
      && u in r.state
      && r.state[u] == if s.current.None? then if u in q then Ready else s.state[u]
                       else if u == (s.ready + q)[0] then Running
                       else if u in q || s.current == Some(u) then Ready
                       else s.state[u]
  }

  /** A body that woke the tasks of q, and the dispatch behind it. */
  lemma LandedWakes(s: Quiet, q: seq<Task>, b: Sched, now: nat, u: Task)
    requires b.current == s.current && b.borrowed == s.borrowed && b.ready == s.ready + q
    requires s.current.None? ==> b.slice == s.slice
    requires s.current.Some? ==> s.ready + q != [] && s.current.value !in s.ready + q
    requires s.current.Some? ==> HasCurrent(b) && b.state[s.current.value] == Running
    requires Woken(s, q, b, u)
    ensures var r := Landed(b, now);
            Rotated(s, q, r, now) && RotatedState(s, q, r, u) && SameLists(b, r)
  {
    if s.current.Some? {
      LandedRotates(b, now);
    }
  }

  /** Waking a waiting list empties it and makes all its tasks ready, in order. */
  lemma NotifyEffect(s: Quiet, cleaner: Task, w: Sync, now: nat, u: Task)
    requires cleaner in s.state && w in s.waiting
    ensures var r, q := Step(s, Notify(w), cleaner, now), s.waiting[w];
            if q == [] then r == s
            else
              && Rotated(s, q, r, now) && RotatedState(s, q, r, u)
              && r.waiting == s.waiting[w := []] && r.sleeping == s.sleeping && r.stopped == s.stopped
              && (u in q ==> u in r.wakeup && r.wakeup[u] == 0xFFFF_FFFF_FFFF_FFFF)
  {
    var q, b := s.waiting[w], Body(s, Notify(w), cleaner);
    StepIsBodyThenDispatch(s, Notify(w), cleaner, now);
    if q != [] {
      NotifyBodyIs(s, cleaner, w, u);
      LandedWakes(s, q, b, now, u);
    }
  }

  lemma NotifyBodyIs(s: Quiet, cleaner: Task, w: Sync, u: Task)
    requires cleaner in s.state && w in s.waiting && s.waiting[w] != []
    ensures var b, q := Body(s, Notify(w), cleaner), s.waiting[w];
            && b.current == s.current && b.borrowed == s.borrowed && b.ready == s.ready + q && b.slice == s.slice
            && b.sleeping == s.sleeping && b.stopped == s.stopped && b.waiting == s.waiting[w := []]
            && (s.current.Some? ==> s.current.value !in s.ready + q && HasCurrent(b) && b.state[s.current.value] == Running)
            && Woken(s, q, b, u)
  {
    var q := s.waiting[w];
    WakeAllKeeps(s, q);
    WakeAllAppends(s, q);
    assert s.current.Some? ==> s.state[s.current.value] == Running;
  }

  // ---------- The timer ----------

  lemma {:induction false} NobodyDue(q: seq<Task>, wakeup: map<Task, nat>, time: nat)
    requires forall t | t in q :: t in wakeup && wakeup[t] > time
    ensures Due(q, wakeup, time) == [] && NotDue(q, wakeup, time) == q
  {
    if q != [] {
      assert q == q[..|q| - 1] + [q[|q| - 1]];
      NobodyDue(q[..|q| - 1], wakeup, time);
    }
  }

  /** The sleeping list is split in order: `due` are those whose time has come. */
  ghost predicate SplitByTime(s: Sched, time: nat, due: seq<Task>, asleep: seq<Task>) {
    && Subsequence(due, s.sleeping) && Subsequence(asleep, s.sleeping)
    && forall t :: (t in due <==> t in s.sleeping && t in s.wakeup && s.wakeup[t] <= time)
                   && (t in asleep <==> t in s.sleeping && t !in due)
  }

  lemma SplitFound(s: Sched, time: nat) returns (due: seq<Task>, asleep: seq<Task>)
    requires Placed(s)
    ensures due == Due(s.sleeping, s.wakeup, time) && asleep == NotDue(s.sleeping, s.wakeup, time)
    ensures SplitByTime(s, time, due, asleep) && NoDup(due) && (due == [] ==> asleep == s.sleeping)
    ensures forall t | t in due :: t in s.state && t !in s.ready && s.state[t] == Sleeping
  {
    due, asleep := Due(s.sleeping, s.wakeup, time), NotDue(s.sleeping, s.wakeup, time);
    DueMembers(s.sleeping, s.wakeup, time);
    DueInOrder(s.sleeping, s.wakeup, time);
    DueAsleep(s, time);
    if due == [] {
      forall t | t in s.sleeping
        ensures s.wakeup[t] > time
      {
        assert t !in due;
      }
      NobodyDue(s.sleeping, s.wakeup, time);
    }
  }

  /** What the timer does before it asks for a schedule, and when it does ask. */
  lemma TimerBodyIs(s: Quiet, cleaner: Task, time: nat, u: Task) returns (due: seq<Task>, asleep: seq<Task>)
    requires cleaner in s.state && time >= s.lastTimer
    ensures SplitByTime(s, time, due, asleep) && NoDup(due)
    ensures forall t | t in due :: t in s.state && t !in s.ready && s.state[t] == Sleeping
    ensures due != [] ==> due[0] in s.sleeping && due[0] in s.wakeup && s.wakeup[due[0]] <= time
    ensures Requests(s, Timer(time), cleaner) <==> due != [] || (s.slice != 0 && time >= s.lastTimer + s.slice)
    ensures var b := Body(s, Timer(time), cleaner);
            && b.current == s.current && b.borrowed == s.borrowed && b.ready == s.ready + due
            && b.sleeping == asleep && b.stopped == s.stopped && b.waiting == s.waiting && b.locks == s.locks
            && b.lastTimer == (if s.slice == 0 then s.lastTimer else time)
            && (s.slice == 0 ==> b.slice == 0)
            && (s.slice != 0 && time < s.lastTimer + s.slice ==> b.slice == s.lastTimer + s.slice - time)
            && (due == [] ==> b == s.(slice := b.slice, lastTimer := b.lastTimer))
            && Woken(s, due, b, u)
  {
    due, asleep := SplitFound(s, time);
    var s1 := s.(sleeping := asleep);
    WakeAllKeeps(s1, due);
    WakeAllAppends(s1, due);
    assert Body(s, Timer(time), cleaner) == Tick(WakeAll(s1, due), time);
    assert due != [] ==> due[0] in due;
  }

  /** The timer: exactly the sleepers whose time has come wake, in order. If there are some, or the slice has
      run out, the running task gives way to the head of all ready tasks; with nobody ready its slice
      starts anew. Otherwise nothing moves but the clock. */
  lemma TimerEffect(s: Quiet, cleaner: Task, time: nat, now: nat, u: Task) returns (due: seq<Task>, asleep: seq<Task>)
    requires cleaner in s.state && time >= s.lastTimer
    ensures SplitByTime(s, time, due, asleep)
    ensures var r := Step(s, Timer(time), cleaner, now);
            && r.sleeping == asleep && r.stopped == s.stopped && r.waiting == s.waiting
            && (u in due ==> u in r.wakeup && r.wakeup[u] == 0xFFFF_FFFF_FFFF_FFFF)
            && if due == [] && (s.slice == 0 || time < s.lastTimer + s.slice) then
                 r == if s.slice == 0 then s else s.(lastTimer := time, slice := s.lastTimer + s.slice - time)
               else if s.current.Some? && s.ready + due == [] then
                 r == s.(lastTimer := time, slice := 1_000_000)
               else
                 Rotated(s, due, r, now) && RotatedState(s, due, r, u)
  {
    due, asleep := TimerBodyIs(s, cleaner, time, u);
    var b := Body(s, Timer(time), cleaner);
    StepIsBodyThenDispatch(s, Timer(time), cleaner, now);
    if s.current.Some? {
      RunningNotReady(s, cleaner, time, due);
    }
    if due == [] && (s.slice == 0 || time < s.lastTimer + s.slice) {
    } else if s.current.Some? && s.ready + due == [] {
      assert due == [] && b.ready == [];
    } else {
      LandedWakes(s, due, b, now, u);
    }
  }

  lemma RunningNotReady(s: Quiet, cleaner: Task, time: nat, due: seq<Task>)
    requires cleaner in s.state && time >= s.lastTimer && s.current.Some?
    requires forall t | t in due :: t in s.state && s.state[t] == Sleeping
    ensures s.current.value !in s.ready + due
    ensures var b := Body(s, Timer(time), cleaner); b.current == s.current && HasCurrent(b) && b.state[b.current.value] == Running
  {
    TimerPlaced(s, time);
    assert HasCurrent(s) && s.state[s.current.value] == Running;
  }

  // ---------- Time slices ----------

  /** The running task may run until then while others are ready. */
  function Deadline(s: Sched): nat {
    s.lastTimer + s.slice
  }

  /** A switch gives the task switched to a whole slice from `now` on. */
  lemma SwitchSetsDeadline(s: Quiet, e: Event, cleaner: Task, now: nat)
    requires cleaner in s.state && Legal(s, e, cleaner) && Switched(s, e, cleaner) != []
    ensures var r := Step(s, e, cleaner, now); r.current.Some? && r.slice == 1_000_000 && Deadline(r) == now + 1_000_000
  {
    var b := Body(s, e, cleaner);
    StepIsBodyThenDispatch(s, e, cleaner, now);
    LandedIsDispatch(b, now);
  }

  /** While another task is ready, an operation that does not switch keeps the deadline, and the timer is such
      an operation only before the deadline. */
  lemma DeadlineKept(s: Quiet, e: Event, cleaner: Task, now: nat)
    requires cleaner in s.state && Legal(s, e, cleaner) && Switched(s, e, cleaner) == []
    requires s.current.Some? && s.slice > 0 && s.ready != []
    ensures var r := Step(s, e, cleaner, now);
            r.current == s.current && r.slice > 0 && Deadline(r) == Deadline(s) && s.ready <= r.ready
    ensures e.Timer? ==> e.time < Deadline(s)
  {
    BodyPlaced(s, e, cleaner);
    StepIsBodyThenDispatch(s, e, cleaner, now);
    match e
    case Timer(time) =>
      var due, asleep := TimerBodyIs(s, cleaner, time, cleaner);
    case _ =>
  }

  /** A run is its first operation, which switches or keeps the deadline, and then the rest. */
  lemma FirstKeeps(s: Quiet, acts: seq<Act>, cleaner: Task) returns (s1: Quiet, first: seq<Task>)
    requires cleaner in s.state && acts != [] && LegalRun(s, acts, cleaner)
    requires s.current.Some? && s.slice > 0 && s.ready != []
    ensures cleaner in s1.state && LegalRun(s1, acts[1..], cleaner)
    ensures Dispatches(s, acts, cleaner) == first + Dispatches(s1, acts[1..], cleaner)
    ensures first == [] ==> s1.current == s.current && s1.slice > 0 && Deadline(s1) == Deadline(s) && s.ready <= s1.ready
    ensures first == [] && acts[0].event.Timer? ==> acts[0].event.time < Deadline(s)
  {
    s1, first := Next(s, acts[0], cleaner), Switched(s, acts[0].event, cleaner);
    if first == [] {
      DeadlineKept(s, acts[0].event, cleaner, acts[0].now);
    }
  }

  /** A timer at or after the deadline. */
  ghost predicate TooLate(s: Sched, act: Act) {
    act.event.Timer? && act.event.time >= Deadline(s)
  }

  lemma InRest(acts: seq<Act>, act: Act)
    requires act in acts && acts[0] != act
    ensures act in acts[1..]
  {
    assert acts == [acts[0]] + acts[1..];
  }

  /** Over any run, whatever the operations: while others are ready the running task is switched away from no
      later than the first timer at or after its deadline. */
  lemma {:induction false} SliceRunsOut(s: Quiet, acts: seq<Act>, cleaner: Task, act: Act)
    requires cleaner in s.state && LegalRun(s, acts, cleaner)
    requires s.current.Some? && s.slice > 0 && s.ready != [] && act in acts && TooLate(s, act)
    ensures Dispatches(s, acts, cleaner) != []
    decreases |acts|
  {
    var s1, first := FirstKeeps(s, acts, cleaner);
    if first == [] {
      InRest(acts, act);
      SliceRunsOut(s1, acts[1..], cleaner, act);
    }
  }

  /** And the task it is switched away for is the one that was at the head of the ready list. */
  lemma HeadTakesOver(s: Quiet, acts: seq<Act>, cleaner: Task, act: Act)
    requires cleaner in s.state && LegalRun(s, acts, cleaner)
    requires s.current.Some? && s.slice > 0 && s.ready != [] && act in acts && TooLate(s, act)
    ensures Dispatches(s, acts, cleaner) != [] && Dispatches(s, acts, cleaner)[0] == s.ready[0]
  {
    SliceRunsOut(s, acts, cleaner, act);
    BoundedWaiting(s, acts, cleaner, 0);
  }

  /** Ticks of the timer that come before any sleeper's time. */
  ghost predicate QuietTicks(s: Sched, acts: seq<Act>) {
    forall i | 0 <= i < |acts| ::
      acts[i].event.Timer? && forall t | t in s.sleeping && t in s.wakeup :: s.wakeup[t] > acts[i].event.time
  }

  /** Before the deadline a tick moves nothing but the clock. */
  lemma TickMoves(s: Quiet, cleaner: Task, time: nat, now: nat)
    requires cleaner in s.state && s.current.Some? && s.lastTimer <= time < Deadline(s) && s.slice > 0
    requires forall t | t in s.sleeping && t in s.wakeup :: s.wakeup[t] > time
    ensures !Requests(s, Timer(time), cleaner)
    ensures Step(s, Timer(time), cleaner, now) == s.(lastTimer := time, slice := s.lastTimer + s.slice - time)
  {
    var due, asleep := TimerBodyIs(s, cleaner, time, cleaner);
    StepIsBodyThenDispatch(s, Timer(time), cleaner, now);
  }

  lemma TickStep(s: Quiet, cleaner: Task, time: nat, now: nat) returns (r: Quiet)
    requires cleaner in s.state && s.current.Some? && s.lastTimer <= time < Deadline(s) && s.slice > 0
    requires forall t | t in s.sleeping && t in s.wakeup :: s.wakeup[t] > time
    ensures cleaner in r.state && r == Next(s, Act(Timer(time), now), cleaner) && Switched(s, Timer(time), cleaner) == []
    ensures r == s.(lastTimer := time, slice := r.slice) && r.slice > 0 && Deadline(r) == Deadline(s)
  {
    TickMoves(s, cleaner, time, now);
    r := Next(s, Act(Timer(time), now), cleaner);
  }

  lemma TickBefore(s: Quiet, acts: seq<Act>, cleaner: Task) returns (s1: Quiet)
    requires cleaner in s.state && acts != [] && LegalRun(s, acts, cleaner) && QuietTicks(s, acts)
    requires s.current.Some? && s.slice > 0 && NoneTooLate(s, acts)
    ensures cleaner in s1.state && LegalRun(s1, acts[1..], cleaner)
    ensures Dispatches(s, acts, cleaner) == Dispatches(s1, acts[1..], cleaner)
    ensures Run(s, acts, cleaner) == Run(s1, acts[1..], cleaner)
    ensures s1 == s.(lastTimer := acts[0].event.time, slice := s1.slice) && s1.slice > 0 && Deadline(s1) == Deadline(s)
  {
    assert !TooLate(s, acts[0]);
    s1 := TickStep(s, cleaner, acts[0].event.time, acts[0].now);
    assert [] + Dispatches(s1, acts[1..], cleaner) == Dispatches(s1, acts[1..], cleaner);
  }

  ghost predicate NoneTooLate(s: Sched, acts: seq<Act>) {
    forall i | 0 <= i < |acts| :: !TooLate(s, acts[i])
  }

  lemma RestQuiet(s: Sched, s1: Sched, acts: seq<Act>)
    requires QuietTicks(s, acts) && NoneTooLate(s, acts) && acts != []
    requires s1.sleeping == s.sleeping && s1.wakeup == s.wakeup && Deadline(s1) == Deadline(s)
    ensures QuietTicks(s1, acts[1..]) && NoneTooLate(s1, acts[1..])
  {
    assert forall i :: 0 <= i < |acts[1..]| ==> acts[1..][i] == acts[i + 1];
  }

  lemma {:induction false} TicksBefore(s: Quiet, acts: seq<Act>, cleaner: Task) returns (r: Quiet)
    requires cleaner in s.state && LegalRun(s, acts, cleaner) && QuietTicks(s, acts) && NoneTooLate(s, acts)
    requires s.current.Some? && s.slice > 0
    ensures r == Run(s, acts, cleaner) && Dispatches(s, acts, cleaner) == []
    ensures r == s.(lastTimer := r.lastTimer, slice := r.slice) && Deadline(r) == Deadline(s)
    decreases |acts|
  {
    r := s;
    if acts != [] {
      var s1 := TickBefore(s, acts, cleaner);
      RestQuiet(s, s1, acts);
      r := TicksBefore(s1, acts[1..], cleaner);
    }
  }

  /** A run of ticks between two dispatches, with others ready: it switches if and only if one of them comes at
      or after the deadline, and otherwise leaves everything but the clock as it was, the deadline too. */
  lemma TicksSwitchIff(s: Quiet, acts: seq<Act>, cleaner: Task)
    requires cleaner in s.state && LegalRun(s, acts, cleaner) && QuietTicks(s, acts)
    requires s.current.Some? && s.slice > 0 && s.ready != []
    ensures Dispatches(s, acts, cleaner) != [] <==> exists i :: 0 <= i < |acts| && acts[i].event.time >= Deadline(s)
    ensures Dispatches(s, acts, cleaner) == [] ==>
              var r := Run(s, acts, cleaner);
              r == s.(lastTimer := r.lastTimer, slice := r.slice) && Deadline(r) == Deadline(s)
  {
    if i :| 0 <= i < |acts| && acts[i].event.time >= Deadline(s) {
      SliceRunsOut(s, acts, cleaner, acts[i]);
    } else {
      var r := TicksBefore(s, acts, cleaner);
    }
  }

  /** A task that runs has some of its slice left, and an idle CPU has none. */
  ghost predicate Sliced(s: Sched) {
    if s.current.Some? then 0 < s.slice <= 1_000_000 else s.slice == 0
  }

  lemma BodySliced(s: Quiet, e: Event, cleaner: Task)
    requires cleaner in s.state && Legal(s, e, cleaner)
    ensures var b := Body(s, e, cleaner);
            if s.slice == 0 then b.slice == 0 else 0 < b.slice <= s.slice
  {
    match e
    case Timer(time) =>
      WakeAllKeeps(s.(sleeping := NotDue(s.sleeping, s.wakeup, time)), Due(s.sleeping, s.wakeup, time));
    case Notify(w) => WakeAllKeeps(s, s.waiting[w]);
    case _ =>
  }

  lemma LandedSliced(b: Sched, now: nat)
    requires b.current.Some? ==> HasCurrent(b)
    ensures var r := Landed(b, now); if b.current.None? then r.slice == b.slice && r.current.None? else Sliced(r)
  {
    LandedIsDispatch(b, now);
  }

  lemma StepSliced(s: Quiet, e: Event, cleaner: Task, now: nat)
    requires cleaner in s.state && Legal(s, e, cleaner) && Sliced(s)
    ensures Sliced(Step(s, e, cleaner, now))
  {
    BodyPlaced(s, e, cleaner);
    BodySliced(s, e, cleaner);
    StepIsBodyThenDispatch(s, e, cleaner, now);
    LandedSliced(Body(s, e, cleaner), now);
  }

  lemma {:induction false} RunSliced(s: Quiet, acts: seq<Act>, cleaner: Task)
    requires cleaner in s.state && LegalRun(s, acts, cleaner) && Sliced(s)
    ensures Sliced(Run(s, acts, cleaner))
    decreases |acts|
  {
    if acts != [] {
      StepSliced(s, acts[0].event, cleaner, acts[0].now);
      RunSliced(Next(s, acts[0], cleaner), acts[1..], cleaner);
    }
  }
}
