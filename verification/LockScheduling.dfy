/** The lock protocols on the scheduler: the waiting list of a mutex or a semaphore is a waiting list of
    the scheduler, blocking is `tasks_sync_block` by the task the CPU runs, and waking is
    `tasks_sync_unblock`. */
module LockScheduling {
  import opened TaskLists
  import opened SchedulerSpec
  import opened SchedulerRuns
  import M = Mutexes
  import S = Semaphores

  /** What a step of a protocol asks of the scheduler. */
  datatype Call = Nothing | Blocks | WakesAll

  function MutexCall(e: M.Event): Call {
    match e
    case Block(_) => Blocks
    case WakeAll(_) => WakesAll
    case _ => Nothing
  }

  function SemaphoreCall(e: S.Event): Call {
    match e
    case Block(_) => Blocks
    case WakeAll(_) => WakesAll
    case _ => Nothing
  }

  /** The CPU takes a step of the protocol for its current task, or runs some other operation. */
  datatype Move = Protocol(call: Call, now: nat) | Other(act: Act)

  ghost predicate LegalMove(s: Quiet, w: Sync, move: Move, cleaner: Task)
    requires cleaner in s.state
  {
    match move
    case Protocol(_, _) => s.current.Some? && w in s.waiting
    case Other(act) => Legal(s, act.event, cleaner) && act.event != WaitOn(w) && act.event != Notify(w)
  }

  /** The scheduler's side of a move. */
  ghost function Scheduled(s: Quiet, w: Sync, move: Move, cleaner: Task): (r: Quiet)
    requires cleaner in s.state && LegalMove(s, w, move, cleaner)
    ensures cleaner in r.state
  {
    match move
    case Protocol(Nothing, _) => s
    case Protocol(Blocks, now) => Next(s, Act(WaitOn(w), now), cleaner)
    case Protocol(WakesAll, now) => Next(s, Act(Notify(w), now), cleaner)
    case Other(act) => Next(s, act, cleaner)
  }

  /** The protocol's side: what happens to its waiting list when task t takes the step. */
  function Waits(waiting: seq<Task>, t: Task, call: Call): seq<Task> {
    match call
    case Nothing => waiting
    case Blocks => waiting + [t]
    case WakesAll => []
  }

  /** The waiting lists move by the blocking and the waking operations only. */
  lemma WaitingAfter(s: Quiet, e: Event, cleaner: Task, now: nat)
    requires cleaner in s.state && Legal(s, e, cleaner)
    ensures Step(s, e, cleaner, now).waiting == match e
              case WaitOn(v) => s.waiting[v := s.waiting[v] + [s.current.value]]
              case Notify(v) => s.waiting[v := []]
              case _ => s.waiting
  {
    var b := Body(s, e, cleaner);
    StepIsBodyThenDispatch(s, e, cleaner, now);
    LandedWaiting(b, now);
    BodyWaiting(s, e, cleaner);
  }

  lemma LandedWaiting(b: Sched, now: nat)
    requires b.current.Some? ==> HasCurrent(b)
    ensures Landed(b, now).waiting == b.waiting
  {
    LandedIsDispatch(b, now);
  }

  lemma BodyWaiting(s: Quiet, e: Event, cleaner: Task)
    requires cleaner in s.state && Legal(s, e, cleaner)
    ensures Body(s, e, cleaner).waiting == match e
              case WaitOn(v) => s.waiting[v := s.waiting[v] + [s.current.value]]
              case Notify(v) => s.waiting[v := []]
              case _ => s.waiting
  {
    match e
    case Timer(time) =>
      WakeAllKeeps(s.(sleeping := NotDue(s.sleeping, s.wakeup, time)), Due(s.sleeping, s.wakeup, time));
    case WaitOn(v) =>
      assert s.current.value !in s.waiting[v];
    case Notify(v) =>
      assert s.waiting[v] == [] ==> s.waiting[v := []] == s.waiting;
    case _ =>
  }

  /** One move keeps the protocol's waiting list and the scheduler's the same. */
  lemma MoveLinked(s: Quiet, w: Sync, waiting: seq<Task>, move: Move, cleaner: Task)
    requires cleaner in s.state && LegalMove(s, w, move, cleaner)
    requires w in s.waiting && waiting == s.waiting[w]
    ensures var r := Scheduled(s, w, move, cleaner);
            w in r.waiting && r.waiting[w] == if move.Protocol? then Waits(waiting, s.current.value, move.call) else waiting
  {
    match move
    case Protocol(Nothing, _) =>
    case Protocol(Blocks, now) => WaitingAfter(s, WaitOn(w), cleaner, now);
    case Protocol(WakesAll, now) => WaitingAfter(s, Notify(w), cleaner, now);
    case Other(act) => WaitingAfter(s, act.event, cleaner, act.now);
  }

  /** A task that waits, by the protocol's list, is blocked: the CPU does not run it, nor will it before it is woken. */
  lemma WaiterDoesNotRun(s: Quiet, w: Sync, t: Task)
    requires w in s.waiting && t in s.waiting[w]
    ensures s.current != Some(t) && t !in s.ready && t in s.state && s.state[t] == Blocked
  {
  }

  /** The woken tasks join the tail of the ready list, in order of arrival. */
  lemma WokenJoinReady(s: Quiet, w: Sync, cleaner: Task)
    requires cleaner in s.state && Legal(s, Notify(w), cleaner)
    ensures Body(s, Notify(w), cleaner).ready == s.ready + s.waiting[w]
  {
    NotifyPlaced(s, w);
    assert s.ready + [] == s.ready;
  }

  // ---------- The two protocols ----------

  /** A mutex and the scheduler it runs on. */
  ghost predicate MutexLinked(m: M.Mutex, s: Quiet, w: Sync) {
    M.Sound(m) && M.WellListed(m) && w in s.waiting && m.waiting == s.waiting[w]
  }

  /** A step of the mutex by the task the CPU runs is one move of the scheduler. */
  lemma MutexRuns(m: M.Mutex, s: Quiet, w: Sync, e: M.Event, cleaner: Task, now: nat)
    requires cleaner in s.state && MutexLinked(m, s, w) && M.Legal(m, e) && s.current == Some(e.task)
    ensures MutexLinked(M.Step(m, e), Scheduled(s, w, Protocol(MutexCall(e), now), cleaner), w)
  {
    M.StepSound(m, e);
    M.StepListed(m, e);
    MoveLinked(s, w, m.waiting, Protocol(MutexCall(e), now), cleaner);
    MutexWaits(m, e);
  }

  lemma MutexWaits(m: M.Mutex, e: M.Event)
    ensures M.Step(m, e).waiting == Waits(m.waiting, e.task, MutexCall(e))
  {
  }

  /** Whatever else the kernel does, the link holds. A waiting task is not the one the CPU runs: that it
      takes no step of the protocol is the scheduler's doing. */
  lemma MutexRests(m: M.Mutex, s: Quiet, w: Sync, act: Act, cleaner: Task, t: Task)
    requires cleaner in s.state && MutexLinked(m, s, w) && LegalMove(s, w, Other(act), cleaner)
    ensures MutexLinked(m, Scheduled(s, w, Other(act), cleaner), w)
    ensures M.PlaceOf(m, t) == M.Waiting ==> s.current != Some(t)
  {
    MoveLinked(s, w, m.waiting, Other(act), cleaner);
    assert M.Placed(m, t);
    if M.PlaceOf(m, t) == M.Waiting {
      WaiterDoesNotRun(s, w, t);
    }
  }

  // ---------- Runs of both together ----------

  /** A run of the kernel with steps of a protocol among its operations. */
  datatype Joint<E> = LockStep(event: E, now: nat) | Kernel(act: Act)

  /** The steps of the protocol in a run. */
  function Steps<E>(joint: seq<Joint<E>>): seq<E> {
    if joint == [] then []
    else (match joint[0] case LockStep(e, _) => [e] case Kernel(_) => []) + Steps(joint[1..])
  }

  lemma StepsOn<E>(joint: seq<Joint<E>>)
    requires joint != []
    ensures if joint[0].LockStep? then
              && Steps(joint) != [] && Steps(joint)[0] == joint[0].event && Steps(joint)[1..] == Steps(joint[1..])
            else Steps(joint) == Steps(joint[1..])
  {
    if joint[0].LockStep? {
      assert Steps(joint) == [joint[0].event] + Steps(joint[1..]);
    }
  }

  /** The step is next by the program counter of its task. A task on the waiting list stands inside
      `tasks_sync_block`, which returns to the next test-and-set whenever the CPU runs the task. */
  predicate MutexAt(m: M.Mutex, e: M.Event) {
    match e
    case Lock(t) => M.PlaceOf(m, t) in {M.Outside, M.Waiting, M.Woken}
    case TryLock(t) => M.PlaceOf(m, t) == M.Outside
    case Block(t) => M.PlaceOf(m, t) == M.Refused
    case Clear(t) => M.PlaceOf(m, t) == M.Holding
    case WakeAll(t) => M.PlaceOf(m, t) == M.Unlocking
  }

  /** The CPU takes any step that is next in the code of its current task, or performs another operation. */
  ghost predicate MutexJoint(m: M.Mutex, s: Quiet, w: Sync, joint: seq<Joint<M.Event>>, cleaner: Task)
    requires cleaner in s.state
    decreases |joint|
  {
    if joint == [] then true
    else
      match joint[0]
      case LockStep(e, now) =>
        && MutexAt(m, e) && s.current == Some(e.task) && w in s.waiting
        && MutexJoint(M.Step(m, e), Scheduled(s, w, Protocol(MutexCall(e), now), cleaner), w, joint[1..], cleaner)
      case Kernel(act) =>
        && LegalMove(s, w, Other(act), cleaner)
        && MutexJoint(m, Scheduled(s, w, Other(act), cleaner), w, joint[1..], cleaner)
  }

  /** The scheduler after the run. */
  ghost function MutexSchedule(m: M.Mutex, s: Quiet, w: Sync, joint: seq<Joint<M.Event>>, cleaner: Task): Quiet
    requires cleaner in s.state && MutexJoint(m, s, w, joint, cleaner)
    decreases |joint|
  {
    if joint == [] then s
    else
      match joint[0]
      case LockStep(e, now) =>
        MutexSchedule(M.Step(m, e), Scheduled(s, w, Protocol(MutexCall(e), now), cleaner), w, joint[1..], cleaner)
      case Kernel(act) =>
        MutexSchedule(m, Scheduled(s, w, Other(act), cleaner), w, joint[1..], cleaner)
  }

  /** The scheduler does not run a waiting task, so that a step the program counter allows is legal. */
  lemma CurrentMayLock(m: M.Mutex, s: Quiet, w: Sync, e: M.Event)
    requires MutexLinked(m, s, w) && MutexAt(m, e) && s.current == Some(e.task)
    ensures M.Legal(m, e)
  {
    assert M.Placed(m, e.task);
    if M.PlaceOf(m, e.task) == M.Waiting {
      WaiterDoesNotRun(s, w, e.task);
    }
  }

  /** A run is its first operation and then the rest. */
  lemma MutexFirst(m: M.Mutex, s: Quiet, w: Sync, joint: seq<Joint<M.Event>>, cleaner: Task)
    returns (m1: M.Mutex, s1: Quiet)
    requires joint != [] && cleaner in s.state && MutexLinked(m, s, w)
    requires MutexJoint(m, s, w, joint, cleaner)
    ensures cleaner in s1.state && MutexLinked(m1, s1, w) && MutexJoint(m1, s1, w, joint[1..], cleaner)
    ensures MutexSchedule(m, s, w, joint, cleaner) == MutexSchedule(m1, s1, w, joint[1..], cleaner)
    ensures M.LegalRun(m1, Steps(joint[1..])) ==> M.LegalRun(m, Steps(joint))
    ensures M.Run(m, Steps(joint)) == M.Run(m1, Steps(joint[1..]))
  {
    StepsOn(joint);
    match joint[0] {
      case LockStep(e, now) =>
        CurrentMayLock(m, s, w, e);
        MutexRuns(m, s, w, e, cleaner, now);
        m1, s1 := M.Step(m, e), Scheduled(s, w, Protocol(MutexCall(e), now), cleaner);
      case Kernel(act) =>
        MutexRests(m, s, w, act, cleaner, cleaner);
        m1, s1 := m, Scheduled(s, w, Other(act), cleaner);
    }
  }

  /** Every run of the kernel with a mutex in it is a legal run of the protocol, because the scheduler runs
      no waiting task; and at its end the two waiting lists are still the same. */
  lemma {:induction false} MutexJointRun(m: M.Mutex, s: Quiet, w: Sync, joint: seq<Joint<M.Event>>, cleaner: Task)
    requires cleaner in s.state && MutexLinked(m, s, w) && MutexJoint(m, s, w, joint, cleaner)
    ensures M.LegalRun(m, Steps(joint))
    ensures MutexLinked(M.Run(m, Steps(joint)), MutexSchedule(m, s, w, joint, cleaner), w)
    decreases |joint|
  {
    if joint != [] {
      var m1, s1 := MutexFirst(m, s, w, joint, cleaner);
      MutexJointRun(m1, s1, w, joint[1..], cleaner);
    }
  }

  /** Mutual exclusion on the scheduler: from the start, whatever the kernel does, no two tasks hold the mutex,
      and the tasks waiting for it are those the scheduler has on its list, blocked. */
  lemma MutexOnScheduler(first: Task, cleaner: Task, syncs: set<Sync>, w: Sync, joint: seq<Joint<M.Event>>,
                         t: Task, u: Task)
    requires first != cleaner && w in syncs && MutexJoint(M.Initial(), Boot(first, cleaner, syncs), w, joint, cleaner)
    ensures var m := M.Run(M.Initial(), Steps(joint));
            var r := MutexSchedule(M.Initial(), Boot(first, cleaner, syncs), w, joint, cleaner);
            && (M.PlaceOf(m, t) == M.Holding && M.PlaceOf(m, u) == M.Holding ==> t == u)
            && w in r.waiting && (M.PlaceOf(m, t) == M.Waiting <==> t in r.waiting[w])
  {
    MutexJointRun(M.Initial(), Boot(first, cleaner, syncs), w, joint, cleaner);
    var m := M.Run(M.Initial(), Steps(joint));
    assert M.Exclusive(m, t, u) && M.Placed(m, t);
  }

  /** A semaphore and the scheduler it runs on. */
  ghost predicate SemaphoreLinked(p: S.Semaphore, s: Quiet, w: Sync) {
    S.Sound(p) && S.WellListed(p) && w in s.waiting && p.waiting == s.waiting[w]
  }

  /** The same for the semaphore. */
  lemma SemaphoreRuns(p: S.Semaphore, s: Quiet, w: Sync, e: S.Event, cleaner: Task, now: nat)
    requires cleaner in s.state && SemaphoreLinked(p, s, w) && S.Legal(p, e) && s.current == Some(e.task)
    ensures SemaphoreLinked(S.Step(p, e), Scheduled(s, w, Protocol(SemaphoreCall(e), now), cleaner), w)
  {
    S.StepSound(p, e);
    S.StepListed(p, e);
    MoveLinked(s, w, p.waiting, Protocol(SemaphoreCall(e), now), cleaner);
    SemaphoreWaits(p, e);
  }

  lemma SemaphoreWaits(p: S.Semaphore, e: S.Event)
    ensures S.Step(p, e).waiting == Waits(p.waiting, e.task, SemaphoreCall(e))
  {
  }

  lemma SemaphoreRests(p: S.Semaphore, s: Quiet, w: Sync, act: Act, cleaner: Task, t: Task)
    requires cleaner in s.state && SemaphoreLinked(p, s, w) && LegalMove(s, w, Other(act), cleaner)
    ensures SemaphoreLinked(p, Scheduled(s, w, Other(act), cleaner), w)
    ensures S.PlaceOf(p, t) == S.Waiting ==> s.current != Some(t)
  {
    MoveLinked(s, w, p.waiting, Other(act), cleaner);
    assert S.Placed(p, t);
    if S.PlaceOf(p, t) == S.Waiting {
      WaiterDoesNotRun(s, w, t);
    }
  }

  /** By program counter alone, a waiting task may load the count whenever the CPU runs it. */
  predicate SemaphoreAt(p: S.Semaphore, e: S.Event) {
    match e
    case StartWait(t) => S.PlaceOf(p, t) == S.Outside
    case TryLoad(t) => S.PlaceOf(p, t) == S.Outside
    case Load(t) => S.PlaceOf(p, t) in {S.Loading, S.Waiting}
    case Exchange(t) => S.PlaceOf(p, t).Expecting?
    case Block(t) => S.PlaceOf(p, t) == S.Refused
    case Add(t) => S.PlaceOf(p, t) == S.Outside
    case WakeAll(t) => S.PlaceOf(p, t) == S.Posting
  }

  ghost predicate SemaphoreJoint(p: S.Semaphore, s: Quiet, w: Sync, joint: seq<Joint<S.Event>>, cleaner: Task)
    requires cleaner in s.state
    decreases |joint|
  {
    if joint == [] then true
    else
      match joint[0]
      case LockStep(e, now) =>
        && SemaphoreAt(p, e) && s.current == Some(e.task) && w in s.waiting
        && SemaphoreJoint(S.Step(p, e), Scheduled(s, w, Protocol(SemaphoreCall(e), now), cleaner), w, joint[1..], cleaner)
      case Kernel(act) =>
        && LegalMove(s, w, Other(act), cleaner)
        && SemaphoreJoint(p, Scheduled(s, w, Other(act), cleaner), w, joint[1..], cleaner)
  }

  ghost function SemaphoreSchedule(p: S.Semaphore, s: Quiet, w: Sync, joint: seq<Joint<S.Event>>, cleaner: Task): Quiet
    requires cleaner in s.state && SemaphoreJoint(p, s, w, joint, cleaner)
    decreases |joint|
  {
    if joint == [] then s
    else
      match joint[0]
      case LockStep(e, now) =>
        SemaphoreSchedule(S.Step(p, e), Scheduled(s, w, Protocol(SemaphoreCall(e), now), cleaner), w, joint[1..], cleaner)
      case Kernel(act) =>
        SemaphoreSchedule(p, Scheduled(s, w, Other(act), cleaner), w, joint[1..], cleaner)
  }

  lemma CurrentMayLoad(p: S.Semaphore, s: Quiet, w: Sync, e: S.Event)
    requires SemaphoreLinked(p, s, w) && SemaphoreAt(p, e) && s.current == Some(e.task)
    ensures S.Legal(p, e)
  {
    assert S.Placed(p, e.task);
    if S.PlaceOf(p, e.task) == S.Waiting {
      WaiterDoesNotRun(s, w, e.task);
    }
  }

  /** A run is its first operation and then the rest. */
  lemma SemaphoreFirst(p: S.Semaphore, s: Quiet, w: Sync, joint: seq<Joint<S.Event>>, cleaner: Task)
    returns (p1: S.Semaphore, s1: Quiet)
    requires joint != [] && cleaner in s.state && SemaphoreLinked(p, s, w)
    requires SemaphoreJoint(p, s, w, joint, cleaner)
    ensures cleaner in s1.state && SemaphoreLinked(p1, s1, w) && SemaphoreJoint(p1, s1, w, joint[1..], cleaner)
    ensures SemaphoreSchedule(p, s, w, joint, cleaner) == SemaphoreSchedule(p1, s1, w, joint[1..], cleaner)
    ensures S.LegalRun(p1, Steps(joint[1..])) ==> S.LegalRun(p, Steps(joint))
    ensures S.Run(p, Steps(joint)) == S.Run(p1, Steps(joint[1..]))
  {
    StepsOn(joint);
    match joint[0] {
      case LockStep(e, now) =>
        CurrentMayLoad(p, s, w, e);
        SemaphoreRuns(p, s, w, e, cleaner, now);
        p1, s1 := S.Step(p, e), Scheduled(s, w, Protocol(SemaphoreCall(e), now), cleaner);
      case Kernel(act) =>
        SemaphoreRests(p, s, w, act, cleaner, cleaner);
        p1, s1 := p, Scheduled(s, w, Other(act), cleaner);
    }
  }

  /** Every run of the kernel with a semaphore in it is a legal run of the protocol, and at its end the two
      waiting lists are still the same. */
  lemma {:induction false} SemaphoreJointRun(p: S.Semaphore, s: Quiet, w: Sync, joint: seq<Joint<S.Event>>, cleaner: Task)
    requires cleaner in s.state && SemaphoreLinked(p, s, w) && SemaphoreJoint(p, s, w, joint, cleaner)
    ensures S.LegalRun(p, Steps(joint))
    ensures SemaphoreLinked(S.Run(p, Steps(joint)), SemaphoreSchedule(p, s, w, joint, cleaner), w)
    decreases |joint|
  {
    if joint != [] {
      var p1, s1 := SemaphoreFirst(p, s, w, joint, cleaner);
      SemaphoreJointRun(p1, s1, w, joint[1..], cleaner);
    }
  }

  /** Conservation on the scheduler: from the start, whatever the kernel does, the count is the initial value
      plus the posts less the acquisitions in 32 bits, and the waiting tasks are those on the scheduler's list. */
  lemma SemaphoreOnScheduler(value: nat, first: Task, cleaner: Task, syncs: set<Sync>, w: Sync,
                             joint: seq<Joint<S.Event>>, t: Task)
    requires value <= S.COUNT_MAX && first != cleaner && w in syncs
    requires SemaphoreJoint(S.Initial(value), Boot(first, cleaner, syncs), w, joint, cleaner)
    ensures var p := S.Run(S.Initial(value), Steps(joint));
            var r := SemaphoreSchedule(S.Initial(value), Boot(first, cleaner, syncs), w, joint, cleaner);
            && S.Sound(p) && p.initial == value
            && w in r.waiting && (S.PlaceOf(p, t) == S.Waiting <==> t in r.waiting[w])
  {
    SemaphoreJointRun(S.Initial(value), Boot(first, cleaner, syncs), w, joint, cleaner);
    S.InitialKept(S.Initial(value), Steps(joint));
    assert S.Placed(S.Run(S.Initial(value), Steps(joint)), t);
  }

  // ---------- Locking inside a locked section ----------

  /** `tasks_sync_block` where the scheduler is already locked: it cannot switch, and a second call changes
      nothing more. */
  lemma BlockInside(s: Sched, w: Sync, now: nat)
    requires HasCurrent(s) && w in s.waiting && s.locks.postpone > 0 && NoDup(s.waiting[w])
    requires s.current.value in s.waiting[w] ==> s.waiting[w][|s.waiting[w]| - 1] == s.current.value
    ensures var r := SyncBlock(s, w, now);
            && r == SetState(s, s.current.value, Blocked).(
                      waiting := s.waiting[w := Enqueued(s.waiting[w], s.current.value)],
                      locks := s.locks.(postponed := true))
            && HasCurrent(r) && w in r.waiting && NoDup(r.waiting[w]) && SyncBlock(r, w, now) == r
  {
    var t, q := s.current.value, s.waiting[w];
    if t in q {
      EnqueuedTwice(q, t);
    }
    var r := SetState(s, t, Blocked).(waiting := s.waiting[w := Enqueued(q, t)], locks := s.locks.(postponed := true));
    assert Enqueued(Enqueued(q, t), t) == Enqueued(q, t);
    assert SetState(r, t, Blocked) == r && r.waiting[w := Enqueued(q, t)] == r.waiting;
  }

  /** The loop of `Mutex::lock` in a section that the current task has open: whether it returned within so
      many rounds, and the state. */
  datatype Locking = Locking(returned: bool, state: Sched)

  function LockInside(isLocked: bool, s: Sched, w: Sync, rounds: nat, now: nat): Locking
    requires HasCurrent(s) && w in s.waiting && s.locks.postpone > 0 && NoDup(s.waiting[w])
    requires s.current.value in s.waiting[w] ==> s.waiting[w][|s.waiting[w]| - 1] == s.current.value
    decreases rounds
  {
    if rounds == 0 then Locking(false, s)
    else if !isLocked then Locking(true, s)
    else
      BlockInside(s, w, now);
      LockInside(true, SyncBlock(s, w, now), w, rounds - 1, now)
  }

  lemma {:induction false} BlockedForGood(s: Sched, w: Sync, rounds: nat, now: nat)
    requires HasCurrent(s) && w in s.waiting && s.locks.postpone > 0 && NoDup(s.waiting[w])
    requires s.current.value in s.waiting[w] ==> s.waiting[w][|s.waiting[w]| - 1] == s.current.value
    requires SyncBlock(s, w, now) == s
    ensures LockInside(true, s, w, rounds, now) == Locking(false, s)
    decreases rounds
  {
    if rounds > 0 {
      BlockedForGood(s, w, rounds - 1, now);
    }
  }

  /** The cleaner locks the mutex of the page tables while it has the scheduler locked. That returns, with
      nothing changed, exactly when the flag is clear. Otherwise the task becomes blocked and is still the one
      that executes: it is enqueued again in every round, nothing is ever switched, and the loop does not end. */
  lemma LockInSectionIff(isLocked: bool, s: Sched, w: Sync, rounds: nat, now: nat)
    requires Placed(s) && HasCurrent(s) && s.state[s.current.value] == Running
    requires w in s.waiting && s.locks.postpone > 0 && rounds > 0
    ensures s.current.value !in s.waiting[w]
    ensures var r := LockInside(isLocked, s, w, rounds, now);
            && (r.returned <==> !isLocked) && (!isLocked ==> r.state == s)
            && r.state.current == s.current && r.state.flow == s.flow && r.state.ready == s.ready
            && (isLocked ==>
                && r.state.state == s.state[s.current.value := Blocked]
                && r.state.waiting == s.waiting[w := s.waiting[w] + [s.current.value]])
  {
    assert s.current.value !in s.waiting[w];
    if isLocked {
      BlockInside(s, w, now);
      BlockedForGood(SyncBlock(s, w, now), w, rounds - 1, now);
    }
  }
}
