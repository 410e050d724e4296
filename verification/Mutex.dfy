/** The mutex of Kernel/Locking/Mutex.cpp as a protocol between any number of tasks. One step is one atomic
    instruction on the flag or one stretch with interrupts off, so between two steps of a task the
    others may do anything. */
module Mutexes {

  type Task = int

  /** Where a task stands in the code of the mutex. */
  datatype Place =
    | Outside
    /** The flag was found set; `tasks_sync_block` comes next. */
    | Refused
    /** On the waiting list. */
    | Waiting
    /** Made ready again, in front of the next test-and-set. */
    | Woken
    /** Between a successful `lock` or `tryLock` and the `unlock`. */
    | Holding
    /** The flag is cleared; `tasks_sync_unblock` comes next. */
    | Unlocking

  /** `ready` is the scheduler's ready list as far as this mutex fills it. */
  datatype Mutex = Mutex(isLocked: bool, waiting: seq<Task>, ready: seq<Task>, places: map<Task, Place>)

  function PlaceOf(m: Mutex, t: Task): Place {
    if t in m.places then m.places[t] else Outside
  }

  function Initial(): Mutex {
    Mutex(false, [], [], map[])
  }

  datatype Event =
    | Lock(task: Task)
    | TryLock(task: Task)
    | Block(task: Task)
    | Clear(task: Task)
    | WakeAll(task: Task)

  /** Only the holder unlocks. A waiting task does not step until it is woken. */
  predicate Legal(m: Mutex, e: Event) {
    match e
    case Lock(t) => PlaceOf(m, t) in {Outside, Woken}
    case TryLock(t) => PlaceOf(m, t) == Outside
    case Block(t) => PlaceOf(m, t) == Refused
    case Clear(t) => PlaceOf(m, t) == Holding
    case WakeAll(t) => PlaceOf(m, t) == Unlocking
  }

  function Moved(m: Mutex, t: Task, p: Place): Mutex {
    m.(places := m.places[t := p])
  }

  function Step(m: Mutex, e: Event): Mutex {
    match e
    case Lock(t) => Moved(m, t, if m.isLocked then Refused else Holding).(isLocked := true)
    case TryLock(t) => Moved(m, t, if m.isLocked then Outside else Holding).(isLocked := true)
    case Block(t) => Moved(m, t, Waiting).(waiting := m.waiting + [t])
    case Clear(t) => Moved(m, t, Unlocking).(isLocked := false)
    case WakeAll(t) =>
      Mutex(m.isLocked, [], m.ready + m.waiting,
            (map u | u in m.places :: if m.places[u] == Waiting then Woken else m.places[u])[t := Outside])
  }

  // ---------- Mutual exclusion ----------

  predicate Exclusive(m: Mutex, t: Task, u: Task) {
    PlaceOf(m, t) == Holding && PlaceOf(m, u) == Holding ==> t == u
  }

  /** The flag is set exactly while some task holds the mutex, and then one task alone. */
  ghost predicate Sound(m: Mutex) {
    && (forall t, u :: Exclusive(m, t, u))
    && (m.isLocked <==> exists t :: PlaceOf(m, t) == Holding)
  }

  /** A place on the waiting list is taken by a waiting task, and nobody takes two. */
  predicate Listed(m: Mutex, i: int, j: int) {
    0 <= i < j < |m.waiting| ==> m.waiting[i] != m.waiting[j]
  }

  predicate Placed(m: Mutex, t: Task) {
    PlaceOf(m, t) == Waiting <==> t in m.waiting
  }

  ghost predicate WellListed(m: Mutex) {
    (forall t :: Placed(m, t)) && (forall i, j :: Listed(m, i, j))
  }

  lemma StepSound(m: Mutex, e: Event)
    requires Sound(m) && Legal(m, e)
    ensures Sound(Step(m, e))
  {
    var m', s := Step(m, e), e.task;
    forall t, u
      ensures Exclusive(m', t, u)
    {
      assert Exclusive(m, t, u);
      assert PlaceOf(m, t) == Holding ==> m.isLocked;
      assert PlaceOf(m, u) == Holding ==> m.isLocked;
    }
    if m.isLocked {
      var h :| PlaceOf(m, h) == Holding;
      assert Exclusive(m, h, s);
      assert m'.isLocked ==> PlaceOf(m', h) == Holding;
    } else {
      assert m'.isLocked ==> PlaceOf(m', s) == Holding;
    }
    forall t | PlaceOf(m', t) == Holding
      ensures m'.isLocked
    {
      assert t == s || PlaceOf(m, t) == Holding;
      assert Exclusive(m, t, s);
    }
  }

  lemma StepListed(m: Mutex, e: Event)
    requires WellListed(m) && Legal(m, e)
    ensures WellListed(Step(m, e))
  {
    var m' := Step(m, e);
    assert Placed(m, e.task);
    forall t
      ensures Placed(m', t)
    {
      assert Placed(m, t);
    }
    forall i, j
      ensures Listed(m', i, j)
    {
      assert Listed(m, i, j);
      if 0 <= i < |m.waiting| {
        assert m.waiting[i] in m.waiting;
      }
    }
  }

  predicate LegalRun(m: Mutex, events: seq<Event>)
    decreases |events|
  {
    events == [] || (Legal(m, events[0]) && LegalRun(Step(m, events[0]), events[1..]))
  }

  function Run(m: Mutex, events: seq<Event>): Mutex
    decreases |events|
  {
    if events == [] then m else Run(Step(m, events[0]), events[1..])
  }

  lemma {:induction false} RunSound(m: Mutex, events: seq<Event>)
    requires Sound(m) && WellListed(m) && LegalRun(m, events)
    ensures Sound(Run(m, events)) && WellListed(Run(m, events))
    decreases |events|
  {
    if events != [] {
      StepSound(m, events[0]);
      StepListed(m, events[0]);
      RunSound(Step(m, events[0]), events[1..]);
    }
  }

  /** Mutual exclusion: whatever the tasks do and however their steps interleave, no two hold the mutex. */
  lemma MutualExclusion(events: seq<Event>, t: Task, u: Task)
    requires LegalRun(Initial(), events)
    requires PlaceOf(Run(Initial(), events), t) == Holding && PlaceOf(Run(Initial(), events), u) == Holding
    ensures t == u
  {
    RunSound(Initial(), events);
    assert Exclusive(Run(Initial(), events), t, u);
  }

  /** The wake-all step moves the whole waiting list, in order of arrival, to the tail of the ready list and
      leaves it empty; the tasks on it, and no others, are free to try again. */
  lemma WakeAllMoves(m: Mutex, t: Task, u: Task)
    requires WellListed(m) && Legal(m, WakeAll(t))
    ensures var m' := Step(m, WakeAll(t));
            && m'.waiting == [] && m'.ready == m.ready + m.waiting
            && (PlaceOf(m', u) == Woken <==> PlaceOf(m, u) == Woken || u in m.waiting)
  {
    assert Placed(m, u) && Placed(m, t);
  }

  // ---------- Waking up ----------

  /** Some task will still clear the flag or wake the waiting list. */
  ghost predicate WakeupDue(m: Mutex) {
    m.isLocked || exists t :: PlaceOf(m, t) == Unlocking
  }

  /** Nobody waits for a wakeup that is not to come. */
  ghost predicate NobodyStranded(m: Mutex) {
    m.waiting != [] ==> WakeupDue(m)
  }

  /** Waiters are kept from being stranded by every step but one: blocking after the flag was
      cleared and the wakeup is over. */
  lemma StrandsIff(m: Mutex, e: Event)
    requires Sound(m) && NobodyStranded(m) && Legal(m, e)
    ensures NobodyStranded(Step(m, e)) <==> !(e.Block? && !WakeupDue(m))
  {
    var m' := Step(m, e);
    if t :| PlaceOf(m, t) == Unlocking {
      assert e.WakeAll? || PlaceOf(m', t) == Unlocking;
    }
    if e.Clear? {
      assert PlaceOf(m', e.task) == Unlocking;
    }
    if e.Block? && !WakeupDue(m) {
      forall t
        ensures PlaceOf(m', t) != Unlocking
      {
        assert PlaceOf(m, t) != Unlocking;
      }
    }
  }

  /** No task of the run blocks after the flag was cleared and the wakeup is over. */
  ghost predicate NoLateBlock(m: Mutex, events: seq<Event>)
    decreases |events|
  {
    events == [] || (!(events[0].Block? && !WakeupDue(m)) && NoLateBlock(Step(m, events[0]), events[1..]))
  }

  /** A run without such a step ends with nobody stranded. */
  lemma {:induction false} RunStrandsNobody(m: Mutex, events: seq<Event>)
    requires Sound(m) && NobodyStranded(m) && LegalRun(m, events) && NoLateBlock(m, events)
    ensures NobodyStranded(Run(m, events))
    decreases |events|
  {
    if events != [] {
      StepSound(m, events[0]);
      StrandsIff(m, events[0]);
      RunStrandsNobody(Step(m, events[0]), events[1..]);
    }
  }

  lemma RunOn(m: Mutex, e: Event, rest: seq<Event>)
    requires Legal(m, e) && LegalRun(Step(m, e), rest)
    ensures LegalRun(m, [e] + rest) && Run(m, [e] + rest) == Run(Step(m, e), rest)
  {
    assert ([e] + rest)[1..] == rest;
  }

  /** The holder unlocks in front of the blocking of a task it has refused. */
  lemma LateBlock(m: Mutex, t: Task, u: Task)
    requires t != u && m == Initial().(isLocked := true, places := map[t := Holding, u := Refused])
    ensures var events := [Clear(t)] + ([WakeAll(t)] + ([Block(u)] + []));
            LegalRun(m, events) && Run(m, events).waiting == [u] && !NobodyStranded(Run(m, events))
  {
    var m1 := Step(m, Clear(t));
    var m2 := Step(m1, WakeAll(t));
    var m3 := Step(m2, Block(u));
    assert m2 == Initial().(places := map[t := Outside, u := Refused]);
    RunOn(m2, Block(u), []);
    RunOn(m1, WakeAll(t), [Block(u)] + []);
    RunOn(m, Clear(t), [WakeAll(t)] + ([Block(u)] + []));
    forall v
      ensures PlaceOf(m3, v) != Unlocking
    {
    }
  }

  /** That step is possible: between a refused test-and-set and the blocking, the holder may unlock. */
  lemma StrandedWaiter(t: Task, u: Task)
    requires t != u
    ensures var events := [Lock(t), Lock(u), Clear(t), WakeAll(t), Block(u)];
            && LegalRun(Initial(), events)
            && Run(Initial(), events).waiting == [u] && !NobodyStranded(Run(Initial(), events))
  {
    var m1 := Step(Initial(), Lock(t));
    var late := [Clear(t)] + ([WakeAll(t)] + ([Block(u)] + []));
    assert Step(m1, Lock(u)) == Initial().(isLocked := true, places := map[t := Holding, u := Refused]);
    LateBlock(Step(m1, Lock(u)), t, u);
    RunOn(m1, Lock(u), late);
    RunOn(Initial(), Lock(t), [Lock(u)] + late);
    assert [Lock(t), Lock(u), Clear(t), WakeAll(t), Block(u)] == [Lock(t)] + ([Lock(u)] + late);
  }

  // ---------- The code ----------

  /** The mutex object; each method is one atomic step of the calling task `t`. The places of the tasks are
      what their program counters say. */
  class MutexObject {
    var isLocked: bool
    /** `m_taskSync.waiting` */
    var waiting: seq<Task>
    /** `tasks_ready` */
    var ready: seq<Task>
    ghost var places: map<Task, Place>

    ghost function View(): Mutex
      reads this
    {
      Mutex(isLocked, waiting, ready, places)
    }

    /** At most one holder, and it is there exactly while the flag is set; each waiting task is listed once. */
    ghost predicate Valid()
      reads this
    {
      Sound(View()) && WellListed(View())
    }

    constructor ()
      ensures Valid() && View() == Initial()
    {
      isLocked, waiting, ready, places := false, [], [], map[];
    }

    method TestAndSet() returns (was: bool)
      modifies this`isLocked
      ensures was == old(isLocked) && isLocked
    {
      was := isLocked;
      isLocked := true;
    }

    /** One round of the loop in `lock`: the caller is the only holder, or has to block. */
    method LockRound(t: Task) returns (again: bool)
      requires Valid() && Legal(View(), Lock(t))
      modifies this
      ensures Valid() && View() == Step(old(View()), Lock(t))
      ensures again <==> exists u :: PlaceOf(old(View()), u) == Holding
      ensures !again ==> forall u :: PlaceOf(View(), u) == Holding <==> u == t
    {
      StepSound(View(), Lock(t));
      StepListed(View(), Lock(t));
      again := TestAndSet();
      places := places[t := if again then Refused else Holding];
      HolderAlone(View(), t);
    }

    method TryToLock(t: Task) returns (taken: bool)
      requires Valid() && Legal(View(), TryLock(t))
      modifies this
      ensures Valid() && View() == Step(old(View()), TryLock(t))
      ensures taken <==> forall u :: PlaceOf(old(View()), u) != Holding
      ensures taken ==> forall u :: PlaceOf(View(), u) == Holding <==> u == t
    {
      StepSound(View(), TryLock(t));
      StepListed(View(), TryLock(t));
      var was := TestAndSet();
      places := places[t := if was then Outside else Holding];
      taken := !was;
      HolderAlone(View(), t);
    }

    /** `tasks_sync_block`; the call returns when the task has been woken and dispatched. The caller was on
        no list and is the last waiter, and it is stranded exactly when no wakeup is due. */
    method SyncBlock(t: Task)
      requires Valid() && Legal(View(), Block(t))
      modifies this
      ensures Valid() && View() == Step(old(View()), Block(t))
      ensures t !in old(waiting) && waiting == old(waiting) + [t]
      ensures NobodyStranded(View()) <==> WakeupDue(old(View()))
    {
      ghost var was := View();
      assert Placed(was, t);
      StepSound(was, Block(t));
      StepListed(was, Block(t));
      waiting := waiting + [t];
      places := places[t := Waiting];
      BlockStrands(was, t);
    }

    /** The first half of `unlock`: nobody holds the mutex, whoever tries next gets it, and a wakeup is due. */
    method ClearFlag(t: Task)
      requires Valid() && Legal(View(), Clear(t))
      modifies this
      ensures Valid() && View() == Step(old(View()), Clear(t))
      ensures forall u :: PlaceOf(View(), u) != Holding
      ensures forall u :: Legal(View(), Lock(u)) ==> PlaceOf(Step(View(), Lock(u)), u) == Holding
      ensures WakeupDue(View()) && NobodyStranded(View())
    {
      StepSound(View(), Clear(t));
      StepListed(View(), Clear(t));
      isLocked := false;
      places := places[t := Unlocking];
      assert PlaceOf(View(), t) == Unlocking;
    }

    /** The second half of `unlock`, `tasks_sync_unblock`: the waiting tasks are woken one by one. */
    method SyncUnblock(t: Task)
      requires Valid() && Legal(View(), WakeAll(t))
      modifies this
      ensures Valid() && View() == Step(old(View()), WakeAll(t))
      ensures NobodyStranded(View()) && forall u | u in old(waiting) :: PlaceOf(View(), u) == Woken
    {
      ghost var was := View();
      StepSound(was, WakeAll(t));
      StepListed(was, WakeAll(t));
      var left := waiting;
      while left != []
        invariant ready + left == old(ready) + old(waiting)
        invariant waiting == old(waiting) && isLocked == old(isLocked) && places == old(places)
        decreases |left|
      {
        ready := ready + [left[0]];
        left := left[1..];
      }
      waiting := [];
      places := (map u | u in places :: if places[u] == Waiting then Woken else places[u])[t := Outside];
      assert View() == Step(was, WakeAll(t));
      forall u | u in old(waiting)
        ensures PlaceOf(View(), u) == Woken
      {
        WakeAllMoves(was, t, u);
      }
    }
  }

  lemma HolderAlone(m: Mutex, t: Task)
    requires Sound(m)
    ensures PlaceOf(m, t) == Holding ==> forall u :: PlaceOf(m, u) == Holding <==> u == t
  {
    forall u
      ensures PlaceOf(m, t) == Holding && PlaceOf(m, u) == Holding ==> u == t
    {
      assert Exclusive(m, t, u);
    }
  }

  /** Blocking strands the caller exactly when no wakeup is due. */
  lemma BlockStrands(m: Mutex, t: Task)
    requires Legal(m, Block(t))
    ensures NobodyStranded(Step(m, Block(t))) <==> WakeupDue(m)
  {
    var m' := Step(m, Block(t));
    if u :| PlaceOf(m, u) == Unlocking {
      assert PlaceOf(m', u) == Unlocking;
    }
    if u :| PlaceOf(m', u) == Unlocking {
      assert PlaceOf(m, u) == Unlocking;
    }
  }
}
