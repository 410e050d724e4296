/** The semaphore of Kernel/Locking/Semaphore.cpp between any number of tasks: loads, compare-exchanges and
    additions on a 32-bit count, blocking and waking. One step is one atomic instruction or one stretch
    with interrupts off. */
module Semaphores {

  type Task = int

  const COUNT_MAX: nat := 0xFFFF_FFFF

  /** Where a task stands in the code; `blocking` tells `wait` from `tryWait`. */
  datatype Place =
    | Outside
    /** In front of the load of the count. */
    | Loading
    /** In front of the compare-exchange, with the value it expects. */
    | Expecting(value: nat, blocking: bool)
    /** A count of zero was seen; `tasks_sync_block` comes next. */
    | Refused
    | Waiting
    /** The count is raised; `tasks_sync_unblock` comes next. */
    | Posting

  /** `posts` and `acquired` count the additions and the successful exchanges so far. */
  datatype Semaphore = Semaphore(
    count: nat, waiting: seq<Task>, ready: seq<Task>, places: map<Task, Place>,
    initial: nat, posts: nat, acquired: nat)

  function PlaceOf(s: Semaphore, t: Task): Place {
    if t in s.places then s.places[t] else Outside
  }

  function Initial(value: nat): Semaphore {
    Semaphore(value, [], [], map[], value, 0, 0)
  }

  datatype Event =
    | StartWait(task: Task)
    | TryLoad(task: Task)
    | Load(task: Task)
    | Exchange(task: Task)
    | Block(task: Task)
    | Add(task: Task)
    | WakeAll(task: Task)

  predicate Legal(s: Semaphore, e: Event) {
    match e
    case StartWait(t) => PlaceOf(s, t) == Outside
    case TryLoad(t) => PlaceOf(s, t) == Outside
    case Load(t) => PlaceOf(s, t) == Loading
    case Exchange(t) => PlaceOf(s, t).Expecting?
    case Block(t) => PlaceOf(s, t) == Refused
    case Add(t) => PlaceOf(s, t) == Outside
    case WakeAll(t) => PlaceOf(s, t) == Posting
  }

  /** After the count is known: zero sends `wait` to block and ends `tryWait`. */
  function Seen(value: nat, blocking: bool): Place {
    if value != 0 then Expecting(value, blocking) else if blocking then Refused else Outside
  }

  function Moved(s: Semaphore, t: Task, p: Place): Semaphore {
    s.(places := s.places[t := p])
  }

  /** A failed exchange reloads the expected value, possibly as zero. */
  function Step(s: Semaphore, e: Event): Semaphore {
    match e
    case StartWait(t) => Moved(s, t, Loading)
    case TryLoad(t) => Moved(s, t, Seen(s.count, false))
    case Load(t) => Moved(s, t, Seen(s.count, true))
    case Exchange(t) =>
      var p := PlaceOf(s, t);
      if p.Expecting? && s.count == p.value then Moved(s, t, Outside).(count := Minus1(p.value), acquired := s.acquired + 1)
      else Moved(s, t, Seen(s.count, p.Expecting? && p.blocking))
    case Block(t) => Moved(s, t, Waiting).(waiting := s.waiting + [t])
    case Add(t) => Moved(s, t, Posting).(count := (s.count + 1) % (COUNT_MAX + 1), posts := s.posts + 1)
    case WakeAll(t) =>
      s.(waiting := [], ready := s.ready + s.waiting,
         places := (map u | u in s.places :: if s.places[u] == Waiting then Loading else s.places[u])[t := Outside])
  }

  /** Unsigned `value - 1`. */
  function Minus1(value: nat): nat {
    if value == 0 then COUNT_MAX else value - 1
  }

  /** What the count should be. */
  function Balance(s: Semaphore): int {
    s.initial + s.posts - s.acquired
  }

  /** A task that is about to exchange expects a count above zero. */
  predicate ExpectsSome(s: Semaphore, t: Task) {
    PlaceOf(s, t).Expecting? ==> 0 < PlaceOf(s, t).value <= COUNT_MAX
  }

  /** The count is a 32-bit number, and the balance modulo 2^32. */
  ghost predicate Sound(s: Semaphore) {
    && s.count <= COUNT_MAX && s.count == Balance(s) % (COUNT_MAX + 1)
    && forall t :: ExpectsSome(s, t)
  }

  lemma StepSound(s: Semaphore, e: Event)
    requires Sound(s) && Legal(s, e)
    ensures Sound(Step(s, e))
  {
    assert ExpectsSome(s, e.task);
    forall t
      ensures ExpectsSome(Step(s, e), t)
    {
      assert ExpectsSome(s, t);
    }
  }

  /** The count is exact: nothing was lost in the 32 bits. */
  predicate Exact(s: Semaphore) {
    s.count == Balance(s)
  }

  /** Every step keeps the count exact but one: a post that finds the largest count. */
  lemma ExactUntilOverflow(s: Semaphore, e: Event)
    requires Sound(s) && Exact(s) && Legal(s, e)
    ensures Exact(Step(s, e)) <==> !(e.Add? && s.count == COUNT_MAX)
  {
    assert ExpectsSome(s, e.task);
  }

  /** That post takes the count from its largest value to zero, with 2^32 to take. */
  lemma PostOverflows(t: Task)
    ensures var s := Initial(COUNT_MAX);
            && LegalRun(s, [Add(t)]) && Exact(s)
            && Run(s, [Add(t)]).count == 0 && Balance(Run(s, [Add(t)])) == COUNT_MAX + 1
  {
    var s := Initial(COUNT_MAX);
    assert LegalRun(Step(s, Add(t)), []) && Run(Step(s, Add(t)), []) == Step(s, Add(t));
  }

  /** A place on the waiting list is taken by a waiting task, and nobody takes two. */
  predicate Listed(s: Semaphore, i: int, j: int) {
    0 <= i < j < |s.waiting| ==> s.waiting[i] != s.waiting[j]
  }

  predicate Placed(s: Semaphore, t: Task) {
    PlaceOf(s, t) == Waiting <==> t in s.waiting
  }

  ghost predicate WellListed(s: Semaphore) {
    (forall t :: Placed(s, t)) && (forall i, j :: Listed(s, i, j))
  }

  /** Every step keeps the waiting list the blocked tasks, each once. */
  lemma StepListed(s: Semaphore, e: Event)
    requires WellListed(s) && Legal(s, e)
    ensures WellListed(Step(s, e))
  {
    var s' := Step(s, e);
    assert Placed(s, e.task);
    forall t
      ensures Placed(s', t)
    {
      assert Placed(s, t);
    }
    forall i, j
      ensures Listed(s', i, j)
    {
      assert Listed(s, i, j);
      if 0 <= i < |s.waiting| {
        assert s.waiting[i] in s.waiting;
      }
    }
  }

  predicate LegalRun(s: Semaphore, events: seq<Event>)
    decreases |events|
  {
    events == [] || (Legal(s, events[0]) && LegalRun(Step(s, events[0]), events[1..]))
  }

  function Run(s: Semaphore, events: seq<Event>): Semaphore
    decreases |events|
  {
    if events == [] then s else Run(Step(s, events[0]), events[1..])
  }

  /** No post of the run finds the largest count. */
  predicate NoOverflow(s: Semaphore, events: seq<Event>)
    decreases |events|
  {
    events == [] || (!(events[0].Add? && s.count == COUNT_MAX) && NoOverflow(Step(s, events[0]), events[1..]))
  }

  lemma {:induction false} RunSound(s: Semaphore, events: seq<Event>)
    requires Sound(s) && LegalRun(s, events)
    ensures Sound(Run(s, events))
    ensures Exact(s) && NoOverflow(s, events) ==> Exact(Run(s, events))
    decreases |events|
  {
    if events != [] {
      StepSound(s, events[0]);
      if Exact(s) {
        ExactUntilOverflow(s, events[0]);
      }
      RunSound(Step(s, events[0]), events[1..]);
    }
  }

  /** The initial value is kept by every step. */
  lemma {:induction false} InitialKept(s: Semaphore, events: seq<Event>)
    requires LegalRun(s, events)
    ensures Run(s, events).initial == s.initial
    decreases |events|
  {
    if events != [] {
      InitialKept(Step(s, events[0]), events[1..]);
    }
  }

  lemma CountOf(s: Semaphore, value: nat)
    requires Sound(s) && s.initial == value
    ensures s.count == (value + s.posts - s.acquired) % (COUNT_MAX + 1)
    ensures Exact(s) ==> s.count == value + s.posts - s.acquired && s.acquired <= value + s.posts
  {
    assert Balance(s) == value + s.posts - s.acquired;
  }

  /** Conservation: under any interleaving the count is the initial value plus the posts less the completed
      acquisitions, and so never more are acquired than were there; modulo 2^32 when posts overflow. */
  lemma Conservation(value: nat, events: seq<Event>)
    requires value <= COUNT_MAX && LegalRun(Initial(value), events)
    ensures var s := Run(Initial(value), events);
            && s.count == (value + s.posts - s.acquired) % (COUNT_MAX + 1)
            && (NoOverflow(Initial(value), events) ==>
                  s.count == value + s.posts - s.acquired && s.acquired <= value + s.posts)
  {
    RunSound(Initial(value), events);
    InitialKept(Initial(value), events);
    CountOf(Run(Initial(value), events), value);
  }

  /** An exchange takes one from a count above zero or takes nothing: the count does not pass below zero. */
  lemma ExchangeTakesOne(s: Semaphore, t: Task)
    requires Sound(s) && Legal(s, Exchange(t))
    ensures var s' := Step(s, Exchange(t));
            || (s.count > 0 && s'.count == s.count - 1 && s'.acquired == s.acquired + 1 && PlaceOf(s', t) == Outside)
            || (s'.count == s.count && s'.acquired == s.acquired
                && (PlaceOf(s', t).Expecting? <==> s.count != 0) && (s.count == 0 ==> PlaceOf(s', t) in {Refused, Outside}))
  {
    assert ExpectsSome(s, t);
  }

  /** The steps of a run in which the task takes one. */
  function TakenBy(s: Semaphore, events: seq<Event>, t: Task): nat
    decreases |events|
  {
    if events == [] then 0
    else
      var s1 := Step(s, events[0]);
      (if events[0].task == t && s1.acquired > s.acquired then 1 else 0) + TakenBy(s1, events[1..], t)
  }

  /** Inside a call of `wait`. */
  predicate InWait(s: Semaphore, t: Task) {
    match PlaceOf(s, t)
    case Loading => true
    case Expecting(_, blocking) => blocking
    case Refused => true
    case Waiting => true
    case _ => false
  }

  lemma WaitStep(s: Semaphore, e: Event, t: Task)
    requires Sound(s) && Legal(s, e) && (InWait(s, t) || PlaceOf(s, t) == Outside)
    requires e.task == t ==> e.Load? || e.Exchange? || e.Block?
    ensures var r := Step(s, e);
            && (InWait(r, t) || PlaceOf(r, t) == Outside) && (InWait(r, t) ==> InWait(s, t))
            && (e.task == t && r.acquired > s.acquired <==> InWait(s, t) && !InWait(r, t))
  {
    assert ExpectsSome(s, t);
  }

  /** Over any interleaving in which a task inside `wait` starts no other call, it has taken exactly one when
      the call is over, and none while it is not. */
  lemma {:induction false} WaitTakesOne(s: Semaphore, events: seq<Event>, t: Task)
    requires Sound(s) && LegalRun(s, events) && (InWait(s, t) || PlaceOf(s, t) == Outside)
    requires forall e | e in events && e.task == t :: e.Load? || e.Exchange? || e.Block?
    ensures var r := Run(s, events);
            && (InWait(r, t) || PlaceOf(r, t) == Outside) && (InWait(r, t) ==> InWait(s, t))
            && TakenBy(s, events, t) == if InWait(s, t) && !InWait(r, t) then 1 else 0
    decreases |events|
  {
    if events != [] {
      assert events[0] in events;
      WaitStep(s, events[0], t);
      StepSound(s, events[0]);
      WaitTakesOne(Step(s, events[0]), events[1..], t);
    }
  }

  // ---------- Waking up ----------

  /** Some task will still wake the waiting list. */
  ghost predicate WakeupDue(s: Semaphore) {
    exists t :: PlaceOf(s, t) == Posting
  }

  /** Nobody waits while there is something to take and no wakeup to come. */
  ghost predicate NobodyStranded(s: Semaphore) {
    s.waiting != [] ==> s.count == 0 || WakeupDue(s)
  }

  /** Waiters are kept from being stranded by every step but one: blocking on a zero count that was
      posted to in the meantime, after the wakeup is over. */
  lemma StrandsIff(s: Semaphore, e: Event)
    requires Sound(s) && NobodyStranded(s) && Legal(s, e)
    ensures NobodyStranded(Step(s, e)) <==> !(e.Block? && s.count > 0 && !WakeupDue(s))
  {
    var s' := Step(s, e);
    assert ExpectsSome(s, e.task);
    if t :| PlaceOf(s, t) == Posting {
      assert e.WakeAll? || PlaceOf(s', t) == Posting;
    }
    if e.Add? {
      assert PlaceOf(s', e.task) == Posting;
    }
    if e.Block? && !WakeupDue(s) {
      forall t
        ensures PlaceOf(s', t) != Posting
      {
        assert PlaceOf(s, t) != Posting;
      }
    }
  }

  /** No task of the run blocks beside a positive count after the wakeup is over. */
  ghost predicate NoLateBlock(s: Semaphore, events: seq<Event>)
    decreases |events|
  {
    events == [] || (!(events[0].Block? && s.count > 0 && !WakeupDue(s)) && NoLateBlock(Step(s, events[0]), events[1..]))
  }

  /** A run without such a step ends with nobody stranded. */
  lemma {:induction false} RunStrandsNobody(s: Semaphore, events: seq<Event>)
    requires Sound(s) && NobodyStranded(s) && LegalRun(s, events) && NoLateBlock(s, events)
    ensures NobodyStranded(Run(s, events))
    decreases |events|
  {
    if events != [] {
      StepSound(s, events[0]);
      StrandsIff(s, events[0]);
      RunStrandsNobody(Step(s, events[0]), events[1..]);
    }
  }

  lemma RunOn(s: Semaphore, e: Event, rest: seq<Event>)
    requires Legal(s, e) && LegalRun(Step(s, e), rest)
    ensures LegalRun(s, [e] + rest) && Run(s, [e] + rest) == Run(Step(s, e), rest)
  {
    assert ([e] + rest)[1..] == rest;
  }

  /** Three steps in a row. */
  lemma RunThree(s: Semaphore, e0: Event, e1: Event, e2: Event, rest: seq<Event>)
    requires Legal(s, e0) && Legal(Step(s, e0), e1) && Legal(Step(Step(s, e0), e1), e2)
    requires LegalRun(Step(Step(Step(s, e0), e1), e2), rest)
    ensures LegalRun(s, [e0, e1, e2] + rest)
    ensures Run(s, [e0, e1, e2] + rest) == Run(Step(Step(Step(s, e0), e1), e2), rest)
  {
    RunOn(Step(Step(s, e0), e1), e2, rest);
    RunOn(Step(s, e0), e1, [e2] + rest);
    RunOn(s, e0, [e1] + ([e2] + rest));
    assert [e0, e1, e2] + rest == [e0] + ([e1] + ([e2] + rest));
  }

  /** A task that saw a count of zero; another posts and wakes nobody, the first blocks beside a count of one. */
  lemma LateBlock(s: Semaphore, t: Task, u: Task)
    requires s == Initial(0).(places := map[t := Refused]) && t != u
    ensures var events := [Add(u), WakeAll(u), Block(t)] + [];
            && LegalRun(s, events)
            && Run(s, events).waiting == [t] && Run(s, events).count == 1 && !NobodyStranded(Run(s, events))
  {
    var s3 := Step(Step(Step(s, Add(u)), WakeAll(u)), Block(t));
    RunThree(s, Add(u), WakeAll(u), Block(t), []);
    forall v
      ensures PlaceOf(s3, v) != Posting
    {
    }
  }

  /** The step that strands a waiter is possible. */
  lemma StrandedWaiter(t: Task, u: Task)
    requires t != u
    ensures var events := [StartWait(t), Load(t), Add(u), WakeAll(u), Block(t)];
            && LegalRun(Initial(0), events)
            && Run(Initial(0), events).waiting == [t] && Run(Initial(0), events).count == 1
            && !NobodyStranded(Run(Initial(0), events))
  {
    var s1 := Step(Initial(0), StartWait(t));
    var late := [Add(u), WakeAll(u), Block(t)] + [];
    assert Step(s1, Load(t)) == Initial(0).(places := map[t := Refused]);
    LateBlock(Step(s1, Load(t)), t, u);
    RunOn(s1, Load(t), late);
    RunOn(Initial(0), StartWait(t), [Load(t)] + late);
    assert [StartWait(t), Load(t), Add(u), WakeAll(u), Block(t)] == [StartWait(t)] + ([Load(t)] + late);
  }

  // ---------- The code ----------

  /** Blocking strands the caller exactly beside a positive count with no wakeup due. */
  lemma BlockStrands(s: Semaphore, t: Task)
    requires Legal(s, Block(t))
    ensures NobodyStranded(Step(s, Block(t))) <==> s.count == 0 || WakeupDue(s)
  {
    var s' := Step(s, Block(t));
    if u :| PlaceOf(s, u) == Posting {
      assert PlaceOf(s', u) == Posting;
    }
    if u :| PlaceOf(s', u) == Posting {
      assert PlaceOf(s, u) == Posting;
    }
  }

  /** The semaphore object; each method is one atomic step of the calling task `t`. */
  class SemaphoreObject {
    var count: nat
    /** `m_taskSync.waiting` */
    var waiting: seq<Task>
    var ready: seq<Task>
    ghost var places: map<Task, Place>
    ghost var initial: nat
    ghost var posts: nat
    ghost var acquired: nat

    ghost function View(): Semaphore
      reads this
    {
      Semaphore(count, waiting, ready, places, initial, posts, acquired)
    }

    /** The count is the balance in 32 bits, nobody expects to take from zero, and each waiting task is listed once. */
    ghost predicate Valid()
      reads this
    {
      Sound(View()) && WellListed(View())
    }

    constructor (value: nat)
      requires value <= COUNT_MAX
      ensures Valid() && View() == Initial(value)
    {
      count, waiting, ready, places, initial, posts, acquired := value, [], [], map[], value, 0, 0;
    }

    /** `count()` in `wait`: a zero sends the caller to block, anything else to the exchange, which takes
        one if nobody changed the count in between. */
    method LoadCount(t: Task) returns (curVal: nat)
      requires Valid() && Legal(View(), Load(t))
      modifies this`places
      ensures Valid() && View() == Step(old(View()), Load(t)) && curVal == count
      ensures curVal == 0 <==> Legal(View(), Block(t))
      ensures curVal != 0 <==> Legal(View(), Exchange(t))
      ensures curVal != 0 ==> PlaceOf(View(), t) == Expecting(curVal, true) && PlaceOf(Step(View(), Exchange(t)), t) == Outside
    {
      StepSound(View(), Load(t));
      StepListed(View(), Load(t));
      curVal := count;
      places := places[t := if curVal == 0 then Refused else Expecting(curVal, true)];
    }

    /** `COMPARE_EXCHANGE`; a failure reloads the expected value. */
    method CompareExchange(t: Task, expected: nat) returns (taken: bool, curVal: nat)
      requires Valid() && Legal(View(), Exchange(t)) && PlaceOf(View(), t).value == expected
      modifies this
      ensures Valid() && View() == Step(old(View()), Exchange(t))
      ensures taken <==> old(count) == expected
      ensures taken ==> count == old(count) - 1 && PlaceOf(View(), t) == Outside
      ensures !taken ==> curVal == count == old(count) && (curVal != 0 <==> Legal(View(), Exchange(t)))
    {
      assert ExpectsSome(View(), t);
      StepSound(View(), Exchange(t));
      StepListed(View(), Exchange(t));
      curVal := expected;
      if count == expected {
        count := curVal - 1;
        acquired := acquired + 1;
        places := places[t := Outside];
        taken := true;
      } else {
        curVal := count;
        places := places[t := Seen(curVal, places[t].blocking)];
        taken := false;
      }
    }

    /** `tasks_sync_block`; the call returns when the task has been woken and dispatched. The caller was on
        no list and is the last waiter, and it is stranded exactly beside a positive count with no wakeup due. */
    method SyncBlock(t: Task)
      requires Valid() && Legal(View(), Block(t))
      modifies this
      ensures Valid() && View() == Step(old(View()), Block(t))
      ensures t !in old(waiting) && waiting == old(waiting) + [t]
      ensures NobodyStranded(View()) <==> count == 0 || WakeupDue(old(View()))
    {
      ghost var was := View();
      assert Placed(was, t);
      StepSound(was, Block(t));
      StepListed(was, Block(t));
      waiting := waiting + [t];
      places := places[t := Waiting];
      BlockStrands(was, t);
    }

    /** The first half of `post`: one more may be taken, a wakeup is due, and the count stays exact unless it
        was at its largest. */
    method FetchAdd(t: Task)
      requires Valid() && Legal(View(), Add(t))
      modifies this
      ensures Valid() && View() == Step(old(View()), Add(t))
      ensures Balance(View()) == Balance(old(View())) + 1
      ensures Exact(old(View())) ==> (Exact(View()) <==> old(count) != COUNT_MAX)
      ensures WakeupDue(View()) && NobodyStranded(View())
    {
      ghost var was := View();
      StepSound(was, Add(t));
      StepListed(was, Add(t));
      if Exact(was) {
        ExactUntilOverflow(was, Add(t));
      }
      count := (count + 1) % (COUNT_MAX + 1);
      posts := posts + 1;
      places := places[t := Posting];
      assert PlaceOf(View(), t) == Posting;
    }

    /** The second half of `post`, `tasks_sync_unblock`: the waiting tasks are woken one by one. */
    method SyncUnblock(t: Task)
      requires Valid() && Legal(View(), WakeAll(t))
      modifies this
      ensures Valid() && View() == Step(old(View()), WakeAll(t))
      ensures NobodyStranded(View()) && forall u | u in old(waiting) :: Legal(View(), Load(u))
    {
      ghost var was := View();
      StepSound(was, WakeAll(t));
      StepListed(was, WakeAll(t));
      var left := waiting;
      while left != []
        invariant ready + left == old(ready) + old(waiting)
        invariant View() == old(View()).(ready := ready)
        decreases |left|
      {
        ready := ready + [left[0]];
        left := left[1..];
      }
      waiting := [];
      places := (map u | u in places :: if places[u] == Waiting then Loading else places[u])[t := Outside];
      assert View() == Step(was, WakeAll(t));
      forall u | u in old(waiting)
        ensures Legal(View(), Load(u))
      {
        assert Placed(was, u) && Placed(was, t);
      }
    }

    /** `tryWait` as it runs when no other task steps in between. */
    method TryWaitAlone(t: Task) returns (taken: bool)
      requires Valid() && Legal(View(), TryLoad(t))
      modifies this
      ensures taken <==> old(count) > 0
      ensures count == if taken then old(count) - 1 else old(count)
      ensures PlaceOf(View(), t) == Outside && Valid()
    {
      StepSound(View(), TryLoad(t));
      StepListed(View(), TryLoad(t));
      var curVal := count;
      places := places[t := Seen(curVal, false)];
      if curVal == 0 {
        return false;
      }
      taken, curVal := CompareExchange(t, curVal);
    }
  }
}
