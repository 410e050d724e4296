/** The guards of local statics, Kernel/Support/cxa_guard.cpp: any number of tasks on any number of guards
    through the one shared mutex. The first check is a step, the second check with the store behind it is
    one, the store of a release is one, and so is each step of the mutex. `__cxa_guard_abort` is not part of this model. */
module CxaGuards {
  import M = Mutexes

  type Task = M.Task
  type Guard = int

  datatype GuardWord = GuardWord(initialized: bool, inuse: bool)

  /** Where a task stands in the code. */
  datatype Place =
    | Outside
    /** The first check found the guard not initialised; `cxaGuard.lock()` is next or under way. */
    | Locking(guard: Guard)
    /** The mutex is held, the second check is next. */
    | Checking(guard: Guard)
    /** `__cxa_guard_acquire` returned 1; the initialiser runs. */
    | Constructing(guard: Guard)
    /** `cxaGuard.unlock()` is next or under way; then the call returns, from acquire with 0 or from release. */
    | Unlocking(guard: Guard)
    | Panicked

  /** `ones` are the guards whose acquire returned 1, in order; `zeros` those whose acquire returned 0,
      with what the guard said at that moment. */
  datatype State = State(
    mutex: M.Mutex, guards: map<Guard, GuardWord>, places: map<Task, Place>,
    ones: seq<Guard>, zeros: seq<(Guard, bool)>)

  function PlaceOf(s: State, t: Task): Place {
    if t in s.places then s.places[t] else Outside
  }

  /** Guards are zero before their first use. */
  function WordOf(s: State, g: Guard): GuardWord {
    if g in s.guards then s.guards[g] else GuardWord(false, false)
  }

  function Initial(): State {
    State(M.Initial(), map[], map[], [], [])
  }

  datatype Event =
    | Acquire(task: Task, guard: Guard)
    | MutexStep(step: M.Event)
    | Check(task: Task)
    | Release(task: Task)

  /** The steps of the mutex are those of `lock` in front of the second check, and of `unlock` at the end. */
  predicate Legal(s: State, e: Event) {
    match e
    case Acquire(t, g) => PlaceOf(s, t) == Outside
    case MutexStep(step) =>
      && M.Legal(s.mutex, step)
      && (PlaceOf(s, step.task).Locking? ==> step.Lock? || step.Block?)
      && (PlaceOf(s, step.task).Unlocking? ==> step.Clear? || step.WakeAll?)
      && (PlaceOf(s, step.task).Locking? || PlaceOf(s, step.task).Unlocking?)
    case Check(t) => PlaceOf(s, t).Checking?
    case Release(t) => PlaceOf(s, t).Constructing?
  }

  function Moved(s: State, t: Task, p: Place): State {
    s.(places := s.places[t := p])
  }

  /** Acquire returns 0: the guard is recorded with what it says. */
  function ReturnsZero(s: State, g: Guard): State {
    s.(zeros := s.zeros + [(g, WordOf(s, g).initialized)])
  }

  function Step(s: State, e: Event): State {
    match e
    case Acquire(t, g) =>
      if WordOf(s, g).initialized then ReturnsZero(s, g) else Moved(s, t, Locking(g))
    case MutexStep(step) => AfterMutex(s.(mutex := M.Step(s.mutex, step)), step.task)
    case Check(t) =>
      if !PlaceOf(s, t).Checking? then s
      else
        var g := PlaceOf(s, t).guard;
        if WordOf(s, g).initialized then ReturnsZero(Moved(s, t, Unlocking(g)), g)
        else if WordOf(s, g).inuse then Moved(s, t, Panicked)
        else Moved(s, t, Constructing(g)).(guards := s.guards[g := GuardWord(false, true)], ones := s.ones + [g])
    case Release(t) =>
      if !PlaceOf(s, t).Constructing? then s
      else
        var g := PlaceOf(s, t).guard;
        Moved(s, t, Unlocking(g)).(guards := s.guards[g := GuardWord(true, WordOf(s, g).inuse)])
  }

  /** A task moves on when its call of the mutex is over. */
  function AfterMutex(s: State, t: Task): State {
    var p, m := PlaceOf(s, t), M.PlaceOf(s.mutex, t);
    if p.Locking? && m == M.Holding then Moved(s, t, Checking(p.guard))
    else if p.Unlocking? && m == M.Outside then Moved(s, t, Outside)
    else s
  }

  // ---------- What every step keeps ----------

  /** The two places of a task agree. */
  predicate Agrees(s: State, t: Task) {
    var p, m := PlaceOf(s, t), M.PlaceOf(s.mutex, t);
    match p
    case Outside => m == M.Outside
    case Locking(_) => m in {M.Outside, M.Refused, M.Waiting, M.Woken}
    case Checking(_) => m == M.Holding
    case Constructing(_) => m == M.Holding
    case Unlocking(_) => m in {M.Holding, M.Unlocking}
    case Panicked => false
  }

  /** A guard in use is initialised, or some task is constructing it; and nobody constructs a guard that
      is initialised or not in use. */
  ghost predicate Guarded(s: State, g: Guard) {
    WordOf(s, g).inuse <==> WordOf(s, g).initialized || exists t :: PlaceOf(s, t) == Constructing(g)
  }

  predicate NotYet(s: State, t: Task) {
    PlaceOf(s, t).Constructing? ==> !WordOf(s, PlaceOf(s, t).guard).initialized
  }

  /** Acquire has returned 1 for a guard once if the guard is in use, and never otherwise. */
  predicate OnceOnly(s: State, g: Guard) {
    Count(s.ones, g) == if WordOf(s, g).inuse then 1 else 0
  }

  function Count(gs: seq<Guard>, g: Guard): nat {
    if gs == [] then 0 else Count(gs[..|gs| - 1], g) + if gs[|gs| - 1] == g then 1 else 0
  }

  predicate SawIt(s: State, i: int) {
    0 <= i < |s.zeros| ==> s.zeros[i].1 && WordOf(s, s.zeros[i].0).initialized
  }

  ghost predicate Sound(s: State) {
    && M.Sound(s.mutex) && M.WellListed(s.mutex)
    && (forall t :: Agrees(s, t)) && (forall t :: NotYet(s, t))
    && (forall g :: Guarded(s, g)) && (forall g :: OnceOnly(s, g))
    && (forall i :: SawIt(s, i))
  }

  /** A step of the mutex moves its own task, and of the others only the waiting ones. */
  lemma MutexMoves(m: M.Mutex, step: M.Event, u: Task)
    requires M.Legal(m, step) && u != step.task
    ensures var was, now := M.PlaceOf(m, u), M.PlaceOf(M.Step(m, step), u);
            now == was || (was == M.Waiting && now == M.Woken)
  {
  }

  lemma MutexStepSound(s: State, step: M.Event)
    requires Sound(s) && Legal(s, MutexStep(step))
    ensures Sound(Step(s, MutexStep(step)))
  {
    var t, s' := step.task, Step(s, MutexStep(step));
    M.StepSound(s.mutex, step);
    M.StepListed(s.mutex, step);
    forall u
      ensures Agrees(s', u) && NotYet(s', u)
    {
      assert Agrees(s, u) && NotYet(s, u);
      if u != t {
        MutexMoves(s.mutex, step, u);
      }
    }
    forall g
      ensures Guarded(s', g) && OnceOnly(s', g)
    {
      assert Guarded(s, g) && OnceOnly(s, g);
      SameConstructors(s, s', t, g);
    }
    forall i
      ensures SawIt(s', i)
    {
      assert SawIt(s, i);
    }
  }

  /** Constructors are unchanged when the only task that moves was and is none. */
  lemma SameConstructors(s: State, s': State, t: Task, g: Guard)
    requires forall u :: u != t ==> PlaceOf(s', u) == PlaceOf(s, u)
    requires PlaceOf(s, t) != Constructing(g) && PlaceOf(s', t) != Constructing(g)
    ensures (exists u :: PlaceOf(s, u) == Constructing(g)) <==> (exists u :: PlaceOf(s', u) == Constructing(g))
  {
    if u :| PlaceOf(s, u) == Constructing(g) {
      assert PlaceOf(s', u) == Constructing(g);
    }
    if u :| PlaceOf(s', u) == Constructing(g) {
      assert PlaceOf(s, u) == Constructing(g);
    }
  }

  lemma AcquireSound(s: State, t: Task, g: Guard)
    requires Sound(s) && Legal(s, Acquire(t, g))
    ensures Sound(Step(s, Acquire(t, g)))
  {
    var s' := Step(s, Acquire(t, g));
    forall u
      ensures Agrees(s', u) && NotYet(s', u)
    {
      assert Agrees(s, u) && NotYet(s, u);
    }
    forall h
      ensures Guarded(s', h) && OnceOnly(s', h)
    {
      assert Guarded(s, h) && OnceOnly(s, h);
      SameConstructors(s, s', t, h);
    }
    forall i
      ensures SawIt(s', i)
    {
      assert SawIt(s, i);
    }
  }

  /** The second check never finds the guard in the bad state: a guard in use and not initialised has a
      constructor, which holds the mutex the checking task holds. */
  lemma NoBadState(s: State, t: Task)
    requires Sound(s) && Legal(s, Check(t))
    ensures Step(s, Check(t)).places[t] != Panicked
    ensures WordOf(s, PlaceOf(s, t).guard).inuse <==> WordOf(s, PlaceOf(s, t).guard).initialized
  {
    var g := PlaceOf(s, t).guard;
    assert Guarded(s, g) && Agrees(s, t);
    forall u
      ensures PlaceOf(s, u) != Constructing(g)
    {
      assert Agrees(s, u) && M.Exclusive(s.mutex, t, u);
    }
  }

  /** While a task checks, nobody constructs. */
  lemma NobodyElse(s: State, t: Task)
    requires Sound(s) && PlaceOf(s, t).Checking?
    ensures forall u :: !PlaceOf(s, u).Constructing?
  {
    forall u
      ensures !PlaceOf(s, u).Constructing?
    {
      assert Agrees(s, t) && Agrees(s, u) && M.Exclusive(s.mutex, t, u);
    }
  }

  lemma CheckSound(s: State, t: Task)
    requires Sound(s) && Legal(s, Check(t))
    ensures Sound(Step(s, Check(t)))
  {
    var s', g := Step(s, Check(t)), PlaceOf(s, t).guard;
    NoBadState(s, t);
    forall u
      ensures Agrees(s', u) && NotYet(s', u)
    {
      assert Agrees(s, u) && NotYet(s, u);
    }
    forall h
      ensures Guarded(s', h) && OnceOnly(s', h)
    {
      assert Guarded(s, h) && OnceOnly(s, h);
      assert s'.ones == s.ones || s'.ones[..|s'.ones| - 1] == s.ones;
      if PlaceOf(s', t) != Constructing(h) {
        SameConstructors(s, s', t, h);
      }
    }
    forall i
      ensures SawIt(s', i)
    {
      assert SawIt(s, i);
    }
  }

  lemma ReleaseSound(s: State, t: Task)
    requires Sound(s) && Legal(s, Release(t))
    ensures Sound(Step(s, Release(t)))
  {
    var s', g := Step(s, Release(t)), PlaceOf(s, t).guard;
    assert Agrees(s, t);
    forall u
      ensures Agrees(s', u) && NotYet(s', u)
    {
      assert Agrees(s, u) && NotYet(s, u) && M.Exclusive(s.mutex, t, u);
    }
    forall h
      ensures Guarded(s', h) && OnceOnly(s', h)
    {
      assert Guarded(s, h) && OnceOnly(s, h);
      if h != g {
        SameConstructors(s, s', t, h);
      }
    }
    forall i
      ensures SawIt(s', i)
    {
      assert SawIt(s, i);
    }
  }

  lemma StepSound(s: State, e: Event)
    requires Sound(s) && Legal(s, e)
    ensures Sound(Step(s, e))
  {
    match e
    case Acquire(t, g) => AcquireSound(s, t, g);
    case MutexStep(step) => MutexStepSound(s, step);
    case Check(t) => CheckSound(s, t);
    case Release(t) => ReleaseSound(s, t);
  }

  predicate LegalRun(s: State, events: seq<Event>)
    decreases |events|
  {
    events == [] || (Legal(s, events[0]) && LegalRun(Step(s, events[0]), events[1..]))
  }

  function Run(s: State, events: seq<Event>): State
    decreases |events|
  {
    if events == [] then s else Run(Step(s, events[0]), events[1..])
  }

  lemma {:induction false} RunSound(s: State, events: seq<Event>)
    requires Sound(s) && LegalRun(s, events)
    ensures Sound(Run(s, events))
    decreases |events|
  {
    if events != [] {
      StepSound(s, events[0]);
      RunSound(Step(s, events[0]), events[1..]);
    }
  }

  /** An initialised guard stays so: whoever acquires it later gets 0. */
  lemma {:induction false} InitialisedForGood(s: State, events: seq<Event>, g: Guard)
    requires LegalRun(s, events) && WordOf(s, g).initialized
    ensures WordOf(Run(s, events), g).initialized
    decreases |events|
  {
    if events != [] {
      InitialisedForGood(Step(s, events[0]), events[1..], g);
    }
  }

  /** One-time construction: acquire returns 1 at most once per guard, every return of 0 saw the guard
      initialised, no task ever panics, and no two tasks run initialisers at the same time. */
  lemma OneTimeConstruction(events: seq<Event>, g: Guard, i: nat, t: Task, u: Task)
    requires LegalRun(Initial(), events)
    ensures var s := Run(Initial(), events);
            && Count(s.ones, g) <= 1
            && (i < |s.zeros| ==> s.zeros[i].1)
            && !PlaceOf(s, t).Panicked?
            && (PlaceOf(s, t).Constructing? && PlaceOf(s, u).Constructing? ==> t == u)
  {
    RunSound(Initial(), events);
    var s := Run(Initial(), events);
    assert OnceOnly(s, g) && SawIt(s, i) && Agrees(s, t) && Agrees(s, u) && M.Exclusive(s.mutex, t, u);
  }

  // ---------- The code ----------

  /** What `__cxa_guard_acquire` does after a check. */
  datatype Answer = Zero | One | GoOn

  /** The guards in memory; each method is one stretch of the calling task `t` between two calls of the mutex. */
  class GuardTable {
    var guards: map<Guard, GuardWord>
    ghost var mutex: M.Mutex
    ghost var places: map<Task, Place>
    ghost var ones: seq<Guard>
    ghost var zeros: seq<(Guard, bool)>

    ghost function View(): State
      reads this
    {
      State(mutex, guards, places, ones, zeros)
    }

    /** A guard in use is initialised or has one constructor, which holds the mutex. */
    ghost predicate Valid()
      reads this
    {
      Sound(View())
    }

    function Load(g: Guard): GuardWord
      reads this`guards
    {
      if g in guards then guards[g] else GuardWord(false, false)
    }

    /** `__cxa_guard_acquire` up to the lock. */
    method FirstCheck(t: Task, g: Guard) returns (answer: Answer)
      requires Valid() && Legal(View(), Acquire(t, g))
      modifies this
      ensures Valid() && View() == Step(old(View()), Acquire(t, g))
      ensures answer == if old(Load(g)).initialized then Zero else GoOn
    {
      AcquireSound(View(), t, g);
      if Load(g).initialized {
        zeros := zeros + [(g, true)];
        return Zero;
      }
      places := places[t := Locking(g)];
      return GoOn;
    }

    /** The rest, with the mutex held; before it returns 0 the mutex is given back. It never panics, and it
        returns 1 to one caller alone. */
    method SecondCheck(t: Task, g: Guard) returns (answer: Answer)
      requires Valid() && Legal(View(), Check(t)) && PlaceOf(View(), t) == Checking(g)
      modifies this
      ensures Valid() && View() == Step(old(View()), Check(t))
      ensures answer == if old(Load(g)).initialized then Zero else One
      ensures answer == One ==> forall u :: PlaceOf(View(), u) == Constructing(g) <==> u == t
    {
      ghost var was := View();
      NoBadState(was, t);
      NobodyElse(was, t);
      CheckSound(was, t);
      if Load(g).initialized {
        zeros := zeros + [(g, true)];
        places := places[t := Unlocking(g)];
        return Zero;
      }
      if Load(g).inuse {
        // the panic of the original
        assert false;
      }
      guards := guards[g := Load(g).(inuse := true)];
      ones := ones + [g];
      places := places[t := Constructing(g)];
      forall u
        ensures PlaceOf(View(), u) == Constructing(g) <==> u == t
      {
        assert !PlaceOf(was, u).Constructing?;
      }
      return One;
    }

    /** `__cxa_guard_release` up to the unlock: the guard is initialised, nobody constructs it any more, and
        every check from now on answers 0. */
    method SetInitialized(t: Task, g: Guard)
      requires Valid() && Legal(View(), Release(t)) && PlaceOf(View(), t) == Constructing(g)
      modifies this
      ensures Valid() && View() == Step(old(View()), Release(t))
      ensures forall h :: Load(h).initialized <==> h == g || old(Load(h)).initialized
      ensures forall u :: PlaceOf(View(), u) != Constructing(g)
    {
      ReleaseSound(View(), t);
      guards := guards[g := Load(g).(initialized := true)];
      places := places[t := Unlocking(g)];
      assert View() == Step(old(View()), Release(t));
      forall u
        ensures PlaceOf(View(), u) != Constructing(g)
      {
        assert NotYet(View(), u);
      }
    }
  }
}
