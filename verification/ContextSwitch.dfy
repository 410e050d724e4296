/** The context switch of Kernel/Arch/i686/Assembly/tasks.s on a machine with registers and word memory,
    and the first stack of a task, Kernel/Scheduler/tasks.cpp. Every task has one page of stack. */
module ContextSwitch {
  import opened TaskLists
  import Spec = SchedulerSpec

  type Address = int

  const STACK_BYTES: int := 4096
  /** The code addresses of `_task_starting` and `_task_stopping`. */
  const STARTING: Address := 1
  const STOPPING: Address := 2

  /** The registers a C function finds unchanged after a call, with the stack pointer and the
      instruction pointer. */
  datatype Registers = Registers(esp: Address, ebx: int, esi: int, edi: int, ebp: int, eip: Address)

  /** Memory by the addresses of aligned words. `base` is where the stack page of each task lies that has
      one, `enqueued` are the tasks handed to `_tasks_enqueue_ready`. */
  datatype Machine = Machine(
    memory: map<Address, int>, base: map<Task, Address>, stackTop: map<Task, Address>, state: map<Task, TaskState>,
    pageDir: map<Task, Address>, regs: Registers, current: Task, cr3: Address, enqueued: seq<Task>)

  function WordAt(memory: map<Address, int>, a: Address): int {
    if a in memory then memory[a] else 0
  }

  function Load(m: Machine, a: Address): int {
    WordAt(m.memory, a)
  }

  /** The word a task is stacked at. */
  function TopOf(m: Machine, t: Task): Address {
    if t in m.stackTop then m.stackTop[t] else 0
  }

  /** What a task that is not running will find in its registers: four words popped, then the return. */
  function Saved(m: Machine, t: Task): Registers {
    Popped(m.memory, TopOf(m, t))
  }

  function Popped(memory: map<Address, int>, top: Address): Registers {
    Registers(top + 20, WordAt(memory, top + 12), WordAt(memory, top + 8), WordAt(memory, top + 4), WordAt(memory, top),
              WordAt(memory, top + 16))
  }

  /** Memory after the four registers are pushed. */
  function Pushed(memory: map<Address, int>, r: Registers): map<Address, int> {
    memory[r.esp - 4 := r.ebx][r.esp - 8 := r.esi][r.esp - 12 := r.edi][r.esp - 16 := r.ebp]
  }

  /** What the caller of `tasks_switch_to` must find when the call returns: its registers, with the
      argument still on the stack. */
  function AfterCall(r: Registers, ret: Address): Registers {
    r.(esp := r.esp - 4, eip := ret)
  }

  /** The caller passes `next` on the stack and calls. */
  function Call(m: Machine, next: Task, ret: Address): Machine {
    var esp := m.regs.esp;
    m.(memory := m.memory[esp - 4 := next][esp - 8 := ret], regs := m.regs.(esp := esp - 8))
  }

  /** Four registers of the running task go on its stack, and its stack pointer into its block. */
  function Stacked(m: Machine): Machine {
    var top := m.regs.esp - 16;
    m.(memory := Pushed(m.memory, m.regs), stackTop := m.stackTop[m.current := top],
       regs := m.regs.(esp := top, edi := m.current))
  }

  /** If the task was running it becomes ready and is enqueued; `scratch` is what that call leaves below the
      stack pointer. */
  function Requeued(m: Machine, scratch: map<Address, int>): Machine {
    var t := m.current;
    if t in m.state && m.state[t] == Running then
      m.(memory := m.memory[m.regs.esp - 4 := t] + scratch, state := m.state[t := Ready], enqueued := m.enqueued + [t])
    else m
  }

  /** The running task is put away. */
  function PutAway(m: Machine, scratch: map<Address, int>): Machine {
    Requeued(Stacked(m), scratch)
  }

  function TakeUp(m: Machine, next: Task): Machine {
    m.(current := next, state := m.state[next := Running], regs := Saved(m, next),
       cr3 := if next in m.pageDir then m.pageDir[next] else 0)
  }

  /** The whole switch as its callers see it. */
  function Switch(m: Machine, next: Task, ret: Address, scratch: map<Address, int>): Machine {
    TakeUp(PutAway(Call(m, next, ret), scratch), next)
  }

  /** The stack that `tasks_new` builds on the page at `base`. */
  function NewTask(m: Machine, t: Task, base: Address, entry: Address, pages: Address, state: TaskState): Machine {
    var end := base + STACK_BYTES;
    m.(memory := m.memory[end - 4 := 0][end - 8 := STOPPING][end - 12 := entry][end - 16 := STARTING]
                         [end - 20 := 0][end - 24 := 0][end - 28 := 0][end - 32 := 0],
       base := m.base[t := base], stackTop := m.stackTop[t := end - 32], pageDir := m.pageDir[t := pages],
       state := m.state[t := state])
  }

  /** The cleaner gives back a task's stack page and its block. */
  function Release(m: Machine, t: Task): Machine {
    m.(base := m.base - {t}, stackTop := m.stackTop - {t}, pageDir := m.pageDir - {t}, state := m.state - {t})
  }

  /** Any code of the running task: it may change its registers and memory. */
  function Work(m: Machine, regs: Registers, writes: map<Address, int>): Machine {
    m.(regs := regs, memory := m.memory + writes)
  }

  /** The `ret` instruction. */
  function Ret(m: Machine): Machine {
    m.(regs := m.regs.(eip := Load(m, m.regs.esp), esp := m.regs.esp + 4))
  }

  // ---------- Runs ----------

  datatype Event =
    | SwitchTo(next: Task, ret: Address, scratch: map<Address, int>)
    | Compute(regs: Registers, writes: map<Address, int>)
    | Create(task: Task, base: Address, entry: Address, pages: Address, state: TaskState)
    | Free(task: Task)

  predicate InPage(base: Address, a: Address) {
    base <= a < base + STACK_BYTES
  }

  /** The word lies on the stack page of the task. */
  predicate OnStack(m: Machine, t: Task, a: Address) {
    t in m.base && InPage(m.base[t], a)
  }

  /** The task has a stack page, and no word of it lies on the stack page of another task. */
  ghost predicate Apart(m: Machine, t: Task) {
    t in m.base && forall u, a :: u != t && OnStack(m, t, a) ==> !OnStack(m, u, a)
  }

  function Step(m: Machine, e: Event): Machine {
    match e
    case SwitchTo(next, ret, scratch) => Switch(m, next, ret, scratch)
    case Compute(regs, writes) => Work(m, regs, writes)
    case Create(t, base, entry, pages, state) => NewTask(m, t, base, entry, pages, state)
    case Free(t) => Release(m, t)
  }

  /** A task switches with room on its stack, writes to no other task's stack, and creates a task on a page
      that is nobody's stack at the time. */
  ghost predicate Legal(m: Machine, e: Event) {
    match e
    case SwitchTo(next, ret, scratch) =>
      && next in m.stackTop && m.current in m.base
      && m.base[m.current] + 28 <= m.regs.esp <= m.base[m.current] + STACK_BYTES
      && forall a :: a in scratch ==> m.base[m.current] <= a < m.regs.esp - 24
    case Compute(regs, writes) => forall u, a :: u != m.current && a in writes ==> !OnStack(m, u, a)
    case Create(t, base, entry, pages, state) =>
      t != m.current && t !in m.base && forall u, a :: OnStack(m, u, a) ==> !InPage(base, a)
    case Free(t) => t != m.current
  }

  /** The step leaves task t where it is: it neither runs it nor gives it back. */
  predicate Spares(e: Event, t: Task) {
    match e
    case SwitchTo(next, ret, scratch) => next != t
    case Free(u) => u != t
    case _ => true
  }

  /** A sequence of legal steps during which task t does not run. */
  ghost predicate Absent(m: Machine, events: seq<Event>, t: Task)
    decreases |events|
  {
    events == [] ||
    (m.current != t && Legal(m, events[0]) && Spares(events[0], t) && Absent(Step(m, events[0]), events[1..], t))
  }

  function Run(m: Machine, events: seq<Event>): Machine
    decreases |events|
  {
    if events == [] then m else Run(Step(m, events[0]), events[1..])
  }

  /** A switch writes to the stack of the running task and nowhere else. */
  lemma SwitchWritesOwnStack(m: Machine, next: Task, ret: Address, scratch: map<Address, int>, a: Address)
    requires Legal(m, SwitchTo(next, ret, scratch)) && !OnStack(m, m.current, a)
    ensures Load(Switch(m, next, ret, scratch), a) == Load(m, a)
  {
  }

  lemma SwitchMovesNoStack(m: Machine, next: Task, ret: Address, scratch: map<Address, int>, t: Task)
    requires t != m.current
    ensures Switch(m, next, ret, scratch).base == m.base && Switch(m, next, ret, scratch).current == next
    ensures TopOf(Switch(m, next, ret, scratch), t) == TopOf(m, t)
  {
  }

  /** A step that spares t leaves its whole stack and its place on it alone, and its page to it alone. */
  lemma StepSpares(m: Machine, e: Event, t: Task, a: Address)
    requires Apart(m, t) && Legal(m, e) && Spares(e, t) && m.current != t
    ensures var r := Step(m, e);
            && r.current != t && Apart(r, t) && r.base[t] == m.base[t] && TopOf(r, t) == TopOf(m, t)
            && (OnStack(m, t, a) ==> Load(r, a) == Load(m, a))
  {
    match e
    case SwitchTo(next, ret, scratch) =>
      SwitchMovesNoStack(m, next, ret, scratch, t);
      if OnStack(m, t, a) {
        SwitchWritesOwnStack(m, next, ret, scratch, a);
      }
      SameApart(m, Step(m, e), t);
    case Compute(regs, writes) => SameApart(m, Step(m, e), t);
    case Create(u, base, entry, pages, state) => CreateSpares(m, u, base, entry, pages, state, t, a);
    case Free(u) => SameApart(m, Step(m, e), t);
  }

  lemma SameApart(m: Machine, r: Machine, t: Task)
    requires Apart(m, t) && t in r.base && r.base[t] == m.base[t]
    requires forall u :: u in r.base ==> u in m.base && r.base[u] == m.base[u]
    ensures Apart(r, t)
  {
    forall u, a | u != t && OnStack(r, t, a)
      ensures !OnStack(r, u, a)
    {
      assert OnStack(m, t, a) && !OnStack(m, u, a);
    }
  }

  lemma CreateSpares(m: Machine, u: Task, base: Address, entry: Address, pages: Address, state: TaskState,
                     t: Task, a: Address)
    requires Apart(m, t) && Legal(m, Create(u, base, entry, pages, state))
    ensures var r := NewTask(m, u, base, entry, pages, state);
            && Apart(r, t) && r.base[t] == m.base[t] && TopOf(r, t) == TopOf(m, t)
            && (OnStack(m, t, a) ==> Load(r, a) == Load(m, a))
  {
    var r := NewTask(m, u, base, entry, pages, state);
    forall v, b | v != t && OnStack(r, t, b)
      ensures !OnStack(r, v, b)
    {
      assert OnStack(m, t, b) && !OnStack(m, v, b);
    }
    if OnStack(m, t, a) {
      assert !InPage(base, a);
      NewTaskWrites(m, u, base, entry, pages, state, a);
    }
  }

  lemma NewTaskWrites(m: Machine, t: Task, base: Address, entry: Address, pages: Address, state: TaskState, a: Address)
    requires !InPage(base, a)
    ensures Load(NewTask(m, t, base, entry, pages, state), a) == Load(m, a)
  {
  }

  lemma {:induction false} RunSpares(m: Machine, events: seq<Event>, t: Task, a: Address)
    requires Apart(m, t) && Absent(m, events, t) && m.current != t
    ensures var r := Run(m, events);
            && r.current != t && Apart(r, t) && r.base[t] == m.base[t] && TopOf(r, t) == TopOf(m, t)
            && (OnStack(m, t, a) ==> Load(r, a) == Load(m, a))
    decreases |events|
  {
    if events != [] {
      StepSpares(m, events[0], t, a);
      RunSpares(Step(m, events[0]), events[1..], t, a);
    }
  }

  lemma SamePopped(memory: map<Address, int>, memory': map<Address, int>, top: Address)
    requires forall a :: top <= a < top + 20 ==> WordAt(memory', a) == WordAt(memory, a)
    ensures Popped(memory', top) == Popped(memory, top)
  {
    assert WordAt(memory', top) == WordAt(memory, top) && WordAt(memory', top + 4) == WordAt(memory, top + 4);
    assert WordAt(memory', top + 8) == WordAt(memory, top + 8) && WordAt(memory', top + 12) == WordAt(memory, top + 12);
    assert WordAt(memory', top + 16) == WordAt(memory, top + 16);
  }

  /** The four pops and the return undo the four pushes. */
  lemma PoppedPushed(memory: map<Address, int>, r: Registers)
    ensures Popped(Pushed(memory, r), r.esp - 16) == r.(esp := r.esp + 4, eip := WordAt(memory, r.esp))
  {
  }

  /** What a task that is put away finds again, whatever the call of the enqueue leaves below. */
  lemma PutAwaySaves(m: Machine, scratch: map<Address, int>)
    requires forall a :: a in scratch ==> a < m.regs.esp - 16
    ensures Popped(PutAway(m, scratch).memory, m.regs.esp - 16)
         == m.regs.(esp := m.regs.esp + 4, eip := Load(m, m.regs.esp))
    ensures TopOf(PutAway(m, scratch), m.current) == m.regs.esp - 16
  {
    PoppedPushed(m.memory, m.regs);
    SamePopped(Pushed(m.memory, m.regs), PutAway(m, scratch).memory, m.regs.esp - 16);
  }

  /** The switch away saves exactly what the caller must find again. */
  lemma SwitchSaves(m: Machine, next: Task, ret: Address, scratch: map<Address, int>)
    requires Legal(m, SwitchTo(next, ret, scratch))
    ensures Saved(Switch(m, next, ret, scratch), m.current) == AfterCall(m.regs, ret)
    ensures TopOf(Switch(m, next, ret, scratch), m.current) == m.regs.esp - 24
  {
    PutAwaySaves(Call(m, next, ret), scratch);
  }

  /** A switch to another task loads what was saved for it. */
  lemma SwitchLoads(m: Machine, next: Task, ret: Address, scratch: map<Address, int>)
    requires Apart(m, next) && Legal(m, SwitchTo(next, ret, scratch)) && next != m.current
    requires m.base[next] <= TopOf(m, next) && TopOf(m, next) + 20 <= m.base[next] + STACK_BYTES
    ensures Switch(m, next, ret, scratch).regs == Saved(m, next)
  {
    var top, away := TopOf(m, next), PutAway(Call(m, next, ret), scratch);
    forall a | top <= a < top + 20
      ensures WordAt(away.memory, a) == WordAt(m.memory, a)
    {
      assert OnStack(m, next, a);
      SwitchWritesOwnStack(m, next, ret, scratch, a);
    }
    SwitchMovesNoStack(m, next, ret, scratch, next);
    SamePopped(m.memory, away.memory, top);
  }

  /** Round trip: a task that switches away and is switched to again, after any run of other tasks, in which
      tasks may be created and stack pages given back and used again, returns from its call with its stack
      pointer and its registers. */
  lemma RoundTrip(m: Machine, next: Task, ret: Address, scratch: map<Address, int>,
                  events: seq<Event>, back: Address, scratch': map<Address, int>)
    requires Apart(m, m.current) && Legal(m, SwitchTo(next, ret, scratch)) && next != m.current
    requires var away := Switch(m, next, ret, scratch);
             Absent(away, events, m.current) && Legal(Run(away, events), SwitchTo(m.current, back, scratch'))
    ensures var again := Switch(Run(Switch(m, next, ret, scratch), events), m.current, back, scratch');
            again.current == m.current && again.regs == AfterCall(m.regs, ret)
  {
    SwitchSaves(m, next, ret, scratch);
    SwitchedApart(m, next, ret, scratch);
    Resumed(Switch(m, next, ret, scratch), m.current, events, back, scratch');
  }

  lemma SwitchedApart(m: Machine, next: Task, ret: Address, scratch: map<Address, int>)
    requires Apart(m, m.current)
    ensures var away := Switch(m, next, ret, scratch);
            Apart(away, m.current) && away.base == m.base && away.current == next
  {
    SameApart(m, Switch(m, next, ret, scratch), m.current);
  }

  /** It also finds its stack as it was when it called. */
  lemma RoundTripStack(m: Machine, next: Task, ret: Address, scratch: map<Address, int>,
                       events: seq<Event>, back: Address, scratch': map<Address, int>, a: Address)
    requires Apart(m, m.current) && Legal(m, SwitchTo(next, ret, scratch)) && next != m.current
    requires var away := Switch(m, next, ret, scratch);
             Absent(away, events, m.current) && Legal(Run(away, events), SwitchTo(m.current, back, scratch'))
    requires m.regs.esp <= a < m.base[m.current] + STACK_BYTES
    ensures var again := Switch(Run(Switch(m, next, ret, scratch), events), m.current, back, scratch');
            Load(again, a) == Load(m, a)
  {
    SwitchSaves(m, next, ret, scratch);
    SwitchKeepsCallers(m, next, ret, scratch, a);
    SwitchedApart(m, next, ret, scratch);
    var away := Switch(m, next, ret, scratch);
    assert OnStack(away, m.current, a);
    Resumed(away, m.current, events, back, scratch');
  }

  lemma SwitchKeepsCallers(m: Machine, next: Task, ret: Address, scratch: map<Address, int>, a: Address)
    requires Legal(m, SwitchTo(next, ret, scratch)) && m.regs.esp <= a
    ensures Load(Switch(m, next, ret, scratch), a) == Load(m, a)
  {
  }

  /** A task put away, the others running for a while, and taken up again. */
  lemma Resumed(away: Machine, t: Task, events: seq<Event>, back: Address, scratch: map<Address, int>)
    requires Apart(away, t) && Absent(away, events, t) && away.current != t
    requires away.base[t] <= TopOf(away, t) && TopOf(away, t) + 20 <= away.base[t] + STACK_BYTES
    requires Legal(Run(away, events), SwitchTo(t, back, scratch))
    ensures var again := Switch(Run(away, events), t, back, scratch);
            && again.current == t && again.regs == Saved(away, t)
            && forall a :: OnStack(away, t, a) ==> Load(again, a) == Load(away, a)
  {
    var before := Run(away, events);
    forall a | OnStack(away, t, a)
      ensures Load(before, a) == Load(away, a) && Load(Switch(before, t, back, scratch), a) == Load(away, a)
    {
      RunSpares(away, events, t, a);
      SwitchWritesOwnStack(before, t, back, scratch, a);
    }
    RunSpares(away, events, t, 0);
    SavedKept(away, before, t);
    SwitchLoads(before, t, back, scratch);
  }

  /** What a task will find in its registers stays while its stack does. */
  lemma SavedKept(away: Machine, before: Machine, t: Task)
    requires t in away.base && TopOf(before, t) == TopOf(away, t)
    requires away.base[t] <= TopOf(away, t) && TopOf(away, t) + 20 <= away.base[t] + STACK_BYTES
    requires forall a :: OnStack(away, t, a) ==> Load(before, a) == Load(away, a)
    ensures Saved(before, t) == Saved(away, t)
  {
    var top := TopOf(away, t);
    forall a | top <= a < top + 20
      ensures WordAt(before.memory, a) == WordAt(away.memory, a)
    {
      assert OnStack(away, t, a);
      assert Load(before, a) == Load(away, a);
    }
    SamePopped(away.memory, before.memory, top);
  }

  /** The idle task switching to itself returns at once. */
  lemma SelfSwitch(m: Machine, ret: Address, scratch: map<Address, int>)
    requires Legal(m, SwitchTo(m.current, ret, scratch))
    ensures Switch(m, m.current, ret, scratch).regs == AfterCall(m.regs, ret)
  {
    SwitchSaves(m, m.current, ret, scratch);
  }

  // ---------- Who runs and who is ready ----------

  /** A switch makes the next task the running one, under its own page directory. The previous task is enqueued
      exactly when it was running. */
  lemma SwitchRuns(m: Machine, next: Task, ret: Address, scratch: map<Address, int>)
    requires m.current in m.state && next in m.pageDir
    ensures var r, t := Switch(m, next, ret, scratch), m.current;
            && r.current == next && r.cr3 == m.pageDir[next] && next in r.state && r.state[next] == Running
            && r.enqueued == if m.state[t] == Running then m.enqueued + [t] else m.enqueued
  {
  }

  /** The previous task, if it was running, becomes ready; if it blocked, slept or stopped it stays as it was,
      and so do all others. */
  lemma SwitchRequeues(m: Machine, next: Task, ret: Address, scratch: map<Address, int>, u: Task)
    requires m.current in m.state && u != next
    ensures var r := Switch(m, next, ret, scratch);
            && (u in r.state <==> u in m.state)
            && (u in m.state ==> r.state[u] == if u == m.current && m.state[u] == Running then Ready else m.state[u])
  {
  }

  /** The ready list after the tasks of q have been enqueued. */
  function Joining(ready: seq<Task>, q: seq<Task>): seq<Task> {
    if q == [] then ready else Enqueued(Joining(ready, q[..|q| - 1]), q[|q| - 1])
  }

  /** The machine shows the state of the scheduler: the same task is current, the states are the same, and the
      tasks enqueued so far have joined the list that was `ready`. */
  predicate Shows(m: Machine, s: Spec.Sched, ready: seq<Task>) {
    s.current == Spec.Some(m.current) && s.state == m.state && s.ready == Joining(ready, m.enqueued)
  }

  /** The instructions do to tasks and ready list what the scheduler's switch does. */
  lemma SwitchIsScheduled(m: Machine, next: Task, ret: Address, scratch: map<Address, int>, s: Spec.Sched,
                          ready: seq<Task>)
    requires Shows(m, s, ready) && m.current in m.state
    ensures Shows(Switch(m, next, ret, scratch), Spec.SwitchTo(s, next), ready)
  {
    assert (m.enqueued + [m.current])[..|m.enqueued|] == m.enqueued;
  }

  // ---------- A new task ----------

  /** Code that returns: the stack pointer is back, and nothing above it was written. */
  predicate Balanced(m: Machine, regs: Registers, writes: map<Address, int>) {
    regs.esp == m.regs.esp && forall a :: a in writes ==> a < m.regs.esp
  }

  /** The first switch to a new task, however late it comes, starts it in `_task_starting`, above which
      wait the entry, `_task_stopping` and the end of the chain of frames. */
  lemma FirstSwitch(m: Machine, t: Task, base: Address, entry: Address, pages: Address, state: TaskState,
                    events: seq<Event>, ret: Address, scratch: map<Address, int>)
    requires Legal(m, Create(t, base, entry, pages, state))
    requires var made := NewTask(m, t, base, entry, pages, state);
             Absent(made, events, t) && Legal(Run(made, events), SwitchTo(t, ret, scratch))
    ensures var end := base + STACK_BYTES;
            var first := Switch(Run(NewTask(m, t, base, entry, pages, state), events), t, ret, scratch);
            && first.regs == Registers(end - 12, 0, 0, 0, 0, STARTING)
            && Load(first, end - 12) == entry && Load(first, end - 8) == STOPPING && Load(first, end - 4) == 0
  {
    var made, end := NewTask(m, t, base, entry, pages, state), base + STACK_BYTES;
    NewStack(m, t, base, entry, pages, state);
    forall u, a | u != t && OnStack(made, t, a)
      ensures !OnStack(made, u, a)
    {
      assert OnStack(made, u, a) ==> OnStack(m, u, a);
    }
    assert OnStack(made, t, end - 12) && OnStack(made, t, end - 8) && OnStack(made, t, end - 4);
    Resumed(made, t, events, ret, scratch);
  }

  lemma NewStack(m: Machine, t: Task, base: Address, entry: Address, pages: Address, state: TaskState)
    ensures var made, end := NewTask(m, t, base, entry, pages, state), base + STACK_BYTES;
            && made.current == m.current && made.base == m.base[t := base]
            && made.pageDir == m.pageDir[t := pages] && made.state == m.state[t := state]
            && TopOf(made, t) == end - 32 && Saved(made, t) == Registers(end - 12, 0, 0, 0, 0, STARTING)
            && Load(made, end - 12) == entry && Load(made, end - 8) == STOPPING && Load(made, end - 4) == 0
  {
  }

  /** From there the code returns into the entry, and the entry into `_task_stopping`. */
  lemma StartsThenStops(m: Machine, entry: Address, r1: Registers, w1: map<Address, int>, r2: Registers,
          w2: map<Address, int>)
    requires Load(m, m.regs.esp) == entry && Load(m, m.regs.esp + 4) == STOPPING && Load(m, m.regs.esp + 8) == 0
    requires Balanced(m, r1, w1)
    requires Balanced(Ret(Work(m, r1, w1)), r2, w2)
    ensures var started := Ret(Work(m, r1, w1)); var stopping := Ret(Work(started, r2, w2));
            && started.regs.eip == entry && stopping.regs.eip == STOPPING
            && Load(stopping, stopping.regs.esp) == 0
  {
  }

  // ---------- The instructions ----------

  class Cpu {
    var memory: map<Address, int>
    ghost var base: map<Task, Address>
    /** The fields `stack_top`, `state` and `page_dir` of all tasks. */
    var stackTop: map<Task, Address>
    var state: map<Task, TaskState>
    var pageDir: map<Task, Address>
    var current: Task
    var cr3: Address
    var esp: Address
    var ebx: int
    var esi: int
    var edi: int
    var ebp: int
    var eip: Address
    var enqueued: seq<Task>

    ghost function View(): Machine
      reads this
    {
      Machine(memory, base, stackTop, state, pageDir, Registers(esp, ebx, esi, edi, ebp, eip), current, cr3, enqueued)
    }

    /** The caller's side: the argument and the return address go on the stack. */
    method CallSwitchTo(next: Task, ret: Address, scratch: map<Address, int>)
      requires next in stackTop && next in pageDir && current in state
      requires forall a :: a in scratch ==> a < esp - 24
      modifies this
      ensures View() == Switch(old(View()), next, ret, scratch)
      ensures current == next && cr3 == pageDir[next] && next in state && state[next] == Running
      ensures var t := old(current);
              enqueued == if old(state)[t] == Running then old(enqueued) + [t] else old(enqueued)
    {
      esp := esp - 4;
      memory := memory[esp := next];
      esp := esp - 4;
      memory := memory[esp := ret];
      TasksSwitchTo(scratch);
      SwitchRuns(old(View()), next, ret, scratch);
    }

    method TasksSwitchTo(scratch: map<Address, int>)
      requires current in state && esp + 4 in memory
      requires memory[esp + 4] in stackTop && memory[esp + 4] in pageDir
      requires forall a :: a in scratch ==> a < esp - 16
      modifies this
      ensures View() == TakeUp(PutAway(old(View()), scratch), old(memory[esp + 4]))
    {
      SavePrevious(scratch);
      esi := memory[esp + (4 + 1) * 4];
      LoadNext();
    }

    method SavePrevious(scratch: map<Address, int>)
      requires current in state
      requires forall a :: a in scratch ==> a < esp - 16
      modifies this
      ensures View() == PutAway(old(View()), scratch)
      ensures forall a :: a >= old(esp) && a in old(memory) ==> a in memory && memory[a] == old(memory)[a]
    {
      StackPrevious();
      RequeuePrevious(scratch);
    }

    method StackPrevious()
      modifies this`esp, this`memory, this`stackTop, this`edi
      ensures View() == Stacked(old(View()))
    {
      PushRegisters();
      edi := current;
      stackTop := stackTop[edi := esp];
    }

    method RequeuePrevious(scratch: map<Address, int>)
      requires edi == current && current in state
      modifies this`memory, this`state, this`enqueued
      ensures View() == Requeued(old(View()), scratch)
    {
      if state[edi] == Running {
        state := state[edi := Ready];
        memory := memory[esp - 4 := edi];
        // _tasks_enqueue_ready may write below the stack pointer and on its argument
        memory := memory + scratch;
        enqueued := enqueued + [edi];
      }
    }

    method PushRegisters()
      modifies this`esp, this`memory
      ensures esp == old(esp) - 16
      ensures memory == Pushed(old(memory), Registers(old(esp), ebx, esi, edi, ebp, eip))
    {
      esp := esp - 4;
      memory := memory[esp := ebx];
      esp := esp - 4;
      memory := memory[esp := esi];
      esp := esp - 4;
      memory := memory[esp := edi];
      esp := esp - 4;
      memory := memory[esp := ebp];
    }

    method LoadNext()
      requires esi in stackTop && esi in pageDir
      modifies this
      ensures View() == TakeUp(old(View()), old(esi))
    {
      current := esi;
      esp := stackTop[esi];
      state := state[esi := Running];
      LoadPageDirectory();
      PopRegisters();
    }

    /** CR3 is written only when it changes. */
    method LoadPageDirectory()
      requires esi in pageDir
      modifies this`cr3
      ensures cr3 == pageDir[esi]
    {
      var eax, ecx := pageDir[esi], cr3;
      if eax != ecx {
        cr3 := eax;
      }
    }

    /** The four pops and the return. */
    method PopRegisters()
      modifies this`esp, this`ebx, this`esi, this`edi, this`ebp, this`eip
      ensures Registers(esp, ebx, esi, edi, ebp, eip) == Popped(memory, old(esp))
    {
      ebp := WordAt(memory, esp);
      esp := esp + 4;
      edi := WordAt(memory, esp);
      esp := esp + 4;
      esi := WordAt(memory, esp);
      esp := esp + 4;
      ebx := WordAt(memory, esp);
      esp := esp + 4;
      eip := WordAt(memory, esp);
      esp := esp + 4;
    }
  }
}
