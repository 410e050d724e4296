/** Between locked sections the scheduler's memory is always fit for the next operation, and each
    operation on the memory is the step of the run it stands for. */
module SchedulerRefinement {
  import opened TaskLists
  import opened TaskMemory
  import opened SchedulerRuns
  import opened Schedulers
  import Spec = SchedulerSpec

  lemma ListsKnown(m: Linked)
    ensures {InReady, InSleeping, InStopped} <= m.lists.Keys
    ensures forall w | w in m.waiting :: InWaiting(w) in m.lists
  {
  }

  /** A task that is not ready, asleep, stopped or blocked is on no list. */
  lemma OnNoList(k: Scheduler, t: Task)
    requires k.Valid() && Placed(k.View()) && t in k.state && (k.state[t] == Running || k.state[t] == Paused)
    ensures t !in k.mem.home
  {
    if t in k.mem.home {
      HomeIsList(k.mem, t);
    }
  }

  /** What the place invariant says about the memory. */
  lemma QuietMemory(k: Scheduler)
    requires k.Valid() && Settled(k.View())
    ensures k.current != NULL ==> k.current in k.state && k.state[k.current] == Running && k.current !in k.mem.home
    ensures k.Switchable()
  {
    if k.current != NULL {
      OnNoList(k, k.current);
    }
  }

  /** One operation on the memory. */
  method Perform(k: Scheduler, e: Event, now: nat)
    requires k.Valid() && Settled(k.View()) && k.cleaner in k.state && Legal(k.View(), e, k.cleaner)
    requires e.NewTask? ==> e.task != NULL
    modifies k
    ensures k.Valid() && Settled(k.View()) && k.cleaner in k.state
    ensures k.View() == Step(old(k.View()), e, k.cleaner, now)
  {
    QuietMemory(k);
    ListsKnown(k.mem);
    StepSettles(k.View(), e, k.cleaner, now);
    match e
    case YieldNow => k.TasksSchedule(now);
    case Pause => k.TasksBlockCurrent(Paused, now);
    case WakeTask(t) =>
      OnNoList(k, t);
      k.TasksUnblock(t, now);
    case Timer(time) => k.OnTimer(time, now);
    case Sleep(time) => k.TasksNanoSleepUntil(time, now);
    case ExitTask =>
      CleanerIsFree(k);
      k.TasksExit(now);
    case CleanUp => k.CleanerRound(now);
    case WaitOn(w) => k.TasksSyncBlock(w, now);
    case Notify(w) => k.TasksSyncUnblock(w, now);
    case NewTask(t, to) =>
      NewIsFree(k, t);
      k.TasksNew(t, to);
    case IdleOver => k.IdleEnd(now);
  }

  lemma CleanerIsFree(k: Scheduler)
    requires k.Valid() && Settled(k.View()) && k.cleaner in k.state && Legal(k.View(), ExitTask, k.cleaner)
    ensures k.cleaner in k.mem.home ==> k.mem.home[k.cleaner] == InReady
  {
    if k.state[k.cleaner] == Paused {
      OnNoList(k, k.cleaner);
    } else if k.cleaner in k.mem.home {
      assert k.cleaner in k.View().ready;
      HomeIsList(k.mem, k.cleaner);
    }
  }

  lemma NewIsFree(k: Scheduler, t: Task)
    requires k.Valid() && Settled(k.View()) && t !in k.state
    ensures t !in k.mem.home
  {
    if t in k.mem.home {
      HomeIsList(k.mem, t);
    }
  }
}
