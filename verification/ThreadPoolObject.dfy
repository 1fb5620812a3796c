/**
  The pool as the object it is: threads run its code one statement at a time and update its
  fields in place. Each method is one statement of one thread, at whatever point that thread
  stands; State relates the fields to the transition system the guarantees are proved of.
 */
module ThreadPoolObject {
  import opened ThreadPool

  /** The step a worker takes next, from where it stands in its loop. */
  function WorkerStep(w: Worker, i: nat): Action {
    match w
    case Ready => WorkerLock(i)
    case Checking => WorkerCheck(i)
    case Waiting => WorkerWake(i)
    case Woken => WorkerLock(i)
    case Passed => WorkerTake(i)
    case Leaving => WorkerUnlock(i)
    case Taken(_) => WorkerUnlock(i)
    case Executing(_) => WorkerFinish(i)
    case Exited => WorkerFinish(i)
  }

  /** The step a call of enqueue takes next; woken is the worker its notification reaches. */
  function CallStep(c: Call, j: nat, woken: nat): Action {
    match c
    case Calling(_) => CallLock(j)
    case Locked(_) => CallCheck(j)
    case Admitted(_) => CallPush(j)
    case Pushed(_) => CallUnlock(j)
    case Refusing(_) => CallUnlock(j)
    case Notifying(_) => CallNotify(j, woken)
    case Returned(_) => CallNotify(j, woken)
    case Threw(_) => CallNotify(j, woken)
  }

  function DestructorStep(d: Destructor): Action {
    match d
    case NotCalled => DestroyStart
    case Entered => DestroyLock
    case Inside => DestroyStop
    case StopSet => DestroyUnlock
    case Unlocked => DestroyNotify
    case Joining(_) => DestroyJoin
    case Done => DestroyJoin
  }

  class PoolObject {
    var tasks: seq<Task>
    var stop: bool
    var mutex: Mutex
    var workers: seq<Worker>
    var calls: seq<Call>
    var destructor: Destructor

    ghost var accepted: seq<Task>
    ghost var started: seq<Task>
    ghost var completed: multiset<Task>

    ghost function State(): Pool
      reads this
    {
      Pool(tasks, stop, mutex, workers, calls, destructor, accepted, started, completed)
    }

    ghost predicate Valid()
      reads this
    {
      Reachable(|workers|, State())
    }

    constructor (threads: nat)
      ensures Valid() && State() == Init(threads)
    {
      tasks := [];
      stop := false;
      mutex := Free;
      workers := seq(threads, i => Ready);
      calls := [];
      destructor := NotCalled;
      accepted := [];
      started := [];
      completed := multiset{};
      new;
      ReachableInit(threads);
    }

    /** One statement of worker i. */
    method RunWorker(i: nat)
      requires Valid() && i < |workers| && Enabled(State(), WorkerStep(workers[i], i))
      modifies this
      ensures Valid() && State() == Next(old(State()), old(WorkerStep(workers[i], i)))
      ensures tasks == if old(workers[i].Passed? && tasks != []) then old(tasks)[1..] else old(tasks)
    {
      hide Reachable;
      ReachableStep(|workers|, State(), WorkerStep(workers[i], i));
      match workers[i] {
        case Ready =>
          mutex := ByWorker(i);
          workers := workers[i := Checking];
        case Woken =>
          mutex := ByWorker(i);
          workers := workers[i := Checking];
        case Waiting =>
          workers := workers[i := Woken];
        case Checking =>
          if stop || tasks != [] {
            workers := workers[i := Passed];
          } else {
            workers := workers[i := Waiting];
            mutex := Free;
          }
        case Passed =>
          if stop && tasks == [] {
            workers := workers[i := Leaving];
          } else {
            var task := tasks[0];
            tasks := tasks[1..];
            workers := workers[i := Taken(task)];
            started := started + [task];
          }
        case Leaving =>
          workers := workers[i := Exited];
          mutex := Free;
        case Taken(task) =>
          workers := workers[i := Executing(task)];
          mutex := Free;
        case Executing(task) =>
          workers := workers[i := Ready];
          completed := completed + multiset{task};
      }
    }

    /** A thread calls enqueue. */
    method StartCall(task: Task)
      requires Valid()
      modifies this`calls
      ensures Valid() && State() == Next(old(State()), CallStart(task))
      ensures calls == old(calls) + [Calling(task)]
    {
      hide Reachable;
      ReachableStep(|workers|, State(), CallStart(task));
      calls := calls + [Calling(task)];
    }

    /** One statement of call j; if it is the notification, worker woken is the one it reaches. */
    method RunCall(j: nat, woken: nat)
      requires Valid() && j < |calls| && Enabled(State(), CallStep(calls[j], j, woken))
      modifies this
      ensures Valid() && State() == Next(old(State()), old(CallStep(calls[j], j, woken)))
      ensures tasks == if old(calls[j].Admitted?) then old(tasks) + [old(calls[j].task)] else old(tasks)
      ensures |calls| == |old(calls)| && forall k :: 0 <= k < |calls| ==> calls[k].task == old(calls)[k].task
    {
      hide Reachable;
      ReachableStep(|workers|, State(), CallStep(calls[j], j, woken));
      match calls[j] {
        case Calling(task) =>
          mutex := ByCall(j);
          calls := calls[j := Locked(task)];
        case Locked(task) =>
          calls := calls[j := if stop then Refusing(task) else Admitted(task)];
        case Admitted(task) =>
          tasks := tasks + [task];
          calls := calls[j := Pushed(task)];
          accepted := accepted + [task];
        case Pushed(task) =>
          mutex := Free;
          calls := calls[j := Notifying(task)];
        case Refusing(task) =>
          mutex := Free;
          calls := calls[j := Threw(task)];
        case Notifying(task) =>
          if AnyWaiting(workers) {
            workers := workers[woken := Woken];
          }
          calls := calls[j := Returned(task)];
      }
    }

    /** One statement of the destructor. */
    method RunDestructor()
      requires Valid() && Enabled(State(), DestructorStep(destructor))
      modifies this
      ensures Valid() && State() == Next(old(State()), old(DestructorStep(destructor)))
    {
      hide Reachable;
      ReachableStep(|workers|, State(), DestructorStep(destructor));
      match destructor {
        case NotCalled =>
          destructor := Entered;
        case Entered =>
          mutex := ByDestructor;
          destructor := Inside;
        case Inside =>
          stop := true;
          destructor := StopSet;
        case StopSet =>
          mutex := Free;
          destructor := Unlocked;
        case Unlocked =>
          workers := WakeAll(workers);
          destructor := Joining(0);
        case Joining(k) =>
          destructor := if k < |workers| then Joining(k + 1) else Done;
      }
    }
  }
}
