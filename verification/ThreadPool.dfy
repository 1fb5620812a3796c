/**
  The worker pool as a transition system. Every thread moves one statement at a time and the
  mutex is explicit: a thread inside a critical section may be overtaken by any step that does
  not need the mutex. Waking up without a notification is always possible.
 */
module ThreadPool {

  /** A task is known by a number; two tasks may share one. */
  type Task = int

  /** Where a worker stands in its loop. */
  datatype Worker =
    | Ready                  // about to lock, at the top of the loop
    | Checking               // holds the mutex, about to test the wait condition
    | Waiting                // asleep on the condition variable, mutex released
    | Woken                  // awake, about to lock again inside wait
    | Passed                 // holds the mutex, the wait condition held
    | Leaving                // holds the mutex, about to return from the loop
    | Taken(task: Task)      // holds the mutex, has popped a task
    | Executing(task: Task)
    | Exited

  /** Where one call of enqueue stands. */
  datatype Call =
    | Calling(task: Task)    // about to lock
    | Locked(task: Task)     // holds the mutex, about to test stop
    | Admitted(task: Task)   // holds the mutex, stop was not set
    | Pushed(task: Task)     // holds the mutex, the task is in the queue
    | Notifying(task: Task)  // mutex released, about to notify one waiting worker
    | Returned(task: Task)
    | Refusing(task: Task)   // holds the mutex, stop was set
    | Threw(task: Task)

  datatype Destructor =
    | NotCalled
    | Entered                // about to lock
    | Inside                 // holds the mutex, about to set stop
    | StopSet                // holds the mutex, stop is set
    | Unlocked               // about to notify all waiting workers
    | Joining(joined: nat)   // has joined the first workers
    | Done

  datatype Mutex = Free | ByWorker(worker: nat) | ByCall(call: nat) | ByDestructor

  /** The pool, and three records of its past: the tasks accepted, started and completed. */
  datatype Pool = Pool(
    tasks: seq<Task>, stop: bool, mutex: Mutex,
    workers: seq<Worker>, calls: seq<Call>, destructor: Destructor,
    accepted: seq<Task>, started: seq<Task>, completed: multiset<Task>)

  function Init(n: nat): Pool {
    Pool([], false, Free, seq(n, i => Ready), [], NotCalled, [], [], multiset{})
  }

  datatype Action =
    | WorkerLock(i: nat)       // take the mutex, first or again
    | WorkerCheck(i: nat)      // test the wait condition; sleep if it fails
    | WorkerTake(i: nat)       // leave if stopped and drained, else pop
    | WorkerUnlock(i: nat)
    | WorkerFinish(i: nat)     // the task returns
    | WorkerWake(i: nat)       // spurious wakeup
    | CallStart(task: Task)
    | CallLock(j: nat)
    | CallCheck(j: nat)        // test stop
    | CallPush(j: nat)
    | CallUnlock(j: nat)
    | CallNotify(j: nat, i: nat)  // notify_one, waking worker i if any worker waits
    | DestroyStart
    | DestroyLock
    | DestroyStop
    | DestroyUnlock
    | DestroyNotify            // notify_all
    | DestroyJoin

  predicate AnyWaiting(ws: seq<Worker>) {
    exists i :: 0 <= i < |ws| && ws[i].Waiting?
  }

  predicate Enabled(p: Pool, a: Action) {
    match a
    case WorkerLock(i) => i < |p.workers| && (p.workers[i].Ready? || p.workers[i].Woken?) && p.mutex.Free?
    case WorkerCheck(i) => i < |p.workers| && p.workers[i].Checking?
    case WorkerTake(i) => i < |p.workers| && p.workers[i].Passed? && (p.stop || p.tasks != [])
    case WorkerUnlock(i) => i < |p.workers| && (p.workers[i].Taken? || p.workers[i].Leaving?)
    case WorkerFinish(i) => i < |p.workers| && p.workers[i].Executing?
    case WorkerWake(i) => i < |p.workers| && p.workers[i].Waiting?
    case CallStart(t) => true
    case CallLock(j) => j < |p.calls| && p.calls[j].Calling? && p.mutex.Free?
    case CallCheck(j) => j < |p.calls| && p.calls[j].Locked?
    case CallPush(j) => j < |p.calls| && p.calls[j].Admitted?
    case CallUnlock(j) => j < |p.calls| && (p.calls[j].Pushed? || p.calls[j].Refusing?)
    case CallNotify(j, i) =>
      && j < |p.calls| && p.calls[j].Notifying?
      && (AnyWaiting(p.workers) ==> i < |p.workers| && p.workers[i].Waiting?)
    case DestroyStart => p.destructor.NotCalled?
    case DestroyLock => p.destructor.Entered? && p.mutex.Free?
    case DestroyStop => p.destructor.Inside?
    case DestroyUnlock => p.destructor.StopSet?
    case DestroyNotify => p.destructor.Unlocked?
    case DestroyJoin =>
      p.destructor.Joining? &&
      (p.destructor.joined < |p.workers| ==> p.workers[p.destructor.joined].Exited?)
  }

  function WithWorker(p: Pool, i: nat, w: Worker): Pool
    requires i < |p.workers|
  {
    p.(workers := p.workers[i := w])
  }

  function WithCall(p: Pool, j: nat, c: Call): Pool
    requires j < |p.calls|
  {
    p.(calls := p.calls[j := c])
  }

  function WakeAll(ws: seq<Worker>): (r: seq<Worker>)
    ensures |r| == |ws|
    ensures forall i :: 0 <= i < |ws| ==> r[i] == if ws[i].Waiting? then Woken else ws[i]
  {
    seq(|ws|, i requires 0 <= i < |ws| => if ws[i].Waiting? then Woken else ws[i])
  }

  function Next(p: Pool, a: Action): Pool
    requires Enabled(p, a)
  {
    match a
    case WorkerLock(i) => WithWorker(p, i, Checking).(mutex := ByWorker(i))
    case WorkerCheck(i) =>
      if p.stop || p.tasks != [] then WithWorker(p, i, Passed)
      else WithWorker(p, i, Waiting).(mutex := Free)
    case WorkerTake(i) =>
      if p.stop && p.tasks == [] then WithWorker(p, i, Leaving)
      else WithWorker(p, i, Taken(p.tasks[0])).(tasks := p.tasks[1..], started := p.started + [p.tasks[0]])
    case WorkerUnlock(i) =>
      var w := if p.workers[i].Leaving? then Exited else Executing(p.workers[i].task);
      WithWorker(p, i, w).(mutex := Free)
    case WorkerFinish(i) =>
      WithWorker(p, i, Ready).(completed := p.completed + multiset{p.workers[i].task})
    case WorkerWake(i) => WithWorker(p, i, Woken)
    case CallStart(t) => p.(calls := p.calls + [Calling(t)])
    case CallLock(j) => WithCall(p, j, Locked(p.calls[j].task)).(mutex := ByCall(j))
    case CallCheck(j) =>
      WithCall(p, j, if p.stop then Refusing(p.calls[j].task) else Admitted(p.calls[j].task))
    case CallPush(j) =>
      var t := p.calls[j].task;
      WithCall(p, j, Pushed(t)).(tasks := p.tasks + [t], accepted := p.accepted + [t])
    case CallUnlock(j) =>
      var t := p.calls[j].task;
      WithCall(p, j, if p.calls[j].Pushed? then Notifying(t) else Threw(t)).(mutex := Free)
    case CallNotify(j, i) =>
      var q := WithCall(p, j, Returned(p.calls[j].task));
      if AnyWaiting(p.workers) then WithWorker(q, i, Woken) else q
    case DestroyStart => p.(destructor := Entered)
    case DestroyLock => p.(destructor := Inside, mutex := ByDestructor)
    case DestroyStop => p.(destructor := StopSet, stop := true)
    case DestroyUnlock => p.(destructor := Unlocked, mutex := Free)
    case DestroyNotify => p.(destructor := Joining(0), workers := WakeAll(p.workers))
    case DestroyJoin =>
      p.(destructor := if p.destructor.joined < |p.workers| then Joining(p.destructor.joined + 1) else Done)
  }

  /** The actions acts lead from p to q. */
  predicate Leads(p: Pool, acts: seq<Action>, q: Pool)
    decreases acts
  {
    if acts == [] then p == q
    else Enabled(p, acts[0]) && Leads(Next(p, acts[0]), acts[1..], q)
  }

  ghost predicate Reachable(n: nat, q: Pool) {
    exists acts :: Leads(Init(n), acts, q)
  }

  lemma {:induction false} LeadsStep(p: Pool, acts: seq<Action>, q: Pool, a: Action)
    requires Leads(p, acts, q) && Enabled(q, a)
    ensures Leads(p, acts + [a], Next(q, a))
    decreases acts
  {
    hide Enabled, Next;
    if acts == [] {
      assert acts + [a] == [a] && [a][1..] == [];
    } else {
      assert (acts + [a])[1..] == acts[1..] + [a];
      LeadsStep(Next(p, acts[0]), acts[1..], q, a);
    }
  }

  lemma LeadsCons(p: Pool, a: Action, acts: seq<Action>, q: Pool)
    requires Enabled(p, a) && Leads(Next(p, a), acts, q)
    ensures Leads(p, [a] + acts, q)
  {
    hide Enabled, Next;
    assert ([a] + acts)[1..] == acts;
  }

  lemma ReachableInit(n: nat)
    ensures Reachable(n, Init(n))
  {
    assert Leads(Init(n), [], Init(n));
  }

  lemma ReachableStep(n: nat, q: Pool, a: Action)
    requires Reachable(n, q) && Enabled(q, a)
    ensures Reachable(n, Next(q, a))
  {
    hide Enabled, Next, Leads;
    var acts :| Leads(Init(n), acts, q);
    LeadsStep(Init(n), acts, q, a);
  }

  // ----- counting workers and calls -----

  function Sum<T>(s: seq<T>, weight: T -> nat): nat {
    if s == [] then 0 else weight(s[0]) + Sum(s[1..], weight)
  }

  lemma {:induction false} SumUpdate<T>(s: seq<T>, i: nat, x: T, weight: T -> nat)
    requires i < |s|
    ensures Sum(s[i := x], weight) + weight(s[i]) == Sum(s, weight) + weight(x)
  {
    if i > 0 {
      assert s[i := x][1..] == s[1..][i - 1 := x];
      SumUpdate(s[1..], i - 1, x, weight);
    }
  }

  lemma {:induction false} SumAppend<T>(s: seq<T>, x: T, weight: T -> nat)
    ensures Sum(s + [x], weight) == Sum(s, weight) + weight(x)
  {
    if s == [] {
      assert [x][1..] == [];
      assert s + [x] == [x];
    } else {
      assert (s + [x])[1..] == s[1..] + [x];
      SumAppend(s[1..], x, weight);
    }
  }

  lemma {:induction false} SumZero<T>(s: seq<T>, weight: T -> nat)
    requires forall x :: x in s ==> weight(x) == 0
    ensures Sum(s, weight) == 0
  {
    if s != [] {
      assert s[0] in s;
      SumZero(s[1..], weight);
    }
  }

  function Gather<T>(s: seq<T>, items: T -> multiset<Task>): multiset<Task> {
    if s == [] then multiset{} else items(s[0]) + Gather(s[1..], items)
  }

  lemma {:induction false} GatherUpdate<T>(s: seq<T>, i: nat, x: T, items: T -> multiset<Task>)
    requires i < |s|
    ensures Gather(s[i := x], items) + items(s[i]) == Gather(s, items) + items(x)
  {
    if i == 0 {
      assert s[0 := x][1..] == s[1..];
    } else {
      assert s[i := x][1..] == s[1..][i - 1 := x];
      GatherUpdate(s[1..], i - 1, x, items);
      Swap(items(s[0]), Gather(s[1..], items), Gather(s[1..][i - 1 := x], items), items(s[i]), items(x));
    }
  }

  lemma Swap(first: multiset<Task>, rest: multiset<Task>, updated: multiset<Task>,
             before: multiset<Task>, after: multiset<Task>)
    requires updated + before == rest + after
    ensures first + updated + before == first + rest + after
  {
    assert first + updated + before == first + (updated + before);
    assert first + rest + after == first + (rest + after);
  }

  lemma {:induction false} GatherAppend<T>(s: seq<T>, x: T, items: T -> multiset<Task>)
    ensures Gather(s + [x], items) == Gather(s, items) + items(x)
  {
    if s == [] {
      assert [x][1..] == [];
      assert s + [x] == [x];
    } else {
      assert (s + [x])[1..] == s[1..] + [x];
      GatherAppend(s[1..], x, items);
    }
  }

  lemma {:induction false} GatherNone<T>(s: seq<T>, items: T -> multiset<Task>)
    requires forall x :: x in s ==> items(x) == multiset{}
    ensures Gather(s, items) == multiset{}
  {
    if s != [] {
      assert s[0] in s;
      GatherNone(s[1..], items);
    }
  }

  /** Awake outside a task: such a worker tests the wait condition before it can sleep. */
  function IsAwake(w: Worker): nat {
    if w.Ready? || w.Checking? || w.Woken? || w.Passed? then 1 else 0
  }

  /** Has pushed a task and not yet notified. */
  function IsPending(c: Call): nat {
    if c.Pushed? || c.Notifying? then 1 else 0
  }

  predicate HasTask(w: Worker) {
    w.Taken? || w.Executing?
  }

  /** The task a worker has popped and not completed. */
  function InHand(w: Worker): multiset<Task> {
    if HasTask(w) then multiset{w.task} else multiset{}
  }

  predicate HasPushed(c: Call) {
    c.Pushed? || c.Notifying? || c.Returned?
  }

  /** The task of a call that got past the stop test and pushed. */
  function Delivered(c: Call): multiset<Task> {
    if HasPushed(c) then multiset{c.task} else multiset{}
  }
}
