/**
  Each operation of the pool by itself, run to its end while no other thread moves: what it makes
  of the pool, in every case, and that it can always do so when the mutex is free.
 */
module ThreadPoolOperations {
  import opened ThreadPool

  // ----- one step, and several -----

  ghost predicate Does(p: Pool, a: Action, q: Pool) {
    Enabled(p, a) && Next(p, a) == q
  }

  lemma Last(p: Pool, a: Action, q: Pool)
    requires Does(p, a, q)
    ensures Leads(p, [a], q)
  {
    hide Enabled, Next;
    assert [a][1..] == [];
  }

  lemma Then(p: Pool, a: Action, q: Pool, rest: seq<Action>, r: Pool)
    requires Does(p, a, q) && Leads(q, rest, r)
    ensures Leads(p, [a] + rest, r)
  {
    hide Enabled, Next, Leads;
    LeadsCons(p, a, rest, r);
  }

  // ----- enqueue -----

  /** The pool with one more call, which stands at c. */
  function CallAt(p: Pool, c: Call, m: Mutex): Pool {
    p.(calls := p.calls + [c], mutex := m)
  }

  function Queued(p: Pool, t: Task): Pool {
    p.(tasks := p.tasks + [t], accepted := p.accepted + [t])
  }

  lemma ReplaceLast(cs: seq<Call>, c: Call, d: Call)
    ensures (cs + [c])[|cs| := d] == cs + [d]
  {
  }

  lemma CallStarts(p: Pool, t: Task)
    ensures Does(p, CallStart(t), CallAt(p, Calling(t), p.mutex))
  {
  }

  lemma CallLocks(p: Pool, t: Task)
    ensures Does(CallAt(p, Calling(t), Free), CallLock(|p.calls|), CallAt(p, Locked(t), ByCall(|p.calls|)))
  {
    ReplaceLast(p.calls, Calling(t), Locked(t));
  }

  lemma CallChecks(p: Pool, t: Task, m: Mutex)
    ensures Does(CallAt(p, Locked(t), m), CallCheck(|p.calls|),
                 CallAt(p, if p.stop then Refusing(t) else Admitted(t), m))
  {
    ReplaceLast(p.calls, Locked(t), if p.stop then Refusing(t) else Admitted(t));
  }

  lemma CallPushes(p: Pool, t: Task, m: Mutex)
    ensures Does(CallAt(p, Admitted(t), m), CallPush(|p.calls|), CallAt(Queued(p, t), Pushed(t), m))
  {
    ReplaceLast(p.calls, Admitted(t), Pushed(t));
  }

  lemma CallUnlocks(p: Pool, t: Task, m: Mutex)
    ensures Does(CallAt(p, Pushed(t), m), CallUnlock(|p.calls|), CallAt(p, Notifying(t), Free))
    ensures Does(CallAt(p, Refusing(t), m), CallUnlock(|p.calls|), CallAt(p, Threw(t), Free))
  {
    ReplaceLast(p.calls, Pushed(t), Notifying(t));
    ReplaceLast(p.calls, Refusing(t), Threw(t));
  }

  /** Enqueue on a live pool queues the task it was given, and nothing else changes until it notifies. */
  lemma EnqueueQueues(p: Pool, t: Task)
    requires p.mutex.Free? && !p.stop
    ensures var j := |p.calls|;
      Leads(p, [CallStart(t), CallLock(j), CallCheck(j), CallPush(j), CallUnlock(j)],
            p.(calls := p.calls + [Notifying(t)], tasks := p.tasks + [t], accepted := p.accepted + [t]))
  {
    var j := |p.calls|;
    var m, end := ByCall(j), CallAt(Queued(p, t), Notifying(t), Free);
    CallStarts(p, t);
    CallLocks(p, t);
    CallChecks(p, t, m);
    CallPushes(p, t, m);
    CallUnlocks(Queued(p, t), t, m);
    hide Leads, Does;
    Last(CallAt(Queued(p, t), Pushed(t), m), CallUnlock(j), end);
    Then(CallAt(p, Admitted(t), m), CallPush(j), CallAt(Queued(p, t), Pushed(t), m), [CallUnlock(j)], end);
    Then(CallAt(p, Locked(t), m), CallCheck(j), CallAt(p, Admitted(t), m), [CallPush(j), CallUnlock(j)], end);
    Then(CallAt(p, Calling(t), Free), CallLock(j), CallAt(p, Locked(t), m),
         [CallCheck(j), CallPush(j), CallUnlock(j)], end);
    Then(p, CallStart(t), CallAt(p, Calling(t), Free), [CallLock(j), CallCheck(j), CallPush(j), CallUnlock(j)], end);
  }

  /** The notification that ends it wakes one sleeping worker, any that sleeps, or nobody if none does. */
  lemma EnqueueNotifies(p: Pool, j: nat, i: nat)
    requires j < |p.calls| && p.calls[j].Notifying?
    requires AnyWaiting(p.workers) ==> i < |p.workers| && p.workers[i].Waiting?
    ensures var q := p.(calls := p.calls[j := Returned(p.calls[j].task)]);
      Leads(p, [CallNotify(j, i)], if AnyWaiting(p.workers) then q.(workers := p.workers[i := Woken]) else q)
  {
    var q := p.(calls := p.calls[j := Returned(p.calls[j].task)]);
    Last(p, CallNotify(j, i), if AnyWaiting(p.workers) then q.(workers := p.workers[i := Woken]) else q);
  }

  /** Enqueue on a stopped pool throws, and leaves all else as it was. */
  lemma EnqueueThrows(p: Pool, t: Task)
    requires p.mutex.Free? && p.stop
    ensures var j := |p.calls|;
      Leads(p, [CallStart(t), CallLock(j), CallCheck(j), CallUnlock(j)], p.(calls := p.calls + [Threw(t)]))
  {
    var j := |p.calls|;
    var m, end := ByCall(j), CallAt(p, Threw(t), Free);
    CallStarts(p, t);
    CallLocks(p, t);
    CallChecks(p, t, m);
    CallUnlocks(p, t, m);
    hide Leads, Does;
    Last(CallAt(p, Refusing(t), m), CallUnlock(j), end);
    Then(CallAt(p, Locked(t), m), CallCheck(j), CallAt(p, Refusing(t), m), [CallUnlock(j)], end);
    Then(CallAt(p, Calling(t), Free), CallLock(j), CallAt(p, Locked(t), m), [CallCheck(j), CallUnlock(j)], end);
    Then(p, CallStart(t), CallAt(p, Calling(t), Free), [CallLock(j), CallCheck(j), CallUnlock(j)], end);
  }

  // ----- a worker's loop -----

  /** The pool with worker i at w. */
  function WorkerAt(p: Pool, i: nat, w: Worker, m: Mutex): Pool
    requires i < |p.workers|
  {
    p.(workers := p.workers[i := w], mutex := m)
  }

  /** The pool with its oldest task popped. */
  function Popped(p: Pool): Pool
    requires p.tasks != []
  {
    p.(tasks := p.tasks[1..], started := p.started + [p.tasks[0]])
  }

  lemma ReplaceTwice(ws: seq<Worker>, i: nat, w: Worker, v: Worker)
    requires i < |ws|
    ensures ws[i := w][i := v] == ws[i := v]
  {
  }

  lemma WorkerLocks(p: Pool, i: nat)
    requires p.mutex.Free? && i < |p.workers| && (p.workers[i].Ready? || p.workers[i].Woken?)
    ensures Does(p, WorkerLock(i), WorkerAt(p, i, Checking, ByWorker(i)))
  {
  }

  lemma WorkerChecks(p: Pool, i: nat, m: Mutex)
    requires i < |p.workers|
    ensures Does(WorkerAt(p, i, Checking, m), WorkerCheck(i),
                 if p.stop || p.tasks != [] then WorkerAt(p, i, Passed, m) else WorkerAt(p, i, Waiting, Free))
  {
    ReplaceTwice(p.workers, i, Checking, if p.stop || p.tasks != [] then Passed else Waiting);
  }

  lemma WorkerTakes(p: Pool, i: nat, m: Mutex)
    requires i < |p.workers| && (p.stop || p.tasks != [])
    ensures Does(WorkerAt(p, i, Passed, m), WorkerTake(i),
                 if p.tasks == [] then WorkerAt(p, i, Leaving, m) else WorkerAt(Popped(p), i, Taken(p.tasks[0]), m))
  {
    ReplaceTwice(p.workers, i, Passed, if p.tasks == [] then Leaving else Taken(p.tasks[0]));
  }

  lemma WorkerUnlocks(p: Pool, i: nat, t: Task, m: Mutex)
    requires i < |p.workers|
    ensures Does(WorkerAt(p, i, Taken(t), m), WorkerUnlock(i), WorkerAt(p, i, Executing(t), Free))
    ensures Does(WorkerAt(p, i, Leaving, m), WorkerUnlock(i), WorkerAt(p, i, Exited, Free))
  {
    ReplaceTwice(p.workers, i, Taken(t), Executing(t));
    ReplaceTwice(p.workers, i, Leaving, Exited);
  }

  lemma WorkerFinishes(p: Pool, i: nat, t: Task, m: Mutex)
    requires i < |p.workers|
    ensures Does(WorkerAt(p, i, Executing(t), m), WorkerFinish(i),
                 WorkerAt(p.(completed := p.completed + multiset{t}), i, Ready, m))
  {
    ReplaceTwice(p.workers, i, Executing(t), Ready);
  }

  /** A worker at the top of its loop, or just woken, runs the oldest task and is back at the top, stop or not. */
  lemma WorkerRunsTask(p: Pool, i: nat)
    requires p.mutex.Free? && p.tasks != []
    requires i < |p.workers| && (p.workers[i].Ready? || p.workers[i].Woken?)
    ensures Leads(p, [WorkerLock(i), WorkerCheck(i), WorkerTake(i), WorkerUnlock(i), WorkerFinish(i)],
                  p.(workers := p.workers[i := Ready], tasks := p.tasks[1..], started := p.started + [p.tasks[0]],
                     completed := p.completed + multiset{p.tasks[0]}))
  {
    var t, m, q := p.tasks[0], ByWorker(i), Popped(p);
    var end := WorkerAt(q.(completed := p.completed + multiset{t}), i, Ready, Free);
    WorkerLocks(p, i);
    WorkerChecks(p, i, m);
    WorkerTakes(p, i, m);
    WorkerUnlocks(q, i, t, m);
    WorkerFinishes(q, i, t, Free);
    hide Leads, Does;
    Last(WorkerAt(q, i, Executing(t), Free), WorkerFinish(i), end);
    Then(WorkerAt(q, i, Taken(t), m), WorkerUnlock(i), WorkerAt(q, i, Executing(t), Free), [WorkerFinish(i)], end);
    Then(WorkerAt(p, i, Passed, m), WorkerTake(i), WorkerAt(q, i, Taken(t), m),
         [WorkerUnlock(i), WorkerFinish(i)], end);
    Then(WorkerAt(p, i, Checking, m), WorkerCheck(i), WorkerAt(p, i, Passed, m),
         [WorkerTake(i), WorkerUnlock(i), WorkerFinish(i)], end);
    Then(p, WorkerLock(i), WorkerAt(p, i, Checking, m),
         [WorkerCheck(i), WorkerTake(i), WorkerUnlock(i), WorkerFinish(i)], end);
  }

  /** With nothing queued it goes to sleep in a live pool, giving the mutex back. */
  lemma WorkerSleeps(p: Pool, i: nat)
    requires p.mutex.Free? && p.tasks == [] && !p.stop
    requires i < |p.workers| && (p.workers[i].Ready? || p.workers[i].Woken?)
    ensures Leads(p, [WorkerLock(i), WorkerCheck(i)], p.(workers := p.workers[i := Waiting]))
  {
    var m, end := ByWorker(i), WorkerAt(p, i, Waiting, Free);
    WorkerLocks(p, i);
    WorkerChecks(p, i, m);
    hide Leads, Does;
    Last(WorkerAt(p, i, Checking, m), WorkerCheck(i), end);
    Then(p, WorkerLock(i), WorkerAt(p, i, Checking, m), [WorkerCheck(i)], end);
  }

  /** A sleeping worker may wake at any time, whoever holds the mutex and whether or not it was notified. */
  lemma WorkerMayWake(p: Pool, i: nat)
    requires i < |p.workers| && p.workers[i].Waiting?
    ensures Leads(p, [WorkerWake(i)], p.(workers := p.workers[i := Woken]))
  {
    Last(p, WorkerWake(i), p.(workers := p.workers[i := Woken]));
  }

  /** With nothing queued it leaves a stopped pool, giving the mutex back. */
  lemma WorkerLeaves(p: Pool, i: nat)
    requires p.mutex.Free? && p.tasks == [] && p.stop
    requires i < |p.workers| && (p.workers[i].Ready? || p.workers[i].Woken?)
    ensures Leads(p, [WorkerLock(i), WorkerCheck(i), WorkerTake(i), WorkerUnlock(i)],
                  p.(workers := p.workers[i := Exited]))
  {
    var m, end := ByWorker(i), WorkerAt(p, i, Exited, Free);
    WorkerLocks(p, i);
    WorkerChecks(p, i, m);
    WorkerTakes(p, i, m);
    WorkerUnlocks(p, i, 0, m);
    hide Leads, Does;
    Last(WorkerAt(p, i, Leaving, m), WorkerUnlock(i), end);
    Then(WorkerAt(p, i, Passed, m), WorkerTake(i), WorkerAt(p, i, Leaving, m), [WorkerUnlock(i)], end);
    Then(WorkerAt(p, i, Checking, m), WorkerCheck(i), WorkerAt(p, i, Passed, m),
         [WorkerTake(i), WorkerUnlock(i)], end);
    Then(p, WorkerLock(i), WorkerAt(p, i, Checking, m), [WorkerCheck(i), WorkerTake(i), WorkerUnlock(i)], end);
  }

  // ----- the destructor -----

  function DestructorAt(p: Pool, d: Destructor, m: Mutex, stop: bool): Pool {
    p.(destructor := d, mutex := m, stop := stop)
  }

  lemma DestructorStepsToStop(p: Pool, m: Mutex)
    requires p.mutex.Free? && p.destructor.NotCalled?
    ensures Does(p, DestroyStart, DestructorAt(p, Entered, Free, p.stop))
    ensures Does(DestructorAt(p, Entered, Free, p.stop), DestroyLock, DestructorAt(p, Inside, ByDestructor, p.stop))
    ensures Does(DestructorAt(p, Inside, m, p.stop), DestroyStop, DestructorAt(p, StopSet, m, true))
    ensures Does(DestructorAt(p, StopSet, m, true), DestroyUnlock, DestructorAt(p, Unlocked, Free, true))
  {
  }

  /** The destructor sets stop, wakes every sleeping worker and goes on to join the first. */
  lemma DestructorStops(p: Pool)
    requires p.mutex.Free? && p.destructor.NotCalled?
    ensures Leads(p, [DestroyStart, DestroyLock, DestroyStop, DestroyUnlock, DestroyNotify],
                  p.(stop := true, destructor := Joining(0), workers := WakeAll(p.workers)))
  {
    var m, unlocked := ByDestructor, DestructorAt(p, Unlocked, Free, true);
    var end := p.(stop := true, destructor := Joining(0), workers := WakeAll(p.workers));
    DestructorStepsToStop(p, m);
    assert Does(unlocked, DestroyNotify, end);
    hide Leads, Does;
    Last(unlocked, DestroyNotify, end);
    Then(DestructorAt(p, StopSet, m, true), DestroyUnlock, unlocked, [DestroyNotify], end);
    Then(DestructorAt(p, Inside, m, p.stop), DestroyStop, DestructorAt(p, StopSet, m, true),
         [DestroyUnlock, DestroyNotify], end);
    Then(DestructorAt(p, Entered, Free, p.stop), DestroyLock, DestructorAt(p, Inside, m, p.stop),
         [DestroyStop, DestroyUnlock, DestroyNotify], end);
    Then(p, DestroyStart, DestructorAt(p, Entered, Free, p.stop),
         [DestroyLock, DestroyStop, DestroyUnlock, DestroyNotify], end);
  }
}
