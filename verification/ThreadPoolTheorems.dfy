/**
  What the pool guarantees in every reachable state, whatever the interleaving: mutual exclusion,
  order and conservation of tasks, no lost wakeup, no deadlock, and a drained queue at the end.
 */
module ThreadPoolTheorems {
  import opened ThreadPool
  import opened ThreadPoolInvariant

  // ----- safety -----

  /**
    No two threads are ever inside a critical section at once, and no thread keeps the mutex while
    it sleeps, runs a task, notifies or joins.
   */
  lemma MutualExclusion(n: nat, p: Pool)
    requires Reachable(n, p)
    ensures forall i, k :: 0 <= i < k < |p.workers| ==> !(WorkerHolds(p.workers[i]) && WorkerHolds(p.workers[k]))
    ensures forall j, k :: 0 <= j < k < |p.calls| ==> !(CallHolds(p.calls[j]) && CallHolds(p.calls[k]))
    ensures forall i, j :: 0 <= i < |p.workers| && 0 <= j < |p.calls| ==>
              !(WorkerHolds(p.workers[i]) && CallHolds(p.calls[j]))
    ensures DestructorHolds(p.destructor) ==>
              (forall i :: 0 <= i < |p.workers| ==> !WorkerHolds(p.workers[i]))
              && (forall j :: 0 <= j < |p.calls| ==> !CallHolds(p.calls[j]))
    ensures forall i :: 0 <= i < |p.workers| && (p.workers[i].Waiting? || p.workers[i].Executing?) ==>
              p.mutex != ByWorker(i)
    ensures forall j :: 0 <= j < |p.calls| && p.calls[j].Notifying? ==> p.mutex != ByCall(j)
    ensures p.destructor.Unlocked? || p.destructor.Joining? ==> !p.mutex.ByDestructor?
  {
    ReachableInv(n, p);
  }

  /** A worker that goes on to take a task never finds the queue empty. */
  lemma TakeIsSafe(n: nat, p: Pool, i: nat)
    requires Reachable(n, p) && i < |p.workers| && p.workers[i].Passed?
    ensures p.stop || p.tasks != []
    ensures Enabled(p, WorkerTake(i))
  {
    ReachableInv(n, p);
  }

  /**
    Tasks start in the order they were accepted, and the tasks of the calls that pushed are
    exactly the ones queued, in a worker's hands or completed, counted with repetitions.
   */
  lemma FifoAndConservation(n: nat, p: Pool)
    requires Reachable(n, p)
    ensures p.accepted == p.started + p.tasks
    ensures multiset(p.started) == Gather(p.workers, InHand) + p.completed
    ensures Gather(p.calls, Delivered) == multiset(p.tasks) + Gather(p.workers, InHand) + p.completed
  {
    ReachableInv(n, p);
    assert multiset(p.accepted) == multiset(p.started) + multiset(p.tasks);
  }

  /** A call that threw, or will, left no trace: stop was set, and its steps keep all but the call. */
  lemma RefusedCallChangesNothing(n: nat, p: Pool, a: Action, j: nat)
    requires Reachable(n, p) && Enabled(p, a)
    requires j < |p.calls| && (a == CallLock(j) || a == CallCheck(j) || (a == CallUnlock(j) && p.calls[j].Refusing?))
    ensures p.calls[j].Refusing? ==> p.stop
    ensures var q := Next(p, a);
      && q.tasks == p.tasks && q.accepted == p.accepted && q.started == p.started && q.completed == p.completed
      && q.workers == p.workers && q.stop == p.stop && q.destructor == p.destructor
      && Gather(q.calls, Delivered) == Gather(p.calls, Delivered)
  {
    ReachableInv(n, p);
    SameDelivery(p, a);
  }

  /**
    While any worker sleeps, the queue is no longer than the notifications still to come plus
    the workers that are awake and will look at the queue before they can sleep.
   */
  lemma NoLostWakeup(n: nat, p: Pool)
    requires Reachable(n, p) && AnyWaiting(p.workers)
    ensures |p.tasks| <= Sum(p.calls, IsPending) + Sum(p.workers, IsAwake)
  {
    ReachableInv(n, p);
  }

  // ----- progress -----

  /** A step some thread takes of itself: not a new call, a spurious wakeup or a call of the destructor. */
  predicate Internal(a: Action) {
    !a.CallStart? && !a.WorkerWake? && !a.DestroyStart?
  }

  ghost predicate Stuck(p: Pool) {
    forall a :: Internal(a) ==> !Enabled(p, a)
  }

  predicate CallOver(c: Call) {
    c.Returned? || c.Threw?
  }

  /** The thread that holds the mutex can always go on. */
  lemma HolderGoesOn(n: nat, p: Pool) returns (a: Action)
    requires Inv(n, p) && !p.mutex.Free?
    ensures Internal(a) && Enabled(p, a)
  {
    match p.mutex {
      case ByWorker(i) =>
        assert WorkerHolds(p.workers[i]);
        a := if p.workers[i].Checking? then WorkerCheck(i)
             else if p.workers[i].Passed? then WorkerTake(i) else WorkerUnlock(i);
      case ByCall(j) =>
        assert CallHolds(p.calls[j]);
        a := if p.calls[j].Locked? then CallCheck(j)
             else if p.calls[j].Admitted? then CallPush(j) else CallUnlock(j);
      case ByDestructor =>
        a := if p.destructor.Inside? then DestroyStop else DestroyUnlock;
    }
  }

  lemma StuckMutexFree(n: nat, p: Pool)
    requires Inv(n, p) && Stuck(p)
    ensures p.mutex.Free?
  {
    if !p.mutex.Free? {
      var a := HolderGoesOn(n, p);
    }
  }

  lemma StuckWorker(n: nat, p: Pool, i: nat)
    requires Inv(n, p) && Stuck(p) && i < n
    ensures p.workers[i].Waiting? || p.workers[i].Exited?
  {
    StuckMutexFree(n, p);
    assert !Enabled(p, WorkerLock(i)) && !Enabled(p, WorkerFinish(i));
    assert !WorkerHolds(p.workers[i]);
  }

  lemma StuckCall(n: nat, p: Pool, j: nat)
    requires Inv(n, p) && Stuck(p) && j < |p.calls|
    ensures CallOver(p.calls[j])
  {
    StuckMutexFree(n, p);
    assert !Enabled(p, CallLock(j));
    assert !CallHolds(p.calls[j]);
    if p.calls[j].Notifying? {
      var i: nat := if AnyWaiting(p.workers) then var i :| 0 <= i < |p.workers| && p.workers[i].Waiting?; i else 0;
      assert Enabled(p, CallNotify(j, i));
    }
  }

  lemma StuckQueue(n: nat, p: Pool)
    requires Inv(n, p) && Stuck(p) && n > 0
    ensures p.tasks == []
  {
    forall i | 0 <= i < n ensures p.workers[i].Waiting? || p.workers[i].Exited? {
      StuckWorker(n, p, i);
    }
    forall j | 0 <= j < |p.calls| ensures CallOver(p.calls[j]) {
      StuckCall(n, p, j);
    }
    SumZero(p.workers, IsAwake);
    SumZero(p.calls, IsPending);
    assert p.workers[0].Waiting? || p.workers[0].Exited?;
  }

  lemma StuckDestructor(n: nat, p: Pool)
    requires Inv(n, p) && Stuck(p)
    ensures p.destructor.NotCalled? || p.destructor.Done?
  {
    StuckMutexFree(n, p);
    assert !Enabled(p, DestroyLock) && !Enabled(p, DestroyNotify) && !Enabled(p, DestroyJoin);
    if p.destructor.Joining? {
      StuckWorker(n, p, p.destructor.joined);
    }
  }

  /**
    No deadlock: when no thread can move of itself, no call is halfway, nothing is queued or in
    hand, and either all workers sleep in a live pool or all have left a destroyed one.
   */
  lemma NoDeadlock(n: nat, p: Pool)
    requires n > 0 && Reachable(n, p) && Stuck(p)
    ensures p.tasks == [] && p.mutex.Free?
    ensures p.completed == multiset(p.accepted)
    ensures forall j :: 0 <= j < |p.calls| ==> CallOver(p.calls[j])
    ensures
      || (p.destructor.NotCalled? && forall i :: 0 <= i < |p.workers| ==> p.workers[i].Waiting?)
      || (p.destructor.Done? && forall i :: 0 <= i < |p.workers| ==> p.workers[i].Exited?)
  {
    ReachableInv(n, p);
    StuckMutexFree(n, p);
    StuckQueue(n, p);
    StuckDestructor(n, p);
    forall j | 0 <= j < |p.calls| ensures CallOver(p.calls[j]) {
      StuckCall(n, p, j);
    }
    forall i | 0 <= i < n ensures p.workers[i].Waiting? || p.workers[i].Exited? {
      StuckWorker(n, p, i);
    }
    GatherNone(p.workers, InHand);
    assert p.accepted == p.started;
  }

  // ----- shutdown -----

  ghost predicate Drained(p: Pool) {
    p.tasks == [] && p.started == p.accepted && p.completed == multiset(p.accepted)
  }

  /** When the destructor of a pool with a worker returns, every accepted task has completed, once. */
  lemma DrainOnShutdown(n: nat, p: Pool)
    requires n > 0 && Reachable(n, p) && p.destructor.Done?
    ensures Drained(p) && p.completed == Gather(p.calls, Delivered)
    ensures forall i :: 0 <= i < |p.workers| ==> p.workers[i].Exited?
  {
    ReachableInv(n, p);
    assert p.workers[0].Exited?;
    GatherNone(p.workers, InHand);
    assert p.accepted == p.started;
  }

  /** A pool without workers and with one call. */
  function Unstaffed(tasks: seq<Task>, mutex: Mutex, c: Call, d: Destructor, accepted: seq<Task>): Pool {
    Pool(tasks, !(d.NotCalled? || d.Entered? || d.Inside?), mutex, [], [c], d, accepted, [], multiset{})
  }

  lemma Go(p: Pool, a: Action, q: Pool)
    requires Reachable(0, p) && Enabled(p, a) && q == Next(p, a)
    ensures Reachable(0, q)
  {
    ReachableStep(0, p, a);
  }

  lemma UnstaffedAdmits(t: Task)
    ensures Reachable(0, Unstaffed([], ByCall(0), Admitted(t), NotCalled, []))
  {
    hide Reachable;
    ReachableInit(0);
    Go(Init(0), CallStart(t), Unstaffed([], Free, Calling(t), NotCalled, []));
    Go(Unstaffed([], Free, Calling(t), NotCalled, []), CallLock(0),
       Unstaffed([], ByCall(0), Locked(t), NotCalled, []));
    Go(Unstaffed([], ByCall(0), Locked(t), NotCalled, []), CallCheck(0),
       Unstaffed([], ByCall(0), Admitted(t), NotCalled, []));
  }

  lemma UnstaffedAccepts(t: Task)
    ensures Reachable(0, Unstaffed([t], Free, Returned(t), NotCalled, [t]))
  {
    hide Reachable;
    UnstaffedAdmits(t);
    Go(Unstaffed([], ByCall(0), Admitted(t), NotCalled, []), CallPush(0),
       Unstaffed([t], ByCall(0), Pushed(t), NotCalled, [t]));
    Go(Unstaffed([t], ByCall(0), Pushed(t), NotCalled, [t]), CallUnlock(0),
       Unstaffed([t], Free, Notifying(t), NotCalled, [t]));
    Go(Unstaffed([t], Free, Notifying(t), NotCalled, [t]), CallNotify(0, 0),
       Unstaffed([t], Free, Returned(t), NotCalled, [t]));
  }

  /** A pool without workers accepts a task and is destroyed without running it. */
  lemma UnstaffedLosesTask(t: Task)
    ensures Reachable(0, Unstaffed([t], Free, Returned(t), Done, [t]))
  {
    hide Reachable;
    UnstaffedAccepts(t);
    var c := Returned(t);
    Go(Unstaffed([t], Free, c, NotCalled, [t]), DestroyStart, Unstaffed([t], Free, c, Entered, [t]));
    Go(Unstaffed([t], Free, c, Entered, [t]), DestroyLock, Unstaffed([t], ByDestructor, c, Inside, [t]));
    Go(Unstaffed([t], ByDestructor, c, Inside, [t]), DestroyStop, Unstaffed([t], ByDestructor, c, StopSet, [t]));
    Go(Unstaffed([t], ByDestructor, c, StopSet, [t]), DestroyUnlock, Unstaffed([t], Free, c, Unlocked, [t]));
    Go(Unstaffed([t], Free, c, Unlocked, [t]), DestroyNotify, Unstaffed([t], Free, c, Joining(0), [t]));
    Go(Unstaffed([t], Free, c, Joining(0), [t]), DestroyJoin, Unstaffed([t], Free, c, Done, [t]));
  }

  /** Shutdown drains every run of a pool exactly when the pool has a worker. */
  lemma ShutdownDrainsIff(n: nat)
    ensures n > 0 <==> forall p :: Reachable(n, p) && p.destructor.Done? ==> Drained(p)
  {
    if n > 0 {
      forall p | Reachable(n, p) && p.destructor.Done? ensures Drained(p) {
        DrainOnShutdown(n, p);
      }
    } else {
      UnstaffedLosesTask(0);
      assert !Drained(Unstaffed([0], Free, Returned(0), Done, [0]));
    }
  }
}
