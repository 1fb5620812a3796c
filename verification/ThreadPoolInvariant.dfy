/**
  What every step of the pool keeps, and so what holds in every reachable state.
 */
module ThreadPoolInvariant {
  import opened ThreadPool

  // ----- the invariant -----

  predicate WorkerHolds(w: Worker) {
    w.Checking? || w.Passed? || w.Leaving? || w.Taken?
  }

  predicate CallHolds(c: Call) {
    c.Locked? || c.Admitted? || c.Pushed? || c.Refusing?
  }

  predicate DestructorHolds(d: Destructor) {
    d.Inside? || d.StopSet?
  }

  /** The thread the mutex names is the one thread inside a critical section. */
  ghost predicate MutexInv(p: Pool) {
    && (forall i :: 0 <= i < |p.workers| ==> (WorkerHolds(p.workers[i]) <==> p.mutex == ByWorker(i)))
    && (forall j :: 0 <= j < |p.calls| ==> (CallHolds(p.calls[j]) <==> p.mutex == ByCall(j)))
    && (DestructorHolds(p.destructor) <==> p.mutex == ByDestructor)
    && (p.mutex.ByWorker? ==> p.mutex.worker < |p.workers|)
    && (p.mutex.ByCall? ==> p.mutex.call < |p.calls|)
  }

  /** What a thread tested in a critical section still holds when it acts on it. */
  ghost predicate TestedInv(p: Pool) {
    && (forall i :: 0 <= i < |p.workers| && p.workers[i].Passed? ==> p.stop || p.tasks != [])
    && (forall j :: 0 <= j < |p.calls| && p.calls[j].Admitted? ==> !p.stop)
    && (forall j :: 0 <= j < |p.calls| && (p.calls[j].Refusing? || p.calls[j].Threw?) ==> p.stop)
  }

  ghost predicate StopInv(p: Pool) {
    && (p.stop <==> !(p.destructor.NotCalled? || p.destructor.Entered? || p.destructor.Inside?))
    && (forall i :: 0 <= i < |p.workers| && (p.workers[i].Leaving? || p.workers[i].Exited?) ==> p.stop && p.tasks == [])
    && (p.destructor.Joining? || p.destructor.Done? ==> !AnyWaiting(p.workers))
    && (p.destructor.Joining? ==>
          p.destructor.joined <= |p.workers| && forall i :: 0 <= i < p.destructor.joined ==> p.workers[i].Exited?)
    && (p.destructor.Done? ==> forall i :: 0 <= i < |p.workers| ==> p.workers[i].Exited?)
  }

  /** Tasks leave the queue in the order they were accepted, and nothing else leaves or enters. */
  ghost predicate FifoInv(p: Pool) {
    p.accepted == p.started + p.tasks
  }

  /** Each task started is in the hands of one worker or completed, as often as it was started. */
  ghost predicate HandInv(p: Pool) {
    multiset(p.started) == Gather(p.workers, InHand) + p.completed
  }

  /** The tasks accepted are those of the calls that got past the stop test. */
  ghost predicate DeliveryInv(p: Pool) {
    multiset(p.accepted) == Gather(p.calls, Delivered)
  }

  /** While some worker sleeps, each queued task has a notification or an awake worker of its own. */
  ghost predicate WakeInv(p: Pool) {
    AnyWaiting(p.workers) ==> |p.tasks| <= Sum(p.calls, IsPending) + Sum(p.workers, IsAwake)
  }

  ghost predicate Inv(n: nat, p: Pool) {
    && |p.workers| == n
    && MutexInv(p) && TestedInv(p) && StopInv(p)
    && FifoInv(p) && HandInv(p) && DeliveryInv(p) && WakeInv(p)
  }

  // ----- it holds initially and every step keeps it -----

  lemma InitInv(n: nat)
    ensures Inv(n, Init(n))
  {
    var p := Init(n);
    GatherNone(p.workers, InHand);
  }

  predicate IsWorkerStep(a: Action) {
    a.WorkerLock? || a.WorkerCheck? || a.WorkerTake? || a.WorkerUnlock? || a.WorkerFinish? || a.WorkerWake?
  }

  predicate IsCallStep(a: Action) {
    a.CallStart? || a.CallLock? || a.CallCheck? || a.CallPush? || a.CallUnlock? || a.CallNotify?
  }

  predicate IsDestructorStep(a: Action) {
    a.DestroyStart? || a.DestroyLock? || a.DestroyStop? || a.DestroyUnlock? || a.DestroyNotify? || a.DestroyJoin?
  }

  lemma NextMutexWorker(p: Pool, a: Action)
    requires MutexInv(p) && Enabled(p, a) && IsWorkerStep(a)
    ensures MutexInv(Next(p, a))
  {
  }

  lemma NextMutexCall(p: Pool, a: Action)
    requires MutexInv(p) && Enabled(p, a) && IsCallStep(a)
    ensures MutexInv(Next(p, a))
  {
  }

  lemma NextMutexDestructor(p: Pool, a: Action)
    requires MutexInv(p) && Enabled(p, a) && IsDestructorStep(a)
    ensures MutexInv(Next(p, a))
  {
  }

  lemma NextMutex(p: Pool, a: Action)
    requires MutexInv(p) && Enabled(p, a)
    ensures MutexInv(Next(p, a))
  {
    hide MutexInv, Enabled, Next;
    if IsWorkerStep(a) {
      NextMutexWorker(p, a);
    } else if IsCallStep(a) {
      NextMutexCall(p, a);
    } else {
      NextMutexDestructor(p, a);
    }
  }

  lemma NextTestedWorker(p: Pool, a: Action)
    requires MutexInv(p) && TestedInv(p) && StopInv(p) && Enabled(p, a) && IsWorkerStep(a)
    ensures TestedInv(Next(p, a))
  {
  }

  lemma NextTestedCall(p: Pool, a: Action)
    requires MutexInv(p) && TestedInv(p) && StopInv(p) && Enabled(p, a) && IsCallStep(a)
    ensures TestedInv(Next(p, a))
  {
  }

  lemma NextTestedDestructor(p: Pool, a: Action)
    requires MutexInv(p) && TestedInv(p) && StopInv(p) && Enabled(p, a) && IsDestructorStep(a)
    ensures TestedInv(Next(p, a))
  {
  }

  lemma NextTested(p: Pool, a: Action)
    requires MutexInv(p) && TestedInv(p) && StopInv(p) && Enabled(p, a)
    ensures TestedInv(Next(p, a))
  {
    hide MutexInv, TestedInv, StopInv, Enabled, Next;
    if IsWorkerStep(a) {
      NextTestedWorker(p, a);
    } else if IsCallStep(a) {
      NextTestedCall(p, a);
    } else {
      NextTestedDestructor(p, a);
    }
  }

  lemma NextStopWorker(p: Pool, a: Action)
    requires MutexInv(p) && TestedInv(p) && StopInv(p) && Enabled(p, a) && IsWorkerStep(a)
    ensures StopInv(Next(p, a))
  {
  }

  lemma NextStopCall(p: Pool, a: Action)
    requires MutexInv(p) && TestedInv(p) && StopInv(p) && Enabled(p, a) && IsCallStep(a)
    ensures StopInv(Next(p, a))
  {
  }

  lemma NextStopDestructor(p: Pool, a: Action)
    requires MutexInv(p) && TestedInv(p) && StopInv(p) && Enabled(p, a) && IsDestructorStep(a)
    ensures StopInv(Next(p, a))
  {
  }

  lemma NextStop(p: Pool, a: Action)
    requires MutexInv(p) && TestedInv(p) && StopInv(p) && Enabled(p, a)
    ensures StopInv(Next(p, a))
  {
    hide MutexInv, TestedInv, StopInv, Enabled, Next;
    if IsWorkerStep(a) {
      NextStopWorker(p, a);
    } else if IsCallStep(a) {
      NextStopCall(p, a);
    } else {
      NextStopDestructor(p, a);
    }
  }

  lemma Transfer(old': multiset<Task>, new': multiset<Task>, before: multiset<Task>, after: multiset<Task>)
    requires new' + before == old' + after
    ensures before == after ==> new' == old'
    ensures before == multiset{} ==> new' == old' + after
    ensures after == multiset{} ==> new' + before == old'
  {
    assert forall t :: (new' + before)[t] == new'[t] + before[t];
    assert forall t :: (old' + after)[t] == old'[t] + after[t];
  }

  /** How replacing one worker changes the tasks in hand. */
  lemma InHandUpdate(ws: seq<Worker>, i: nat, w: Worker)
    requires i < |ws|
    ensures InHand(ws[i]) == multiset{} ==> Gather(ws[i := w], InHand) == Gather(ws, InHand) + InHand(w)
    ensures InHand(w) == multiset{} ==> Gather(ws[i := w], InHand) + InHand(ws[i]) == Gather(ws, InHand)
  {
    GatherUpdate(ws, i, w, InHand);
    Transfer(Gather(ws, InHand), Gather(ws[i := w], InHand), InHand(ws[i]), InHand(w));
  }

  lemma InHandKept(ws: seq<Worker>, i: nat, w: Worker)
    requires i < |ws| && HasTask(ws[i]) == HasTask(w) && (HasTask(w) ==> ws[i].task == w.task)
    ensures Gather(ws[i := w], InHand) == Gather(ws, InHand)
  {
    GatherUpdate(ws, i, w, InHand);
    Transfer(Gather(ws, InHand), Gather(ws[i := w], InHand), InHand(ws[i]), InHand(w));
  }

  lemma DeliveredUpdate(cs: seq<Call>, j: nat, c: Call)
    requires j < |cs| && !HasPushed(cs[j])
    ensures Gather(cs[j := c], Delivered) == Gather(cs, Delivered) + Delivered(c)
  {
    GatherUpdate(cs, j, c, Delivered);
    Transfer(Gather(cs, Delivered), Gather(cs[j := c], Delivered), Delivered(cs[j]), Delivered(c));
  }

  lemma DeliveredKept(cs: seq<Call>, j: nat, c: Call)
    requires j < |cs| && HasPushed(cs[j]) == HasPushed(c) && cs[j].task == c.task
    ensures Gather(cs[j := c], Delivered) == Gather(cs, Delivered)
  {
    GatherUpdate(cs, j, c, Delivered);
    Transfer(Gather(cs, Delivered), Gather(cs[j := c], Delivered), Delivered(cs[j]), Delivered(c));
  }

  lemma {:induction false} WakeAllTallies(ws: seq<Worker>)
    ensures Gather(WakeAll(ws), InHand) == Gather(ws, InHand)
  {
    if ws != [] {
      assert WakeAll(ws)[1..] == WakeAll(ws[1..]);
      WakeAllTallies(ws[1..]);
    }
  }

  lemma NextFifo(p: Pool, a: Action)
    requires FifoInv(p) && Enabled(p, a)
    ensures FifoInv(Next(p, a))
  {
    match a {
      case WorkerTake(i) =>
        if p.tasks != [] {
          assert p.started + p.tasks == p.started + [p.tasks[0]] + p.tasks[1..];
        }
      case CallPush(j) =>
        var t := p.calls[j].task;
        assert p.started + (p.tasks + [t]) == p.started + p.tasks + [t];
      case _ =>
    }
  }

  lemma MultisetPush(s: seq<Task>, t: Task)
    ensures multiset(s + [t]) == multiset(s) + multiset{t}
  {
  }

  lemma TakeHand(p: Pool, i: nat)
    requires HandInv(p) && Enabled(p, WorkerTake(i)) && p.tasks != []
    ensures HandInv(Next(p, WorkerTake(i)))
  {
    hide Gather;
    var t := p.tasks[0];
    var hands := Gather(p.workers, InHand);
    InHandUpdate(p.workers, i, Taken(t));
    MultisetPush(p.started, t);
    assert hands + p.completed + multiset{t} == hands + multiset{t} + p.completed;
  }

  lemma FinishHand(p: Pool, i: nat)
    requires HandInv(p) && Enabled(p, WorkerFinish(i))
    ensures HandInv(Next(p, WorkerFinish(i)))
  {
    hide Gather;
    var t := p.workers[i].task;
    var hands := Gather(p.workers[i := Ready], InHand);
    InHandUpdate(p.workers, i, Ready);
    assert hands + multiset{t} + p.completed == hands + (p.completed + multiset{t});
  }

  lemma SameHand(p: Pool, a: Action)
    requires Enabled(p, a) && !a.WorkerFinish? && !(a.WorkerTake? && p.tasks != [])
    ensures Gather(Next(p, a).workers, InHand) == Gather(p.workers, InHand)
  {
    hide Gather, InHand;
    var ws := p.workers;
    match a {
      case WorkerLock(i) => InHandKept(ws, i, Checking);
      case WorkerCheck(i) => InHandKept(ws, i, if p.stop || p.tasks != [] then Passed else Waiting);
      case WorkerTake(i) => InHandKept(ws, i, Leaving);
      case WorkerUnlock(i) => InHandKept(ws, i, if ws[i].Leaving? then Exited else Executing(ws[i].task));
      case WorkerWake(i) => InHandKept(ws, i, Woken);
      case CallNotify(j, i) =>
        if AnyWaiting(ws) {
          InHandKept(ws, i, Woken);
        }
      case DestroyNotify => WakeAllTallies(ws);
      case _ =>
    }
  }

  lemma NextHand(p: Pool, a: Action)
    requires HandInv(p) && Enabled(p, a)
    ensures HandInv(Next(p, a))
  {
    hide Gather;
    if a.WorkerTake? && p.tasks != [] {
      TakeHand(p, a.i);
    } else if a.WorkerFinish? {
      FinishHand(p, a.i);
    } else {
      SameHand(p, a);
    }
  }

  lemma StartDelivery(cs: seq<Call>, t: Task)
    ensures Gather(cs + [Calling(t)], Delivered) == Gather(cs, Delivered)
  {
    GatherAppend(cs, Calling(t), Delivered);
  }

  lemma PushDelivery(p: Pool, j: nat)
    requires DeliveryInv(p) && Enabled(p, CallPush(j))
    ensures DeliveryInv(Next(p, CallPush(j)))
  {
    hide Gather;
    var t := p.calls[j].task;
    DeliveredUpdate(p.calls, j, Pushed(t));
    MultisetPush(p.accepted, t);
  }

  lemma SameDelivery(p: Pool, a: Action)
    requires Enabled(p, a) && !a.CallPush?
    ensures Gather(Next(p, a).calls, Delivered) == Gather(p.calls, Delivered)
  {
    hide Gather, Delivered;
    var cs := p.calls;
    match a {
      case CallStart(t) => StartDelivery(cs, t);
      case CallLock(j) => DeliveredKept(cs, j, Locked(cs[j].task));
      case CallCheck(j) => DeliveredKept(cs, j, if p.stop then Refusing(cs[j].task) else Admitted(cs[j].task));
      case CallUnlock(j) => DeliveredKept(cs, j, if cs[j].Pushed? then Notifying(cs[j].task) else Threw(cs[j].task));
      case CallNotify(j, i) => DeliveredKept(cs, j, Returned(cs[j].task));
      case _ =>
    }
  }

  lemma NextDelivery(p: Pool, a: Action)
    requires DeliveryInv(p) && Enabled(p, a)
    ensures DeliveryInv(Next(p, a))
  {
    hide Gather;
    if a.CallPush? {
      PushDelivery(p, a.j);
    } else {
      SameDelivery(p, a);
    }
  }

  lemma NextWakeWorker(p: Pool, a: Action)
    requires WakeInv(p) && Enabled(p, a) && IsWorkerStep(a)
    ensures WakeInv(Next(p, a))
  {
    hide Sum;
    var q := Next(p, a);
    match a {
      case WorkerLock(i) => SumUpdate(p.workers, i, q.workers[i], IsAwake);
      case WorkerCheck(i) => SumUpdate(p.workers, i, q.workers[i], IsAwake);
      case WorkerTake(i) => SumUpdate(p.workers, i, q.workers[i], IsAwake);
      case WorkerUnlock(i) => SumUpdate(p.workers, i, q.workers[i], IsAwake);
      case WorkerFinish(i) => SumUpdate(p.workers, i, q.workers[i], IsAwake);
      case WorkerWake(i) => SumUpdate(p.workers, i, q.workers[i], IsAwake);
    }
    if !a.WorkerCheck? && AnyWaiting(q.workers) {
      var k :| 0 <= k < |q.workers| && q.workers[k].Waiting?;
      assert p.workers[k].Waiting?;
    }
  }

  lemma NextWake(p: Pool, a: Action)
    requires StopInv(p) && WakeInv(p) && Enabled(p, a)
    ensures WakeInv(Next(p, a))
  {
    hide Sum;
    var q := Next(p, a);
    if IsWorkerStep(a) {
      NextWakeWorker(p, a);
    } else {
      match a {
        case CallStart(t) => SumAppend(p.calls, Calling(t), IsPending);
        case CallLock(j) => SumUpdate(p.calls, j, q.calls[j], IsPending);
        case CallCheck(j) => SumUpdate(p.calls, j, q.calls[j], IsPending);
        case CallPush(j) => SumUpdate(p.calls, j, q.calls[j], IsPending);
        case CallUnlock(j) => SumUpdate(p.calls, j, q.calls[j], IsPending);
        case CallNotify(j, i) =>
          SumUpdate(p.calls, j, q.calls[j], IsPending);
          if AnyWaiting(p.workers) {
            SumUpdate(p.workers, i, Woken, IsAwake);
          }
        case _ =>
      }
    }
  }

  lemma NextInv(n: nat, p: Pool, a: Action)
    requires Inv(n, p) && Enabled(p, a)
    ensures Inv(n, Next(p, a))
  {
    hide MutexInv, TestedInv, StopInv, FifoInv, HandInv, DeliveryInv, WakeInv;
    NextMutex(p, a);
    NextTested(p, a);
    NextStop(p, a);
    NextFifo(p, a);
    NextHand(p, a);
    NextDelivery(p, a);
    NextWake(p, a);
  }

  lemma {:induction false} LeadsInv(n: nat, p: Pool, acts: seq<Action>, q: Pool)
    requires Inv(n, p) && Leads(p, acts, q)
    ensures Inv(n, q)
    decreases acts
  {
    hide Inv;
    if acts != [] {
      NextInv(n, p, acts[0]);
      LeadsInv(n, Next(p, acts[0]), acts[1..], q);
    }
  }

  /** Every reachable state satisfies the invariant. */
  lemma ReachableInv(n: nat, p: Pool)
    requires Reachable(n, p)
    ensures Inv(n, p)
  {
    hide Inv;
    var acts :| Leads(Init(n), acts, p);
    InitInv(n);
    LeadsInv(n, Init(n), acts, p);
  }
}
