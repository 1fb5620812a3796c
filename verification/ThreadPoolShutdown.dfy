/**
  Once stop is set the pool runs down: every step uses up part of a finite measure, so a run has
  at most as many steps as the measure allows, and a run that cannot go on has joined every worker.
 */
module ThreadPoolShutdown {
  import opened ThreadPool
  import opened ThreadPoolInvariant
  import opened ThreadPoolTheorems

  // ----- the measure -----

  function WorkerWeight(w: Worker): nat {
    match w
    case Exited => 0
    case Leaving => 1
    case Passed => 2
    case Checking => 3
    case Ready => 4
    case Woken => 4
    case Waiting => 5
    case Executing(_) => 5
    case Taken(_) => 6
  }

  function CallWeight(c: Call): nat {
    match c
    case Returned(_) => 0
    case Threw(_) => 0
    case Refusing(_) => 1
    case Notifying(_) => 1
    case Pushed(_) => 2
    case Locked(_) => 2
    case Admitted(_) => 3
    case Calling(_) => 3
  }

  function DestructorWeight(n: nat, d: Destructor): nat {
    match d
    case Done => 0
    case Joining(k) => if k <= n then n - k + 1 else 0
    case Unlocked => n + 2
    case StopSet => n + 3
    case _ => n + 4
  }

  /** Each queued task weighs what a worker spends on it, from popping it to being ready again. */
  function Measure(p: Pool): nat {
    5 * |p.tasks| + Sum(p.workers, WorkerWeight) + Sum(p.calls, CallWeight)
    + DestructorWeight(|p.workers|, p.destructor)
  }

  lemma {:induction false} WakeAllWeight(ws: seq<Worker>)
    ensures Sum(WakeAll(ws), WorkerWeight) <= Sum(ws, WorkerWeight)
  {
    if ws != [] {
      assert WakeAll(ws)[1..] == WakeAll(ws[1..]);
      WakeAllWeight(ws[1..]);
    }
  }

  lemma WorkerDescends(p: Pool, a: Action)
    requires p.stop && Enabled(p, a) && IsWorkerStep(a)
    ensures Measure(Next(p, a)) < Measure(p)
  {
    hide Sum;
    var q := Next(p, a);
    match a {
      case WorkerLock(i) => SumUpdate(p.workers, i, q.workers[i], WorkerWeight);
      case WorkerCheck(i) => SumUpdate(p.workers, i, q.workers[i], WorkerWeight);
      case WorkerTake(i) => SumUpdate(p.workers, i, q.workers[i], WorkerWeight);
      case WorkerUnlock(i) => SumUpdate(p.workers, i, q.workers[i], WorkerWeight);
      case WorkerFinish(i) => SumUpdate(p.workers, i, q.workers[i], WorkerWeight);
      case WorkerWake(i) => SumUpdate(p.workers, i, q.workers[i], WorkerWeight);
    }
  }

  lemma CallDescends(p: Pool, a: Action)
    requires TestedInv(p) && p.stop && Enabled(p, a) && IsCallStep(a) && !a.CallStart?
    ensures Measure(Next(p, a)) < Measure(p)
  {
    hide Sum;
    var q := Next(p, a);
    match a {
      case CallLock(j) => SumUpdate(p.calls, j, q.calls[j], CallWeight);
      case CallCheck(j) => SumUpdate(p.calls, j, q.calls[j], CallWeight);
      case CallPush(j) =>
      case CallUnlock(j) => SumUpdate(p.calls, j, q.calls[j], CallWeight);
      case CallNotify(j, i) =>
        SumUpdate(p.calls, j, q.calls[j], CallWeight);
        if AnyWaiting(p.workers) {
          SumUpdate(p.workers, i, Woken, WorkerWeight);
        }
    }
  }

  lemma DestructorDescends(p: Pool, a: Action)
    requires StopInv(p) && p.stop && Enabled(p, a) && IsDestructorStep(a)
    ensures Measure(Next(p, a)) < Measure(p)
  {
    hide Sum;
    if a.DestroyNotify? {
      WakeAllWeight(p.workers);
    }
  }

  lemma StartAscends(p: Pool, a: Action)
    requires a.CallStart?
    ensures Measure(Next(p, a)) == Measure(p) + 3
  {
    hide Sum;
    SumAppend(p.calls, Calling(a.task), CallWeight);
  }

  lemma StopIsKept(p: Pool, a: Action)
    requires TestedInv(p) && p.stop && Enabled(p, a)
    ensures Next(p, a).stop && |Next(p, a).tasks| <= |p.tasks|
  {
  }

  /** With stop set, every step but a new call lowers the measure, and a new call adds three. */
  lemma StoppedDescends(n: nat, p: Pool, a: Action)
    requires Inv(n, p) && p.stop && Enabled(p, a)
    ensures Next(p, a).stop && |Next(p, a).tasks| <= |p.tasks|
    ensures !a.CallStart? ==> Measure(Next(p, a)) < Measure(p)
    ensures a.CallStart? ==> Measure(Next(p, a)) == Measure(p) + 3
  {
    hide Measure, Next, Enabled, TestedInv, StopInv;
    StopIsKept(p, a);
    if IsWorkerStep(a) {
      WorkerDescends(p, a);
    } else if a.CallStart? {
      StartAscends(p, a);
    } else if IsCallStep(a) {
      CallDescends(p, a);
    } else {
      DestructorDescends(p, a);
    }
  }

  // ----- runs after stop -----

  function NewCalls(acts: seq<Action>): nat {
    if acts == [] then 0 else (if acts[0].CallStart? then 1 else 0) + NewCalls(acts[1..])
  }

  /** A run from a stopped state is no longer than the measure there and four steps a new call. */
  lemma {:induction false} StoppedRunIsBounded(n: nat, p: Pool, acts: seq<Action>, q: Pool)
    requires Inv(n, p) && p.stop && Leads(p, acts, q)
    ensures |acts| + Measure(q) <= Measure(p) + 4 * NewCalls(acts)
    ensures q.stop && |q.tasks| <= |p.tasks|
    decreases acts
  {
    if acts != [] {
      hide Inv, Enabled, Next, Measure;
      StoppedDescends(n, p, acts[0]);
      NextInv(n, p, acts[0]);
      StoppedRunIsBounded(n, Next(p, acts[0]), acts[1..], q);
    }
  }

  /** No worker falls asleep again once stop is set. */
  lemma NoSleepAfterStop(p: Pool, a: Action, i: nat)
    requires p.stop && Enabled(p, a) && i < |p.workers|
    ensures i < |Next(p, a).workers|
    ensures Next(p, a).workers[i].Waiting? ==> p.workers[i].Waiting?
  {
  }

  /**
    Shutdown terminates: from a reachable stopped state, a run that starts no new call has at most
    Measure(p) steps, and where no thread can move the destructor has returned, every worker has
    exited and every accepted task has completed.
   */
  lemma ShutdownCompletes(n: nat, p: Pool, acts: seq<Action>, q: Pool)
    requires n > 0 && Reachable(n, p) && p.stop && Leads(p, acts, q) && NewCalls(acts) == 0
    ensures |acts| <= Measure(p)
    ensures Stuck(q) ==> q.destructor.Done? && Drained(q) && forall i :: 0 <= i < |q.workers| ==> q.workers[i].Exited?
  {
    hide Measure, Next, Enabled;
    ReachableInv(n, p);
    StoppedRunIsBounded(n, p, acts, q);
    ReachableLeads(n, p, acts, q);
    if Stuck(q) {
      NoDeadlock(n, q);
      ReachableInv(n, q);
      DrainOnShutdown(n, q);
    }
  }

  lemma {:induction false} ReachableLeads(n: nat, p: Pool, acts: seq<Action>, q: Pool)
    requires Reachable(n, p) && Leads(p, acts, q)
    ensures Reachable(n, q)
    decreases acts
  {
    if acts != [] {
      hide Enabled, Next, Reachable;
      ReachableStep(n, p, acts[0]);
      ReachableLeads(n, Next(p, acts[0]), acts[1..], q);
    }
  }
}
