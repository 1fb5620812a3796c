/**
  Every run of the pool, live or stopped, is as long as what is asked of it from outside allows:
  each step of a thread uses up part of a finite effort that only new calls and spurious wakeups
  add to. So when no more is asked the pool comes to rest, and at rest every accepted task is done.
 */
module ThreadPoolProgress {
  import opened ThreadPool
  import opened ThreadPoolInvariant
  import opened ThreadPoolTheorems
  import opened ThreadPoolShutdown

  // ----- the effort that is left -----

  /** A worker's way to sleep or to its end; waking up from sleep costs four. */
  function WorkerEffort(w: Worker): nat {
    match w
    case Exited => 0
    case Waiting => 0
    case Leaving => 1
    case Passed => 2
    case Checking => 3
    case Ready => 4
    case Woken => 4
    case Executing(_) => 5
    case Taken(_) => 6
  }

  /** A call's own steps, the task it pushes and the worker it wakes. */
  function CallEffort(c: Call): nat {
    match c
    case Returned(_) => 0
    case Threw(_) => 0
    case Refusing(_) => 1
    case Notifying(_) => 5
    case Pushed(_) => 6
    case Admitted(_) => 12
    case Locked(_) => 13
    case Calling(_) => 14
  }

  /** The destructor's own steps and the workers it wakes. */
  function DestructorEffort(n: nat, d: Destructor): nat {
    match d
    case Done => 0
    case Joining(k) => if k <= n then n - k + 1 else 1
    case Unlocked => 5 * n + 2
    case StopSet => 5 * n + 3
    case Inside => 5 * n + 4
    case Entered => 5 * n + 5
    case NotCalled => 5 * n + 6
  }

  function Effort(p: Pool): nat {
    5 * |p.tasks| + Sum(p.workers, WorkerEffort) + Sum(p.calls, CallEffort)
    + DestructorEffort(|p.workers|, p.destructor)
  }

  lemma {:induction false} WakeAllEffort(ws: seq<Worker>)
    ensures Sum(WakeAll(ws), WorkerEffort) <= Sum(ws, WorkerEffort) + 4 * |ws|
  {
    if ws != [] {
      assert WakeAll(ws)[1..] == WakeAll(ws[1..]);
      WakeAllEffort(ws[1..]);
    }
  }

  lemma WorkerSpends(p: Pool, a: Action)
    requires Enabled(p, a) && IsWorkerStep(a)
    ensures !a.WorkerWake? ==> Effort(Next(p, a)) < Effort(p)
    ensures a.WorkerWake? ==> Effort(Next(p, a)) == Effort(p) + 4
  {
    hide Sum;
    var q := Next(p, a);
    match a {
      case WorkerLock(i) => SumUpdate(p.workers, i, q.workers[i], WorkerEffort);
      case WorkerCheck(i) => SumUpdate(p.workers, i, q.workers[i], WorkerEffort);
      case WorkerTake(i) => SumUpdate(p.workers, i, q.workers[i], WorkerEffort);
      case WorkerUnlock(i) => SumUpdate(p.workers, i, q.workers[i], WorkerEffort);
      case WorkerFinish(i) => SumUpdate(p.workers, i, q.workers[i], WorkerEffort);
      case WorkerWake(i) => SumUpdate(p.workers, i, q.workers[i], WorkerEffort);
    }
  }

  lemma CallSpends(p: Pool, a: Action)
    requires Enabled(p, a) && IsCallStep(a)
    ensures !a.CallStart? ==> Effort(Next(p, a)) < Effort(p)
    ensures a.CallStart? ==> Effort(Next(p, a)) == Effort(p) + 14
  {
    hide Sum;
    var q := Next(p, a);
    match a {
      case CallStart(t) => SumAppend(p.calls, Calling(t), CallEffort);
      case CallLock(j) => SumUpdate(p.calls, j, q.calls[j], CallEffort);
      case CallCheck(j) => SumUpdate(p.calls, j, q.calls[j], CallEffort);
      case CallPush(j) => SumUpdate(p.calls, j, q.calls[j], CallEffort);
      case CallUnlock(j) => SumUpdate(p.calls, j, q.calls[j], CallEffort);
      case CallNotify(j, i) =>
        SumUpdate(p.calls, j, q.calls[j], CallEffort);
        if AnyWaiting(p.workers) {
          SumUpdate(p.workers, i, Woken, WorkerEffort);
        }
    }
  }

  lemma DestructorSpends(p: Pool, a: Action)
    requires Enabled(p, a) && IsDestructorStep(a)
    ensures Effort(Next(p, a)) < Effort(p)
  {
    hide Sum;
    if a.DestroyNotify? {
      WakeAllEffort(p.workers);
    }
  }

  /** What a step may add: fourteen for a new call, four for a spurious wakeup; any other step costs one or more. */
  lemma StepSpends(p: Pool, a: Action)
    requires Enabled(p, a)
    ensures Effort(Next(p, a)) + 1 <= Effort(p) + Asks(a)
  {
    hide Effort, Next, Enabled;
    if IsWorkerStep(a) {
      WorkerSpends(p, a);
    } else if IsCallStep(a) {
      CallSpends(p, a);
    } else {
      DestructorSpends(p, a);
    }
  }

  // ----- whole runs -----

  function Asks(a: Action): nat {
    if a.CallStart? then 15 else if a.WorkerWake? then 5 else 0
  }

  function Asked(acts: seq<Action>): nat {
    if acts == [] then 0 else Asks(acts[0]) + Asked(acts[1..])
  }

  /** No run is longer than the effort left at its start and what is asked of it on the way. */
  lemma {:induction false} RunIsBounded(p: Pool, acts: seq<Action>, q: Pool)
    requires Leads(p, acts, q)
    ensures |acts| + Effort(q) <= Effort(p) + Asked(acts)
    decreases acts
  {
    if acts != [] {
      hide Enabled, Next, Effort, Asks;
      StepSpends(p, acts[0]);
      RunIsBounded(Next(p, acts[0]), acts[1..], q);
    }
  }

  lemma {:induction false} OwnStepsAskNothing(acts: seq<Action>)
    requires forall a :: a in acts ==> Internal(a)
    ensures Asked(acts) == 0
  {
    if acts != [] {
      assert acts[0] in acts;
      OwnStepsAskNothing(acts[1..]);
    }
  }

  /** Left to itself the pool stops moving within Effort(p) steps, and wherever it stops all tasks are done. */
  lemma QuietRunFinishes(n: nat, p: Pool, acts: seq<Action>, q: Pool)
    requires n > 0 && Reachable(n, p) && Leads(p, acts, q)
    requires forall a :: a in acts ==> Internal(a)
    ensures |acts| <= Effort(p)
    ensures Stuck(q) ==> q.tasks == [] && q.completed == multiset(q.accepted)
  {
    hide Effort, Leads, Reachable, Internal;
    OwnStepsAskNothing(acts);
    RunIsBounded(p, acts, q);
    ReachableLeads(n, p, acts, q);
    if Stuck(q) {
      NoDeadlock(n, q);
    }
  }

  /**
    Every accepted task completes: from any reachable state the threads' own steps lead, after at
    most Effort(p) of them, to a state where none can move, and there nothing is left undone.
   */
  lemma {:induction false} ComesToRest(n: nat, p: Pool) returns (acts: seq<Action>, q: Pool)
    requires n > 0 && Reachable(n, p)
    ensures Leads(p, acts, q) && |acts| <= Effort(p)
    ensures forall a :: a in acts ==> Internal(a)
    ensures Stuck(q) && q.tasks == [] && q.completed == multiset(q.accepted) && p.accepted <= q.accepted
    decreases Effort(p)
  {
    if Stuck(p) {
      acts, q := [], p;
      NoDeadlock(n, p);
    } else {
      hide Enabled, Next, Effort, Reachable, Leads;
      var a :| Internal(a) && Enabled(p, a);
      StepSpends(p, a);
      ReachableStep(n, p, a);
      var rest;
      rest, q := ComesToRest(n, Next(p, a));
      acts := [a] + rest;
      LeadsCons(p, a, rest, q);
      AcceptedGrows(p, a);
    }
  }

  lemma AcceptedGrows(p: Pool, a: Action)
    requires Enabled(p, a)
    ensures p.accepted <= Next(p, a).accepted
  {
  }
}
