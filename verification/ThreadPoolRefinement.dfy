/**
  The pool with its mutex, sleeping workers and half-done calls is, seen from outside, a FIFO queue
  that accepts tasks until it is closed, begins them in order and completes the ones begun.
 */
module ThreadPoolRefinement {
  import opened ThreadPool
  import opened ThreadPoolInvariant

  datatype Queue = Queue(queued: seq<Task>, running: multiset<Task>, done: multiset<Task>, closed: bool)

  datatype Event = Silent | Accept(task: Task) | Begin(task: Task) | End(task: Task) | Close

  predicate Possible(s: Queue, e: Event) {
    match e
    case Silent => true
    case Accept(t) => !s.closed
    case Begin(t) => s.queued != [] && s.queued[0] == t
    case End(t) => t in s.running
    case Close => !s.closed
  }

  function After(s: Queue, e: Event): Queue
    requires Possible(s, e)
  {
    match e
    case Silent => s
    case Accept(t) => s.(queued := s.queued + [t])
    case Begin(t) => s.(queued := s.queued[1..], running := s.running + multiset{t})
    case End(t) => s.(running := s.running - multiset{t}, done := s.done + multiset{t})
    case Close => s.(closed := true)
  }

  function Abstract(p: Pool): Queue {
    Queue(p.tasks, Gather(p.workers, InHand), p.completed, p.stop)
  }

  /** The step of the queue that a step of the pool takes. */
  function Visible(p: Pool, a: Action): Event
    requires Enabled(p, a)
  {
    match a
    case CallPush(j) => Accept(p.calls[j].task)
    case WorkerTake(i) => if p.tasks == [] then Silent else Begin(p.tasks[0])
    case WorkerFinish(i) => End(p.workers[i].task)
    case DestroyStop => Close
    case _ => Silent
  }

  lemma BeginRefines(p: Pool, i: nat)
    requires Enabled(p, WorkerTake(i)) && p.tasks != []
    ensures Gather(Next(p, WorkerTake(i)).workers, InHand) == Gather(p.workers, InHand) + multiset{p.tasks[0]}
  {
    hide Gather;
    InHandUpdate(p.workers, i, Taken(p.tasks[0]));
  }

  lemma EndRefines(p: Pool, i: nat)
    requires Enabled(p, WorkerFinish(i))
    ensures p.workers[i].task in Gather(p.workers, InHand)
    ensures Gather(Next(p, WorkerFinish(i)).workers, InHand) == Gather(p.workers, InHand) - multiset{p.workers[i].task}
  {
    hide Gather;
    var t := p.workers[i].task;
    InHandUpdate(p.workers, i, Ready);
    assert Gather(p.workers, InHand) - multiset{t} == Gather(p.workers[i := Ready], InHand);
  }

  lemma OtherRefines(p: Pool, a: Action)
    requires TestedInv(p) && StopInv(p) && Enabled(p, a)
    requires !(a.WorkerTake? && p.tasks != []) && !a.WorkerFinish?
    ensures Possible(Abstract(p), Visible(p, a))
    ensures Abstract(Next(p, a)) == After(Abstract(p), Visible(p, a))
  {
    hide Gather;
    SameHand(p, a);
  }

  /**
    Each step of the pool is a possible step of the queue, or invisible. In particular a task is
    accepted only while the queue is open, although stop is tested in an earlier step.
   */
  lemma StepRefines(n: nat, p: Pool, a: Action)
    requires Inv(n, p) && Enabled(p, a)
    ensures Possible(Abstract(p), Visible(p, a))
    ensures Abstract(Next(p, a)) == After(Abstract(p), Visible(p, a))
  {
    hide Gather;
    if a.WorkerTake? && p.tasks != [] {
      BeginRefines(p, a.i);
    } else if a.WorkerFinish? {
      EndRefines(p, a.i);
    } else {
      OtherRefines(p, a);
    }
  }

  /** The events of a run, in order. */
  function Trace(p: Pool, acts: seq<Action>, q: Pool): seq<Event>
    requires Leads(p, acts, q)
    decreases acts
  {
    if acts == [] then []
    else [Visible(p, acts[0])] + Trace(Next(p, acts[0]), acts[1..], q)
  }

  predicate Accounts(s: Queue, events: seq<Event>, r: Queue)
    decreases events
  {
    if events == [] then s == r
    else Possible(s, events[0]) && Accounts(After(s, events[0]), events[1..], r)
  }

  /** Every run of the pool is a run of the queue. */
  lemma {:induction false} RunRefines(n: nat, p: Pool, acts: seq<Action>, q: Pool)
    requires Inv(n, p) && Leads(p, acts, q)
    ensures Accounts(Abstract(p), Trace(p, acts, q), Abstract(q))
    decreases acts
  {
    if acts != [] {
      hide Inv, Enabled, Next, Abstract, Visible, Possible, After;
      StepRefines(n, p, acts[0]);
      NextInv(n, p, acts[0]);
      RunRefines(n, Next(p, acts[0]), acts[1..], q);
      assert Trace(p, acts, q)[1..] == Trace(Next(p, acts[0]), acts[1..], q);
    }
  }
}
