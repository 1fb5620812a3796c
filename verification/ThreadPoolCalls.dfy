/**
  The tasks of whole runs, by what the callers passed in: the list of actions says which task each
  call of enqueue was given and which calls pushed, and the pool's queue, records and completed
  tasks are exactly those.
 */
module ThreadPoolCalls {
  import opened ThreadPool
  import opened ThreadPoolInvariant
  import opened ThreadPoolTheorems
  import opened ThreadPoolShutdown

  // ----- what the actions of a run say -----

  /** The tasks given to enqueue, in the order of the calls. */
  function Given(acts: seq<Action>): seq<Task> {
    if acts == [] then []
    else (if acts[0].CallStart? then [acts[0].task] else []) + Given(acts[1..])
  }

  /** The calls that pushed, in the order in which they did. */
  function Pushing(acts: seq<Action>): seq<nat> {
    if acts == [] then []
    else (if acts[0].CallPush? then [acts[0].j] else []) + Pushing(acts[1..])
  }

  // ----- a call keeps the task it was given -----

  /** The calls in cs are those in before and then one for each task in given. */
  ghost predicate Extends(before: seq<Call>, given: seq<Task>, cs: seq<Call>) {
    && |cs| == |before| + |given|
    && (forall j :: 0 <= j < |before| ==> cs[j].task == before[j].task)
    && (forall j :: |before| <= j < |cs| ==> cs[j].task == given[j - |before|])
  }

  lemma StepGiven(p: Pool, a: Action)
    requires Enabled(p, a)
    ensures Extends(p.calls, if a.CallStart? then [a.task] else [], Next(p, a).calls)
  {
  }

  lemma ExtendsTwice(before: seq<Call>, given: seq<Task>, middle: seq<Call>, more: seq<Task>, after: seq<Call>)
    requires Extends(before, given, middle) && Extends(middle, more, after)
    ensures Extends(before, given + more, after)
  {
  }

  /** A run keeps the calls there are, and starts one for each task given, with that task. */
  lemma {:induction false} RunGiven(p: Pool, acts: seq<Action>, q: Pool)
    requires Leads(p, acts, q)
    ensures Extends(p.calls, Given(acts), q.calls)
    decreases acts
  {
    if acts != [] {
      hide Enabled, Next, Extends;
      var r := Next(p, acts[0]);
      StepGiven(p, acts[0]);
      RunGiven(r, acts[1..], q);
      ExtendsTwice(p.calls, if acts[0].CallStart? then [acts[0].task] else [], r.calls, Given(acts[1..]), q.calls);
    }
  }

  /** From the start: call j has the j-th task given, and there are no other calls. */
  lemma EachCallHasItsTask(n: nat, acts: seq<Action>, p: Pool)
    requires Leads(Init(n), acts, p)
    ensures |p.calls| == |Given(acts)|
    ensures forall j :: 0 <= j < |p.calls| ==> p.calls[j].task == Given(acts)[j]
  {
    hide Leads, Given;
    RunGiven(Init(n), acts, p);
  }

  // ----- what is accepted is what was given -----

  lemma StepPushes(p: Pool, a: Action)
    requires Enabled(p, a)
    ensures a.CallPush? ==> a.j < |p.calls| && Next(p, a).accepted == p.accepted + [p.calls[a.j].task]
    ensures !a.CallPush? ==> Next(p, a).accepted == p.accepted
  {
  }

  /** The list tasks goes on with the tasks of the calls js, one after the other. */
  ghost predicate GoesOn(before: seq<Task>, js: seq<nat>, calls: seq<Call>, tasks: seq<Task>) {
    && |tasks| == |before| + |js| && before <= tasks
    && (forall i :: 0 <= i < |js| ==> js[i] < |calls| && tasks[|before| + i] == calls[js[i]].task)
  }

  lemma GoesOnTwice(before: seq<Task>, t: Task, j: nat, js: seq<nat>, calls: seq<Call>, tasks: seq<Task>)
    requires GoesOn(before + [t], js, calls, tasks) && j < |calls| && calls[j].task == t
    ensures GoesOn(before, [j] + js, calls, tasks)
  {
    assert tasks[|before|] == (before + [t])[|before|];
    forall i | 0 <= i < |[j] + js| ensures ([j] + js)[i] < |calls| && tasks[|before| + i] == calls[([j] + js)[i]].task {
      if i > 0 {
        assert tasks[|before + [t]| + (i - 1)] == calls[js[i - 1]].task;
      }
    }
    assert before <= before + [t];
  }

  lemma {:induction false} RunPushes(p: Pool, acts: seq<Action>, q: Pool)
    requires Leads(p, acts, q)
    ensures GoesOn(p.accepted, Pushing(acts), q.calls, q.accepted)
    decreases acts
  {
    if acts != [] {
      var a, r := acts[0], Next(p, acts[0]);
      StepPushes(p, a);
      RunGiven(p, acts, q);
      hide Enabled, Next, GoesOn;
      RunPushes(r, acts[1..], q);
      if a.CallPush? {
        GoesOnTwice(p.accepted, p.calls[a.j].task, a.j, Pushing(acts[1..]), q.calls, q.accepted);
      } else {
        assert [] + Pushing(acts[1..]) == Pushing(acts[1..]);
      }
    }
  }

  /** The tasks accepted are, in order, the ones given to the calls that pushed. */
  lemma AcceptedAsGiven(n: nat, acts: seq<Action>, p: Pool)
    requires Leads(Init(n), acts, p)
    ensures |p.accepted| == |Pushing(acts)|
    ensures forall i :: 0 <= i < |p.accepted| ==>
              Pushing(acts)[i] < |Given(acts)| && p.accepted[i] == Given(acts)[Pushing(acts)[i]]
  {
    hide Leads, Given, Pushing;
    EachCallHasItsTask(n, acts, p);
    RunPushes(Init(n), acts, p);
  }

  /** How often call j has pushed: once or not at all. */
  function Pushed(p: Pool, j: nat): nat {
    if j < |p.calls| && HasPushed(p.calls[j]) then 1 else 0
  }

  lemma StepPushed(p: Pool, a: Action, j: nat)
    requires Enabled(p, a)
    ensures Pushed(Next(p, a), j) == Pushed(p, j) + if a == CallPush(j) then 1 else 0
  {
  }

  lemma {:induction false} RunPushed(p: Pool, acts: seq<Action>, q: Pool, j: nat)
    requires Leads(p, acts, q)
    ensures Pushed(q, j) == Pushed(p, j) + multiset(Pushing(acts))[j]
    decreases acts
  {
    if acts != [] {
      hide Enabled, Next, Pushed;
      StepPushed(p, acts[0], j);
      RunPushed(Next(p, acts[0]), acts[1..], q, j);
      assert multiset([j] + Pushing(acts[1..])) == multiset{j} + multiset(Pushing(acts[1..]));
      assert [] + Pushing(acts[1..]) == Pushing(acts[1..]);
    }
  }

  /** No call pushes twice, and the ones that pushed are those on their way to return. */
  lemma EachCallPushesOnce(n: nat, acts: seq<Action>, p: Pool, j: nat)
    requires Leads(Init(n), acts, p) && j < |p.calls|
    ensures multiset(Pushing(acts))[j] == if HasPushed(p.calls[j]) then 1 else 0
  {
    hide Leads;
    RunPushed(Init(n), acts, p, j);
  }

  // ----- what becomes of every call -----

  /** Once stop is set no call pushes any more: nothing more is accepted, and no call from then on returns. */
  lemma {:induction false} NoPushAfterStop(n: nat, p: Pool, acts: seq<Action>, q: Pool)
    requires Inv(n, p) && p.stop && Leads(p, acts, q)
    ensures Pushing(acts) == [] && q.accepted == p.accepted
    ensures forall j :: |p.calls| <= j < |q.calls| ==> !HasPushed(q.calls[j])
    decreases acts
  {
    if acts != [] {
      assert !acts[0].CallPush?;
      hide Inv, Enabled, Next, Measure;
      StoppedDescends(n, p, acts[0]);
      NextInv(n, p, acts[0]);
      StepPushes(p, acts[0]);
      NoPushAfterStop(n, Next(p, acts[0]), acts[1..], q);
    }
    forall j | |p.calls| <= j < |q.calls| ensures !HasPushed(q.calls[j]) {
      RunPushed(p, acts, q, j);
    }
  }

  /** A call throws only after stop: in a pool that is not being destroyed every enqueue succeeds. */
  lemma ThrowsOnlyAfterStop(n: nat, p: Pool, j: nat)
    requires Reachable(n, p) && j < |p.calls| && p.calls[j].Threw?
    ensures p.stop
  {
    ReachableInv(n, p);
  }

  lemma {:induction false} DeliveredTask(calls: seq<Call>, j: nat)
    requires j < |calls| && HasPushed(calls[j])
    ensures calls[j].task in Gather(calls, Delivered)
  {
    if j > 0 {
      DeliveredTask(calls[1..], j - 1);
    }
  }

  /**
    When no thread can move any more, each enqueue of the run either threw, the pool being
    stopped, or had the very task it was given completed; and what completed is, counted with
    repetitions, what was given to the calls that pushed.
   */
  lemma EveryTaskGivenIsDone(n: nat, acts: seq<Action>, p: Pool)
    requires n > 0 && Leads(Init(n), acts, p) && Stuck(p)
    ensures |p.calls| == |Given(acts)|
    ensures forall j :: 0 <= j < |p.calls| ==>
              if j in Pushing(acts) then p.calls[j].Returned? && Given(acts)[j] in p.completed
              else p.calls[j].Threw? && p.stop
    ensures |p.accepted| == |Pushing(acts)| && p.completed == multiset(p.accepted)
    ensures forall i :: 0 <= i < |p.accepted| ==>
              Pushing(acts)[i] < |Given(acts)| && p.accepted[i] == Given(acts)[Pushing(acts)[i]]
  {
    hide Leads, Given, Pushing, Stuck, Gather, Inv;
    assert Reachable(n, p);
    EachCallHasItsTask(n, acts, p);
    AcceptedAsGiven(n, acts, p);
    NoDeadlock(n, p);
    ReachableInv(n, p);
    FifoAndConservation(n, p);
    GatherAtRest(n, p);
    forall j | 0 <= j < |p.calls|
      ensures if j in Pushing(acts) then p.calls[j].Returned? && Given(acts)[j] in p.completed
              else p.calls[j].Threw? && p.stop
    {
      EachCallPushesOnce(n, acts, p, j);
      if HasPushed(p.calls[j]) {
        DeliveredTask(p.calls, j);
      } else {
        ThrowsOnlyAfterStop(n, p, j);
      }
    }
  }

  lemma GatherAtRest(n: nat, p: Pool)
    requires Inv(n, p) && p.completed == multiset(p.accepted)
    ensures p.completed == Gather(p.calls, Delivered)
  {
    hide Gather;
  }
}
