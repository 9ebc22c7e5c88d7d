/** The single-worker task queue of the background items: threads submit tasks under a mutex, one
    worker drains the queue, clears `thread` and exits.  Every statement that touches shared state
    is one step, and the steps of all threads interleave freely. */
module ThreadQueue {
  import opened Text

  type Task = nat

  /** Who holds thread_mutex. */
  datatype Holder = Free | Submitter(s: nat) | Worker(w: nat)

  /** Where a thread is inside run_in_thread. */
  datatype SubmitPc =
    | Idle                   // outside the function
    | Ready(task: Task)      // the RunInThread record is allocated, the mutex not yet taken
    | Locked(task: Task)     // holds the mutex
    | Pushed                 // the task is at the tail of the queue
    | Created(worker: nat)   // g_thread_new has returned, `thread` not yet assigned
    | Leaving                // about to unlock

  /** Where a worker is inside run_in_thread_worker. */
  datatype WorkerPc =
    | Loop                   // at the head of the loop, about to lock
    | Holding                // holds the mutex, has not looked at the queue
    | Took(task: Task)       // holds the mutex and the unlinked head
    | Running(task: Task)    // has unlocked and executes the task
    | Closing                // found the queue empty, has cleared `thread`, still holds the mutex
    | Exiting                // has unlocked, not yet returned
    | Done

  datatype State = State(
    lock: Holder,
    queue: seq<Task>,
    thread: Option<nat>,
    subs: seq<SubmitPc>,
    workers: seq<WorkerPc>,
    submitted: seq<Task>,    // history: tasks in the order they were pushed
    finished: seq<Task>)     // history: tasks in the order they were completed

  datatype SubmitStep = SLock | Push | Create | Assign | SUnlock
  datatype WorkStep = WLock | Look | WUnlock | Finish | Return

  datatype Action =
    | Call(s: nat, task: Task)              // a thread enters run_in_thread
    | Submit(s: nat, sstep: SubmitStep)     // it takes its next step there
    | Work(w: nat, wstep: WorkStep)         // a worker takes its next step

  function Init(n: nat): State {
    State(Free, [], None, seq(n, _ => Idle), [], [], [])
  }

  predicate SubmitEnabled(s: State, pc: SubmitPc, step: SubmitStep) {
    match step
    case SLock => pc.Ready? && s.lock == Free
    case Push => pc.Locked?
    case Create => pc == Pushed && s.thread == None
    case Assign => pc.Created?
    case SUnlock => pc == Leaving || (pc == Pushed && s.thread.Some?)
  }

  predicate WorkEnabled(s: State, pc: WorkerPc, step: WorkStep) {
    match step
    case WLock => pc == Loop && s.lock == Free
    case Look => pc == Holding
    case WUnlock => pc.Took? || pc == Closing
    case Finish => pc.Running?
    case Return => pc == Exiting
  }

  predicate Enabled(s: State, a: Action) {
    match a
    case Call(i, _) => i < |s.subs| && s.subs[i] == Idle
    case Submit(i, step) => i < |s.subs| && SubmitEnabled(s, s.subs[i], step)
    case Work(w, step) => w < |s.workers| && WorkEnabled(s, s.workers[w], step)
  }

  function Apply(s: State, a: Action): State
    requires Enabled(s, a)
  {
    match a
    case Call(i, t) => s.(subs := s.subs[i := Ready(t)])
    case Submit(i, step) => ApplySubmit(s, i, step)
    case Work(w, step) => ApplyWork(s, w, step)
  }

  function ApplySubmit(s: State, i: nat, step: SubmitStep): State
    requires i < |s.subs| && SubmitEnabled(s, s.subs[i], step)
  {
    match step
    case SLock => s.(lock := Submitter(i), subs := s.subs[i := Locked(s.subs[i].task)])
    case Push =>
      var t := s.subs[i].task;
      s.(queue := s.queue + [t], submitted := s.submitted + [t], subs := s.subs[i := Pushed])
    case Create =>
      s.(workers := s.workers + [Loop], subs := s.subs[i := Created(|s.workers|)])
    case Assign => s.(thread := Some(s.subs[i].worker), subs := s.subs[i := Leaving])
    case SUnlock => s.(lock := Free, subs := s.subs[i := Idle])
  }

  function ApplyWork(s: State, w: nat, step: WorkStep): State
    requires w < |s.workers| && WorkEnabled(s, s.workers[w], step)
  {
    match step
    case WLock => s.(lock := Worker(w), workers := s.workers[w := Holding])
    case Look =>
      if s.queue != [] then
        s.(queue := s.queue[1..], workers := s.workers[w := Took(s.queue[0])])
      else
        s.(thread := None, workers := s.workers[w := Closing])
    case WUnlock =>
      s.(lock := Free,
         workers := s.workers[w := if s.workers[w].Took? then Running(s.workers[w].task) else Exiting])
    case Finish =>
      s.(finished := s.finished + [s.workers[w].task], workers := s.workers[w := Loop])
    case Return => s.(workers := s.workers[w := Done])
  }

  /** The state a schedule leads to; None if some step of it could not happen. */
  function Exec(s: State, acts: seq<Action>): Option<State>
    decreases |acts|
  {
    if acts == [] then Some(s)
    else if Enabled(s, acts[0]) then Exec(Apply(s, acts[0]), acts[1..])
    else None
  }

  /** The worker has not decided to exit. */
  predicate Live(pc: WorkerPc) { pc.Loop? || pc.Holding? || pc.Took? || pc.Running? }

  /** The tasks that workers have unlinked and not completed, in worker order. */
  function InHand(workers: seq<WorkerPc>): seq<Task> {
    if workers == [] then []
    else (if workers[0].Took? || workers[0].Running? then [workers[0].task] else []) + InHand(workers[1..])
  }

  // ---- what every step keeps ----

  predicate SubmitterHolds(pc: SubmitPc) { pc.Locked? || pc.Pushed? || pc.Created? || pc.Leaving? }
  predicate WorkerHolds(pc: WorkerPc) { pc.Holding? || pc.Took? || pc.Closing? }

  /** A submitter has created worker w and not yet stored it in `thread`. */
  ghost predicate Newborn(s: State, w: nat) {
    s.lock.Submitter? && s.lock.s < |s.subs| && s.subs[s.lock.s] == Created(w)
  }

  ghost predicate LockAgrees(s: State) {
    && (s.lock.Submitter? ==> s.lock.s < |s.subs|)
    && (s.lock.Worker? ==> s.lock.w < |s.workers|)
    && (forall i :: 0 <= i < |s.subs| ==> (SubmitterHolds(s.subs[i]) <==> s.lock == Submitter(i)))
    && (forall w :: 0 <= w < |s.workers| ==> (WorkerHolds(s.workers[w]) <==> s.lock == Worker(w)))
  }

  ghost predicate ThreadAgrees(s: State) {
    && (s.thread.Some? ==> s.thread.value < |s.workers|)
    && (forall w: nat :: Newborn(s, w) ==> w < |s.workers| && s.thread == None && s.workers[w] == Loop)
    && (forall w :: 0 <= w < |s.workers| ==> (Live(s.workers[w]) <==> s.thread == Some(w) || Newborn(s, w)))
  }

  /** The task in the hands of the worker that `thread` names. */
  function Current(s: State): seq<Task> {
    if s.thread.Some? && s.thread.value < |s.workers|
       && (s.workers[s.thread.value].Took? || s.workers[s.thread.value].Running?)
    then [s.workers[s.thread.value].task] else []
  }

  ghost predicate Inv(s: State) {
    && LockAgrees(s)
    && ThreadAgrees(s)
    && (s.queue != [] && s.thread == None ==>
          s.lock.Submitter? && (s.subs[s.lock.s].Pushed? || s.subs[s.lock.s].Created?))
    && s.submitted == s.finished + Current(s) + s.queue
  }

  lemma CallKeepsInv(s: State, i: nat, t: Task)
    requires Inv(s) && Enabled(s, Call(i, t))
    ensures Inv(Apply(s, Call(i, t)))
  {
    var s' := Apply(s, Call(i, t));
    assert forall w: nat :: Newborn(s', w) <==> Newborn(s, w);
    assert LockAgrees(s');
  }

  lemma SubmitKeepsInv(s: State, i: nat, step: SubmitStep)
    requires Inv(s) && Enabled(s, Submit(i, step))
    ensures Inv(ApplySubmit(s, i, step))
  {
    var s' := ApplySubmit(s, i, step);
    assert LockAgrees(s');
    match step {
      case Create =>
        assert Newborn(s', |s.workers|);
        assert forall w: nat :: Newborn(s', w) ==> w == |s.workers|;
        assert forall w: nat :: !Newborn(s, w);
      case Assign =>
        assert Newborn(s, s.subs[i].worker);
        assert forall w: nat :: Newborn(s, w) ==> w == s.subs[i].worker;
        assert forall w: nat :: !Newborn(s', w);
      case Push =>
        assert forall w: nat :: !Newborn(s, w) && !Newborn(s', w);
        assert s'.submitted == s'.finished + Current(s') + s'.queue;
      case SLock =>
        assert forall w: nat :: !Newborn(s, w) && !Newborn(s', w);
      case SUnlock =>
        assert forall w: nat :: !Newborn(s, w) && !Newborn(s', w);
    }
  }

  lemma WorkKeepsThread(s: State, w: nat, step: WorkStep)
    requires Inv(s) && Enabled(s, Work(w, step))
    ensures LockAgrees(ApplyWork(s, w, step)) && ThreadAgrees(ApplyWork(s, w, step))
  {
    var s' := ApplyWork(s, w, step);
    assert forall v: nat :: Newborn(s, v) <==> Newborn(s', v);
  }

  lemma WorkKeepsInv(s: State, w: nat, step: WorkStep)
    requires Inv(s) && Enabled(s, Work(w, step))
    ensures Inv(ApplyWork(s, w, step))
  {
    WorkKeepsThread(s, w, step);
    if step == Look || step == Finish {
      assert s.thread == Some(w);
      assert s.queue != [] ==> s.queue == [s.queue[0]] + s.queue[1..];
    }
  }

  lemma StepKeepsInv(s: State, a: Action)
    requires Inv(s) && Enabled(s, a)
    ensures Inv(Apply(s, a))
  {
    match a
    case Call(i, t) => CallKeepsInv(s, i, t);
    case Submit(i, step) => SubmitKeepsInv(s, i, step);
    case Work(w, step) => WorkKeepsInv(s, w, step);
  }

  lemma {:induction false} RunKeepsInv(s: State, acts: seq<Action>)
    requires Inv(s) && Exec(s, acts).Some?
    ensures Inv(Exec(s, acts).value)
    decreases |acts|
  {
    if acts != [] {
      StepKeepsInv(s, acts[0]);
      RunKeepsInv(Apply(s, acts[0]), acts[1..]);
    }
  }

  lemma {:induction false} InHandOfOne(workers: seq<WorkerPc>, w: nat)
    requires w < |workers|
    requires forall v :: 0 <= v < |workers| && v != w ==> !workers[v].Took? && !workers[v].Running?
    ensures InHand(workers) ==
            if workers[w].Took? || workers[w].Running? then [workers[w].task] else []
  {
    if w == 0 {
      InHandOfNone(workers[1..]);
    } else {
      InHandOfOne(workers[1..], w - 1);
    }
  }

  lemma {:induction false} InHandOfNone(workers: seq<WorkerPc>)
    requires forall v :: 0 <= v < |workers| ==> !workers[v].Took? && !workers[v].Running?
    ensures InHand(workers) == []
  {
    if workers != [] {
      InHandOfNone(workers[1..]);
    }
  }

  lemma InHandIsCurrent(s: State)
    requires Inv(s)
    ensures InHand(s.workers) == Current(s)
  {
    if s.thread.Some? {
      InHandOfOne(s.workers, s.thread.value);
    } else {
      InHandOfNone(s.workers);
    }
  }

  /** In every state of every schedule: tasks complete in submission order, each exactly once and at
      most one at a time; and whenever the mutex is free a non-empty queue has exactly one worker that
      has not decided to exit, the one `thread` names. */
  lemma Safety(n: nat, acts: seq<Action>)
    requires Exec(Init(n), acts).Some?
    ensures var s := Exec(Init(n), acts).value;
      && s.submitted == s.finished + InHand(s.workers) + s.queue
      && |InHand(s.workers)| <= 1
      && (s.lock == Free && s.queue != [] ==>
            && s.thread.Some? && s.thread.value < |s.workers|
            && forall w :: 0 <= w < |s.workers| ==> (Live(s.workers[w]) <==> w == s.thread.value))
  {
    RunKeepsInv(Init(n), acts);
    var s := Exec(Init(n), acts).value;
    InHandIsCurrent(s);
    assert s.lock == Free ==> forall w: nat :: !Newborn(s, w);
  }

  // ---- draining once submissions stop ----

  function SubmitWeight(pc: SubmitPc): nat {
    match pc
    case Idle => 0 case Ready(_) => 15 case Locked(_) => 14 case Pushed => 9 case Created(_) => 2 case Leaving => 1
  }

  function WorkerWeight(pc: WorkerPc): nat {
    match pc
    case Took(_) => 8 case Running(_) => 7 case Loop => 6 case Holding => 5
    case Closing => 2 case Exiting => 1 case Done => 0
  }

  function SubmitWeights(pcs: seq<SubmitPc>): nat {
    if pcs == [] then 0 else SubmitWeight(pcs[0]) + SubmitWeights(pcs[1..])
  }

  function WorkerWeights(pcs: seq<WorkerPc>): nat {
    if pcs == [] then 0 else WorkerWeight(pcs[0]) + WorkerWeights(pcs[1..])
  }

  /** How many more steps the system can take without a new submission. */
  function Weight(s: State): nat {
    4 * |s.queue| + SubmitWeights(s.subs) + WorkerWeights(s.workers)
  }

  lemma {:induction false} SubmitWeightsUpdate(pcs: seq<SubmitPc>, i: nat, pc: SubmitPc)
    requires i < |pcs|
    ensures SubmitWeights(pcs[i := pc]) + SubmitWeight(pcs[i]) == SubmitWeights(pcs) + SubmitWeight(pc)
  {
    if i == 0 {
      assert pcs[i := pc][1..] == pcs[1..];
    } else {
      assert pcs[i := pc][1..] == pcs[1..][i - 1 := pc];
      SubmitWeightsUpdate(pcs[1..], i - 1, pc);
    }
  }

  lemma {:induction false} WorkerWeightsUpdate(pcs: seq<WorkerPc>, i: nat, pc: WorkerPc)
    requires i < |pcs|
    ensures WorkerWeights(pcs[i := pc]) + WorkerWeight(pcs[i]) == WorkerWeights(pcs) + WorkerWeight(pc)
  {
    if i == 0 {
      assert pcs[i := pc][1..] == pcs[1..];
    } else {
      assert pcs[i := pc][1..] == pcs[1..][i - 1 := pc];
      WorkerWeightsUpdate(pcs[1..], i - 1, pc);
    }
  }

  lemma {:induction false} WorkerWeightsAppend(pcs: seq<WorkerPc>, pc: WorkerPc)
    ensures WorkerWeights(pcs + [pc]) == WorkerWeights(pcs) + WorkerWeight(pc)
  {
    if pcs != [] {
      assert (pcs + [pc])[1..] == pcs[1..] + [pc];
      WorkerWeightsAppend(pcs[1..], pc);
    }
  }

  lemma StepLosesWeight(s: State, a: Action)
    requires Enabled(s, a) && !a.Call?
    ensures Weight(Apply(s, a)) < Weight(s)
  {
    var s' := Apply(s, a);
    if a.Submit? {
      SubmitWeightsUpdate(s.subs, a.s, s'.subs[a.s]);
      if a.sstep == Create {
        WorkerWeightsAppend(s.workers, Loop);
      }
    } else {
      WorkerWeightsUpdate(s.workers, a.w, s'.workers[a.w]);
    }
  }

  /** Nothing is left to do: no call in progress, no worker alive, every submitted task executed. */
  ghost predicate Quiescent(s: State) {
    && s.queue == [] && s.thread == None && s.lock == Free
    && s.finished == s.submitted
    && (forall i :: 0 <= i < |s.subs| ==> s.subs[i] == Idle)
    && (forall w :: 0 <= w < |s.workers| ==> s.workers[w] == Done)
  }

  /** No deadlock: a state that is not quiescent has a step other than a new submission. */
  lemma SomeStep(s: State) returns (a: Action)
    requires Inv(s) && !Quiescent(s)
    ensures Enabled(s, a) && !a.Call?
  {
    if s.lock.Submitter? {
      var i := s.lock.s;
      assert SubmitterHolds(s.subs[i]);
      a := Submit(i, if s.subs[i].Locked? then Push
                     else if s.subs[i].Created? then Assign
                     else if s.subs[i] == Pushed && s.thread == None then Create
                     else SUnlock);
    } else if s.lock.Worker? {
      var w := s.lock.w;
      assert WorkerHolds(s.workers[w]);
      a := Work(w, if s.workers[w] == Holding then Look else WUnlock);
    } else if i :| 0 <= i < |s.subs| && s.subs[i] != Idle {
      assert !SubmitterHolds(s.subs[i]);
      a := Submit(i, SLock);
    } else if w :| 0 <= w < |s.workers| && s.workers[w] != Done {
      assert !WorkerHolds(s.workers[w]);
      a := Work(w, if s.workers[w].Running? then Finish
                   else if s.workers[w] == Exiting then Return
                   else WLock);
    } else {
      assert s.thread.Some? ==> Live(s.workers[s.thread.value]);
      assert s.submitted == s.finished + Current(s) + s.queue;
      assert Quiescent(s);
      assert false;
    }
  }

  lemma {:induction false} StepsBounded(s: State, acts: seq<Action>)
    requires Exec(s, acts).Some? && forall k :: 0 <= k < |acts| ==> !acts[k].Call?
    ensures |acts| + Weight(Exec(s, acts).value) <= Weight(s)
    decreases |acts|
  {
    if acts != [] {
      StepLosesWeight(s, acts[0]);
      StepsBounded(Apply(s, acts[0]), acts[1..]);
    }
  }

  lemma StuckIffQuiescent(s: State)
    requires Inv(s)
    ensures (forall a: Action :: Enabled(s, a) ==> a.Call?) <==> Quiescent(s)
  {
    if !Quiescent(s) {
      var a := SomeStep(s);
      assert Enabled(s, a);
    }
  }

  /** Every reachable state drains: without new submissions at most Weight(mid) further steps are
      possible, and the schedules that cannot be extended are exactly those that have executed
      everything that was submitted and left no worker behind. */
  lemma Drains(n: nat, before: seq<Action>, mid: State, after: seq<Action>, s: State)
    requires Exec(Init(n), before) == Some(mid) && Exec(mid, after) == Some(s)
    requires forall k :: 0 <= k < |after| ==> !after[k].Call?
    ensures |after| <= Weight(mid)
    ensures (forall a: Action :: Enabled(s, a) ==> a.Call?) <==> Quiescent(s)
  {
    RunKeepsInv(Init(n), before);
    RunKeepsInv(mid, after);
    StepsBounded(mid, after);
    StuckIffQuiescent(s);
  }

  function SubmitSection(i: nat): seq<Action> {
    [Submit(i, SLock), Submit(i, Push), Submit(i, Create), Submit(i, Assign), Submit(i, SUnlock)]
  }

  /** A submission that lands after an exiting worker has cleared `thread`, before that worker
      returns, gets a worker of its own. */
  lemma SubmitDuringExit(s: State, i: nat, w: nat)
    requires Inv(s) && s.lock == Free && i < |s.subs| && s.subs[i].Ready?
    requires w < |s.workers| && s.workers[w] == Exiting && s.thread == None
    ensures var r := Exec(s, SubmitSection(i));
      && r.Some? && r.value.thread == Some(|s.workers|) && w != |s.workers|
      && r.value.workers == s.workers + [Loop]
      && r.value.queue == [s.subs[i].task] && r.value.lock == Free
  {
    assert s.queue == [];
    var s1 := Apply(s, Submit(i, SLock));
    var s2 := Apply(s1, Submit(i, Push));
    var s3 := Apply(s2, Submit(i, Create));
    var s4 := Apply(s3, Submit(i, Assign));
    var s5 := Apply(s4, Submit(i, SUnlock));
    var acts := SubmitSection(i);
    assert Exec(s5, []) == Some(s5);
    assert acts[4..][1..] == [] && acts[3..][1..] == acts[4..] && acts[2..][1..] == acts[3..];
    assert Exec(s4, acts[4..]) == Some(s5);
    assert Exec(s3, acts[3..]) == Some(s5);
    assert Exec(s2, acts[2..]) == Some(s5);
    assert acts[1..][1..] == acts[2..];
    assert Exec(s1, acts[1..]) == Some(s5);
  }

  // ---- the critical sections, as written ----

  /** The file's three statics: the queue, `thread`, and the tasks executed so far. */
  class WorkQueue {
    var queue: seq<Task>
    var thread: Option<nat>
    var nextThread: nat      // the identity the next g_thread_new returns
    var executed: seq<Task>

    constructor ()
      ensures queue == [] && thread == None && executed == []
    {
      queue, thread, nextThread, executed := [], None, 0, [];
    }

    /** run_in_thread, between lock and unlock. */
    method RunInThread(task: Task) returns (spawned: bool)
      modifies this
      ensures queue == old(queue) + [task] && executed == old(executed)
      ensures spawned <==> old(thread) == None
      ensures thread == if spawned then Some(old(nextThread)) else old(thread)
      ensures nextThread == if spawned then old(nextThread) + 1 else old(nextThread)
    {
      spawned := false;
      queue := queue + [task];
      if thread == None {
        thread := Some(nextThread);
        nextThread := nextThread + 1;
        spawned := true;
      }
    }

    /** run_in_thread_worker when nothing is submitted meanwhile: it executes the whole queue in
        order and leaves no worker behind. */
    method RunInThreadWorker()
      modifies this
      ensures queue == [] && thread == None && nextThread == old(nextThread)
      ensures executed == old(executed) + old(queue)
    {
      var exiting := false;
      while !exiting
        invariant executed + queue == old(executed) + old(queue)
        invariant exiting ==> queue == [] && thread == None
        invariant nextThread == old(nextThread)
        decreases |queue|, !exiting
      {
        var state: Option<Task> := None;
        if queue != [] {
          state := Some(queue[0]);
          assert queue == [queue[0]] + queue[1..];
          queue := queue[1..];
        } else {
          exiting := true;
          thread := None;
        }
        if state.Some? {
          executed := executed + [state.value];
        }
      }
    }
  }
}
