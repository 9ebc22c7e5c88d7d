/** The object storage: objects are added once and stay; proxies are created synchronously or by tasks
    that are started, run in a thread and are finished later.  An assertion that fails ends the
    process, so a run goes on only while the assertions hold. */
module ObjectStorage {
  import opened Text

  type Key = string
  type Obj = nat

  datatype Status =
    | Pending              // the thread is creating the proxy
    | Ready(proxy: Obj)    // a pointer was returned
    | Failed               // an error was returned, or the task was cancelled
    | Done(got: Option<Obj>)

  datatype Task = Task(key: Key, cached: bool, status: Status)

  datatype State = State(
    objects: map<Key, Obj>,
    tasks: seq<Task>,
    received: seq<(Key, Obj)>)  // history: what successful callers were given

  datatype Event =
    | Add(key: Key, obj: Obj)
    | Sync(key: Key, made: Option<Obj>)   // made: what the D-Bus call returns, if it is made
    | Start(key: Key)
    | Return(t: nat, made: Option<Obj>)   // the thread returns
    | Cancel(t: nat)                      // the cancellable fires before the task is finished
    | Finish(t: nat)

  predicate Enabled(s: State, e: Event) {
    match e
    case Add(_, _) => true
    case Sync(_, _) => true
    case Start(_) => true
    case Return(t, _) => t < |s.tasks| && s.tasks[t].status == Pending
    case Cancel(t) => t < |s.tasks| && !s.tasks[t].status.Done?
    case Finish(t) => t < |s.tasks| && (s.tasks[t].status.Ready? || s.tasks[t].status == Failed)
  }

  /** The assertions the event runs into hold. */
  predicate Asserted(s: State, e: Event)
    requires Enabled(s, e)
  {
    if e.Add? then e.key !in s.objects
    else if e.Finish? && s.tasks[e.t].status.Ready? then s.tasks[e.t].cached == (s.tasks[e.t].key in s.objects)
    else true
  }

  function Give(s: State, key: Key, obj: Obj): State {
    s.(objects := if key in s.objects then s.objects else s.objects[key := obj],
       received := s.received + [(key, if key in s.objects then s.objects[key] else obj)])
  }

  function SetStatus(s: State, t: nat, status: Status): State
    requires t < |s.tasks|
  {
    s.(tasks := s.tasks[t := s.tasks[t].(status := status)])
  }

  function Apply(s: State, e: Event): State
    requires Enabled(s, e) && Asserted(s, e)
  {
    match e
    case Add(key, obj) => s.(objects := s.objects[key := obj])
    case Sync(key, made) =>
      if key in s.objects then Give(s, key, s.objects[key])
      else if made.Some? then Give(s, key, made.value)
      else s
    case Start(key) =>
      s.(tasks := s.tasks + [if key in s.objects then Task(key, true, Ready(s.objects[key]))
                             else Task(key, false, Pending)])
    case Return(t, made) => SetStatus(s, t, if made.Some? then Ready(made.value) else Failed)
    case Cancel(t) => SetStatus(s, t, Failed)
    case Finish(t) =>
      var task := s.tasks[t];
      if task.status == Failed then SetStatus(s, t, Done(None))
      else
        var s1 := Give(s, task.key, task.status.proxy);
        SetStatus(s1, t, Done(Some(s1.objects[task.key])))
  }

  /** The state after the events; None if one cannot happen or an assertion fails. */
  function Exec(s: State, events: seq<Event>): Option<State>
    decreases |events|
  {
    if events == [] then Some(s)
    else if Enabled(s, events[0]) && Asserted(s, events[0]) then Exec(Apply(s, events[0]), events[1..])
    else None
  }

  const INIT := State(map[], [], [])

  /** Whoever got something got what is stored; a cached task's key is stored. */
  ghost predicate Inv(s: State) {
    && (forall i :: 0 <= i < |s.received| ==>
          s.received[i].0 in s.objects && s.objects[s.received[i].0] == s.received[i].1)
    && (forall t :: 0 <= t < |s.tasks| && (s.tasks[t].cached || Succeeded(s.tasks[t])) ==> s.tasks[t].key in s.objects)
    && (forall t :: 0 <= t < |s.tasks| && Succeeded(s.tasks[t]) ==>
          s.objects[s.tasks[t].key] == s.tasks[t].status.got.value)
  }

  predicate Succeeded(t: Task) { t.status.Done? && t.status.got.Some? }

  /** Everything stored stays stored under its key. */
  ghost predicate Grows(s: State, t: State) {
    && (forall key :: key in s.objects ==> key in t.objects && t.objects[key] == s.objects[key])
    && |s.tasks| <= |t.tasks|
    && (forall i :: 0 <= i < |s.tasks| ==> t.tasks[i].key == s.tasks[i].key && t.tasks[i].cached == s.tasks[i].cached)
  }

  lemma StepKeepsInv(s: State, e: Event)
    requires Inv(s) && Enabled(s, e) && Asserted(s, e)
    ensures Inv(Apply(s, e)) && Grows(s, Apply(s, e))
  {
  }

  lemma {:induction false} RunKeepsInv(s: State, events: seq<Event>)
    requires Inv(s) && Exec(s, events).Some?
    ensures Inv(Exec(s, events).value) && Grows(s, Exec(s, events).value)
    decreases |events|
  {
    if events != [] {
      StepKeepsInv(s, events[0]);
      RunKeepsInv(Apply(s, events[0]), events[1..]);
    }
  }

  /** An object once stored stays the object of its key for the rest of every run. */
  lemma SingleAssignment(before: seq<Event>, s: State, after: seq<Event>, t: State)
    requires Exec(INIT, before) == Some(s) && Exec(s, after) == Some(t)
    ensures forall key :: key in s.objects ==> key in t.objects && t.objects[key] == s.objects[key]
  {
    RunKeepsInv(INIT, before);
    RunKeepsInv(s, after);
  }

  /** All callers that successfully create one key, in whatever way and at whatever time, are given the
      same object, and it is the stored one. */
  lemma SameObjectForAll(events: seq<Event>, s: State, i: nat, j: nat)
    requires Exec(INIT, events) == Some(s) && i < |s.received| && j < |s.received|
    requires s.received[i].0 == s.received[j].0
    ensures s.received[i] == s.received[j] && s.received[i].0 in s.objects
    ensures s.objects[s.received[i].0] == s.received[i].1
  {
    RunKeepsInv(INIT, events);
  }

  // ---- when the assertion of the finish call fails ----

  /** The event puts an object under a key that had none. */
  predicate Stores(s: State, e: Event, key: Key)
    requires Enabled(s, e) && Asserted(s, e)
  {
    key !in s.objects && key in Apply(s, e).objects
  }

  ghost predicate StoredDuring(s: State, events: seq<Event>, key: Key, k: nat) {
    && k < |events| && Exec(s, events[..k]).Some?
    && var r := Exec(s, events[..k]).value;
       Enabled(r, events[k]) && Asserted(r, events[k]) && Stores(r, events[k], key)
  }

  lemma {:induction false} StoredMeanwhile(s: State, events: seq<Event>, key: Key)
    requires Inv(s) && Exec(s, events).Some? && key !in s.objects
    ensures key in Exec(s, events).value.objects <==> exists k: nat :: StoredDuring(s, events, key, k)
    decreases |events|
  {
    if events == [] {
    } else {
      var s1 := Apply(s, events[0]);
      StepKeepsInv(s, events[0]);
      assert events[..0] == [];
      if key in s1.objects {
        RunKeepsInv(s1, events[1..]);
        assert StoredDuring(s, events, key, 0);
      } else {
        StoredMeanwhile(s1, events[1..], key);
        ShiftStored(s, events, key);
      }
    }
  }

  lemma ShiftStored(s: State, events: seq<Event>, key: Key)
    requires events != [] && Enabled(s, events[0]) && Asserted(s, events[0]) && !Stores(s, events[0], key)
    ensures var s1 := Apply(s, events[0]);
      (exists k: nat :: StoredDuring(s1, events[1..], key, k)) <==> (exists k: nat :: StoredDuring(s, events, key, k))
  {
    var s1 := Apply(s, events[0]);
    assert events[..0] == [] && !StoredDuring(s, events, key, 0);
    forall k: nat | k < |events| - 1 ensures StoredDuring(s1, events[1..], key, k) <==> StoredDuring(s, events, key, k + 1) {
      assert events[..k + 1][1..] == events[1..][..k] && events[..k + 1][0] == events[0];
    }
    if k: nat :| StoredDuring(s, events, key, k) {
      assert StoredDuring(s1, events[1..], key, k - 1);
    }
    if k: nat :| StoredDuring(s1, events[1..], key, k) {
      assert StoredDuring(s, events, key, k + 1);
    }
  }

  /** Finishing a task that was not cancelled and whose thread succeeded runs into a failing assertion
      exactly when its key was not stored when it started and some event stored it in between. */
  lemma FinishFailsIffStoredMeanwhile(before: seq<Event>, s: State, key: Key, mid: seq<Event>, t: State)
    requires Exec(INIT, before) == Some(s) && Exec(Apply(s, Start(key)), mid) == Some(t)
    ensures |s.tasks| < |t.tasks|
    ensures t.tasks[|s.tasks|].status.Ready? ==>
      (!Asserted(t, Finish(|s.tasks|)) <==>
       key !in s.objects && exists k: nat :: StoredDuring(Apply(s, Start(key)), mid, key, k))
  {
    RunKeepsInv(INIT, before);
    StepKeepsInv(s, Start(key));
    RunKeepsInv(Apply(s, Start(key)), mid);
    if key !in s.objects {
      StoredMeanwhile(Apply(s, Start(key)), mid, key);
    }
  }

  // ---- the discipline of the callers ----

  /** An uncached task of this key was started and has neither failed nor been finished. */
  predicate Outstanding(s: State, key: Key) {
    exists t :: 0 <= t < |s.tasks| && IsOutstanding(s.tasks[t], key)
  }

  predicate IsOutstanding(t: Task, key: Key) {
    t.key == key && !t.cached && (t.status == Pending || t.status.Ready?)
  }

  /** What a careful caller checks before each call: an object is added only once, and while a task for
      an absent key is outstanding nobody else starts or stores that key. */
  predicate Careful(s: State, e: Event) {
    match e
    case Add(key, _) => key !in s.objects && !Outstanding(s, key)
    case Sync(key, made) => key in s.objects || made == None || !Outstanding(s, key)
    case Start(key) => key in s.objects || !Outstanding(s, key)
    case Return(_, _) => true
    case Cancel(_) => true
    case Finish(_) => true
  }

  /** Outstanding keys are absent and differ from each other. */
  ghost predicate Exclusive(s: State) {
    && (forall t :: 0 <= t < |s.tasks| && IsOutstanding(s.tasks[t], s.tasks[t].key) ==> s.tasks[t].key !in s.objects)
    && (forall t, u :: 0 <= t < u < |s.tasks| && s.tasks[t].key == s.tasks[u].key ==>
          !(IsOutstanding(s.tasks[t], s.tasks[t].key) && IsOutstanding(s.tasks[u], s.tasks[u].key)))
  }

  lemma CarefulStep(s: State, e: Event)
    requires Inv(s) && Exclusive(s) && Enabled(s, e) && Careful(s, e)
    ensures Asserted(s, e) && Exclusive(Apply(s, e))
  {
  }

  /** Every step of the run can happen and is careful as long as no assertion has failed. */
  ghost predicate CarefulRun(s: State, events: seq<Event>)
    decreases |events|
  {
    events == [] || (
      && Enabled(s, events[0]) && Careful(s, events[0])
      && (Asserted(s, events[0]) ==> CarefulRun(Apply(s, events[0]), events[1..])))
  }

  lemma {:induction false} CarefulRunContinues(s: State, events: seq<Event>)
    requires Inv(s) && Exclusive(s) && CarefulRun(s, events)
    ensures Exec(s, events).Some?
    decreases |events|
  {
    if events != [] {
      CarefulStep(s, events[0]);
      StepKeepsInv(s, events[0]);
      CarefulRunContinues(Apply(s, events[0]), events[1..]);
    }
  }

  /** Careful callers never make an assertion fail. */
  lemma DisciplineSuffices(events: seq<Event>)
    requires CarefulRun(INIT, events)
    ensures Exec(INIT, events).Some?
  {
    CarefulRunContinues(INIT, events);
  }

  lemma {:induction false} OnlyOneSucceeds(s: State, events: seq<Event>, t: nat, u: nat)
    requires Inv(s) && Exec(s, events).Some? && t < |s.tasks| && u < |s.tasks| && t != u
    requires s.tasks[t].key == s.tasks[u].key && !s.tasks[t].cached && !s.tasks[u].cached
    requires !Succeeded(s.tasks[t]) || !Succeeded(s.tasks[u])
    ensures var r := Exec(s, events).value;
      t < |r.tasks| && u < |r.tasks| && !(Succeeded(r.tasks[t]) && Succeeded(r.tasks[u]))
    decreases |events|
  {
    if events != [] {
      var s1 := Apply(s, events[0]);
      StepKeepsInv(s, events[0]);
      OnlyOneSucceeds(s1, events[1..], t, u);
    }
  }

  /** Two uncached tasks of one key that are outstanding at the same time can never both be finished
      successfully: in every continuation that finishes both without error, an assertion has failed. */
  lemma OverlapFails(before: seq<Event>, s: State, t: nat, u: nat, after: seq<Event>)
    requires Exec(INIT, before) == Some(s) && t < |s.tasks| && u < |s.tasks| && t != u
    requires IsOutstanding(s.tasks[t], s.tasks[t].key) && IsOutstanding(s.tasks[u], s.tasks[t].key)
    ensures Exec(s, after).Some? ==>
      var r := Exec(s, after).value;
      |s.tasks| <= |r.tasks| && !(Succeeded(r.tasks[t]) && Succeeded(r.tasks[u]))
  {
    RunKeepsInv(INIT, before);
    if Exec(s, after).Some? {
      RunKeepsInv(s, after);
      OnlyOneSucceeds(s, after, t, u);
    }
  }

  // ---- what each call does, by its outcome ----

  /** Creating a proxy synchronously: a stored object is given; an absent one is stored and given if it can be
      made; otherwise nothing happens. */
  lemma SyncOutcome(s: State, key: Key, made: Option<Obj>)
    ensures var r := Apply(s, Sync(key, made));
      && r.tasks == s.tasks
      && (key in s.objects ==> r.objects == s.objects && r.received == s.received + [(key, s.objects[key])])
      && (key !in s.objects && made.Some? ==>
            r.objects == s.objects[key := made.value] && r.received == s.received + [(key, made.value)])
      && (key !in s.objects && made == None ==> r == s)
  {
  }

  /** A started task is ready at once with the stored object, or pending. */
  lemma StartOutcome(s: State, key: Key)
    ensures var r := Apply(s, Start(key));
      && r.objects == s.objects && r.received == s.received
      && |r.tasks| == |s.tasks| + 1 && r.tasks[..|s.tasks|] == s.tasks
      && r.tasks[|s.tasks|].key == key
      && (key in s.objects ==> r.tasks[|s.tasks|].cached && r.tasks[|s.tasks|].status == Ready(s.objects[key]))
      && (key !in s.objects ==> !r.tasks[|s.tasks|].cached && r.tasks[|s.tasks|].status == Pending)
  {
  }

  /** Finishing gives the stored object, or stores and gives the new one; a failed or cancelled task gives
      nothing and stores nothing. */
  lemma FinishOutcome(s: State, t: nat)
    requires Enabled(s, Finish(t)) && Asserted(s, Finish(t))
    ensures var r := Apply(s, Finish(t)); var task := s.tasks[t];
      && |r.tasks| == |s.tasks| && (forall u :: 0 <= u < |s.tasks| && u != t ==> r.tasks[u] == s.tasks[u])
      && (task.status == Failed ==>
            r.tasks[t].status == Done(None) && r.objects == s.objects && r.received == s.received)
      && (task.status.Ready? ==>
            var got := if task.key in s.objects then s.objects[task.key] else task.status.proxy;
            && r.tasks[t].status == Done(Some(got)) && r.received == s.received + [(task.key, got)]
            && r.objects == s.objects[task.key := got])
  {
  }

  /** What the thread returns becomes of its task, and cancelling makes the task fail. */
  lemma ReturnOutcome(s: State, t: nat, made: Option<Obj>)
    requires Enabled(s, Return(t, made))
    ensures var r := Apply(s, Return(t, made));
      && r.objects == s.objects && r.received == s.received && |r.tasks| == |s.tasks|
      && r.tasks[t].status == (if made.Some? then Ready(made.value) else Failed)
      && (forall u :: 0 <= u < |s.tasks| && u != t ==> r.tasks[u] == s.tasks[u])
    ensures Enabled(s, Cancel(t)) && Apply(s, Cancel(t)).tasks[t].status == Failed
    ensures Apply(s, Cancel(t)).objects == s.objects && Apply(s, Cancel(t)).received == s.received
  {
  }

  // ---- the calls as written ----

  class Storage {
    var idToObject: map<Key, Obj>
    var tasks: seq<Task>
    ghost var received: seq<(Key, Obj)>

    ghost function S(): State reads this { State(idToObject, tasks, received) }

    constructor ()
      ensures S() == INIT
    {
      idToObject, tasks, received := map[], [], [];
    }

    predicate HasObject(key: Key)
      reads this
    {
      key in idToObject
    }

    function GetObject(key: Key): Obj
      requires HasObject(key)
      reads this
    {
      idToObject[key]
    }

    method AddObject(key: Key, obj: Obj)
      requires !HasObject(key)
      modifies `idToObject
      ensures S() == old(Apply(S(), Add(key, obj)))
    {
      idToObject := idToObject[key := obj];
    }

    /** cc_object_storage_create_dbus_proxy_sync; `made` is what creating a proxy would return. */
    method CreateSync(key: Key, made: Option<Obj>) returns (r: Option<Obj>)
      modifies this
      ensures S() == old(Apply(S(), Sync(key, made)))
      ensures r == if old(HasObject(key)) then Some(old(GetObject(key))) else made
      ensures r.Some? ==> HasObject(key) && GetObject(key) == r.value
    {
      if HasObject(key) {
        received := received + [(key, GetObject(key))];
        return Some(GetObject(key));
      }
      if made == None {
        return None;
      }
      AddObject(key, made.value);
      received := received + [(key, made.value)];
      r := made;
    }

    /** cc_object_storage_create_dbus_proxy */
    method Create(key: Key) returns (t: nat)
      modifies `tasks
      ensures S() == old(Apply(S(), Start(key))) && t == |old(tasks)|
    {
      t := |tasks|;
      var task := Task(key, false, Pending);
      if HasObject(key) {
        task := task.(cached := true, status := Ready(GetObject(key)));
      }
      tasks := tasks + [task];
    }

    /** cc_object_storage_create_dbus_proxy_finish */
    method CreateFinish(t: nat) returns (r: Option<Obj>)
      requires Enabled(S(), Finish(t)) && Asserted(S(), Finish(t))
      modifies this
      ensures S() == old(Apply(S(), Finish(t)))
      ensures r == tasks[t].status.got
      ensures old(tasks[t].status) == Failed ==> r == None && idToObject == old(idToObject)
      ensures old(tasks[t].status).Ready? ==>
        var key := old(tasks[t].key);
        r.Some? && idToObject == old(idToObject)[key := r.value]
        && r.value == if key in old(idToObject) then old(idToObject)[key] else old(tasks[t].status.proxy)
      ensures r.Some? ==> HasObject(tasks[t].key) && GetObject(tasks[t].key) == r.value
    {
      var key := tasks[t].key;
      if tasks[t].status == Failed {
        tasks := tasks[t := tasks[t].(status := Done(None))];
        return None;
      }
      if HasObject(key) {
        r := Some(GetObject(key));
      } else {
        AddObject(key, tasks[t].status.proxy);
        r := Some(tasks[t].status.proxy);
      }
      received := received + [(key, r.value)];
      tasks := tasks[t := tasks[t].(status := Done(r))];
    }
  }
}
