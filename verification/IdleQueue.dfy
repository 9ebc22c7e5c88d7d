/** The idle-emission queue of the background XML loader: loader threads push items and arm one idle
    source; the main loop pops an item, emits it, looks at the length and re-arms or disarms.
    The length is read and `item_added_id` cleared after the queue lock was released, so a push can
    land between the two. */
module IdleQueue {
  import opened Text

  type Item = nat

  /** Where the main loop is inside idle_emit, called for the source `src`. */
  datatype MainPc =
    | Rest
    | Dispatched(src: nat)
    | Popped(src: nat)               // item emitted, lock released
    | Clearing(src: nat)             // length read as 0, item_added_id not yet cleared
    | Leaving(src: nat, again: bool) // about to return `again`

  datatype State = State(
    queue: seq<Item>,
    id: nat,                // item_added_id; 0 means no source
    sources: set<nat>,      // idle sources attached to the main context
    nextSource: nat,
    main: MainPc,
    pushed: seq<Item>,      // history
    emitted: seq<Item>)     // history

  /** Measure reads the length; Clear stores 0 in item_added_id. */
  datatype Action = Push(item: Item) | Dispatch(src: nat) | Pop | Measure | Clear | Finish

  const INIT := State([], 0, {}, 1, Rest, [], [])

  predicate Enabled(s: State, a: Action) {
    match a
    case Push(_) => true
    case Dispatch(src) => s.main == Rest && src in s.sources
    case Pop => s.main.Dispatched?
    case Measure => s.main.Popped?
    case Clear => s.main.Clearing?
    case Finish => s.main.Leaving?
  }

  /** One step.  With `atomic`, reading length 0 and clearing the id are one step. */
  function Apply(atomic: bool, s: State, a: Action): State
    requires Enabled(s, a)
  {
    match a
    case Push(item) =>
      var s1 := s.(queue := s.queue + [item], pushed := s.pushed + [item]);
      if s.id == 0 then
        s1.(id := s.nextSource, sources := s.sources + {s.nextSource}, nextSource := s.nextSource + 1)
      else s1
    case Dispatch(src) => s.(main := Dispatched(src))
    case Pop =>
      if s.queue == [] then s.(main := Popped(s.main.src))
      else s.(queue := s.queue[1..], emitted := s.emitted + [s.queue[0]], main := Popped(s.main.src))
    case Measure =>
      if s.queue != [] then s.(main := Leaving(s.main.src, true))
      else if atomic then s.(id := 0, main := Leaving(s.main.src, false))
      else s.(main := Clearing(s.main.src))
    case Clear => s.(id := 0, main := Leaving(s.main.src, false))
    case Finish =>
      if s.main.again then s.(main := Rest)
      else s.(sources := s.sources - {s.main.src}, main := Rest)
  }

  function Exec(atomic: bool, s: State, acts: seq<Action>): Option<State>
    decreases |acts|
  {
    if acts == [] then Some(s)
    else if Enabled(s, acts[0]) then Exec(atomic, Apply(atomic, s, acts[0]), acts[1..])
    else None
  }

  /** An item waits and no source is armed for it. */
  predicate Stranded(s: State) { s.queue != [] && s.id == 0 }

  // ---- what every step keeps ----

  ghost predicate Inv(atomic: bool, s: State) {
    && 1 <= s.nextSource
    && s.id < s.nextSource
    && (forall src :: src in s.sources ==> 1 <= src < s.nextSource)
    && s.sources == (if s.id == 0 then {} else {s.id})
                    + (if s.main.Leaving? && !s.main.again then {s.main.src} else {})
    && (s.main.Dispatched? || s.main.Popped? || s.main.Clearing? || (s.main.Leaving? && s.main.again)
        ==> s.id != 0 && s.main.src == s.id)
    && (s.main.Leaving? && !s.main.again ==> 1 <= s.main.src < s.nextSource && s.main.src != s.id)
    && (s.main.Clearing? ==> !atomic)
    && s.pushed == s.emitted + s.queue
  }

  lemma StepKeepsInv(atomic: bool, s: State, a: Action)
    requires Inv(atomic, s) && Enabled(s, a)
    ensures Inv(atomic, Apply(atomic, s, a))
  {
    var s' := Apply(atomic, s, a);
    assert s.queue != [] ==> s.queue == [s.queue[0]] + s.queue[1..];
    assert s'.pushed == s'.emitted + s'.queue;
  }

  lemma {:induction false} RunKeepsInv(atomic: bool, s: State, acts: seq<Action>)
    requires Inv(atomic, s) && Exec(atomic, s, acts).Some?
    ensures Inv(atomic, Exec(atomic, s, acts).value)
    decreases |acts|
  {
    if acts != [] {
      StepKeepsInv(atomic, s, acts[0]);
      RunKeepsInv(atomic, Apply(atomic, s, acts[0]), acts[1..]);
    }
  }

  /** In both forms, in every interleaving: items are emitted in push order, none lost or repeated. */
  lemma EmittedInOrder(atomic: bool, acts: seq<Action>)
    requires Exec(atomic, INIT, acts).Some?
    ensures var s := Exec(atomic, INIT, acts).value; s.emitted + s.queue == s.pushed
  {
    RunKeepsInv(atomic, INIT, acts);
  }

  // ---- the two steps taken as one ----

  lemma AtomicStepCovers(s: State, a: Action)
    requires Inv(true, s) && !Stranded(s) && Enabled(s, a)
    ensures !Stranded(Apply(true, s, a))
  {
  }

  lemma {:induction false} AtomicRunCovers(s: State, acts: seq<Action>)
    requires Inv(true, s) && !Stranded(s) && Exec(true, s, acts).Some?
    ensures !Stranded(Exec(true, s, acts).value)
    decreases |acts|
  {
    if acts != [] {
      StepKeepsInv(true, s, acts[0]);
      AtomicStepCovers(s, acts[0]);
      AtomicRunCovers(Apply(true, s, acts[0]), acts[1..]);
    }
  }

  /** With check and clear in one step, a waiting item always has a source that will run again. */
  lemma AtomicAlwaysPending(acts: seq<Action>)
    requires Exec(true, INIT, acts).Some?
    ensures var s := Exec(true, INIT, acts).value;
      s.queue != [] ==> s.id in s.sources && s.main != Leaving(s.id, false)
  {
    RunKeepsInv(true, INIT, acts);
    AtomicRunCovers(INIT, acts);
  }

  /** How many main-loop steps remain if nothing more is pushed. */
  function Weight(s: State): nat {
    8 * |s.queue| +
    match s.main
    case Rest => if s.sources != {} then 6 else 0
    case Dispatched(_) => 5
    case Popped(_) => if s.queue == [] then 4 else 9
    case Clearing(_) => 3
    case Leaving(_, again) => if again then 8 else if s.id == 0 then 1 else 7
  }

  lemma AtomicStepLosesWeight(s: State, a: Action)
    requires Inv(true, s) && !Stranded(s) && Enabled(s, a) && !a.Push?
    ensures Weight(Apply(true, s, a)) < Weight(s)
  {
  }

  lemma {:induction false} AtomicStepsBounded(s: State, acts: seq<Action>)
    requires Inv(true, s) && !Stranded(s) && Exec(true, s, acts).Some?
    requires forall k :: 0 <= k < |acts| ==> !acts[k].Push?
    ensures |acts| + Weight(Exec(true, s, acts).value) <= Weight(s)
    decreases |acts|
  {
    if acts != [] {
      StepKeepsInv(true, s, acts[0]);
      AtomicStepCovers(s, acts[0]);
      AtomicStepLosesWeight(s, acts[0]);
      AtomicStepsBounded(Apply(true, s, acts[0]), acts[1..]);
    }
  }

  /** With check and clear in one step, the main loop empties the queue once pushes stop: it takes a
      bounded number of steps, and when it has nothing left to do everything pushed was emitted. */
  lemma AtomicDrains(before: seq<Action>, mid: State, after: seq<Action>, s: State)
    requires Exec(true, INIT, before) == Some(mid) && Exec(true, mid, after) == Some(s)
    requires forall k :: 0 <= k < |after| ==> !after[k].Push?
    ensures |after| <= Weight(mid)
    ensures (forall a: Action :: Enabled(s, a) ==> a.Push?) ==> s.emitted == s.pushed && s.sources == {}
  {
    RunKeepsInv(true, INIT, before);
    AtomicRunCovers(INIT, before);
    AtomicStepsBounded(mid, after);
    RunKeepsInv(true, mid, after);
    AtomicRunCovers(mid, after);
    if s.sources != {} || s.main != Rest {
      var src :| s.main == Rest ==> src in s.sources;
      var a := match s.main
               case Rest => Dispatch(src)
               case Dispatched(_) => Pop
               case Popped(_) => Measure
               case Clearing(_) => Clear
               case Leaving(_, _) => Finish;
      assert Enabled(s, a);
    }
  }

  // ---- the steps as written: exactly which schedules strand an item ----

  /** The k-th step of the schedule pushes between the length read and the clear. */
  ghost predicate PushInWindow(acts: seq<Action>, k: int) {
    && 0 <= k < |acts| && acts[k].Push?
    && Exec(false, INIT, acts[..k]).Some?
    && Exec(false, INIT, acts[..k]).value.main.Clearing?
  }

  /** No item is stranded after k steps, nor once a callback pending then has cleared the id. */
  ghost predicate SafeAfter(acts: seq<Action>, k: int)
    requires 0 <= k <= |acts|
  {
    var r := Exec(false, INIT, acts[..k]);
    r.Some? ==> !Stranded(r.value) && (Enabled(r.value, Clear) ==> !Stranded(Apply(false, r.value, Clear)))
  }

  lemma {:induction false} ExecAppend(atomic: bool, s: State, acts: seq<Action>, a: Action)
    ensures Exec(atomic, s, acts + [a]) ==
            var r := Exec(atomic, s, acts);
            if r.Some? && Enabled(r.value, a) then Some(Apply(atomic, r.value, a)) else None
    decreases |acts|
  {
    if acts == [] {
      assert acts + [a] == [a] && [a][1..] == [];
    } else {
      assert (acts + [a])[1..] == acts[1..] + [a];
      if Enabled(s, acts[0]) {
        ExecAppend(atomic, Apply(atomic, s, acts[0]), acts[1..], a);
      }
    }
  }

  lemma {:induction false} PrefixRuns(acts: seq<Action>, k: nat)
    requires k <= |acts| && Exec(false, INIT, acts).Some?
    ensures Exec(false, INIT, acts[..k]).Some?
    decreases |acts| - k
  {
    if k == |acts| {
      assert acts[..k] == acts;
    } else {
      PrefixRuns(acts, k + 1);
      assert acts[..k + 1] == acts[..k] + [acts[k]];
      ExecAppend(false, INIT, acts[..k], acts[k]);
    }
  }

  lemma {:induction false} NoWindowSafe(acts: seq<Action>, k: nat)
    requires k <= |acts| && Exec(false, INIT, acts).Some?
    requires forall j :: !PushInWindow(acts, j)
    ensures SafeAfter(acts, k)
    ensures var r := Exec(false, INIT, acts[..k]); r.Some? && (r.value.main.Clearing? ==> r.value.queue == [])
  {
    PrefixRuns(acts, k);
    if k > 0 {
      NoWindowSafe(acts, k - 1);
      var s := Exec(false, INIT, acts[..k - 1]).value;
      RunKeepsInv(false, INIT, acts[..k - 1]);
      assert acts[..k] == acts[..k - 1] + [acts[k - 1]];
      ExecAppend(false, INIT, acts[..k - 1], acts[k - 1]);
      assert !PushInWindow(acts, k - 1);
    }
  }

  lemma WindowUnsafe(acts: seq<Action>, k: nat)
    requires Exec(false, INIT, acts).Some? && PushInWindow(acts, k)
    ensures !SafeAfter(acts, k + 1)
  {
    var s := Exec(false, INIT, acts[..k]).value;
    assert acts[..k + 1] == acts[..k] + [acts[k]];
    ExecAppend(false, INIT, acts[..k], acts[k]);
    PrefixRuns(acts, k + 1);
    assert Stranded(Apply(false, Apply(false, s, acts[k]), Clear));
  }

  /** As written, a schedule never strands an item exactly when none of its pushes lands between the
      length read and the clear. */
  lemma StrandsIffPushInWindow(acts: seq<Action>)
    requires Exec(false, INIT, acts).Some?
    ensures (forall k :: 0 <= k <= |acts| ==> SafeAfter(acts, k)) <==> (forall k :: !PushInWindow(acts, k))
  {
    if k :| PushInWindow(acts, k) {
      WindowUnsafe(acts, k);
    } else {
      forall k | 0 <= k <= |acts| ensures SafeAfter(acts, k) {
        NoWindowSafe(acts, k);
      }
    }
  }

  const AFTER_POP := State([], 1, {1}, 2, Popped(1), [7], [7])

  lemma FirstDispatch()
    ensures Exec(false, INIT, [Push(7), Dispatch(1), Pop]) == Some(AFTER_POP)
  {
    ExecAppend(false, INIT, [Push(7)], Dispatch(1));
    ExecAppend(false, INIT, [Push(7), Dispatch(1)], Pop);
    assert [Push(7)] + [Dispatch(1)] == [Push(7), Dispatch(1)];
    assert [Push(7), Dispatch(1)] + [Pop] == [Push(7), Dispatch(1), Pop];
    var s1 := Apply(false, INIT, Push(7));
    var s3 := Apply(false, Apply(false, s1, Dispatch(1)), Pop);
    assert [Push(7)][1..] == [];
    assert Exec(false, INIT, [Push(7)]) == Some(s1);
    assert s3.queue == [] && s3.pushed == [7] && s3.emitted == [7] && s3.sources == {1};
  }

  /** The reachable state the code can be left in: an item queued, id 0, no source, main loop idle. */
  lemma StrandedWitness()
    ensures var acts := [Push(7), Dispatch(1), Pop, Measure, Push(8), Clear, Finish];
      Exec(false, INIT, acts) == Some(State([8], 0, {}, 2, Rest, [7, 8], [7]))
  {
    var a0 := [Push(7), Dispatch(1), Pop];
    var a1 := a0 + [Measure];
    var a2 := a1 + [Push(8)];
    var a3 := a2 + [Clear];
    FirstDispatch();
    ExecAppend(false, INIT, a0, Measure);
    ExecAppend(false, INIT, a1, Push(8));
    ExecAppend(false, INIT, a2, Clear);
    ExecAppend(false, INIT, a3, Finish);
    var s := Apply(false, Apply(false, Apply(false, Apply(false, AFTER_POP, Measure), Push(8)), Clear), Finish);
    assert s.queue == [8] && s.pushed == [7, 8] && s.emitted == [7] && s.sources == {};
    assert a3 + [Finish] == [Push(7), Dispatch(1), Pop, Measure, Push(8), Clear, Finish];
  }

  /** A stranded item waits for the next push, and goes out before the item pushed then. */
  lemma NextPushRecovers(s: State, item: Item)
    requires Inv(false, s) && Stranded(s)
    ensures var s' := Apply(false, s, Push(item));
      !Stranded(s') && s'.id in s'.sources && s'.id !in s.sources && s'.queue[0] == s.queue[0]
  {
  }

  // ---- the two functions, as written ----

  class BackgroundXml {
    var queue: seq<Item>
    var itemAddedId: nat
    var nextSource: nat
    var emitted: seq<Item>

    constructor ()
      ensures queue == [] && itemAddedId == 0 && emitted == [] && nextSource == 1
    {
      queue, itemAddedId, nextSource, emitted := [], 0, 1, [];
    }

    /** What the loader thread does under the queue lock; a new source is armed only if none is. */
    method EmitAddedInIdle(item: Item)
      requires 1 <= nextSource
      modifies this
      ensures queue == old(queue) + [item] && emitted == old(emitted)
      ensures itemAddedId == (if old(itemAddedId) == 0 then old(nextSource) else old(itemAddedId)) != 0
      ensures nextSource == (if old(itemAddedId) == 0 then old(nextSource) + 1 else old(nextSource))
    {
      queue := queue + [item];
      if itemAddedId == 0 {
        itemAddedId := nextSource;
        nextSource := nextSource + 1;
      }
    }

    /** One dispatch with no push in between: emits the head, and asks to be called again or disarms. */
    method IdleEmit() returns (again: bool)
      modifies this
      ensures emitted + queue == old(emitted) + old(queue)
      ensures |emitted| == |old(emitted)| + (if old(queue) == [] then 0 else 1)
      ensures again <==> queue != []
      ensures itemAddedId == if again then old(itemAddedId) else 0
      ensures nextSource == old(nextSource)
    {
      var i := 0;
      while i < 1                     // NUM_ITEMS_PER_BATCH
        invariant 0 <= i <= 1
        invariant emitted + queue == old(emitted) + old(queue)
        invariant |emitted| == |old(emitted)| + (if i == 0 || old(queue) == [] then 0 else 1)
        invariant i == 0 ==> queue == old(queue)
        invariant itemAddedId == old(itemAddedId) && nextSource == old(nextSource)
      {
        if queue == [] {
          break;
        }
        assert queue == [queue[0]] + queue[1..];
        emitted := emitted + [queue[0]];
        queue := queue[1..];
        i := i + 1;
      }
      again := queue != [];
      if !again {
        itemAddedId := 0;
      }
    }
  }
}
