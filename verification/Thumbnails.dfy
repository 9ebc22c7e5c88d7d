/** The thumbnail cache of a background item and the paintables that show it.  Requests run in a worker
    thread and may finish in any order, fail, or be cancelled; a cancelled task yields an error when it
    is finished. */
module Thumbnails {
  import opened Text

  /** The geometry of a monitor. */
  datatype Rectangle = Rectangle(x: int, y: int, width: int, height: int)

  /** What a thumbnail is made from: the item's look and the first monitor's geometry when it was asked
      for, size, scale and variant. */
  datatype Request = Request(look: nat, monitor: Rectangle, width: int, height: int, scale: int, dark: bool)

  /** A rendered picture; made is its provenance. */
  datatype Pixbuf = Pixbuf(id: nat, made: Request)

  /** CachedThumbnail */
  datatype Slot = Slot(thumbnail: Option<Pixbuf>, width: int, height: int, scale: int)

  datatype Status = Pending | Ready(pixbuf: Pixbuf) | Failed | Done

  datatype Task = Task(owner: nat, cancellable: nat, request: Request, cachedResult: bool, status: Status)

  datatype Paintable = Paintable(
    width: int, height: int, scale: int,
    paintLight: bool, paintDark: bool,
    texture: Option<Pixbuf>, darkTexture: Option<Pixbuf>,
    cancellable: Option<nat>, disposed: bool)

  /** One item and its paintables, and the first monitor.  look stands for everything of the item that a
      thumbnail is rendered from. */
  datatype State = State(
    look: nat, hasDark: bool, monitor: Rectangle, lightSlot: Slot, darkSlot: Slot,
    paintables: seq<Paintable>, tasks: seq<Task>, cancelled: set<nat>, nextCancellable: nat, nextId: nat)

  datatype Event =
    | Modify(look: nat, hasDark: bool)      // the item changes
    | Arrange(monitor: Rectangle)           // the first monitor gets another mode or place
    | New(width: int, height: int, scale: int, light: bool, dark: bool)
    | Rooted(p: nat)                        // the paintable's container gets a root
    | SetScale(p: nat, scale: int)
    | SetFlags(p: nat, light: bool, dark: bool)
    | Work(t: nat, ok: bool)                // the worker returns
    | Finish(t: nat)                        // light_cb or dark_cb
    | Dispose(p: nat)

  const EMPTY: Slot := Slot(None, 0, 0, 0)
  const INIT: State := State(0, false, Rectangle(0, 0, 0, 0), EMPTY, EMPTY, [], [], {}, 0, 0)

  function SlotOf(s: State, dark: bool): Slot { if dark then s.darkSlot else s.lightSlot }

  /** The cached thumbnail is used if the sizes match. */
  predicate Hit(slot: Slot, r: Request) {
    slot.thumbnail.Some? && slot.width == r.width && slot.height == r.height && slot.scale == r.scale
  }

  function RequestOf(s: State, p: nat, dark: bool): Request
    requires p < |s.paintables|
  {
    Request(s.look, s.monitor, s.paintables[p].width, s.paintables[p].height, s.paintables[p].scale, dark)
  }

  /** cc_background_item_get_thumbnail_async, for a paintable's current cancellable */
  function GetThumbnail(s: State, p: nat, dark: bool): State
    requires p < |s.paintables| && s.paintables[p].cancellable.Some?
  {
    var r := RequestOf(s, p, dark);
    var slot := SlotOf(s, dark);
    s.(tasks := s.tasks + [Task(p, s.paintables[p].cancellable.value, r, Hit(slot, r),
                                if Hit(slot, r) then Ready(slot.thumbnail.value) else Pending)])
  }

  function CancelRunning(s: State, p: nat): State
    requires p < |s.paintables|
  {
    s.(cancelled := if s.paintables[p].cancellable.Some? then s.cancelled + {s.paintables[p].cancellable.value}
                    else s.cancelled)
  }

  function Renewed(s: State, p: nat): State
    requires p < |s.paintables|
  {
    CancelRunning(s, p).(
      paintables := s.paintables[p := s.paintables[p].(cancellable := Some(s.nextCancellable))],
      nextCancellable := s.nextCancellable + 1)
  }

  /** update_cache */
  function UpdateCache(s: State, p: nat): State
    requires p < |s.paintables|
  {
    var s1 := Renewed(s, p);
    var s2 := if s.paintables[p].paintLight || !s.hasDark then GetThumbnail(s1, p, false) else s1;
    if s.paintables[p].paintDark && s.hasDark then GetThumbnail(s2, p, true) else s2
  }

  /** g_set_object and the recorded size */
  function Store(slot: Slot, r: Request, pixbuf: Pixbuf): Slot {
    if slot.thumbnail.Some? && slot.thumbnail.value.id == pixbuf.id then slot
    else Slot(Some(pixbuf), r.width, r.height, r.scale)
  }

  /** What the callback receives. */
  function Received(s: State, t: Task): Option<Pixbuf> {
    if t.status.Ready? && t.cancellable !in s.cancelled then Some(t.status.pixbuf) else None
  }

  /** cc_background_item_get_thumbnail_finish: the caching part */
  function Cached(s: State, t: Task): State {
    var got := Received(s, t);
    if got == None || t.cachedResult then s
    else if t.request.dark then s.(darkSlot := Store(s.darkSlot, t.request, got.value))
    else s.(lightSlot := Store(s.lightSlot, t.request, got.value))
  }

  /** light_cb and dark_cb: the new texture */
  function Installed(s: State, t: Task): State
    requires t.owner < |s.paintables|
  {
    var got := Received(s, t);
    var q := s.paintables[t.owner];
    if got == None then s
    else if t.request.dark then s.(paintables := s.paintables[t.owner := q.(darkTexture := got)])
    else s.(paintables := s.paintables[t.owner := q.(texture := got)])
  }

  function SetStatus(s: State, t: nat, status: Status): State
    requires t < |s.tasks|
  {
    s.(tasks := s.tasks[t := s.tasks[t].(status := status)])
  }

  predicate Enabled(s: State, e: Event) {
    match e
    case Modify(_, _) => true
    case Arrange(_) => true
    case New(_, _, _, _, _) => true
    case Rooted(p) => p < |s.paintables| && !s.paintables[p].disposed
    case SetScale(p, _) => p < |s.paintables| && !s.paintables[p].disposed
    case SetFlags(p, _, _) => p < |s.paintables| && !s.paintables[p].disposed
    case Work(t, _) => t < |s.tasks| && s.tasks[t].status == Pending
    case Finish(t) => t < |s.tasks| && (s.tasks[t].status.Ready? || s.tasks[t].status == Failed)
                      && s.tasks[t].owner < |s.paintables|
    case Dispose(p) => p < |s.paintables|
  }

  function Apply(s: State, e: Event): State
    requires Enabled(s, e)
  {
    match e
    case Modify(look, hasDark) => s.(look := look, hasDark := hasDark)
    case Arrange(monitor) => s.(monitor := monitor)
    case New(w, h, scale, light, dark) =>
      s.(paintables := s.paintables + [Paintable(w, h, scale, light, dark, None, None, None, false)])
    case Rooted(p) => UpdateCache(s, p)
    case SetScale(p, scale) => ScaleSet(s, p, scale)
    case SetFlags(p, light, dark) =>
      s.(paintables := s.paintables[p := s.paintables[p].(paintLight := light, paintDark := dark)])
    case Work(t, ok) =>
      SetStatus(s, t, if ok then Ready(Pixbuf(s.nextId, s.tasks[t].request)) else Failed).(nextId := s.nextId + 1)
    case Finish(t) => SetStatus(Installed(Cached(s, s.tasks[t]), s.tasks[t]), t, Done)
    case Dispose(p) =>
      CancelRunning(s, p).(paintables := s.paintables[p := s.paintables[p].(
        cancellable := None, texture := None, darkTexture := None, disposed := true)])
  }

  /** The setter of scale-factor: a new scale asks again, if anything was asked before. */
  function ScaleSet(s: State, p: nat, scale: int): State
    requires p < |s.paintables|
  {
    if s.paintables[p].scale == scale then s
    else
      var s1 := s.(paintables := s.paintables[p := s.paintables[p].(scale := scale)]);
      if s.paintables[p].cancellable.Some? then UpdateCache(s1, p) else s1
  }

  function Exec(s: State, events: seq<Event>): Option<State>
    decreases |events|
  {
    if events == [] then Some(s)
    else if Enabled(s, events[0]) then Exec(Apply(s, events[0]), events[1..])
    else None
  }

  // ---- what every event keeps ----

  /** The picture was made for exactly this size, scale and variant. */
  predicate SameFormat(a: Request, b: Request) { a == b.(look := a.look, monitor := a.monitor) }

  ghost predicate SlotAgrees(slot: Slot, dark: bool) {
    slot.thumbnail.Some? ==>
      var made := slot.thumbnail.value.made;
      made.width == slot.width && made.height == slot.height && made.scale == slot.scale && made.dark == dark
  }

  ghost predicate ResultAgrees(t: Task) {
    t.status.Ready? ==> SameFormat(t.status.pixbuf.made, t.request)
                        && (!t.cachedResult ==> t.status.pixbuf.made == t.request)
  }

  /** Not finished and not cancelled. */
  predicate Live(t: Task, cancelled: set<nat>) { t.status != Done && t.cancellable !in cancelled }

  /** A live task was started with the owner's current cancellable, and for its current scale. */
  ghost predicate OwnerAgrees(t: Task, paintables: seq<Paintable>, cancelled: set<nat>) {
    Live(t, cancelled) ==>
      && t.owner < |paintables|
      && paintables[t.owner].cancellable == Some(t.cancellable)
      && t.request.scale == paintables[t.owner].scale
      && t.request.width == paintables[t.owner].width && t.request.height == paintables[t.owner].height
  }

  ghost predicate TexturesAgree(q: Paintable) {
    && (q.texture.Some? ==> !q.texture.value.made.dark)
    && (q.darkTexture.Some? ==> q.darkTexture.value.made.dark)
  }

  ghost predicate CacheInv(s: State) {
    && SlotAgrees(s.lightSlot, false) && SlotAgrees(s.darkSlot, true)
    && (forall t :: 0 <= t < |s.tasks| ==> ResultAgrees(s.tasks[t]))
    && (forall q :: 0 <= q < |s.paintables| ==> TexturesAgree(s.paintables[q]))
  }

  ghost predicate OwnerInv(s: State) {
    && (forall t :: 0 <= t < |s.tasks| ==> OwnerAgrees(s.tasks[t], s.paintables, s.cancelled))
    && (forall t :: 0 <= t < |s.tasks| ==> s.tasks[t].cancellable < s.nextCancellable)
    && (forall t :: 0 <= t < |s.tasks| ==> s.tasks[t].owner < |s.paintables|)
    && (forall c :: c in s.cancelled ==> c < s.nextCancellable)
    && (forall q :: 0 <= q < |s.paintables| && s.paintables[q].cancellable.Some?
          ==> s.paintables[q].cancellable.value < s.nextCancellable)
  }

  ghost predicate Inv(s: State) { CacheInv(s) && OwnerInv(s) }

  lemma GetThumbnailKeepsInv(s: State, p: nat, dark: bool)
    requires Inv(s) && p < |s.paintables| && s.paintables[p].cancellable.Some?
    ensures Inv(GetThumbnail(s, p, dark))
  {
  }

  /** Replacing the cancellable leaves no live task of the paintable, whatever else changes about it. */
  lemma RenewedKeepsInv(s: State, p: nat, scale: int)
    requires Inv(s) && p < |s.paintables|
    requires s.paintables[p].scale != scale ==> s.paintables[p].cancellable.Some?
    ensures Inv(Renewed(s.(paintables := s.paintables[p := s.paintables[p].(scale := scale)]), p))
  {
    var s1 := s.(paintables := s.paintables[p := s.paintables[p].(scale := scale)]);
    var r := Renewed(s1, p);
    forall t | 0 <= t < |r.tasks| ensures OwnerAgrees(r.tasks[t], r.paintables, r.cancelled) {
      assert OwnerAgrees(s.tasks[t], s.paintables, s.cancelled);
    }
  }

  lemma UpdateCacheKeepsInv(s: State, p: nat, scale: int)
    requires Inv(s) && p < |s.paintables|
    requires s.paintables[p].scale != scale ==> s.paintables[p].cancellable.Some?
    ensures Inv(UpdateCache(s.(paintables := s.paintables[p := s.paintables[p].(scale := scale)]), p))
  {
    var s0 := s.(paintables := s.paintables[p := s.paintables[p].(scale := scale)]);
    RenewedKeepsInv(s, p, scale);
    var s1 := Renewed(s0, p);
    if s0.paintables[p].paintLight || !s0.hasDark {
      GetThumbnailKeepsInv(s1, p, false);
    }
    var s2 := if s0.paintables[p].paintLight || !s0.hasDark then GetThumbnail(s1, p, false) else s1;
    if s0.paintables[p].paintDark && s0.hasDark {
      GetThumbnailKeepsInv(s2, p, true);
    }
  }

  lemma ScaleSetKeepsInv(s: State, p: nat, scale: int)
    requires Inv(s) && p < |s.paintables|
    ensures Inv(ScaleSet(s, p, scale))
  {
    if s.paintables[p].scale != scale {
      if s.paintables[p].cancellable.Some? {
        UpdateCacheKeepsInv(s, p, scale);
      } else {
        var r := ScaleSet(s, p, scale);
        forall t | 0 <= t < |r.tasks| ensures OwnerAgrees(r.tasks[t], r.paintables, r.cancelled) {
          assert OwnerAgrees(s.tasks[t], s.paintables, s.cancelled);
        }
      }
    }
  }

  lemma CachedKeepsInv(s: State, t: nat)
    requires Inv(s) && t < |s.tasks|
    ensures Inv(Cached(s, s.tasks[t]))
  {
    assert ResultAgrees(s.tasks[t]);
  }

  lemma InstalledKeepsInv(s: State, t: nat)
    requires Inv(s) && t < |s.tasks|
    ensures Inv(SetStatus(Installed(s, s.tasks[t]), t, Done))
  {
    var r := SetStatus(Installed(s, s.tasks[t]), t, Done);
    assert ResultAgrees(s.tasks[t]);
    forall u | 0 <= u < |r.tasks| ensures OwnerAgrees(r.tasks[u], r.paintables, r.cancelled) {
      assert OwnerAgrees(s.tasks[u], s.paintables, s.cancelled);
    }
  }

  lemma DisposeKeepsInv(s: State, p: nat)
    requires Inv(s) && Enabled(s, Dispose(p))
    ensures Inv(Apply(s, Dispose(p)))
  {
    var r := Apply(s, Dispose(p));
    forall t | 0 <= t < |r.tasks| ensures OwnerAgrees(r.tasks[t], r.paintables, r.cancelled) {
      assert OwnerAgrees(s.tasks[t], s.paintables, s.cancelled);
    }
  }

  lemma WorkKeepsInv(s: State, t: nat, ok: bool)
    requires Inv(s) && Enabled(s, Work(t, ok))
    ensures Inv(Apply(s, Work(t, ok)))
  {
    var r := Apply(s, Work(t, ok));
    forall u | 0 <= u < |r.tasks| ensures OwnerAgrees(r.tasks[u], r.paintables, r.cancelled) {
      assert OwnerAgrees(s.tasks[u], s.paintables, s.cancelled);
    }
  }

  lemma SetupKeepsInv(s: State, e: Event)
    requires Inv(s) && Enabled(s, e) && (e.Modify? || e.Arrange? || e.New? || e.SetFlags?)
    ensures Inv(Apply(s, e))
  {
    var r := Apply(s, e);
    forall t | 0 <= t < |r.tasks| ensures OwnerAgrees(r.tasks[t], r.paintables, r.cancelled) {
      assert OwnerAgrees(s.tasks[t], s.paintables, s.cancelled);
    }
  }

  lemma RootedKeepsInv(s: State, p: nat)
    requires Inv(s) && p < |s.paintables|
    ensures Inv(UpdateCache(s, p))
  {
    assert s.paintables == s.paintables[p := s.paintables[p].(scale := s.paintables[p].scale)];
    UpdateCacheKeepsInv(s, p, s.paintables[p].scale);
  }

  lemma FinishKeepsInv(s: State, t: nat)
    requires Inv(s) && Enabled(s, Finish(t))
    ensures Inv(Apply(s, Finish(t)))
  {
    CachedKeepsInv(s, t);
    InstalledKeepsInv(Cached(s, s.tasks[t]), t);
  }

  lemma StepKeepsInv(s: State, e: Event)
    requires Inv(s) && Enabled(s, e)
    ensures Inv(Apply(s, e))
  {
    if e.Rooted? {
      RootedKeepsInv(s, e.p);
    } else if e.SetScale? {
      ScaleSetKeepsInv(s, e.p, e.scale);
    } else if e.Work? {
      WorkKeepsInv(s, e.t, e.ok);
    } else if e.Finish? {
      FinishKeepsInv(s, e.t);
    } else if e.Dispose? {
      DisposeKeepsInv(s, e.p);
    } else {
      SetupKeepsInv(s, e);
    }
  }

  lemma {:induction false} RunKeepsInv(s: State, events: seq<Event>)
    requires Inv(s) && Exec(s, events).Some?
    ensures Inv(Exec(s, events).value)
    decreases |events|
  {
    if events != [] {
      StepKeepsInv(s, events[0]);
      RunKeepsInv(Apply(s, events[0]), events[1..]);
    }
  }

  // ---- what follows for every run ----

  /** In every interleaving each cached thumbnail was made by a request with exactly the recorded size
      and scale and the slot's variant. */
  lemma CachedAsRecorded(events: seq<Event>, s: State, dark: bool)
    requires Exec(INIT, events) == Some(s) && SlotOf(s, dark).thumbnail.Some?
    ensures var slot := SlotOf(s, dark); var made := slot.thumbnail.value.made;
      made == Request(made.look, made.monitor, slot.width, slot.height, slot.scale, dark)
  {
    RunKeepsInv(INIT, events);
  }

  /** A hit returns what rendering again would return, exactly when the item looks as it did, and the first
      monitor has the geometry it had, when the cached picture was asked for. */
  lemma HitIsRecomputation(events: seq<Event>, s: State, p: nat, dark: bool)
    requires Exec(INIT, events) == Some(s) && p < |s.paintables|
    requires Hit(SlotOf(s, dark), RequestOf(s, p, dark))
    ensures var made := SlotOf(s, dark).thumbnail.value.made;
      made == RequestOf(s, p, dark) <==> made.look == s.look && made.monitor == s.monitor
  {
    RunKeepsInv(INIT, events);
  }

  lemma ExecFirst(s: State, e: Event, rest: seq<Event>, r: State)
    requires Enabled(s, e) && Exec(Apply(s, e), rest) == Some(r)
    ensures Exec(s, [e] + rest) == Some(r)
  {
    assert ([e] + rest)[1..] == rest;
  }

  /** The only task, not yet finished, of an item with one paintable: what finishing it leaves. */
  lemma FinishFirst(s: State, r: Request, now: Rectangle)
    requires s.tasks == [Task(0, 0, r, false, Pending)] && |s.paintables| == 1 && s.cancelled == {} && !r.dark
    requires s.lightSlot == EMPTY
    ensures var q := Exec(s, [Work(0, true), Finish(0), Arrange(now)]);
      && q.Some?
      && q.value.lightSlot == Slot(Some(Pixbuf(s.nextId, r)), r.width, r.height, r.scale)
      && q.value.look == s.look && q.value.monitor == now && |q.value.paintables| == 1
      && q.value.paintables[0].width == s.paintables[0].width && q.value.paintables[0].height == s.paintables[0].height
      && q.value.paintables[0].scale == s.paintables[0].scale
  {
    var ready := Apply(s, Work(0, true));
    var done := Apply(ready, Finish(0));
    var last := Apply(done, Arrange(now));
    assert Exec(last, []) == Some(last);
    ExecFirst(done, Arrange(now), [], last);
    ExecFirst(ready, Finish(0), [Arrange(now)], last);
    ExecFirst(s, Work(0, true), [Finish(0)] + [Arrange(now)], last);
    assert [Work(0, true)] + ([Finish(0)] + [Arrange(now)]) == [Work(0, true), Finish(0), Arrange(now)];
    assert [Arrange(now)] + [] == [Arrange(now)];
  }

  /** A run after which the cache is hit although rendering again would use another geometry: the first
      monitor changes its mode after the thumbnail was made. */
  lemma StaleHitWitness(was: Rectangle, now: Rectangle, width: int, height: int, scale: int)
    requires was != now
    ensures var r := Exec(INIT, [Arrange(was), New(width, height, scale, true, false), Rooted(0)]
                                + [Work(0, true), Finish(0), Arrange(now)]);
      && r.Some? && |r.value.paintables| == 1
      && var slot := SlotOf(r.value, false);
         Hit(slot, RequestOf(r.value, 0, false)) && slot.thumbnail.value.made != RequestOf(r.value, 0, false)
  {
    var first := Apply(INIT, Arrange(was));
    var added := New(width, height, scale, true, false);
    var made := Apply(first, added);
    var asked := UpdateCache(made, 0);
    var request := Request(0, was, width, height, scale, false);
    assert asked.tasks == [Task(0, 0, request, false, Pending)];
    FinishFirst(asked, request, now);
    var rest := [Work(0, true), Finish(0), Arrange(now)];
    var last := Exec(asked, rest).value;
    ExecFirst(made, Rooted(0), rest, last);
    ExecFirst(first, added, [Rooted(0)] + rest, last);
    ExecFirst(INIT, Arrange(was), [added] + ([Rooted(0)] + rest), last);
    assert [Arrange(was)] + ([added] + ([Rooted(0)] + rest)) == [Arrange(was), added, Rooted(0)] + rest;
  }

  /** Whatever a callback installs was asked for with the paintable's current size and scale, and goes
      to the texture of its variant. */
  lemma InstallsCurrentScale(events: seq<Event>, s: State, t: nat)
    requires Exec(INIT, events) == Some(s) && Enabled(s, Finish(t))
    ensures var task := s.tasks[t]; var got := Received(s, task); var q := s.paintables[task.owner];
      got.Some? ==>
        var made := got.value.made;
        && made == Request(made.look, made.monitor, q.width, q.height, q.scale, task.request.dark)
        && Apply(s, Finish(t)).paintables[task.owner] ==
           if task.request.dark then q.(darkTexture := got) else q.(texture := got)
  {
    RunKeepsInv(INIT, events);
    assert OwnerAgrees(s.tasks[t], s.paintables, s.cancelled) && ResultAgrees(s.tasks[t]);
  }

  /** What is done or cancelled stays so. */
  ghost predicate Later(tasks: seq<Task>, cancelled: set<nat>, tasks': seq<Task>, cancelled': set<nat>) {
    && cancelled <= cancelled' && |tasks| <= |tasks'|
    && forall t :: 0 <= t < |tasks| ==>
         && tasks'[t].cancellable == tasks[t].cancellable && tasks'[t].owner == tasks[t].owner
         && (tasks[t].status == Done ==> tasks'[t].status == Done)
  }

  lemma UpdateIsLater(s: State, p: nat)
    requires p < |s.paintables|
    ensures var r := UpdateCache(s, p); Later(s.tasks, s.cancelled, r.tasks, r.cancelled)
  {
  }

  lemma StepCancels(s: State, e: Event)
    requires Enabled(s, e)
    ensures var r := Apply(s, e); Later(s.tasks, s.cancelled, r.tasks, r.cancelled)
  {
    if e.Rooted? {
      UpdateIsLater(s, e.p);
    } else if e.SetScale? {
      UpdateIsLater(s.(paintables := s.paintables[e.p := s.paintables[e.p].(scale := e.scale)]), e.p);
    }
  }

  lemma {:induction false} RunCancels(s: State, events: seq<Event>, t: nat)
    requires Exec(s, events).Some? && t < |s.tasks| && !Live(s.tasks[t], s.cancelled)
    ensures var r := Exec(s, events).value;
      t < |r.tasks| && !Live(r.tasks[t], r.cancelled) && r.tasks[t].owner == s.tasks[t].owner
    decreases |events|
  {
    if events != [] {
      StepCancels(s, events[0]);
      RunCancels(Apply(s, events[0]), events[1..], t);
    }
  }

  /** A change of scale cancels everything the paintable had asked for. */
  lemma ScaleChangeCancels(s: State, p: nat, scale: int, t: nat)
    requires Inv(s) && Enabled(s, SetScale(p, scale)) && s.paintables[p].scale != scale
    requires t < |s.tasks| && s.tasks[t].owner == p
    ensures var r := Apply(s, SetScale(p, scale)); t < |r.tasks| && !Live(r.tasks[t], r.cancelled)
  {
    assert OwnerAgrees(s.tasks[t], s.paintables, s.cancelled);
    StepCancels(s, SetScale(p, scale));
  }

  /** After a change of scale, nothing asked for before it is installed or cached any more: finishing
      such a task, however much later, only marks it as done. */
  lemma StaleNeverInstalled(before: seq<Event>, s: State, p: nat, scale: int, after: seq<Event>, r: State, t: nat)
    requires Exec(INIT, before) == Some(s) && Enabled(s, SetScale(p, scale)) && s.paintables[p].scale != scale
    requires Exec(Apply(s, SetScale(p, scale)), after) == Some(r)
    requires t < |s.tasks| && s.tasks[t].owner == p
    ensures t < |r.tasks|
    ensures Enabled(r, Finish(t)) ==> Apply(r, Finish(t)) == SetStatus(r, t, Done)
  {
    RunKeepsInv(INIT, before);
    ScaleChangeCancels(s, p, scale, t);
    RunCancels(Apply(s, SetScale(p, scale)), after, t);
  }

  /** Disposing of a paintable has the same effect. */
  lemma DisposedNeverInstalls(before: seq<Event>, s: State, p: nat, after: seq<Event>, r: State, t: nat)
    requires Exec(INIT, before) == Some(s) && Enabled(s, Dispose(p))
    requires Exec(Apply(s, Dispose(p)), after) == Some(r)
    requires t < |s.tasks| && s.tasks[t].owner == p
    ensures t < |r.tasks|
    ensures Enabled(r, Finish(t)) ==> Apply(r, Finish(t)) == SetStatus(r, t, Done)
  {
    RunKeepsInv(INIT, before);
    assert OwnerAgrees(s.tasks[t], s.paintables, s.cancelled);
    StepCancels(s, Dispose(p));
    RunCancels(Apply(s, Dispose(p)), after, t);
  }

  /** A task of paintable p that may still install something. */
  ghost predicate Serves(s: State, t: Task, p: nat, dark: bool) {
    t.owner == p && t.request.dark == dark && Live(t, s.cancelled)
  }

  lemma RenewedServesNone(s: State, p: nat)
    requires Inv(s) && p < |s.paintables|
    ensures forall t, dark :: 0 <= t < |s.tasks| ==> !Serves(Renewed(s, p), s.tasks[t], p, dark)
  {
    forall t, dark | 0 <= t < |s.tasks| ensures !Serves(Renewed(s, p), s.tasks[t], p, dark) {
      assert OwnerAgrees(s.tasks[t], s.paintables, s.cancelled);
    }
  }

  /** After an update exactly one task serves each variant that is painted, and none any other: the dark
      one only if the item has it, and the light one whenever it has no dark one. */
  lemma UpdateServesWhatIsPainted(s: State, p: nat, dark: bool)
    requires Inv(s) && p < |s.paintables|
    ensures var r := UpdateCache(s, p); var q := s.paintables[p];
      var wanted := if dark then q.paintDark && s.hasDark else q.paintLight || !s.hasDark;
      && |s.tasks| <= |r.tasks|
      && (wanted <==> exists t :: |s.tasks| <= t < |r.tasks| && Serves(r, r.tasks[t], p, dark))
      && (forall t, u :: 0 <= t < u < |r.tasks| && Serves(r, r.tasks[t], p, dark) ==> !Serves(r, r.tasks[u], p, dark))
  {
    RenewedServesNone(s, p);
    var r := UpdateCache(s, p);
    var q := s.paintables[p];
    var lightWanted, darkWanted := q.paintLight || !s.hasDark, q.paintDark && s.hasDark;
    var n := |s.tasks|;
    assert r.cancelled == Renewed(s, p).cancelled && s.nextCancellable !in r.cancelled;
    assert |r.tasks| == n + Bit(lightWanted) + Bit(darkWanted);
    assert forall t :: 0 <= t < n ==> r.tasks[t] == s.tasks[t];
    if lightWanted {
      assert Serves(r, r.tasks[n], p, false);
    }
    if darkWanted {
      assert Serves(r, r.tasks[n + Bit(lightWanted)], p, true);
    }
  }

  /** What is asked for after an update: the present look, geometry, size and scale; it is answered from the
      cache exactly when the slot holds a thumbnail of that size and scale. */
  lemma UpdateAsksForThePresent(s: State, p: nat, t: nat)
    requires p < |s.paintables| && |s.tasks| <= t < |UpdateCache(s, p).tasks|
    ensures var task := UpdateCache(s, p).tasks[t]; var q := s.paintables[p];
      var slot := if task.request.dark then s.darkSlot else s.lightSlot;
      && task.owner == p
      && task.request == Request(s.look, s.monitor, q.width, q.height, q.scale, task.request.dark)
      && (task.cachedResult <==> slot.thumbnail.Some? && slot.width == q.width && slot.height == q.height
                                 && slot.scale == q.scale)
      && task.status == if task.cachedResult then Ready(slot.thumbnail.value) else Pending
  {
  }

  /** A real change of scale asks again, at the new scale, if anything was asked before: exactly one task then
      serves each variant that is painted.  Otherwise only the scale is noted. */
  lemma ScaleChangeAsksAgain(s: State, p: nat, scale: int, dark: bool)
    requires Inv(s) && Enabled(s, SetScale(p, scale)) && s.paintables[p].scale != scale
    ensures var r := Apply(s, SetScale(p, scale)); var q := s.paintables[p];
      var wanted := if dark then q.paintDark && s.hasDark else q.paintLight || !s.hasDark;
      && |r.paintables| == |s.paintables| && r.paintables[p].scale == scale
      && (q.cancellable == None ==> r.tasks == s.tasks)
      && (q.cancellable.Some? ==>
            && (wanted <==> exists t :: 0 <= t < |r.tasks| && Serves(r, r.tasks[t], p, dark))
            && (forall t :: 0 <= t < |r.tasks| && Serves(r, r.tasks[t], p, dark) ==> r.tasks[t].request.scale == scale)
            && (forall t, u :: 0 <= t < u < |r.tasks| && Serves(r, r.tasks[t], p, dark) ==>
                  !Serves(r, r.tasks[u], p, dark)))
  {
    if s.paintables[p].cancellable.Some? {
      RescaledUpdate(s, p, scale, dark);
    }
  }

  lemma RescaledUpdate(s: State, p: nat, scale: int, dark: bool)
    requires Inv(s) && Enabled(s, SetScale(p, scale)) && s.paintables[p].scale != scale
    requires s.paintables[p].cancellable.Some?
    ensures var r := Apply(s, SetScale(p, scale)); var q := s.paintables[p];
      var wanted := if dark then q.paintDark && s.hasDark else q.paintLight || !s.hasDark;
      && (wanted <==> exists t :: 0 <= t < |r.tasks| && Serves(r, r.tasks[t], p, dark))
      && (forall t :: 0 <= t < |r.tasks| && Serves(r, r.tasks[t], p, dark) ==> r.tasks[t].request.scale == scale)
      && (forall t, u :: 0 <= t < u < |r.tasks| && Serves(r, r.tasks[t], p, dark) ==> !Serves(r, r.tasks[u], p, dark))
  {
    var s1 := s.(paintables := s.paintables[p := s.paintables[p].(scale := scale)]);
    var r := UpdateCache(s1, p);
    assert r == Apply(s, SetScale(p, scale));
    RescaledServesNone(s, p, scale, dark);
    NewTasksServe(s1, p, dark);
  }

  /** No task from before the change of scale serves the paintable. */
  lemma RescaledServesNone(s: State, p: nat, scale: int, dark: bool)
    requires Inv(s) && p < |s.paintables| && s.paintables[p].cancellable.Some?
    ensures var r := UpdateCache(s.(paintables := s.paintables[p := s.paintables[p].(scale := scale)]), p);
      && |s.tasks| <= |r.tasks|
      && forall t :: 0 <= t < |s.tasks| ==> r.tasks[t] == s.tasks[t] && !Serves(r, s.tasks[t], p, dark)
  {
    var r := UpdateCache(s.(paintables := s.paintables[p := s.paintables[p].(scale := scale)]), p);
    forall t | 0 <= t < |s.tasks| ensures r.tasks[t] == s.tasks[t] && !Serves(r, s.tasks[t], p, dark) {
      assert OwnerAgrees(s.tasks[t], s.paintables, s.cancelled);
    }
  }

  /** The tasks an update adds: one for each variant that is painted. */
  lemma NewTasksServe(s: State, p: nat, dark: bool)
    requires p < |s.paintables| && forall c :: c in s.cancelled ==> c < s.nextCancellable
    requires s.paintables[p].cancellable.Some? ==> s.paintables[p].cancellable.value < s.nextCancellable
    ensures var r := UpdateCache(s, p); var q := s.paintables[p];
      var wanted := if dark then q.paintDark && s.hasDark else q.paintLight || !s.hasDark;
      && |s.tasks| <= |r.tasks|
      && (wanted <==> exists t :: |s.tasks| <= t < |r.tasks| && Serves(r, r.tasks[t], p, dark))
      && (forall t :: |s.tasks| <= t < |r.tasks| ==> r.tasks[t].request.scale == q.scale)
      && (forall t, u :: |s.tasks| <= t < u < |r.tasks| && Serves(r, r.tasks[t], p, dark) ==>
            !Serves(r, r.tasks[u], p, dark))
  {
    var r := UpdateCache(s, p);
    var q := s.paintables[p];
    var lightWanted, darkWanted := q.paintLight || !s.hasDark, q.paintDark && s.hasDark;
    var n := |s.tasks|;
    assert s.nextCancellable !in r.cancelled;
    assert |r.tasks| == n + Bit(lightWanted) + Bit(darkWanted);
    if lightWanted {
      assert Serves(r, r.tasks[n], p, false);
    }
    if darkWanted {
      assert Serves(r, r.tasks[n + Bit(lightWanted)], p, true);
    }
  }

  /** The item, the monitor and the paintables change as told; setting what is painted only sets that; an
      unchanged scale changes nothing; the worker's result goes to its task alone, and is made as asked; a
      disposed paintable shows nothing. */
  lemma OtherEvents(s: State, e: Event)
    requires Enabled(s, e)
    ensures var r := Apply(s, e);
      && (e.Modify? ==> r == s.(look := e.look, hasDark := e.hasDark))
      && (e.Arrange? ==> r == s.(monitor := e.monitor))
      && (e.New? ==> r == s.(paintables := s.paintables
                               + [Paintable(e.width, e.height, e.scale, e.light, e.dark, None, None, None, false)]))
      && (e.SetFlags? ==>
            r == s.(paintables := s.paintables[e.p := s.paintables[e.p].(paintLight := e.light, paintDark := e.dark)]))
      && (e.SetScale? && s.paintables[e.p].scale == e.scale ==> r == s)
      && (e.Work? ==>
            && |r.tasks| == |s.tasks| && r.paintables == s.paintables
            && r.lightSlot == s.lightSlot && r.darkSlot == s.darkSlot
            && (forall t :: 0 <= t < |s.tasks| && t != e.t ==> r.tasks[t] == s.tasks[t])
            && r.tasks[e.t].request == s.tasks[e.t].request
            && r.tasks[e.t].status == if e.ok then Ready(Pixbuf(s.nextId, s.tasks[e.t].request)) else Failed)
      && (e.Dispose? ==>
            && |r.paintables| == |s.paintables| && r.paintables[e.p].disposed
            && r.paintables[e.p].texture == None && r.paintables[e.p].darkTexture == None)
  {
  }

  // ---- what a finished rendering leaves in the cache ----

  predicate HasId(slot: Slot, id: nat) { slot.thumbnail.Some? && slot.thumbnail.value.id == id }

  /** Rendered by the worker and not yet finished. */
  predicate Rendered(t: Task) { t.status.Ready? && !t.cachedResult }

  /** Every picture has an id below the next one, and one that is rendered and not yet finished has an id
      that no slot and no other task has. */
  ghost predicate IdInv(s: State) {
    && (forall dark :: SlotOf(s, dark).thumbnail.Some? ==> SlotOf(s, dark).thumbnail.value.id < s.nextId)
    && (forall t :: 0 <= t < |s.tasks| && s.tasks[t].status.Ready? ==> s.tasks[t].status.pixbuf.id < s.nextId)
    && (forall t, dark :: 0 <= t < |s.tasks| && Rendered(s.tasks[t]) ==> !HasId(SlotOf(s, dark), s.tasks[t].status.pixbuf.id))
    && (forall t, u :: 0 <= t < |s.tasks| && 0 <= u < |s.tasks| && t != u && Rendered(s.tasks[t]) && s.tasks[u].status.Ready?
          ==> s.tasks[t].status.pixbuf.id != s.tasks[u].status.pixbuf.id)
  }

  lemma GetThumbnailKeepsIds(s: State, p: nat, dark: bool)
    requires IdInv(s) && p < |s.paintables| && s.paintables[p].cancellable.Some?
    ensures IdInv(GetThumbnail(s, p, dark))
  {
    var r := GetThumbnail(s, p, dark);
    assert forall d :: SlotOf(r, d) == SlotOf(s, d);
  }

  lemma UpdateCacheKeepsIds(s: State, p: nat)
    requires IdInv(s) && p < |s.paintables|
    ensures IdInv(UpdateCache(s, p))
  {
    var s1 := Renewed(s, p);
    assert forall d :: SlotOf(s1, d) == SlotOf(s, d);
    if s.paintables[p].paintLight || !s.hasDark {
      GetThumbnailKeepsIds(s1, p, false);
    }
    var s2 := if s.paintables[p].paintLight || !s.hasDark then GetThumbnail(s1, p, false) else s1;
    if s.paintables[p].paintDark && s.hasDark {
      GetThumbnailKeepsIds(s2, p, true);
    }
  }

  lemma WorkKeepsIds(s: State, t: nat, ok: bool)
    requires IdInv(s) && Enabled(s, Work(t, ok))
    ensures IdInv(Apply(s, Work(t, ok)))
  {
    var r := Apply(s, Work(t, ok));
    assert forall d :: SlotOf(r, d) == SlotOf(s, d);
  }

  lemma DoneKeepsIds(s: State, r: State, t: nat)
    requires IdInv(s) && t < |s.tasks| && r.nextId == s.nextId
    requires r.tasks == s.tasks[t := s.tasks[t].(status := Done)]
    requires forall d :: SlotOf(r, d) == SlotOf(s, d)
                         || (Rendered(s.tasks[t]) && SlotOf(r, d).thumbnail == Some(s.tasks[t].status.pixbuf))
    ensures IdInv(r)
  {
  }

  lemma FinishKeepsIds(s: State, t: nat)
    requires IdInv(s) && Enabled(s, Finish(t))
    ensures IdInv(Apply(s, Finish(t)))
  {
    var r, task := Apply(s, Finish(t)), s.tasks[t];
    forall d ensures SlotOf(r, d) == SlotOf(s, d) || (Rendered(task) && SlotOf(r, d).thumbnail == Some(task.status.pixbuf)) {
    }
    DoneKeepsIds(s, r, t);
  }

  lemma SameSlotsAndTasks(s: State, r: State)
    requires IdInv(s) && r.tasks == s.tasks && r.lightSlot == s.lightSlot && r.darkSlot == s.darkSlot && r.nextId == s.nextId
    ensures IdInv(r)
  {
    assert forall d :: SlotOf(r, d) == SlotOf(s, d);
  }

  lemma StepKeepsIds(s: State, e: Event)
    requires IdInv(s) && Enabled(s, e)
    ensures IdInv(Apply(s, e))
  {
    if e.Rooted? {
      UpdateCacheKeepsIds(s, e.p);
    } else if e.SetScale? {
      var s1 := s.(paintables := s.paintables[e.p := s.paintables[e.p].(scale := e.scale)]);
      SameSlotsAndTasks(s, s1);
      UpdateCacheKeepsIds(s1, e.p);
    } else if e.Work? {
      WorkKeepsIds(s, e.t, e.ok);
    } else if e.Finish? {
      FinishKeepsIds(s, e.t);
    } else {
      SameSlotsAndTasks(s, Apply(s, e));
    }
  }

  lemma {:induction false} RunKeepsIds(s: State, events: seq<Event>)
    requires IdInv(s) && Exec(s, events).Some?
    ensures IdInv(Exec(s, events).value)
    decreases |events|
  {
    if events != [] {
      StepKeepsIds(s, events[0]);
      RunKeepsIds(Apply(s, events[0]), events[1..]);
    }
  }

  /** In every interleaving, finishing a rendering that was not cancelled leaves just that picture in the
      slot of its variant, with the size and scale it was made for: it is never taken for the picture that
      is already there. */
  lemma FinishedIsCached(events: seq<Event>, s: State, t: nat)
    requires Exec(INIT, events) == Some(s) && Enabled(s, Finish(t))
    requires Rendered(s.tasks[t]) && s.tasks[t].cancellable !in s.cancelled
    ensures var r := s.tasks[t].request;
      && SlotOf(Apply(s, Finish(t)), r.dark) == Slot(Some(s.tasks[t].status.pixbuf), r.width, r.height, r.scale)
      && SlotOf(Apply(s, Finish(t)), !r.dark) == SlotOf(s, !r.dark)
      && s.tasks[t].status.pixbuf.made == r
  {
    RunKeepsInv(INIT, events);
    RunKeepsIds(INIT, events);
    assert ResultAgrees(s.tasks[t]);
    assert !HasId(SlotOf(s, s.tasks[t].request.dark), s.tasks[t].status.pixbuf.id);
  }

  // ---- the calls as written ----

  /** The item's two slots and one paintable's view of them. */
  class Item {
    var look: nat
    var hasDark: bool
    var monitor: Rectangle
    var lightSlot: Slot
    var darkSlot: Slot
    var paintables: seq<Paintable>
    var tasks: seq<Task>
    var cancelled: set<nat>
    var nextCancellable: nat
    var nextId: nat

    ghost function S(): State
      reads this
    {
      State(look, hasDark, monitor, lightSlot, darkSlot, paintables, tasks, cancelled, nextCancellable, nextId)
    }

    /** cc_background_item_get_thumbnail_async */
    method GetThumbnailAsync(p: nat, dark: bool)
      requires p < |paintables| && paintables[p].cancellable.Some?
      modifies `tasks
      ensures S() == old(GetThumbnail(S(), p, dark))
    {
      var q := paintables[p];
      var slot := lightSlot;
      if dark {
        slot := darkSlot;
      }
      var r := Request(look, monitor, q.width, q.height, q.scale, dark);
      if slot.thumbnail.Some? && slot.width == q.width && slot.height == q.height && slot.scale == q.scale {
        tasks := tasks + [Task(p, q.cancellable.value, r, true, Ready(slot.thumbnail.value))];
        return;
      }
      tasks := tasks + [Task(p, q.cancellable.value, r, false, Pending)];
    }

    /** update_cache */
    method UpdatePaintable(p: nat)
      requires p < |paintables|
      modifies `paintables, `tasks, `cancelled, `nextCancellable
      ensures S() == old(UpdateCache(S(), p))
    {
      var q := paintables[p];
      if q.cancellable.Some? {
        cancelled := cancelled + {q.cancellable.value};
      }
      paintables := paintables[p := q.(cancellable := Some(nextCancellable))];
      nextCancellable := nextCancellable + 1;
      assert S() == Renewed(old(S()), p);
      if q.paintLight || !hasDark {
        GetThumbnailAsync(p, false);
      }
      if q.paintDark && hasDark {
        GetThumbnailAsync(p, true);
      }
    }

    /** The PROP_SCALE_FACTOR case of the property setter. */
    method SetScaleFactor(p: nat, scale: int)
      requires p < |paintables|
      modifies `paintables, `tasks, `cancelled, `nextCancellable
      ensures S() == old(ScaleSet(S(), p, scale))
    {
      if paintables[p].scale != scale {
        paintables := paintables[p := paintables[p].(scale := scale)];
        if paintables[p].cancellable.Some? {
          UpdatePaintable(p);
        }
      }
    }

    /** cc_background_item_get_thumbnail_finish */
    method GetThumbnailFinish(task: Task) returns (pixbuf: Option<Pixbuf>)
      modifies `lightSlot, `darkSlot
      ensures pixbuf == old(Received(S(), task)) && S() == old(Cached(S(), task))
    {
      if !task.status.Ready? || task.cancellable in cancelled {
        return None;
      }
      pixbuf := Some(task.status.pixbuf);
      if task.cachedResult {
        return;
      }
      if task.request.dark {
        if darkSlot.thumbnail == None || darkSlot.thumbnail.value.id != pixbuf.value.id {
          darkSlot := Slot(pixbuf, task.request.width, task.request.height, task.request.scale);
        }
      } else {
        if lightSlot.thumbnail == None || lightSlot.thumbnail.value.id != pixbuf.value.id {
          lightSlot := Slot(pixbuf, task.request.width, task.request.height, task.request.scale);
        }
      }
    }

    /** light_cb and dark_cb */
    method Callback(t: nat)
      requires Enabled(S(), Finish(t))
      modifies `lightSlot, `darkSlot, `paintables, `tasks
      ensures S() == old(Apply(S(), Finish(t)))
    {
      var task := tasks[t];
      var pixbuf := GetThumbnailFinish(task);
      if pixbuf.Some? {
        var q := paintables[task.owner];
        if task.request.dark {
          paintables := paintables[task.owner := q.(darkTexture := pixbuf)];
        } else {
          paintables := paintables[task.owner := q.(texture := pixbuf)];
        }
      }
      tasks := tasks[t := task.(status := Done)];
    }
  }
}
