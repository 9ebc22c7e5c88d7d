/** The back history over whole runs of user and system actions. */
module NavigationHistory {
  import opened Text
  import opened Navigation
  import opened NavigationEnds

  // ---- going back ----

  function Popped(s: State): State
    requires s.history != []
  {
    s.(history := s.history[1..])
  }

  /** switch_to_previous_panel */
  function Back(fuel: nat, l: Lists, s: State): (r: Option<State>)
    requires WellFormed(l) && Sane(l, s)
    ensures r.Some? ==> Sane(l, r.value)
  {
    if s.history == [] then Some(s) else SetActive(fuel, l, Popped(s), s.history[0], false)
  }

  /** "Back" to a panel that can no longer be opened, with the current panel right behind it. */
  ghost predicate Collides(l: Lists, s: State) {
    && s.history != [] && !Available(l, s.history[0])
    && |s.history| >= 2 && s.current == Some(s.history[1])
  }

  lemma TrailHead(l: Lists, s: State)
    requires Alternating(l, s.current, s.history) && s.history != []
    ensures s.current.Some? && s.current != Some(s.history[0]) && Entered(l, s.history[0])
  {
    var trail := Trail(s.current, s.history);
    assert trail[0] != trail[1] && Entered(l, trail[1]);
  }

  /** "Back" to a panel that can be opened. */
  lemma BackOpens(fuel: nat, l: Lists, s: State)
    requires WellFormed(l) && Sane(l, s) && !s.single && s.history != [] && Available(l, s.history[0])
    requires Alternating(l, s.current, s.history)
    ensures var s1 := Enter(Popped(s), s.history[0], false);
      && s1.current == Some(s.history[0]) && s1.history == s.history[1..]
      && Back(fuel, l, s) == ListSetActive(fuel, l, s1, s.history[0])
  {
    TrailHead(l, s);
  }

  lemma BackStays(fuel: nat, l: Lists, s: State)
    requires WellFormed(l) && Sane(l, s) && s.history != [] && !Available(l, s.history[0])
    ensures Back(fuel, l, s) == Some(Popped(s))
  {
  }

  /** The trail after the popped panel was entered is the tail of the trail before. */
  lemma TrailTail(l: Lists, current: Option<Id>, history: seq<Id>)
    requires Alternating(l, current, history) && history != []
    ensures Alternating(l, Some(history[0]), history[1..])
  {
    var trail := Trail(current, history);
    var now := Trail(Some(history[0]), history[1..]);
    assert now == trail[1..];
    assert forall i :: 0 <= i < |now| ==> now[i] == trail[i + 1];
  }

  /** Dropping the head of the history makes its neighbours in the trail meet. */
  lemma TrailWithoutHead(l: Lists, current: Option<Id>, history: seq<Id>)
    requires Alternating(l, current, history) && history != []
    ensures Alternating(l, current, history[1..]) <==> !(|history| >= 2 && current == Some(history[1]))
  {
    var trail := Trail(current, history);
    var now := Trail(current, history[1..]);
    assert now[0] == trail[0];
    assert forall i :: 1 <= i < |now| ==> now[i] == trail[i + 1];
    if |history| >= 2 && current == Some(history[1]) {
      assert now[0] == now[1];
    }
  }

  /** Outside single-panel mode, going back keeps neighbours distinct, except exactly when the popped
      panel cannot be opened and the entry behind it is the current panel. */
  lemma BackKeepsNeighboursDistinct(fuel: nat, l: Lists, s: State)
    requires WellFormed(l) && Sane(l, s) && !s.single && s.history != [] && Back(fuel, l, s).Some?
    requires Alternating(l, s.current, s.history)
    ensures var r := Back(fuel, l, s).value;
      !r.single && (Alternating(l, r.current, r.history) <==> !Collides(l, s))
  {
    if Available(l, s.history[0]) {
      BackOpens(fuel, l, s);
      TrailTail(l, s.current, s.history);
      ListSetActiveKeeps(fuel, l, Enter(Popped(s), s.history[0], false), s.history[0]);
    } else {
      BackStays(fuel, l, s);
      TrailWithoutHead(l, s.current, s.history);
    }
  }

  /** What the list asks the window to open right after panel id was entered. */
  function Requested(l: Lists, s: State, id: Id): Option<Id>
    requires WellFormed(l) && id in l.panels
  {
    if l.panels[id].listed != Hidden then Some(Target(l, id))
    else if FirstVisible(l, s).Some? then Some(Target(l, FirstVisible(l, s).value))
    else None
  }

  /** Entering id makes the list open a further panel. */
  predicate Redirected(l: Lists, s: State, id: Id)
    requires WellFormed(l) && id in l.panels
  {
    var t := Requested(l, s, id);
    t.Some? && t != Some(id) && Available(l, t.value)
  }

  /** The net effect on the history, whatever happens inside. */
  ghost predicate PushesIff(pushes: bool, id: Id, history: seq<Id>, r: Option<State>) {
    && r.Some?
    && (pushes ==> Suffix([id] + history, r.value.history))
    && (!pushes ==> r.value.history == history && r.value.current == Some(id))
  }

  /** A row activation pushes the current panel exactly when it opens another one. */
  lemma RowPushesIff(fuel: nat, l: Lists, s: State, row: Id, id: Id)
    requires WellFormed(l) && Sane(l, s) && Grounded(l) && row in l.panels && Direct(s) && !s.single && fuel >= 5
    requires s.current == Some(id)
    ensures var t := Target(l, row);
      PushesIff(t != id && Available(l, t), id, s.history, RowActivated(fuel, l, s, row))
  {
    var t := Target(l, row);
    if t != id && Available(l, t) {
      TargetIsEffective(l, row);
      DirectRowEnds(fuel, l, s, row);
      RowEnters(fuel, l, s, row);
      var s1 := Enter(InMain(s), t, true);
      assert s1.history == [id] + s.history;
      ListSetActiveKeeps(fuel - 1, l, s1, t);
    } else {
      QuietRow(fuel, l, s, row);
    }
  }

  /** Marking the current panel as active pushes it exactly when the list opens a further one. */
  lemma SelectPushesIffRedirected(fuel: nat, l: Lists, s: State, id: Id)
    requires WellFormed(l) && Sane(l, s) && Grounded(l) && !s.single && fuel >= 5
    requires id in l.panels && s.current == Some(id)
    ensures PushesIff(Redirected(l, s, id), id, s.history, ListSetActive(fuel, l, s, id))
  {
    if l.panels[id].listed != Hidden {
      RowPushesIff(fuel, l, SelectRow(l, s, id), id, id);
    } else if FirstVisible(l, s).Some? {
      var row := FirstVisible(l, s).value;
      RowPushesIff(fuel, l, SelectFirst(s, row), row, id);
    }
  }

  /** "Back" shortens the history by exactly one or not at all: by one exactly when the popped panel
      cannot be opened or opening it does not make the list open another one. */
  lemma BackDropsOne(fuel: nat, l: Lists, s: State)
    requires WellFormed(l) && Sane(l, s) && Grounded(l) && !s.single && s.history != [] && fuel >= 5
    requires Alternating(l, s.current, s.history)
    ensures Back(fuel, l, s).Some?
    ensures var h := s.history[0]; var r := Back(fuel, l, s).value;
      && (|r.history| == |s.history| - 1 || |r.history| >= |s.history|)
      && (|r.history| == |s.history| - 1 <==> !Available(l, h) || !Redirected(l, s, h))
      && (Available(l, h) && !Redirected(l, s, h) ==> r.current == Some(h) && r.history == s.history[1..])
  {
    var h := s.history[0];
    if Available(l, h) {
      BackOpens(fuel, l, s);
      var s1 := Enter(Popped(s), h, false);
      assert FirstVisible(l, s1) == FirstVisible(l, s);
      SelectPushesIffRedirected(fuel, l, s1, h);
    } else {
      BackStays(fuel, l, s);
    }
  }

  lemma {:induction false} PushedKeeps(path: seq<Id>, history: seq<Id>)
    requires path != []
    ensures Suffix(history, Pushed(path, history)) && |Pushed(path, history)| == |history| + |path| - 1
    ensures |path| > 1 ==> Suffix([path[0]] + history, Pushed(path, history))
    decreases |path|
  {
    if |path| > 1 {
      PushedKeeps(path[1..], [path[0]] + history);
      SuffixOfTail(path[0], history, Pushed(path, history));
    }
  }

  lemma SuffixOfTail(x: Id, a: seq<Id>, b: seq<Id>)
    requires Suffix([x] + a, b)
    ensures Suffix(a, b)
  {
    assert b[|b| - |a|..] == b[|b| - |a| - 1..][1..];
    assert ([x] + a)[1..] == a;
  }

  /** The state in which "back" has entered the popped panel. */
  function WentBack(s: State): State
    requires s.history != []
  {
    Enter(Popped(s), s.history[0], false)
  }

  /** Where "back" ends up when the popped panel can be opened: it walks on from that panel. */
  lemma BackArrives(fuel: nat, l: Lists, s: State)
    requires WellFormed(l) && Sane(l, s) && Grounded(l) && !s.single && fuel >= 5
    requires Alternating(l, s.current, s.history) && s.history != [] && Available(l, s.history[0])
    ensures Sane(l, WentBack(s)) && WentBack(s).history == s.history[1..]
    ensures Walked(l, WentBack(s), Path(l, WentBack(s), s.history[0]), Back(fuel, l, s))
  {
    TrailHead(l, s);
    BackOpens(fuel, l, s);
    EnteredWalk(fuel, l, WentBack(s), s.history[0]);
  }

  lemma RedirectedPath(l: Lists, s: State, s1: State, e: Id)
    requires WellFormed(l) && Sane(l, s1) && s1.view == s.view && s1.shown == s.shown
    requires e in l.panels && l.panels[e].listed == Hidden && Redirected(l, s, e)
    ensures |Path(l, s1, e)| >= 2
  {
    assert FirstVisible(l, s1) == FirstVisible(l, s);
  }

  /** A list-hidden panel that "back" pops is pushed straight back when the first visible row leads to
      another panel. */
  lemma HiddenPanelIsPushedBack(fuel: nat, l: Lists, s: State)
    requires WellFormed(l) && Sane(l, s) && Grounded(l) && !s.single && fuel >= 5
    requires Alternating(l, s.current, s.history) && s.history != []
    requires Available(l, s.history[0]) && l.panels[s.history[0]].listed == Hidden
    requires Redirected(l, s, s.history[0])
    ensures var r := Back(fuel, l, s); var path := Path(l, WentBack(s), s.history[0]);
      && r.Some? && |path| >= 2 && r.value.current == Some(path[|path| - 1])
      && Suffix(s.history, r.value.history) && |r.value.history| == |s.history| + |path| - 2
  {
    BackArrives(fuel, l, s);
    var path := Path(l, WentBack(s), s.history[0]);
    RedirectedPath(l, s, WentBack(s), s.history[0]);
    PushedKeeps(path, s.history[1..]);
    assert [path[0]] + s.history[1..] == s.history;
  }

  // ---- whole runs ----

  datatype Op =
    | Open(id: Id)                        // cc_shell_set_active_panel_from_id
    | ClickRow(id: Id)
    | ClickFound(id: Id)                  // a search result
    | GoBack
    | ActivateSearch                      // Enter in the search entry
    | SetQuery(text: string, order: seq<Id>, found: set<Id>)   // one that differs from the last; the
                                          // search rows are filtered and sorted again
    | SetVisibility(id: Id, visibility: Visibility, found: set<Id>)
    | LoadLast(last: Option<Id>)          // the idle handler after start-up
    | SetCollapsed(collapsed: bool)       // the window became narrow, or wide again
    | SinglePanelMode

  datatype Shell = Shell(lists: Lists, state: State)

  ghost predicate Valid(w: Shell) { WellFormed(w.lists) && Sane(w.lists, w.state) }

  /** The panels an operation names exist, as the source asserts, and sorting keeps the search rows. */
  ghost predicate Legal(ids: set<Id>, op: Op) {
    match op
    case SetQuery(_, order, _) => Ids(order) == ids && Once(order)
    case ClickRow(id) => id in ids
    case ClickFound(id) => id in ids
    case SetVisibility(id, _, _) => id in ids
    case _ => true
  }

  /** cc_shell_set_active_panel_from_id and the user's and system's other ways in. */
  function Navigate(fuel: nat, l: Lists, s: State, op: Op): (r: Option<State>)
    requires WellFormed(l) && Sane(l, s) && Legal(l.panels.Keys, op)
    ensures r.Some? ==> Sane(l, r.value)
  {
    match op
    case Open(id) => SetActive(fuel, l, s, id, true)
    case ClickRow(id) => RowActivated(fuel, l, s.(selected := Chosen(s, id)), id)
    case ClickFound(id) => RowActivated(fuel, l, SelectFound(s, id), id)
    case GoBack => Back(fuel, l, s)
    case ActivateSearch => if s.view == Search then ListActivate(fuel, l, s) else Some(s)
    case SetQuery(text, _, _) => Some(UpdateSearch(s, text))
    case SetVisibility(id, v, _) => VisibilityChanged(fuel, l, s, id, v)
    case LoadLast(last) =>
      if s.listCurrent.Some? then Some(s)
      else if last.Some? && last.value in l.panels then ListSetActive(fuel, l, s, last.value)
      else ListActivate(fuel, l, s)
    case SetCollapsed(collapsed) => Some(SelectionMode(s, !collapsed))
    case SinglePanelMode => Some(SelectionMode(s, false).(single := true))
  }

  /** cc_panel_list_set_selection_mode: the selection is lost, and set again when there can be one */
  function SelectionMode(s: State, selectable: bool): State {
    s.(selectable := selectable,
       selected := if !selectable then None else if s.listCurrent.Some? then s.listCurrent else s.selected)
  }

  /** The part of an operation that changes what navigation reads; it happens first. */
  function Refresh(l: Lists, op: Op): Lists
    requires Legal(l.panels.Keys, op)
  {
    match op
    case SetQuery(_, order, found) => l.(searchRows := order, found := found)
    case SetVisibility(id, v, found) =>
      l.(panels := l.panels[id := Panel(l.panels[id].category, v, v)], found := found)
    case _ => l
  }

  /** A panel's visibility changes in the model and in the list alike. */
  lemma RefreshKeepsGrounded(l: Lists, op: Op)
    requires Grounded(l) && Legal(l.panels.Keys, op)
    ensures Grounded(Refresh(l, op))
  {
    assert SameCategories(l.panels, Refresh(l, op).panels);
    AcyclicByCategory(l, Refresh(l, op));
  }

  function Perform(fuel: nat, w: Shell, op: Op): (r: Option<Shell>)
    requires Valid(w) && Legal(w.lists.panels.Keys, op)
    ensures r.Some? ==> Valid(r.value) && r.value.lists.panels.Keys == w.lists.panels.Keys
  {
    var l := Refresh(w.lists, op);
    assert l.panels.Keys == w.lists.panels.Keys;
    var r := Navigate(fuel, l, w.state, op);
    if r == None then None else Some(Shell(l, r.value))
  }

  /** update_search, which never autoselects */
  function UpdateSearch(s: State, text: string): (r: State)
    ensures r.current == s.current && r.history == s.history && r.shown == s.shown && r.single == s.single
    ensures r.listCurrent == s.listCurrent && (s.view == Search ==> s.previousView == Main)
            ==> (r.view == Search ==> r.previousView == Main)
  {
    if text != [] then
      (if s.view == Main then Switched(s, Search) else s)
    else if s.view == Search && s.previousView == Main then Switched(s.(autoselect := false), Main)
    else s
  }

  function IndexOf(rows: seq<Id>, id: Id): (i: nat)
    requires id in rows
    ensures i < |rows| && rows[i] == id
  {
    if rows[0] == id then 0 else 1 + IndexOf(rows[1..], id)
  }

  /** The row activate_row_below picks: the next one, else the previous one. */
  function Neighbour(rows: seq<Id>, id: Id): (r: Option<Id>)
    requires id in rows
    ensures r.Some? ==> r.value in rows
  {
    var i := IndexOf(rows, id);
    if i + 1 < |rows| then Some(rows[i + 1]) else if i > 0 then Some(rows[i - 1]) else None
  }

  /** A selected row that will no longer be visible hands over to its neighbour. */
  function SelectionMoved(fuel: nat, l: Lists, s: State, id: Id, v: Visibility): (r: Option<State>)
    requires WellFormed(l) && Sane(l, s) && id in l.panels
    ensures r.Some? ==> Sane(l, r.value)
  {
    var next := Neighbour(l.rows, id);
    if s.selected == Some(id) && v != Visible && next.Some?
    then RowActivated(fuel, l, s.(selected := Chosen(s, next.value)), next.value) else Some(s)
  }

  /** cc_panel_list_set_panel_visibility, once the panel's visibility is stored */
  function VisibilityChanged(fuel: nat, l: Lists, s: State, id: Id, v: Visibility): (r: Option<State>)
    requires WellFormed(l) && Sane(l, s) && id in l.panels
    ensures r.Some? ==> Sane(l, r.value)
  {
    var r := SelectionMoved(fuel, l, s, id, v);
    if r == None then None
    else Some(r.value.(shown := if v == Visible then r.value.shown + {id} else r.value.shown - {id}))
  }

  lemma VisibilityEnds(fuel: nat, l: Lists, s: State, id: Id, v: Visibility)
    requires WellFormed(l) && Sane(l, s) && Grounded(l) && id in l.panels && fuel >= FUEL
    ensures VisibilityChanged(fuel, l, s, id, v).Some?
  {
    var next := Neighbour(l.rows, id);
    if next.Some? {
      RowEnds(fuel, l, s.(selected := Chosen(s, next.value)), next.value);
    }
  }

  lemma NavigateEnds(fuel: nat, l: Lists, s: State, op: Op)
    requires WellFormed(l) && Sane(l, s) && Grounded(l) && Legal(l.panels.Keys, op) && fuel >= FUEL
    ensures Navigate(fuel, l, s, op).Some?
  {
    match op
    case Open(id) => OpenEnds(fuel, l, s, id, true);
    case ClickRow(id) => RowEnds(fuel, l, s.(selected := Chosen(s, id)), id);
    case ClickFound(id) => RowEnds(fuel, l, SelectFound(s, id), id);
    case GoBack => if s.history != [] { OpenEnds(fuel, l, Popped(s), s.history[0], false); }
    case ActivateSearch => ActivateEnds(fuel, l, s);
    case SetQuery(_, _, _) =>
    case SetVisibility(id, v, _) => VisibilityEnds(fuel, l, s, id, v);
    case LoadLast(last) =>
      if last.Some? && last.value in l.panels {
        ListSetActiveEnds(fuel, l, s, last.value);
      } else {
        ActivateEnds(fuel, l, s);
      }
    case SetCollapsed(_) =>
    case SinglePanelMode =>
  }

  /** Outside callbacks: a visible row of the main list is not list-hidden, and a panel that cannot be
      opened is list-hidden. */
  ghost predicate Consistent(l: Lists, s: State) {
    && (forall id :: id in s.shown ==> id in l.panels && l.panels[id].listed != Hidden)
    && (forall id :: id in l.panels && l.panels[id].store == Hidden ==> l.panels[id].listed == Hidden)
  }

  /** Rows that a navigation makes visible are not list-hidden. */
  ghost predicate ShowsListed(l: Lists, s: State, r: State) {
    forall id :: id in r.shown ==> id in s.shown || (id in l.panels && l.panels[id].listed != Hidden)
  }

  lemma NavigateShowsListed(fuel: nat, l: Lists, s: State, op: Op)
    requires WellFormed(l) && Sane(l, s) && Legal(l.panels.Keys, op) && Navigate(fuel, l, s, op).Some?
    requires !op.SetVisibility?
    ensures ShowsListed(l, s, Navigate(fuel, l, s, op).value)
  {
    match op
    case Open(id) => SetActiveKeeps(fuel, l, s, id, true);
    case ClickRow(id) => RowActivatedKeeps(fuel, l, s.(selected := Chosen(s, id)), id);
    case ClickFound(id) => RowActivatedKeeps(fuel, l, SelectFound(s, id), id);
    case GoBack => if s.history != [] { SetActiveKeeps(fuel, l, Popped(s), s.history[0], false); }
    case ActivateSearch => ListActivateKeeps(fuel, l, s);
    case SetQuery(_, _, _) =>
    case SetVisibility(id, v, _) => assert false;
    case LoadLast(last) =>
      ListActivateKeeps(fuel, l, s);
      if last.Some? && last.value in l.panels {
        ListSetActiveKeeps(fuel, l, s, last.value);
      }
    case SetCollapsed(_) =>
    case SinglePanelMode =>
  }

  lemma PerformKeepsConsistent(fuel: nat, w: Shell, op: Op)
    requires Valid(w) && Consistent(w.lists, w.state) && Legal(w.lists.panels.Keys, op)
    requires Perform(fuel, w, op).Some?
    ensures var r := Perform(fuel, w, op).value; Consistent(r.lists, r.state)
  {
    var l := Refresh(w.lists, op);
    if op.SetVisibility? {
      var next := Neighbour(l.rows, op.id);
      if next.Some? {
        RowActivatedKeeps(fuel, l, w.state.(selected := Chosen(w.state, next.value)), next.value);
      }
    } else {
      NavigateShowsListed(fuel, l, w.state, op);
    }
  }

  lemma AlternatingByCategory(l: Lists, m: Lists, current: Option<Id>, history: seq<Id>)
    requires SameCategories(l.panels, m.panels)
    ensures Alternating(l, current, history) <==> Alternating(m, current, history)
  {
    assert forall id :: Entered(l, id) <==> Entered(m, id);
  }

  /** Which operation breaks the alternation: only a colliding "back". */
  lemma NavigateAlternates(fuel: nat, l: Lists, s: State, op: Op)
    requires WellFormed(l) && Sane(l, s) && Legal(l.panels.Keys, op) && Navigate(fuel, l, s, op).Some?
    requires !s.single && op != SinglePanelMode && Alternating(l, s.current, s.history)
    ensures var r := Navigate(fuel, l, s, op).value;
      !r.single && (Alternating(l, r.current, r.history) <==> !(op == GoBack && Collides(l, s)))
  {
    match op
    case Open(id) => SetActiveKeeps(fuel, l, s, id, true);
    case ClickRow(id) => RowActivatedKeeps(fuel, l, s.(selected := Chosen(s, id)), id);
    case ClickFound(id) => RowActivatedKeeps(fuel, l, SelectFound(s, id), id);
    case GoBack => if s.history != [] { BackKeepsNeighboursDistinct(fuel, l, s); }
    case ActivateSearch => ListActivateKeeps(fuel, l, s);
    case SetQuery(_, _, _) =>
    case SetVisibility(id, v, _) =>
      var next := Neighbour(l.rows, id);
      if next.Some? {
        RowActivatedKeeps(fuel, l, s.(selected := Chosen(s, next.value)), next.value);
      }
    case LoadLast(last) =>
      ListActivateKeeps(fuel, l, s);
      if last.Some? && last.value in l.panels {
        ListSetActiveKeeps(fuel, l, s, last.value);
      }
    case SetCollapsed(_) =>
    case SinglePanelMode => assert false;
  }

  function Run(fuel: nat, w: Shell, ops: seq<Op>): (r: Option<Shell>)
    requires Valid(w) && forall k :: 0 <= k < |ops| ==> Legal(w.lists.panels.Keys, ops[k])
    decreases |ops|
  {
    if ops == [] then Some(w)
    else
      var r := Perform(fuel, w, ops[0]);
      if r == None then None else Run(fuel, r.value, ops[1..])
  }

  /** In every sequence of user and system actions each action ends, and between actions no visible row
      of the main list is list-hidden. */
  lemma {:induction false} RunsEnd(fuel: nat, w: Shell, ops: seq<Op>)
    requires Valid(w) && Grounded(w.lists) && Consistent(w.lists, w.state) && fuel >= FUEL
    requires forall k :: 0 <= k < |ops| ==> Legal(w.lists.panels.Keys, ops[k])
    ensures var r := Run(fuel, w, ops); r.Some? && Consistent(r.value.lists, r.value.state)
    decreases |ops|
  {
    if ops != [] {
      var l := Refresh(w.lists, ops[0]);
      RefreshKeepsGrounded(w.lists, ops[0]);
      NavigateEnds(fuel, l, w.state, ops[0]);
      PerformKeepsConsistent(fuel, w, ops[0]);
      RunsEnd(fuel, Perform(fuel, w, ops[0]).value, ops[1..]);
    }
  }

  lemma NewWindowIsConsistent(l: Lists)
    requires Reachable(l)
    ensures Valid(Shell(l, NewWindow(l))) && Consistent(l, NewWindow(l)) && ParentInStep(l)
  {
    ReachableInStep(l);
  }

  ghost predicate AllLegal(ids: set<Id>, ops: seq<Op>) { forall k :: 0 <= k < |ops| ==> Legal(ids, ops[k]) }

  /** The run of a new window with these lists ends, action by action. */
  ghost predicate Ends(l: Lists, ops: seq<Op>) {
    && Valid(Shell(l, NewWindow(l)))
    && AllLegal(l.panels.Keys, ops)
    && exists fuel: nat :: Run(fuel, Shell(l, NewWindow(l)), ops).Some?
  }

  lemma RunNeedsFirst(fuel: nat, l: Lists, id: Id)
    requires Valid(Shell(l, NewWindow(l))) && SetActive(fuel, l, NewWindow(l), id, true) == None
    ensures Run(fuel, Shell(l, NewWindow(l)), [Open(id)]) == None
  {
  }

  /** For all visibilities that a window with these rows can have, with the rows in the order they have:
      every run of every kind of action ends if and only if the parents are not cyclic. */
  lemma WindowRunsEndIff(l: Lists)
    requires WellFormed(l) && Once(l.rows) && Once(l.searchRows)
    ensures Acyclic(l) <==>
            forall m: Lists, ops: seq<Op> ::
              SameRows(m, l) && Reachable(m) && AllLegal(m.panels.Keys, ops) ==> Ends(m, ops)
  {
    if Acyclic(l) {
      forall m: Lists, ops: seq<Op> | SameRows(m, l) && Reachable(m) && AllLegal(m.panels.Keys, ops)
        ensures Ends(m, ops)
      {
        AcyclicByCategory(l, m);
        NewWindowIsConsistent(m);
        RunsEnd(FUEL, Shell(m, NewWindow(m)), ops);
      }
    } else {
      var m, id := CyclicHangs(l);
      forall fuel: nat ensures Valid(Shell(m, NewWindow(m))) && Run(fuel, Shell(m, NewWindow(m)), [Open(id)]) == None {
        NewWindowIsConsistent(m);
        RunNeedsFirst(fuel, m, id);
      }
      assert !Ends(m, [Open(id)]);
    }
  }

  /** Before every step of the run, and after the last, no panel follows itself in the trail. */
  ghost predicate AlwaysAlternating(fuel: nat, w: Shell, ops: seq<Op>)
    requires Valid(w) && forall k :: 0 <= k < |ops| ==> Legal(w.lists.panels.Keys, ops[k])
    decreases |ops|
  {
    && Alternating(w.lists, w.state.current, w.state.history)
    && (ops == [] ||
        var r := Perform(fuel, w, ops[0]);
        r == None || AlwaysAlternating(fuel, r.value, ops[1..]))
  }

  /** No step of the run is a colliding "back". */
  ghost predicate NeverCollides(fuel: nat, w: Shell, ops: seq<Op>)
    requires Valid(w) && forall k :: 0 <= k < |ops| ==> Legal(w.lists.panels.Keys, ops[k])
    decreases |ops|
  {
    ops == [] || (
      && !(ops[0] == GoBack && Collides(w.lists, w.state))
      && (var r := Perform(fuel, w, ops[0]);
          r == None || NeverCollides(fuel, r.value, ops[1..])))
  }

  /** Over whole runs outside single-panel mode: the current panel followed by the back history never
      has two equal neighbours, exactly when no "back" pops a panel that cannot be opened with the
      current panel right behind it. */
  lemma {:induction false} RunsAlternateIff(fuel: nat, w: Shell, ops: seq<Op>)
    requires Valid(w) && !w.state.single && Alternating(w.lists, w.state.current, w.state.history)
    requires forall k :: 0 <= k < |ops| ==> Legal(w.lists.panels.Keys, ops[k]) && ops[k] != SinglePanelMode
    ensures AlwaysAlternating(fuel, w, ops) <==> NeverCollides(fuel, w, ops)
    decreases |ops|
  {
    if ops != [] && Perform(fuel, w, ops[0]).Some? {
      var l := Refresh(w.lists, ops[0]);
      var s := w.state;
      AlternatingByCategory(w.lists, l, s.current, s.history);
      NavigateAlternates(fuel, l, s, ops[0]);
      if !(ops[0] == GoBack && Collides(l, s)) {
        RunsAlternateIff(fuel, Perform(fuel, w, ops[0]).value, ops[1..]);
      }
    }
  }

  // ---- a run that collides ----

  /** Opening an ordinary panel from the main view. */
  lemma PlainOpen(fuel: nat, l: Lists, s: State, id: Id)
    requires WellFormed(l) && Sane(l, s) && !s.single && s.view == Main && s.current != Some(id) && fuel >= 1
    requires Available(l, id) && l.panels[id].category == Other && l.panels[id].listed != Hidden
    ensures Navigate(fuel, l, s, Open(id)) ==
            Some(SelectRow(l, Enter(s, id, true), id).(autoselect := true, listCurrent := Some(id)))
  {
    var s1 := Enter(s, id, true);
    assert SetActive(fuel, l, s, id, true) == ListSetActive(fuel, l, s1, id);
    QuietRow(fuel, l, SelectRow(l, s1, id), id);
  }

  lemma RunStep(fuel: nat, w: Shell, op: Op, w': Shell, rest: seq<Op>)
    requires Valid(w) && Legal(w.lists.panels.Keys, op) && Perform(fuel, w, op) == Some(w')
    requires forall k :: 0 <= k < |rest| ==> Legal(w.lists.panels.Keys, rest[k])
    ensures Valid(w') && w'.lists.panels.Keys == w.lists.panels.Keys
    ensures Run(fuel, w, [op] + rest) == Run(fuel, w', rest)
  {
    assert ([op] + rest)[1..] == rest;
  }

  lemma RunTwo(fuel: nat, w: Shell, first: Op, w1: Shell, second: Op, w2: Shell)
    requires Valid(w) && Legal(w.lists.panels.Keys, first) && Perform(fuel, w, first) == Some(w1)
    requires Valid(w1) && Legal(w1.lists.panels.Keys, second) && Perform(fuel, w1, second) == Some(w2)
    ensures Legal(w.lists.panels.Keys, second) && Run(fuel, w, [first, second]) == Some(w2)
  {
    RunStep(fuel, w1, second, w2, []);
    assert [second] + [] == [second];
    RunStep(fuel, w, first, w1, [second]);
    assert [first] + [second] == [first, second];
  }

  lemma RunThree(fuel: nat, w: Shell, first: Op, w1: Shell, second: Op, w2: Shell, third: Op, w3: Shell)
    requires Valid(w) && Legal(w.lists.panels.Keys, first) && Perform(fuel, w, first) == Some(w1)
    requires Valid(w1) && Legal(w1.lists.panels.Keys, second) && Perform(fuel, w1, second) == Some(w2)
    requires Valid(w2) && Legal(w2.lists.panels.Keys, third) && Perform(fuel, w2, third) == Some(w3)
    ensures Legal(w.lists.panels.Keys, second) && Legal(w.lists.panels.Keys, third)
    ensures Run(fuel, w, [first, second, third]) == Some(w3)
  {
    RunTwo(fuel, w1, second, w2, third, w3);
    RunStep(fuel, w, first, w1, [second, third]);
    assert [first] + [second, third] == [first, second, third];
  }

  /** A window in the main view with this trail, whose current row is selected. */
  ghost predicate Ordinary(w: Shell, current: Option<Id>, history: seq<Id>) {
    && Valid(w) && !w.state.single && w.state.view == Main
    && w.state.current == current && w.state.history == history
    && (if w.state.selectable then w.state.selected == current else w.state.selected == None)
  }

  /** An ordinary panel: visible, and without a parent. */
  predicate Plain(l: Lists, id: Id) {
    id in l.panels && l.panels[id] == Panel(Other, Visible, Visible)
  }

  lemma PlainStep(fuel: nat, w: Shell, current: Option<Id>, history: seq<Id>, id: Id) returns (w': Shell)
    requires Ordinary(w, current, history) && Plain(w.lists, id) && current != Some(id) && fuel >= 1
    ensures Perform(fuel, w, Open(id)) == Some(w') && w'.lists == w.lists
    ensures Ordinary(w', Some(id), (if current.Some? then [current.value] else []) + history)
  {
    PlainOpen(fuel, w.lists, w.state, id);
    w' := Perform(fuel, w, Open(id)).value;
    assert [] + history == history;
  }

  /** The window after panel a, panel b and panel a again were opened. */
  lemma OpenThree(fuel: nat, l: Lists, a: Id, b: Id) returns (w: Shell)
    requires Reachable(l) && a != b && Plain(l, a) && Plain(l, b) && fuel >= 1
    ensures Run(fuel, Shell(l, NewWindow(l)), [Open(a), Open(b), Open(a)]) == Some(w)
    ensures w.lists == l && Ordinary(w, Some(a), [b, a])
  {
    var w0 := Shell(l, NewWindow(l));
    var w1 := PlainStep(fuel, w0, None, [], a);
    var w2 := PlainStep(fuel, w1, Some(a), [], b);
    assert [a] + [] == [a];
    w := PlainStep(fuel, w2, Some(b), [a], a);
    assert [b] + [a] == [b, a];
    RunThree(fuel, w0, Open(a), w1, Open(b), w2, Open(a), w);
  }

  /** A run of a new window that ends with two equal neighbours: open a, b and a, hide b, and go back. */
  lemma CollidingRun(fuel: nat, l: Lists, a: Id, b: Id, found: set<Id>) returns (w: Shell, r: Shell)
    requires Reachable(l) && a != b && Plain(l, a) && Plain(l, b) && fuel >= 1
    ensures Run(fuel, Shell(l, NewWindow(l)), [Open(a), Open(b), Open(a)]) == Some(w) && Valid(w) && w.lists == l
    ensures Run(fuel, w, [SetVisibility(b, Hidden, found), GoBack]) == Some(r)
    ensures r.state.current == Some(a) && r.state.history == [a]
    ensures !Alternating(r.lists, r.state.current, r.state.history)
  {
    w := OpenThree(fuel, l, a, b);
    r := HideThenBack(fuel, w, a, b, found);
  }

  lemma HideThenBack(fuel: nat, w: Shell, a: Id, b: Id, found: set<Id>) returns (r: Shell)
    requires Ordinary(w, Some(a), [b, a]) && a != b && b in w.lists.panels
    ensures Run(fuel, w, [SetVisibility(b, Hidden, found), GoBack]) == Some(r)
    ensures r.state.current == Some(a) && r.state.history == [a]
    ensures !Alternating(r.lists, r.state.current, r.state.history)
  {
    var hiding := SetVisibility(b, Hidden, found);
    var w1 := Perform(fuel, w, hiding).value;
    assert w1.state.history == [b, a] && !Available(w1.lists, b);
    BackStays(fuel, w1.lists, w1.state);
    r := Shell(w1.lists, Popped(w1.state));
    RunTwo(fuel, w, hiding, w1, GoBack, r);
    var trail := Trail(r.state.current, r.state.history);
    assert trail[0] == trail[1];
  }

  // ---- a run that cannot go back ----

  /** A redirect whose first visible row is that of an ordinary panel. */
  lemma PlainRedirect(fuel: nat, l: Lists, s: State, id: Id, first: Id)
    requires WellFormed(l) && Sane(l, s) && !s.single && s.view == Main && fuel >= 2
    requires s.current == Some(id) && id in l.panels && l.panels[id].listed == Hidden
    requires FirstVisible(l, s) == Some(first) && Plain(l, first)
    ensures var s1 := Enter(SelectFirst(s, first), first, true);
      ListSetActive(fuel, l, s, id) == Some(SelectRow(l, s1, first).(autoselect := true, listCurrent := Some(first)))
  {
    var s0 := SelectFirst(s, first);
    var s1 := Enter(s0, first, true);
    RowEnters(fuel, l, s0, first);
    PlainSelect(fuel - 1, l, s1, first);
    assert ListSetActive(fuel, l, s, id) == RowActivated(fuel, l, s0, first);
  }

  /** Telling the list about an ordinary panel that was entered. */
  lemma PlainSelect(fuel: nat, l: Lists, s: State, id: Id)
    requires WellFormed(l) && Sane(l, s) && s.view == Main && fuel >= 1 && s.current == Some(id) && Plain(l, id)
    ensures ListSetActive(fuel, l, s, id) == Some(SelectRow(l, s, id).(autoselect := true, listCurrent := Some(id)))
  {
    QuietRow(fuel, l, SelectRow(l, s, id), id);
  }

  /** A panel that a new window hides from its list is opened; the first row is that of an ordinary panel.
      The list opens that one instead, and "back" then leaves everything as it is. */
  lemma HiddenPanelTraps(fuel: nat, l: Lists, id: Id, first: Id) returns (w: Shell)
    requires Reachable(l) && fuel >= 2 && Available(l, id) && l.panels[id].category != System
    requires l.panels[id].listed == Hidden
    requires Plain(l, first) && FirstVisible(l, NewWindow(l)) == Some(first)
    ensures id in HIDDEN_PANELS
    ensures Valid(Shell(l, NewWindow(l))) && Perform(fuel, Shell(l, NewWindow(l)), Open(id)) == Some(w)
    ensures w.state.current == Some(first) && w.state.history == [id]
    ensures Perform(fuel, w, GoBack) == Some(w)
  {
    var s := NewWindow(l);
    var s1 := Enter(s, id, true);
    PlainRedirect(fuel, l, s1, id, first);
    w := Perform(fuel, Shell(l, s), Open(id)).value;
    assert [id] + s1.history == [id];
    assert w.state.shown == s.shown;
    var s2 := WentBack(w.state);
    assert s2.history == [] && s2.current == Some(id);
    PlainRedirect(fuel, l, s2, id, first);
    assert [id] + s2.history == [id];
  }

  /** However often one goes back. */
  lemma {:induction false} BackIsTrapped(fuel: nat, w: Shell, ops: seq<Op>)
    requires Valid(w) && Perform(fuel, w, GoBack) == Some(w) && forall k :: 0 <= k < |ops| ==> ops[k] == GoBack
    ensures Run(fuel, w, ops) == Some(w)
    decreases |ops|
  {
    if ops != [] {
      BackIsTrapped(fuel, w, ops[1..]);
    }
  }

  /** The run from a new window: opening such a panel and going back any number of times keeps it in the
      history, with another panel open. */
  lemma TrappedRun(fuel: nat, l: Lists, id: Id, first: Id, backs: seq<Op>) returns (r: Shell)
    requires Reachable(l) && fuel >= 2 && Available(l, id) && l.panels[id].category != System
    requires l.panels[id].listed == Hidden
    requires Plain(l, first) && FirstVisible(l, NewWindow(l)) == Some(first)
    requires forall k :: 0 <= k < |backs| ==> backs[k] == GoBack
    ensures Valid(Shell(l, NewWindow(l))) && Run(fuel, Shell(l, NewWindow(l)), [Open(id)] + backs) == Some(r)
    ensures r.state.current == Some(first) && r.state.history == [id] && id in HIDDEN_PANELS
  {
    r := HiddenPanelTraps(fuel, l, id, first);
    BackIsTrapped(fuel, r, backs);
    RunStep(fuel, Shell(l, NewWindow(l)), Open(id), r, backs);
  }

  /** The window with two panels, Wi-Fi and Displays, is such a window. */
  lemma TrappedWitness(fuel: nat, backs: seq<Op>) returns (l: Lists, r: Shell)
    requires fuel >= 2 && forall k :: 0 <= k < |backs| ==> backs[k] == GoBack
    ensures Reachable(l) && Valid(Shell(l, NewWindow(l)))
    ensures Run(fuel, Shell(l, NewWindow(l)), [Open("display")] + backs) == Some(r)
    ensures r.state.current == Some("wifi") && r.state.history == ["display"]
  {
    var wifi, display: Id := "wifi", "display";
    var rows := [wifi, display];
    assert |wifi| != |display|;
    l := Lists(map[wifi := Panel(Other, Visible, Visible), display := Panel(Other, Visible, Hidden)], rows, rows, {});
    assert Ids(rows) == {wifi, display};
    assert FirstVisible(l, NewWindow(l)) == Some(wifi);
    r := TrappedRun(fuel, l, display, wifi, backs);
  }

  // ---- what each action does, by its outcome ----

  /** Opening what is open already, or is not there, or is hidden in the model, changes nothing. */
  lemma NothingToOpen(fuel: nat, l: Lists, s: State, id: Id)
    requires WellFormed(l) && Sane(l, s)
    requires s.current == Some(id) || id !in l.panels || l.panels[id].store == Hidden
    ensures Navigate(fuel, l, s, Open(id)) == Some(s)
  {
  }

  /** An ordinary panel that the list shows is opened: the panel that was open is put in front of the
      history, the row is visible and, if there can be a selection, selected, and a row that was visible only
      while its panel was active disappears. */
  lemma OrdinaryOpens(fuel: nat, l: Lists, s: State, id: Id)
    requires WellFormed(l) && Sane(l, s) && !s.single && s.view == Main && s.current != Some(id) && fuel >= 1
    requires id in l.panels && l.panels[id].category == Other
    requires l.panels[id].store != Hidden && l.panels[id].listed != Hidden
    ensures var r := Navigate(fuel, l, s, Open(id));
      && r.Some? && r.value.current == Some(id) && r.value.listCurrent == Some(id) && r.value.view == Main
      && r.value.history == (if s.current.Some? then [s.current.value] else []) + s.history
      && (s.selectable ==> r.value.selected == Some(id)) && (!s.selectable ==> r.value.selected == s.selected)
      && id in r.value.shown
      && (forall x :: x != id && s.listCurrent != Some(x) ==> (x in r.value.shown <==> x in s.shown))
      && (s.listCurrent.Some? && s.listCurrent != Some(id) ==>
            (s.listCurrent.value in r.value.shown <==> l.panels[s.listCurrent.value].listed == Visible))
  {
    PlainOpen(fuel, l, s, id);
    assert [] + s.history == s.history;
  }

  /** In single-panel mode neither the list nor the history takes notice. */
  lemma SinglePanelOpens(fuel: nat, l: Lists, s: State, id: Id)
    requires WellFormed(l) && Sane(l, s) && s.single && s.current != Some(id)
    requires id in l.panels && l.panels[id].store != Hidden
    ensures Navigate(fuel, l, s, Open(id)) ==
            Some(s.(current := Some(if l.panels[id].category == System then "system" else id)))
  {
  }

  /** A System subpage opens the System panel in its place. */
  lemma SubpageOpensSystem(fuel: nat, l: Lists, s: State, id: Id)
    requires WellFormed(l) && Sane(l, s) && !s.single && s.view == Main && fuel >= 1
    requires id in l.panels && l.panels[id].category == System && l.panels[id].store != Hidden
    requires s.current != Some(id) && s.current != Some("system")
    requires "system" in l.panels && l.panels["system"].category == Other && l.panels["system"].listed != Hidden
    ensures var r := Navigate(fuel, l, s, Open(id));
      && r.Some? && r.value.current == Some("system") && r.value.listCurrent == Some("system")
      && r.value.history == (if s.current.Some? then [s.current.value] else []) + s.history
  {
    var s1 := Enter(s, SYSTEM, true);
    assert SetActive(fuel, l, s, id, true) == ListSetActive(fuel, l, s1, SYSTEM);
    QuietRow(fuel, l, SelectRow(l, s1, SYSTEM), SYSTEM);
    assert [] + s.history == s.history;
  }

  /** The state in which a row activation has entered the row's panel or its parent. */
  function Entering(s: State, t: Id): State { Enter(InMain(s), t, true) }

  lemma AutoselectingWalk(l: Lists, s: State, path: seq<Id>, r: Option<State>)
    requires WellFormed(l) && Sane(l, s) && path != [] && forall k :: 0 <= k < |path| ==> path[k] in l.panels
    requires Walked(l, s, path, r)
    ensures Walked(l, s, path, Autoselecting(r))
  {
  }

  /** Activating a row, when nothing is autoselected first: the walk starts at the panel, or at its parent. */
  lemma RowWalk(fuel: nat, l: Lists, s: State, row: Id)
    requires WellFormed(l) && Sane(l, s) && Grounded(l) && !s.single && Direct(s) && row in l.panels && fuel >= 5
    requires Available(l, Target(l, row)) && s.current != Some(Target(l, row))
    ensures var s1 := Entering(s, Target(l, row));
      Sane(l, s1) && Walked(l, s1, Path(l, s1, Target(l, row)), RowActivated(fuel, l, s, row))
  {
    var t := Target(l, row);
    var s1 := Entering(s, t);
    TargetIsEffective(l, row);
    RowEnters(fuel, l, s, row);
    EnteredWalk(fuel - 1, l, s1, t);
    AutoselectingWalk(l, s1, Path(l, s1, t), ListSetActive(fuel - 1, l, s1, t));
  }

  /** A click on a row of the list, in the main view, or on a search result: where it ends up.  For a search
      result no other panel is opened on the way back to the main view. */
  lemma ClickArrives(fuel: nat, l: Lists, s: State, row: Id, found: bool)
    requires WellFormed(l) && Sane(l, s) && Grounded(l) && !s.single && row in l.panels && fuel >= 5
    requires found || s.view == Main
    requires var t := Target(l, row); Available(l, t) && s.current != Some(t)
    ensures var t := Target(l, row);
      var s0 := s.(selected := if s.selectable then Some(row) else s.selected, autoselect := !found && s.autoselect);
      var s1 := Entering(s0, t);
      && Sane(l, s1) && s1.current == Some(t) && s1.view == Main && s1.shown == s.shown
      && s1.history == (if s.current.Some? then [s.current.value] else []) + s.history
      && Walked(l, s1, Path(l, s1, t), Navigate(fuel, l, s, if found then ClickFound(row) else ClickRow(row)))
  {
    var s0 := s.(selected := if s.selectable then Some(row) else s.selected, autoselect := !found && s.autoselect);
    RowWalk(fuel, l, s0, row);
    assert [] + s.history == s.history;
  }

  /** If that panel is open already, or cannot be opened, the click only leads to the main view. */
  lemma QuietClick(fuel: nat, l: Lists, s: State, row: Id, found: bool)
    requires WellFormed(l) && Sane(l, s) && row in l.panels && fuel >= 1 && (found || s.view == Main)
    requires s.current == Some(Target(l, row)) || !Available(l, Target(l, row))
    ensures var r := Navigate(fuel, l, s, if found then ClickFound(row) else ClickRow(row));
      && r.Some? && r.value.current == s.current && r.value.history == s.history && r.value.shown == s.shown
      && r.value.listCurrent == s.listCurrent && r.value.view == Main && r.value.autoselect
  {
    QuietRow(fuel, l, s.(selected := Chosen(s, row), autoselect := !found && s.autoselect), row);
  }

  /** Rows of panels whose parent is Privacy open Privacy, rows of System subpages System, and others their own
      panel. */
  lemma RowTargets(l: Lists, row: Id)
    requires row in l.panels
    ensures l.panels[row].category == System ==> Target(l, row) == "system"
    ensures l.panels[row].category == Privacy ==> Target(l, row) == "privacy"
    ensures l.panels[row].category == Other ==> Target(l, row) == row
  {
  }

  /** No panel is remembered from last time, or one that is not there any more. */
  predicate Unknown(l: Lists, last: Option<Id>) { last == None || last.value !in l.panels }

  /** Start-up without a known last panel: the window ends on the way from the panel, or the parent, of the
      first visible row; without one, or when that cannot be opened, no panel is open. */
  lemma StartsUpAtFirstRow(fuel: nat, l: Lists, s: State, last: Option<Id>, i: nat)
    requires WellFormed(l) && Sane(l, s) && Grounded(l) && !s.single && s.view == Main && fuel >= 5
    requires s.current == None && s.listCurrent == None && Unknown(l, last)
    requires i <= |l.rows| && forall j :: 0 <= j < i ==> l.rows[j] !in s.shown
    requires i < |l.rows| ==> l.rows[i] in s.shown
    ensures var r := Navigate(fuel, l, s, LoadLast(last));
      && r.Some?
      && (i == |l.rows| || !Available(l, Target(l, l.rows[i])) ==> r.value.current == None)
      && (i < |l.rows| && Available(l, Target(l, l.rows[i])) ==>
            var t := Target(l, l.rows[i]);
            var s1 := Entering(SelectFirst(s, l.rows[i]), t);
            Sane(l, s1) && s1.current == Some(t) && s1.history == s.history && Walked(l, s1, Path(l, s1, t), r))
  {
    if i == |l.rows| {
      FirstVisibleIs(l, s);
    } else {
      FirstVisibleAt(l, s, i);
      var s0, row := SelectFirst(s, l.rows[i]), l.rows[i];
      if Available(l, Target(l, row)) {
        RowWalk(fuel, l, s0, row);
      } else {
        QuietRow(fuel, l, s0, row);
      }
    }
  }

  /** A new window whose first visible row is that of an ordinary panel starts up with that panel. */
  lemma NewWindowStartsUp(fuel: nat, l: Lists, last: Option<Id>, i: nat)
    requires Reachable(l) && Acyclic(l) && fuel >= 5 && Unknown(l, last)
    requires i < |l.rows| && Plain(l, l.rows[i]) && forall j :: 0 <= j < i ==> l.panels[l.rows[j]].listed != Visible
    ensures Sane(l, NewWindow(l))
    ensures var r := Navigate(fuel, l, NewWindow(l), LoadLast(last));
      r.Some? && r.value.current == Some(l.rows[i]) && r.value.history == []
  {
    var s := NewWindow(l);
    NewWindowIsConsistent(l);
    FirstVisibleAt(l, s, i);
    var s0, row := SelectFirst(s, l.rows[i]), l.rows[i];
    StartsUpAtFirstRow(fuel, l, s, last, i);
    assert Path(l, Entering(s0, row), row) == [row];
  }

  /** With a panel already active in the list nothing is loaded. */
  lemma NothingToLoad(fuel: nat, l: Lists, s: State, last: Option<Id>)
    requires WellFormed(l) && Sane(l, s) && s.listCurrent.Some?
    ensures Navigate(fuel, l, s, LoadLast(last)) == Some(s)
  {
  }

  /** A known last panel that the list shows: the window ends on the way from it, or from its parent, and the
      list remembers the last panel itself. */
  lemma LoadsLastPanel(fuel: nat, l: Lists, s: State, id: Id)
    requires WellFormed(l) && Sane(l, s) && Grounded(l) && !s.single && s.view == Main && fuel >= 5
    requires s.current == None && s.listCurrent == None
    requires id in l.panels && l.panels[id].listed != Hidden && Available(l, Target(l, id))
    ensures var r := Navigate(fuel, l, s, LoadLast(Some(id))); var t := Target(l, id);
      var s1 := Entering(SelectRow(l, s, id), t);
      && r.Some? && r.value.listCurrent == Some(id) && Sane(l, s1) && s1.current == Some(t) && s1.history == s.history
      && var path := Path(l, s1, t);
         r.value.current == Some(path[|path| - 1]) && r.value.history == Pushed(path, s.history)
  {
    RowWalk(fuel, l, SelectRow(l, s, id), id);
  }

  /** A last panel that the list hides is treated like no last panel. */
  lemma HiddenLastPanel(fuel: nat, l: Lists, s: State, id: Id)
    requires WellFormed(l) && Sane(l, s) && s.listCurrent == None && id in l.panels && l.panels[id].listed == Hidden
    ensures Navigate(fuel, l, s, LoadLast(Some(id))) == Navigate(fuel, l, s, LoadLast(None))
  {
  }

  /** A text leads to the search view, and its removal back to the main view without opening a panel. */
  lemma QueryOutcome(fuel: nat, l: Lists, s: State, text: string, order: seq<Id>, found: set<Id>)
    requires WellFormed(l) && Sane(l, s) && Legal(l.panels.Keys, SetQuery(text, order, found))
    ensures var r := Navigate(fuel, l, s, SetQuery(text, order, found));
      && r.Some? && r.value.view == (if text != "" then Search else Main)
      && r.value.current == s.current && r.value.history == s.history && r.value.shown == s.shown
      && r.value.selected == s.selected && r.value.listCurrent == s.listCurrent
      && (text == "" && s.view == Search ==> !r.value.autoselect)
      && (text != "" || s.view == Main ==> r.value.autoselect == s.autoselect)
  {
  }

  /** Enter in the search entry opens the panel, or the parent, of the first row that the search shows; without
      one, and in the main view, nothing happens. */
  lemma SearchActivates(fuel: nat, l: Lists, s: State, i: nat)
    requires WellFormed(l) && Sane(l, s) && Grounded(l) && !s.single && fuel >= 5
    requires i <= |l.searchRows| && forall j :: 0 <= j < i ==> l.searchRows[j] !in l.found
    requires i < |l.searchRows| ==> l.searchRows[i] in l.found
    ensures var r := Navigate(fuel, l, s, ActivateSearch);
      && (s.view == Main || i == |l.searchRows| ==> r == Some(s))
      && (s.view == Search && i < |l.searchRows| ==>
            var row := l.searchRows[i];
            var s0 := s.(selected := if s.selectable then Some(row) else s.selected, autoselect := false);
            var t := Target(l, row);
            Available(l, t) && s.current != Some(t) ==>
              Sane(l, Entering(s0, t)) && Walked(l, Entering(s0, t), Path(l, Entering(s0, t), t), r))
  {
    FirstInAt(l.searchRows, l.found, i);
    if s.view == Search && i < |l.searchRows| {
      var row := l.searchRows[i];
      var s0 := s.(selected := if s.selectable then Some(row) else s.selected, autoselect := false);
      if Available(l, Target(l, row)) && s.current != Some(Target(l, row)) {
        RowWalk(fuel, l, s0, row);
      }
    }
  }

  /** Single-panel mode also collapses the window, and changes nothing else. */
  lemma SinglePanelOutcome(fuel: nat, l: Lists, s: State)
    requires WellFormed(l) && Sane(l, s)
    ensures Navigate(fuel, l, s, SinglePanelMode) == Some(s.(single := true, selectable := false, selected := None))
  {
  }

  /** A panel's new visibility counts in the model and in the list; a new query orders and filters the search
      rows; other actions change nothing that navigation reads. */
  lemma RefreshOutcome(l: Lists, op: Op)
    requires Legal(l.panels.Keys, op)
    ensures var r := Refresh(l, op);
      && r.rows == l.rows && r.panels.Keys == l.panels.Keys
      && (op.SetQuery? ==> r.panels == l.panels && r.searchRows == op.order && r.found == op.found)
      && (op.SetVisibility? ==>
            && r.searchRows == l.searchRows && r.found == op.found
            && r.panels[op.id] == Panel(l.panels[op.id].category, op.visibility, op.visibility)
            && forall x :: x in l.panels && x != op.id ==> r.panels[x] == l.panels[x])
      && (!op.SetQuery? && !op.SetVisibility? ==> r == l)
  {
  }

  /** Collapsing the window loses the selection; expanding it selects the row that the list remembers. */
  lemma CollapseOutcome(fuel: nat, l: Lists, s: State, collapsed: bool)
    requires WellFormed(l) && Sane(l, s)
    ensures Navigate(fuel, l, s, SetCollapsed(collapsed)) == Some(s.(
      selectable := !collapsed,
      selected := if collapsed then None else if s.listCurrent.Some? then s.listCurrent else s.selected))
  {
  }

  lemma {:induction false} IndexOfFirst(rows: seq<Id>, id: Id)
    requires id in rows
    ensures forall j :: 0 <= j < IndexOf(rows, id) ==> rows[j] != id
  {
    if rows[0] != id {
      IndexOfFirst(rows[1..], id);
      assert forall j :: 1 <= j < IndexOf(rows, id) ==> rows[j] == rows[1..][j - 1];
    }
  }

  /** The row that takes over is the next one, or the one before at the end of the list. */
  lemma NeighbourIs(rows: seq<Id>, id: Id, i: nat)
    requires i < |rows| && rows[i] == id && id !in rows[..i]
    ensures Neighbour(rows, id)
            == if i + 1 < |rows| then Some(rows[i + 1]) else if i > 0 then Some(rows[i - 1]) else None
  {
    IndexOfFirst(rows, id);
    assert forall j :: 0 <= j < i ==> rows[j] == rows[..i][j];
    assert IndexOf(rows, id) == i;
  }

  /** A change of visibility that does not concern the selected row only shows or hides the row. */
  lemma VisibilityOutcome(fuel: nat, l: Lists, s: State, id: Id, v: Visibility, found: set<Id>)
    requires WellFormed(l) && Sane(l, s) && id in l.panels && (s.selected != Some(id) || v == Visible)
    ensures Navigate(fuel, l, s, SetVisibility(id, v, found)) ==
            Some(s.(shown := if v == Visible then s.shown + {id} else s.shown - {id}))
  {
  }

  /** When the selected row is to disappear, the panel of its neighbour, or that panel's parent, is opened
      first, and the row is gone afterwards. */
  lemma SelectedRowHandsOver(fuel: nat, l: Lists, s: State, id: Id, v: Visibility, next: Id)
    requires WellFormed(l) && Sane(l, s) && Grounded(l) && !s.single && s.view == Main && s.selectable && fuel >= 5
    requires id in l.panels && s.selected == Some(id) && v != Visible && Neighbour(l.rows, id) == Some(next)
    requires var t := Target(l, next); Available(l, t) && s.current != Some(t)
    ensures var r := VisibilityChanged(fuel, l, s, id, v); var t := Target(l, next);
      var s1 := Entering(s.(selected := Some(next)), t);
      && Sane(l, s1) && r.Some? && id !in r.value.shown
      && var path := Path(l, s1, t);
         r.value.current == Some(path[|path| - 1]) && r.value.history == Pushed(path, s1.history)
  {
    RowWalk(fuel, l, s.(selected := Some(next)), next);
    assert SelectionMoved(fuel, l, s, id, v) == RowActivated(fuel, l, s.(selected := Some(next)), next);
  }

  /** Returning to the main view with the automatic selection on opens the panel of the first visible row. */
  lemma SwitchAutoselects(fuel: nat, l: Lists, s: State, i: nat)
    requires WellFormed(l) && Sane(l, s) && Grounded(l) && !s.single && s.view == Search && s.autoselect && fuel >= 5
    requires i < |l.rows| && l.rows[i] in s.shown && forall j :: 0 <= j < i ==> l.rows[j] !in s.shown
    requires var t := Target(l, l.rows[i]); Available(l, t) && s.current != Some(t)
    ensures var s1 := Entering(SelectFirst(Switched(s, Main), l.rows[i]), Target(l, l.rows[i]));
      Sane(l, s1) && Walked(l, s1, Path(l, s1, Target(l, l.rows[i])), SwitchToView(fuel, l, s, Main))
  {
    FirstVisibleAt(l, Switched(s, Main), i);
    RowWalk(fuel, l, SelectFirst(Switched(s, Main), l.rows[i]), l.rows[i]);
  }

  // ---- where opening a panel ends up ----

  /** The state in which the window has entered panel id, or System in its place. */
  function Opened(l: Lists, s: State, id: Id): State
    requires id in l.panels
  {
    Enter(s, Effective(l, id), true)
  }

  /** Where opening a panel ends up, for all visibilities and in every view: at the end of the way through
      the parents and redirects; the panels on the way are pushed, and the list remembers the first of
      them that it does not hide. */
  lemma OpenArrives(fuel: nat, l: Lists, s: State, id: Id)
    requires WellFormed(l) && Sane(l, s) && Grounded(l) && !s.single && fuel >= 5
    requires Available(l, id) && s.current != Some(id)
    ensures Sane(l, Opened(l, s, id))
    ensures var s1 := Opened(l, s, id);
      Walked(l, s1, Path(l, s1, Effective(l, id)), Navigate(fuel, l, s, Open(id)))
  {
    EnteredWalk(fuel, l, Opened(l, s, id), Effective(l, id));
  }

  /** The first panel on the way that the list does not hide is the last one. */
  predicate OnlyLastListed(l: Lists, path: seq<Id>)
    requires path != [] && forall k :: 0 <= k < |path| ==> path[k] in l.panels
  {
    Remembered(l, None, path) == Some(path[|path| - 1])
  }

  lemma {:induction false} RememberedFirst(l: Lists, remembered: Option<Id>, path: seq<Id>)
    requires forall k :: 0 <= k < |path| ==> path[k] in l.panels
    ensures Remembered(l, remembered, path) ==
            if Remembered(l, None, path) == None then remembered else Remembered(l, None, path)
    decreases |path|
  {
    if path != [] {
      RememberedFirst(l, remembered, path[1..]);
    }
  }

  /** After opening a panel the list remembers the panel that is open exactly when that is the only panel
      on the way that the list shows, or when the list hides them all and remembered it before. */
  lemma ListAgreesIff(fuel: nat, l: Lists, s: State, id: Id)
    requires WellFormed(l) && Sane(l, s) && Grounded(l) && !s.single && fuel >= 5
    requires Available(l, id) && s.current != Some(id)
    ensures Sane(l, Opened(l, s, id))
    ensures var path := Path(l, Opened(l, s, id), Effective(l, id)); var r := Navigate(fuel, l, s, Open(id));
      r.Some? && (r.value.listCurrent == r.value.current <==>
        OnlyLastListed(l, path) || (Remembered(l, None, path) == None && s.listCurrent == Some(path[|path| - 1])))
  {
    OpenArrives(fuel, l, s, id);
    RememberedFirst(l, s.listCurrent, Path(l, Opened(l, s, id), Effective(l, id)));
  }

  /** In particular, for a panel that the list shows: exactly when its row leads on to no parent.  For a
      System subpage this is asked of System, which is entered in its place. */
  lemma ListedPanelAgreesIff(fuel: nat, l: Lists, s: State, id: Id)
    requires WellFormed(l) && Sane(l, s) && Grounded(l) && !s.single && fuel >= 5
    requires Available(l, id) && s.current != Some(id) && l.panels[Effective(l, id)].listed != Hidden
    ensures var r := Navigate(fuel, l, s, Open(id));
      r.Some? && (r.value.listCurrent == r.value.current <==> !LeadsOn(l, Effective(l, id)))
  {
    var e := Effective(l, id);
    var s1 := Opened(l, s, id);
    OpenArrives(fuel, l, s, id);
    if LeadsOn(l, e) {
      ParentOfEntered(l, e);
      if l.panels[PRIVACY].listed == Hidden {
        NeverBackTo(l, SelectRow(l, s1, e).(view := Main), PRIVACY, e);
      }
    }
  }

  /** No redirect from panel t leads back to a panel whose parent is t. */
  lemma NeverBackTo(l: Lists, s: State, t: Id, e: Id)
    requires WellFormed(l) && Grounded(l) && s.view == Main && t in l.panels && e in l.panels
    requires t == PRIVACY && l.panels[e].category == Privacy && e != t && l.panels[t].category != System
    requires l.panels[t].listed == Hidden && Available(l, t)
    ensures var path := HiddenPath(l, s, t); path[|path| - 1] != e
  {
    assert |SYSTEM| != |PRIVACY|;
    var row := FirstVisible(l, s);
    if row.Some? && Target(l, row.value) in l.panels {
      TargetIsEffective(l, row.value);
    }
  }

  /** Opening a list-hidden panel from the main view leaves it open exactly when the first visible row
      leads to no other panel. */
  lemma HiddenPanelStaysIff(fuel: nat, l: Lists, s: State, id: Id)
    requires WellFormed(l) && Sane(l, s) && Grounded(l) && !s.single && s.view == Main && fuel >= 5
    requires Available(l, id) && s.current != Some(id)
    requires l.panels[id].category != System && l.panels[id].listed == Hidden
    ensures var r := Navigate(fuel, l, s, Open(id)); r.Some? && (r.value.current == Some(id) <==> !Redirected(l, s, id))
  {
    OpenArrives(fuel, l, s, id);
    var s1 := Opened(l, s, id);
    assert FirstVisible(l, s1) == FirstVisible(l, s);
    if Redirected(l, s, id) {
      var t := Target(l, FirstVisible(l, s).value);
      TargetIsEffective(l, FirstVisible(l, s).value);
      HiddenIsNotParent(l, id, t);
    }
  }

  /** A parent that can be opened and leads on to Privacy does not lead to a list-hidden panel. */
  lemma HiddenIsNotParent(l: Lists, id: Id, t: Id)
    requires WellFormed(l) && Grounded(l) && id in l.panels && t in l.panels && l.panels[id].listed == Hidden
    requires LeadsOn(l, t) ==> t == SYSTEM && Target(l, t) == PRIVACY && l.panels[SYSTEM].category == Privacy
    ensures LeadsOn(l, t) ==> Target(l, t) != id
  {
  }

  lemma {:induction false} OffTheWay(l: Lists, shown: set<Id>, remembered: Option<Id>, path: seq<Id>, x: Id)
    requires remembered.Some? ==> remembered.value in l.panels
    requires (forall k :: 0 <= k < |path| ==> path[k] in l.panels) && x !in path
    ensures x in ShownAlong(l, shown, remembered, path) <==>
            (if remembered == Some(x) && Remembered(l, None, path).Some? then l.panels[x].listed == Visible else x in shown)
    decreases |path|
  {
    if path != [] {
      var next := if l.panels[path[0]].listed == Hidden then shown else RowShown(l, shown, remembered, path[0]);
      assert path[0] != x;
      OffTheWay(l, next, remembered, path[1..], x);
    }
  }

  /** The row of a panel that was active and is not on the way is visible afterwards only if it always is,
      as soon as the list selects some row; the visibility of all other rows off the way does not change. */
  lemma TemporaryRowDisappears(fuel: nat, l: Lists, s: State, id: Id, x: Id)
    requires WellFormed(l) && Sane(l, s) && Grounded(l) && !s.single && fuel >= 5
    requires Available(l, id) && s.current != Some(id)
    requires x !in Path(l, Opened(l, s, id), Effective(l, id))
    ensures var r := Navigate(fuel, l, s, Open(id)); var path := Path(l, Opened(l, s, id), Effective(l, id));
      r.Some? && (x in r.value.shown <==>
        (if s.listCurrent == Some(x) && Remembered(l, None, path).Some? then l.panels[x].listed == Visible
         else x in s.shown))
  {
    OpenArrives(fuel, l, s, id);
    OffTheWay(l, s.shown, s.listCurrent, Path(l, Opened(l, s, id), Effective(l, id)), x);
  }
}
