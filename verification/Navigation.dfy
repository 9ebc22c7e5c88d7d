/** Panel navigation: the window (current panel, back history) and its panel list activate each other
    through synchronous signals, so opening a panel re-enters the code that is opening it.

    The recursion of the source is modelled with fuel, one unit for each row activation in progress;
    running out of fuel (None) means that the recursion was cut off.  Termination is then a theorem
    about these functions (module NavigationEnds), and so is the exact condition for it. */
module Navigation {
  import opened Text

  type Id = string

  datatype Visibility = Hidden | InSearch | Visible
  datatype Category = System | Privacy | Other
  datatype View = Main | Search

  /** A panel: its category, its visibility in the shell model and its visibility in the list. */
  datatype Panel = Panel(category: Category, store: Visibility, listed: Visibility)

  /** What navigation only reads: the panels, the rows of the main and of the search list box in sort
      order, and the rows of the latter that are visible and pass the search filter. */
  datatype Lists = Lists(panels: map<Id, Panel>, rows: seq<Id>, searchRows: seq<Id>, found: set<Id>)

  datatype State = State(
    // CcPanelList
    shown: set<Id>,             // visible rows of the main list box
    selectable: bool,           // its selection mode is not "none"
    selected: Option<Id>,       // its selected row
    view: View,
    previousView: View,
    autoselect: bool,
    listCurrent: Option<Id>,
    // CcWindow
    current: Option<Id>,
    history: seq<Id>,           // previous_panels, most recent first
    single: bool)

  const SYSTEM: Id := "system"
  const PRIVACY: Id := "privacy"

  /** What show_panel_cb opens when row id is activated: its parent panel, or the panel itself. */
  function Target(l: Lists, id: Id): Id
    requires id in l.panels
  {
    match l.panels[id].category
    case System => SYSTEM
    case Privacy => PRIVACY
    case Other => id
  }

  /** What set_active_panel_from_id loads: a System subpage is replaced by the System panel. */
  function Effective(l: Lists, id: Id): Id
    requires id in l.panels
  {
    if l.panels[id].category == System then SYSTEM else id
  }

  /** Opening id would load a panel. */
  predicate Available(l: Lists, id: Id) {
    id in l.panels && l.panels[id].store != Hidden
  }

  ghost function Ids(rows: seq<Id>): set<Id> { set id | id in rows }

  ghost predicate WellFormed(l: Lists) {
    && l.panels.Keys == Ids(l.rows) == Ids(l.searchRows)
    && (forall id :: id in l.panels && l.panels[id].category == System ==> SYSTEM in l.panels)
  }

  /** The row the list remembers as active exists, and the search view was entered from the main view. */
  ghost predicate Sane(l: Lists, s: State) {
    && (s.listCurrent.Some? ==> s.listCurrent.value in l.panels)
    && (s.view == Search ==> s.previousView == Main)
  }

  function FirstIn(rows: seq<Id>, visible: set<Id>): (r: Option<Id>)
    ensures r.Some? ==> r.value in rows && r.value in visible
    ensures r == None ==> forall id :: id in rows ==> id !in visible
  {
    if rows == [] then None
    else if rows[0] in visible then Some(rows[0])
    else FirstIn(rows[1..], visible)
  }

  /** The row cc_panel_list_activate picks in the current view. */
  function FirstVisible(l: Lists, s: State): (r: Option<Id>)
    requires WellFormed(l)
    ensures r.Some? ==> r.value in l.panels
  {
    if s.view == Main then FirstIn(l.rows, s.shown) else FirstIn(l.searchRows, l.found)
  }

  lemma {:induction false} FirstInIs(rows: seq<Id>, visible: set<Id>)
    ensures FirstIn(rows, visible) == None <==> forall i :: 0 <= i < |rows| ==> rows[i] !in visible
    ensures FirstIn(rows, visible).Some? ==> exists i ::
      && 0 <= i < |rows| && FirstIn(rows, visible) == Some(rows[i]) && rows[i] in visible
      && forall j :: 0 <= j < i ==> rows[j] !in visible
  {
    if rows != [] && rows[0] !in visible {
      FirstInIs(rows[1..], visible);
      if FirstIn(rows[1..], visible).Some? {
        var i :| 0 <= i < |rows[1..]| && FirstIn(rows[1..], visible) == Some(rows[1..][i]) && rows[1..][i] in visible
                 && forall j :: 0 <= j < i ==> rows[1..][j] !in visible;
        assert rows[i + 1] == rows[1..][i];
        assert forall j :: 1 <= j < i + 1 ==> rows[j] == rows[1..][j - 1];
      } else {
        assert forall i :: 1 <= i < |rows| ==> rows[i] == rows[1..][i - 1];
      }
    }
  }

  /** The row picked in the current view is the first visible one; there is none exactly when no row of the
      box is visible. */
  lemma FirstVisibleIs(l: Lists, s: State)
    requires WellFormed(l)
    ensures var box := if s.view == Main then l.rows else l.searchRows;
      var visible := if s.view == Main then s.shown else l.found;
      var row := FirstVisible(l, s);
      && (row == None <==> forall i :: 0 <= i < |box| ==> box[i] !in visible)
      && (row.Some? ==> exists i :: 0 <= i < |box| && row == Some(box[i]) && box[i] in visible
                                    && forall j :: 0 <= j < i ==> box[j] !in visible)
  {
    FirstInIs(if s.view == Main then l.rows else l.searchRows, if s.view == Main then s.shown else l.found);
  }

  /** The other way round. */
  lemma FirstInAt(rows: seq<Id>, visible: set<Id>, i: nat)
    requires i <= |rows| && (i < |rows| ==> rows[i] in visible) && forall j :: 0 <= j < i ==> rows[j] !in visible
    ensures FirstIn(rows, visible) == if i < |rows| then Some(rows[i]) else None
  {
    FirstInIs(rows, visible);
    if FirstIn(rows, visible).Some? {
      var k :| 0 <= k < |rows| && FirstIn(rows, visible) == Some(rows[k]) && rows[k] in visible
               && forall j :: 0 <= j < k ==> rows[j] !in visible;
      assert k == i;
    }
  }

  /** In the main view. */
  lemma FirstVisibleAt(l: Lists, s: State, i: nat)
    requires WellFormed(l) && s.view == Main && i < |l.rows| && l.rows[i] in s.shown
    requires forall j :: 0 <= j < i ==> l.rows[j] !in s.shown
    ensures FirstVisible(l, s) == Some(l.rows[i])
  {
    FirstInAt(l.rows, s.shown, i);
  }

  /** The window moves to panel id. */
  function Enter(s: State, id: Id, addToHistory: bool): State {
    s.(history := if !s.single && addToHistory && s.current.Some? && s.current != Some(id)
                  then [s.current.value] + s.history else s.history,
       current := Some(id))
  }

  /** The visible main rows once row id is selected: the row remembered until now is visible again only if
      it always is. */
  function RowShown(l: Lists, shown: set<Id>, remembered: Option<Id>, id: Id): set<Id>
    requires remembered.Some? ==> remembered.value in l.panels
  {
    (if remembered.Some? && remembered != Some(id)
     then (if l.panels[remembered.value].listed == Visible then shown + {remembered.value}
           else shown - {remembered.value})
     else shown) + {id}
  }

  /** The selected row after selecting row id; nothing can be selected in a collapsed window. */
  function Chosen(s: State, id: Id): Option<Id> { if s.selectable then Some(id) else s.selected }

  /** The list marks row id as the active one. */
  function SelectRow(l: Lists, s: State, id: Id): State
    requires Sane(l, s)
  {
    s.(shown := RowShown(l, s.shown, s.listCurrent, id), selected := Chosen(s, id), autoselect := false)
  }

  /** The list selects a row of the search results: its main row, without autoselection. */
  function SelectFound(s: State, id: Id): State {
    s.(selected := Chosen(s, id), autoselect := false)
  }

  // ---- the mutually recursive calls ----

  /** set_active_panel_from_id */
  function SetActive(fuel: nat, l: Lists, s: State, id: Id, addToHistory: bool): (r: Option<State>)
    requires WellFormed(l) && Sane(l, s)
    ensures r.Some? ==> Sane(l, r.value)
    decreases fuel, 4
  {
    if s.current == Some(id) || !Available(l, id) then Some(s)
    else
      var target := Effective(l, id);
      var s1 := Enter(s, target, addToHistory);
      if s.single then Some(s1) else ListSetActive(fuel, l, s1, target)
  }

  /** cc_panel_list_set_active_panel */
  function ListSetActive(fuel: nat, l: Lists, s: State, id: Id): (r: Option<State>)
    requires WellFormed(l) && Sane(l, s) && id in l.panels
    ensures r.Some? ==> Sane(l, r.value)
    decreases fuel, 3
  {
    if l.panels[id].listed == Hidden then ListActivate(fuel, l, s)
    else
      var r := RowActivated(fuel, l, SelectRow(l, s, id), id);
      if r == None then None else Some(r.value.(listCurrent := Some(id)))
  }

  /** cc_panel_list_activate, and search_row_activated_cb for a search result */
  function ListActivate(fuel: nat, l: Lists, s: State): (r: Option<State>)
    requires WellFormed(l) && Sane(l, s)
    ensures r.Some? ==> Sane(l, r.value)
    decreases fuel, 2
  {
    var first := FirstVisible(l, s);
    if first == None then Some(s) else RowActivated(fuel, l, SelectFirst(s, first.value), first.value)
  }

  function SelectFirst(s: State, row: Id): State {
    if s.view == Main then s.(selected := Chosen(s, row)) else SelectFound(s, row)
  }

  /** row_activated_cb on the main list box, with show_panel_cb */
  function RowActivated(fuel: nat, l: Lists, s: State, id: Id): (r: Option<State>)
    requires WellFormed(l) && Sane(l, s) && id in l.panels
    ensures r.Some? ==> Sane(l, r.value)
    decreases fuel, 0
  {
    if fuel == 0 then None
    else
      var s1 := SwitchToView(fuel - 1, l, s, Main);
      if s1 == None then None else Autoselecting(SetActive(fuel - 1, l, s1.value, Target(l, id), true))
  }

  function Autoselecting(r: Option<State>): Option<State> {
    if r == None then None else Some(r.value.(autoselect := true))
  }

  /** switch_to_view */
  function SwitchToView(fuel: nat, l: Lists, s: State, view: View): (r: Option<State>)
    requires WellFormed(l) && Sane(l, s)
    ensures r.Some? ==> Sane(l, r.value)
    decreases fuel, 3
  {
    if s.view == view then Some(s)
    else
      var s1 := Switched(s, view);
      if s.autoselect && view != Search then ListActivate(fuel, l, s1) else Some(s1)
  }

  function Switched(s: State, view: View): State {
    s.(previousView := s.view, view := view)
  }

  // ---- what every navigation leaves alone, and what it keeps ----

  ghost predicate Suffix(a: seq<Id>, b: seq<Id>) {
    |a| <= |b| && b[|b| - |a|..] == a
  }

  /** The current panel followed by the back history. */
  function Trail(current: Option<Id>, history: seq<Id>): seq<Id> {
    (if current.Some? then [current.value] else []) + history
  }

  ghost predicate Entered(l: Lists, id: Id) {
    id in l.panels && Effective(l, id) == id
  }

  ghost predicate AllEntered(l: Lists, trail: seq<Id>) {
    forall i :: 0 <= i < |trail| ==> Entered(l, trail[i])
  }

  ghost predicate NoRepeats(trail: seq<Id>) {
    forall i, j :: 0 <= i < j < |trail| && j == i + 1 ==> trail[i] != trail[j]
  }

  /** No panel follows itself in the trail, and the trail holds only panels that were entered. */
  ghost predicate Alternating(l: Lists, current: Option<Id>, history: seq<Id>) {
    && (current == None ==> history == [])
    && AllEntered(l, Trail(current, history))
    && NoRepeats(Trail(current, history))
  }

  /** The part of the state that says what is open, what is shown and how one gets back. */
  datatype Core = Core(shown: set<Id>, view: View, current: Option<Id>, history: seq<Id>, single: bool)

  function CoreOf(s: State): Core { Core(s.shown, s.view, s.current, s.history, s.single) }

  /** The view never goes back to the search, no list-hidden row appears, the history only grows. */
  ghost predicate Frame(l: Lists, s: Core, r: Core) {
    && r.single == s.single
    && (s.view == Main ==> r.view == Main)
    && (forall id :: id in r.shown ==> id in s.shown || (id in l.panels && l.panels[id].listed != Hidden))
    && Suffix(s.history, r.history)
  }

  /** Neighbours in the trail stay distinct. */
  ghost predicate KeepsTrail(l: Lists, s: Core, r: Core) {
    !s.single && Alternating(l, s.current, s.history) ==> Alternating(l, r.current, r.history)
  }

  ghost predicate Kept(l: Lists, s: State, r: State) {
    Frame(l, CoreOf(s), CoreOf(r)) && KeepsTrail(l, CoreOf(s), CoreOf(r))
  }

  lemma FrameTransitive(l: Lists, a: Core, b: Core, c: Core)
    requires Frame(l, a, b) && Frame(l, b, c)
    ensures Frame(l, a, c)
  {
    assert c.history[|c.history| - |a.history|..]
        == c.history[|c.history| - |b.history|..][|b.history| - |a.history|..];
  }

  lemma EnterAlternates(l: Lists, s: State, id: Id)
    requires !s.single && Alternating(l, s.current, s.history) && Entered(l, id)
    ensures var r := Enter(s, id, true); Alternating(l, r.current, r.history)
  {
    var r := Enter(s, id, true);
    var before, after := Trail(s.current, s.history), Trail(r.current, r.history);
    assert after == if s.current.Some? && s.current != Some(id) then [id] + before
                    else if s.current.Some? then before else [id];
  }

  lemma EnterFrame(l: Lists, s: State, id: Id, addToHistory: bool)
    ensures Frame(l, CoreOf(s), CoreOf(Enter(s, id, addToHistory)))
  {
  }

  lemma EnterKeepsTrail(l: Lists, s: State, id: Id)
    requires WellFormed(l) && id in l.panels
    ensures KeepsTrail(l, CoreOf(s), CoreOf(Enter(s, Effective(l, id), true)))
  {
    if !s.single && Alternating(l, s.current, s.history) {
      EnterAlternates(l, s, Effective(l, id));
    }
  }

  lemma SetActiveKeeps(fuel: nat, l: Lists, s: State, id: Id, addToHistory: bool)
    requires WellFormed(l) && Sane(l, s)
    ensures var r := SetActive(fuel, l, s, id, addToHistory);
      r.Some? ==> Frame(l, CoreOf(s), CoreOf(r.value)) && (addToHistory ==> Kept(l, s, r.value))
    decreases fuel, 4
  {
    if s.current != Some(id) && Available(l, id) {
      var e := Effective(l, id);
      var s1 := Enter(s, e, addToHistory);
      EnterFrame(l, s, e, addToHistory);
      EnterKeepsTrail(l, s, id);
      if !s.single {
        ListSetActiveKeeps(fuel, l, s1, e);
        var r := ListSetActive(fuel, l, s1, e);
        if r.Some? { FrameTransitive(l, CoreOf(s), CoreOf(s1), CoreOf(r.value)); }
      }
    }
  }

  lemma SelectRowFrame(l: Lists, s: State, id: Id)
    requires Sane(l, s) && id in l.panels && l.panels[id].listed != Hidden
    ensures Kept(l, s, SelectRow(l, s, id))
  {
  }

  lemma ListSetActiveKeeps(fuel: nat, l: Lists, s: State, id: Id)
    requires WellFormed(l) && Sane(l, s) && id in l.panels
    ensures var r := ListSetActive(fuel, l, s, id); r.Some? ==> Kept(l, s, r.value)
    decreases fuel, 3
  {
    if l.panels[id].listed == Hidden {
      ListActivateKeeps(fuel, l, s);
    } else {
      var s1 := SelectRow(l, s, id);
      SelectRowFrame(l, s, id);
      RowActivatedKeeps(fuel, l, s1, id);
      var r := RowActivated(fuel, l, s1, id);
      if r.Some? { FrameTransitive(l, CoreOf(s), CoreOf(s1), CoreOf(r.value)); }
    }
  }

  lemma ListActivateKeeps(fuel: nat, l: Lists, s: State)
    requires WellFormed(l) && Sane(l, s)
    ensures var r := ListActivate(fuel, l, s); r.Some? ==> Kept(l, s, r.value)
    decreases fuel, 2
  {
    var first := FirstVisible(l, s);
    if first.Some? {
      RowActivatedKeeps(fuel, l, SelectFirst(s, first.value), first.value);
      assert CoreOf(SelectFirst(s, first.value)) == CoreOf(s);
    }
  }

  lemma KeepsTrailTransitive(l: Lists, a: Core, b: Core, c: Core)
    requires a.single == b.single && KeepsTrail(l, a, b) && KeepsTrail(l, b, c)
    ensures KeepsTrail(l, a, c)
  {
  }

  lemma AutoselectingKeeps(l: Lists, s: State, s1: State, r: Option<State>)
    requires Kept(l, s, s1) && (r.Some? ==> Kept(l, s1, r.value))
    ensures var q := Autoselecting(r); q.Some? ==> Kept(l, s, q.value)
  {
    if r.Some? {
      var q := Autoselecting(r).value;
      assert CoreOf(q) == CoreOf(r.value);
      FrameTransitive(l, CoreOf(s), CoreOf(s1), CoreOf(q));
      KeepsTrailTransitive(l, CoreOf(s), CoreOf(s1), CoreOf(q));
    }
  }

  lemma RowUnfolds(fuel: nat, l: Lists, s: State, id: Id)
    requires WellFormed(l) && Sane(l, s) && id in l.panels && fuel >= 1
    ensures var s1 := SwitchToView(fuel - 1, l, s, Main);
      RowActivated(fuel, l, s, id) ==
      if s1 == None then None else Autoselecting(SetActive(fuel - 1, l, s1.value, Target(l, id), true))
  {
  }

  lemma RowActivatedKeeps(fuel: nat, l: Lists, s: State, id: Id)
    requires WellFormed(l) && Sane(l, s) && id in l.panels
    ensures var r := RowActivated(fuel, l, s, id); r.Some? ==> Kept(l, s, r.value)
    decreases fuel, 0
  {
    if fuel > 0 {
      RowUnfolds(fuel, l, s, id);
      SwitchToMainKeeps(fuel - 1, l, s);
      var s1 := SwitchToView(fuel - 1, l, s, Main);
      if s1.Some? {
        ShowPanelKeeps(fuel - 1, l, s, s1.value, Target(l, id));
      }
    }
  }

  lemma ShowPanelKeeps(fuel: nat, l: Lists, s: State, s1: State, id: Id)
    requires WellFormed(l) && Sane(l, s1) && Kept(l, s, s1)
    ensures var q := Autoselecting(SetActive(fuel, l, s1, id, true)); q.Some? ==> Kept(l, s, q.value)
    decreases fuel, 5
  {
    SetActiveKeeps(fuel, l, s1, id, true);
    AutoselectingKeeps(l, s, s1, SetActive(fuel, l, s1, id, true));
  }

  lemma SwitchToMainKeeps(fuel: nat, l: Lists, s: State)
    requires WellFormed(l) && Sane(l, s)
    ensures var r := SwitchToView(fuel, l, s, Main); r.Some? ==> Kept(l, s, r.value) && r.value.view == Main
    decreases fuel, 3
  {
    if s.view == Search && s.autoselect {
      ListActivateKeeps(fuel, l, Switched(s, Main));
    }
  }
}
