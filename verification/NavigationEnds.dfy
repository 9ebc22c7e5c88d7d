/** Where a navigation ends up, and that it ends, exactly when parent panels are not cyclic. */
module NavigationEnds {
  import opened Text
  import opened Navigation

  /** No panel has Privacy as its parent while Privacy itself is replaced by System. */
  predicate Acyclic(l: Lists) {
    forall id :: id in l.panels && l.panels[id].category == Privacy && PRIVACY in l.panels
                 ==> l.panels[PRIVACY].category != System
  }

  /** If even System has Privacy as its parent, then Privacy cannot be opened while the list hides it. */
  predicate ParentInStep(l: Lists) {
    SYSTEM in l.panels && l.panels[SYSTEM].category == Privacy && Available(l, PRIVACY)
    ==> l.panels[PRIVACY].listed != Hidden
  }

  predicate Grounded(l: Lists) { Acyclic(l) && ParentInStep(l) }

  /** Row activations in progress at a time, at most. */
  const FUEL: nat := 6

  // ---- the panels that opening a panel passes through ----

  /** The row of panel e leads on to its parent panel. */
  predicate LeadsOn(l: Lists, e: Id)
    requires e in l.panels
  {
    Target(l, e) != e && Available(l, Target(l, e))
  }

  /** The panels entered after e, which is current and which the list hides. */
  function HiddenPath(l: Lists, s: State, e: Id): (path: seq<Id>)
    requires WellFormed(l) && e in l.panels
    ensures path != [] && path[0] == e && forall k :: 0 <= k < |path| ==> path[k] in l.panels
    decreases if s.view == Search then 1 else 0
  {
    var row := FirstVisible(l, s);
    if row == None || Target(l, row.value) == e || !Available(l, Target(l, row.value)) then [e]
    else
      var t := Target(l, row.value);
      if l.panels[t].listed != Hidden then [e] + ListedPath(l, t)
      else if s.view == Main then [e, t]
      else [e] + HiddenPath(l, s.(view := Main), t)
  }

  /** The panels entered after t, which is current and which the list does not hide, when its parent is
      not hidden either. */
  function ListedPath(l: Lists, t: Id): (path: seq<Id>)
    requires t in l.panels
    ensures path != [] && path[0] == t && forall k :: 0 <= k < |path| ==> path[k] in l.panels
  {
    if LeadsOn(l, t) then [t, Target(l, t)] else [t]
  }

  /** The panels entered after e, which is current. */
  function Path(l: Lists, s: State, e: Id): (path: seq<Id>)
    requires WellFormed(l) && Sane(l, s) && e in l.panels
    ensures path != [] && path[0] == e && forall k :: 0 <= k < |path| ==> path[k] in l.panels
  {
    if l.panels[e].listed == Hidden then HiddenPath(l, s, e)
    else if LeadsOn(l, e) && l.panels[Target(l, e)].listed == Hidden then
      [e] + HiddenPath(l, SelectRow(l, s, e).(view := Main), Target(l, e))
    else ListedPath(l, e)
  }

  /** All but the last of the panels are pushed. */
  function Pushed(path: seq<Id>, history: seq<Id>): seq<Id>
    requires path != []
  {
    if |path| == 1 then history else Pushed(path[1..], [path[0]] + history)
  }

  /** The visible rows after the rows of these panels were selected, as far as the list shows them. */
  function ShownAlong(l: Lists, shown: set<Id>, remembered: Option<Id>, path: seq<Id>): set<Id>
    requires remembered.Some? ==> remembered.value in l.panels
    requires forall k :: 0 <= k < |path| ==> path[k] in l.panels
    decreases |path|
  {
    if path == [] then shown
    else
      ShownAlong(l, if l.panels[path[0]].listed == Hidden then shown else RowShown(l, shown, remembered, path[0]),
                 remembered, path[1..])
  }

  /** The panel the list remembers afterwards: the first one on the way that it does not hide. */
  function Remembered(l: Lists, remembered: Option<Id>, path: seq<Id>): Option<Id>
    requires forall k :: 0 <= k < |path| ==> path[k] in l.panels
    decreases |path|
  {
    if path == [] then remembered
    else if l.panels[path[0]].listed != Hidden then Some(path[0])
    else Remembered(l, remembered, path[1..])
  }

  /** The navigation ended in r after entering the panels of the path, the first of which was current. */
  ghost predicate Walked(l: Lists, s: State, path: seq<Id>, r: Option<State>)
    requires WellFormed(l) && Sane(l, s)
    requires path != [] && forall k :: 0 <= k < |path| ==> path[k] in l.panels
  {
    && r.Some?
    && r.value.current == Some(path[|path| - 1])
    && r.value.history == Pushed(path, s.history)
    && r.value.shown == ShownAlong(l, s.shown, s.listCurrent, path)
    && r.value.listCurrent == Remembered(l, s.listCurrent, path)
  }

  // ---- single steps ----

  /** The view from which a row activation does not first autoselect another row. */
  predicate Direct(s: State) { s.view == Main || !s.autoselect }

  function InMain(s: State): State { if s.view == Main then s else Switched(s, Main) }

  lemma DirectSwitch(fuel: nat, l: Lists, s: State)
    requires WellFormed(l) && Sane(l, s) && Direct(s)
    ensures SwitchToView(fuel, l, s, Main) == Some(InMain(s)) && Sane(l, InMain(s))
  {
  }

  /** Activating a row whose target is current or cannot be opened changes no panel. */
  lemma QuietRow(fuel: nat, l: Lists, s: State, id: Id)
    requires WellFormed(l) && Sane(l, s) && id in l.panels && Direct(s) && fuel >= 1
    requires s.current == Some(Target(l, id)) || !Available(l, Target(l, id))
    ensures RowActivated(fuel, l, s, id) == Some(InMain(s).(autoselect := true))
  {
    DirectSwitch(fuel - 1, l, s);
  }

  /** A row activation whose target is opened. */
  lemma RowEnters(fuel: nat, l: Lists, s: State, id: Id)
    requires WellFormed(l) && Sane(l, s) && id in l.panels && Direct(s) && !s.single && fuel >= 1
    requires s.current != Some(Target(l, id)) && Available(l, Target(l, id))
    ensures var e := Effective(l, Target(l, id));
      var s1 := Enter(InMain(s), e, true);
      && e in l.panels && Sane(l, s1)
      && RowActivated(fuel, l, s, id) == Autoselecting(ListSetActive(fuel - 1, l, s1, e))
  {
    DirectSwitch(fuel - 1, l, s);
  }

  lemma SingleRow(fuel: nat, l: Lists, s: State, id: Id)
    requires WellFormed(l) && Sane(l, s) && id in l.panels && Direct(s) && s.single && fuel >= 1
    ensures RowActivated(fuel, l, s, id).Some?
  {
    DirectSwitch(fuel - 1, l, s);
  }

  /** A parent that is opened is not replaced, and is the end of the way, unless it is System and has
      Privacy as its own parent. */
  lemma TargetIsEffective(l: Lists, id: Id)
    requires WellFormed(l) && Acyclic(l) && id in l.panels && Target(l, id) in l.panels
    ensures var t := Target(l, id);
      && Effective(l, t) == t
      && (LeadsOn(l, t) ==> t == SYSTEM && Target(l, t) == PRIVACY && l.panels[SYSTEM].category == Privacy)
  {
    assert |SYSTEM| != |PRIVACY|;
    var t := Target(l, id);
    if l.panels[t].category == System {
      assert t == SYSTEM;
    }
  }

  /** The parent of an entered panel is that panel, or Privacy, where the way ends. */
  lemma ParentOfEntered(l: Lists, e: Id)
    requires WellFormed(l) && Acyclic(l) && Entered(l, e) && LeadsOn(l, e)
    ensures Target(l, e) == PRIVACY && Effective(l, PRIVACY) == PRIVACY && Target(l, PRIVACY) == PRIVACY
    ensures l.panels[e].category == Privacy
  {
    assert |SYSTEM| != |PRIVACY|;
  }

  lemma EnterPushes(s: State, e: Id, t: Id)
    requires s.current == Some(e) && e != t && !s.single
    ensures var r := Enter(s, t, true); r.current == Some(t) && r.history == [e] + s.history
  {
  }

  lemma OneStep(l: Lists, s: State, e: Id, r: Option<State>)
    requires WellFormed(l) && Sane(l, s) && e in l.panels && r.Some?
    requires r.value.current == Some(e) && r.value.history == s.history
    requires r.value.shown == if l.panels[e].listed == Hidden then s.shown else RowShown(l, s.shown, s.listCurrent, e)
    requires r.value.listCurrent == if l.panels[e].listed == Hidden then s.listCurrent else Some(e)
    ensures Walked(l, s, [e], r)
  {
    assert [e][1..] == [];
    assert Remembered(l, s.listCurrent, []) == s.listCurrent;
  }

  /** One more panel in front of a walk. */
  lemma FirstStep(l: Lists, s: State, e: Id, s1: State, path: seq<Id>, inner: Option<State>, r: Option<State>)
    requires WellFormed(l) && Sane(l, s) && Sane(l, s1) && e in l.panels
    requires path != [] && forall k :: 0 <= k < |path| ==> path[k] in l.panels
    requires Walked(l, s1, path, inner)
    requires s1.history == [e] + s.history && s1.listCurrent == s.listCurrent
    requires s1.shown == if l.panels[e].listed == Hidden then s.shown else RowShown(l, s.shown, s.listCurrent, e)
    requires r.Some? && r.value.current == inner.value.current && r.value.history == inner.value.history
    requires r.value.shown == inner.value.shown
    requires r.value.listCurrent == if l.panels[e].listed == Hidden then inner.value.listCurrent else Some(e)
    ensures Walked(l, s, [e] + path, r)
  {
    var whole := [e] + path;
    assert whole[1..] == path && whole[|whole| - 1] == path[|path| - 1];
  }

  // ---- walks ----

  /** Selecting the row of the current panel, when that row leads nowhere else. */
  lemma QuietSelect(fuel: nat, l: Lists, s: State, e: Id)
    requires WellFormed(l) && Sane(l, s) && fuel >= 1
    requires e in l.panels && l.panels[e].listed != Hidden && s.current == Some(e) && !LeadsOn(l, e)
    ensures Walked(l, s, [e], ListSetActive(fuel, l, s, e))
  {
    QuietRow(fuel, l, SelectRow(l, s, e), e);
    OneStep(l, s, e, ListSetActive(fuel, l, s, e));
  }

  /** Selecting the row of the current panel, when that row leads on to panel t. */
  lemma SelectLeadsOn(fuel: nat, l: Lists, s: State, e: Id, path: seq<Id>)
    requires WellFormed(l) && Sane(l, s) && !s.single && fuel >= 1
    requires e in l.panels && l.panels[e].listed != Hidden && s.current == Some(e) && LeadsOn(l, e)
    requires Effective(l, Target(l, e)) == Target(l, e)
    requires path != [] && forall k :: 0 <= k < |path| ==> path[k] in l.panels
    requires var s1 := Enter(InMain(SelectRow(l, s, e)), Target(l, e), true);
      Walked(l, s1, path, ListSetActive(fuel - 1, l, s1, Target(l, e)))
    ensures Walked(l, s, [e] + path, ListSetActive(fuel, l, s, e))
  {
    var s0 := SelectRow(l, s, e);
    var s1 := Enter(InMain(s0), Target(l, e), true);
    RowEnters(fuel, l, s0, e);
    EnterPushes(InMain(s0), e, Target(l, e));
    FirstStep(l, s, e, s1, path, ListSetActive(fuel - 1, l, s1, Target(l, e)), ListSetActive(fuel, l, s, e));
  }

  /** Selecting the row of the current panel when no hidden parent is involved. */
  lemma ListedWalk(fuel: nat, l: Lists, s: State, e: Id)
    requires WellFormed(l) && Sane(l, s) && Acyclic(l) && !s.single && fuel >= 2
    requires Entered(l, e) && l.panels[e].listed != Hidden && s.current == Some(e)
    requires LeadsOn(l, e) ==> l.panels[Target(l, e)].listed != Hidden
    ensures Walked(l, s, ListedPath(l, e), ListSetActive(fuel, l, s, e))
  {
    if LeadsOn(l, e) {
      var t := Target(l, e);
      ParentOfEntered(l, e);
      var s1 := Enter(InMain(SelectRow(l, s, e)), t, true);
      QuietSelect(fuel - 1, l, s1, t);
      SelectLeadsOn(fuel, l, s, e, [t]);
      assert [e] + [t] == [e, t];
    } else {
      QuietSelect(fuel, l, s, e);
    }
  }

  /** A redirect whose first visible row leads nowhere else. */
  lemma QuietRedirect(fuel: nat, l: Lists, s: State, e: Id)
    requires WellFormed(l) && Sane(l, s) && fuel >= 1
    requires e in l.panels && l.panels[e].listed == Hidden && s.current == Some(e)
    requires var row := FirstVisible(l, s);
      row == None || Target(l, row.value) == e || !Available(l, Target(l, row.value))
    ensures Walked(l, s, [e], ListActivate(fuel, l, s))
  {
    var row := FirstVisible(l, s);
    if row.Some? {
      QuietRow(fuel, l, SelectFirst(s, row.value), row.value);
    }
    OneStep(l, s, e, ListActivate(fuel, l, s));
  }

  /** The state in which a redirect enters panel t. */
  function Redirecting(s: State, row: Id, t: Id): State { Enter(InMain(SelectFirst(s, row)), t, true) }

  /** A redirect whose first visible row leads on to panel t. */
  lemma RedirectLeadsOn(fuel: nat, l: Lists, s: State, e: Id, row: Id, path: seq<Id>)
    requires WellFormed(l) && Sane(l, s) && !s.single && fuel >= 1
    requires e in l.panels && l.panels[e].listed == Hidden && s.current == Some(e)
    requires FirstVisible(l, s) == Some(row) && Target(l, row) != e && Available(l, Target(l, row))
    requires Effective(l, Target(l, row)) == Target(l, row)
    requires path != [] && forall k :: 0 <= k < |path| ==> path[k] in l.panels
    requires var s1 := Redirecting(s, row, Target(l, row));
      Sane(l, s1) && Walked(l, s1, path, ListSetActive(fuel - 1, l, s1, Target(l, row)))
    ensures Walked(l, s, [e] + path, ListActivate(fuel, l, s))
  {
    var s0 := SelectFirst(s, row);
    var s1 := Redirecting(s, row, Target(l, row));
    RowEnters(fuel, l, s0, row);
    EnterPushes(InMain(s0), e, Target(l, row));
    FirstStep(l, s, e, s1, path, ListSetActive(fuel - 1, l, s1, Target(l, row)), ListActivate(fuel, l, s));
  }

  /** The parent that a first visible row leads to: the list shows it and nothing hidden follows. */
  lemma ListedTarget(l: Lists, row: Id)
    requires WellFormed(l) && Grounded(l) && row in l.panels && Available(l, Target(l, row))
    ensures var t := Target(l, row);
      Entered(l, t) && (LeadsOn(l, t) ==> l.panels[Target(l, t)].listed != Hidden)
  {
    TargetIsEffective(l, row);
  }

  /** A redirect in the main view. */
  lemma MainWalk(fuel: nat, l: Lists, s: State, e: Id)
    requires WellFormed(l) && Sane(l, s) && Grounded(l) && !s.single && s.view == Main && fuel >= 3
    requires e in l.panels && l.panels[e].listed == Hidden && s.current == Some(e)
    ensures Walked(l, s, HiddenPath(l, s, e), ListActivate(fuel, l, s))
  {
    var row := FirstVisible(l, s);
    if row == None || Target(l, row.value) == e || !Available(l, Target(l, row.value)) {
      QuietRedirect(fuel, l, s, e);
    } else {
      var t := Target(l, row.value);
      var s1 := Redirecting(s, row.value, t);
      ListedTarget(l, row.value);
      if l.panels[t].listed != Hidden {
        ListedWalk(fuel - 1, l, s1, t);
        RedirectLeadsOn(fuel, l, s, e, row.value, ListedPath(l, t));
      } else {
        assert FirstVisible(l, s1) == row;
        QuietRedirect(fuel - 1, l, s1, t);
        RedirectLeadsOn(fuel, l, s, e, row.value, [t]);
        assert [e] + [t] == [e, t];
      }
    }
  }

  lemma SameRedirect(l: Lists, s: State, s1: State, e: Id)
    requires WellFormed(l) && e in l.panels && s.view == s1.view == Main && s.shown == s1.shown
    ensures HiddenPath(l, s, e) == HiddenPath(l, s1, e)
  {
  }

  /** A redirect in either view. */
  lemma HiddenWalk(fuel: nat, l: Lists, s: State, e: Id)
    requires WellFormed(l) && Sane(l, s) && Grounded(l) && !s.single && fuel >= 4
    requires e in l.panels && l.panels[e].listed == Hidden && s.current == Some(e)
    ensures Walked(l, s, HiddenPath(l, s, e), ListActivate(fuel, l, s))
  {
    var row := FirstVisible(l, s);
    if s.view == Main {
      MainWalk(fuel, l, s, e);
    } else if row == None || Target(l, row.value) == e || !Available(l, Target(l, row.value)) {
      QuietRedirect(fuel, l, s, e);
    } else {
      var t := Target(l, row.value);
      var s1 := Redirecting(s, row.value, t);
      ListedTarget(l, row.value);
      if l.panels[t].listed != Hidden {
        ListedWalk(fuel - 1, l, s1, t);
        RedirectLeadsOn(fuel, l, s, e, row.value, ListedPath(l, t));
      } else {
        MainWalk(fuel - 1, l, s1, t);
        SameRedirect(l, s1, s.(view := Main), t);
        RedirectLeadsOn(fuel, l, s, e, row.value, HiddenPath(l, s1, t));
      }
    }
  }

  /** Telling the list that panel e was entered, for any visibilities, in any view: where it ends. */
  lemma EnteredWalk(fuel: nat, l: Lists, s: State, e: Id)
    requires WellFormed(l) && Sane(l, s) && Grounded(l) && !s.single && fuel >= 4
    requires Entered(l, e) && s.current == Some(e)
    ensures Walked(l, s, Path(l, s, e), ListSetActive(fuel, l, s, e))
  {
    if l.panels[e].listed == Hidden {
      HiddenWalk(fuel, l, s, e);
    } else if LeadsOn(l, e) && l.panels[Target(l, e)].listed == Hidden {
      var t := Target(l, e);
      ParentOfEntered(l, e);
      var s1 := Enter(InMain(SelectRow(l, s, e)), t, true);
      MainWalk(fuel - 1, l, s1, t);
      SameRedirect(l, s1, SelectRow(l, s, e).(view := Main), t);
      SelectLeadsOn(fuel, l, s, e, HiddenPath(l, s1, t));
    } else {
      ListedWalk(fuel, l, s, e);
    }
  }

  // ---- every navigation ends ----

  /** Re-entry through a row, when nothing is autoselected first. */
  lemma DirectRowEnds(fuel: nat, l: Lists, s: State, id: Id)
    requires WellFormed(l) && Sane(l, s) && Grounded(l) && id in l.panels && Direct(s) && fuel >= 5
    ensures RowActivated(fuel, l, s, id).Some?
  {
    var t := Target(l, id);
    if s.single {
      SingleRow(fuel, l, s, id);
    } else if s.current == Some(t) || !Available(l, t) {
      QuietRow(fuel, l, s, id);
    } else {
      TargetIsEffective(l, id);
      RowEnters(fuel, l, s, id);
      EnteredWalk(fuel - 1, l, Enter(InMain(s), t, true), t);
    }
  }

  lemma ActivateEnds(fuel: nat, l: Lists, s: State)
    requires WellFormed(l) && Sane(l, s) && Grounded(l) && fuel >= 5
    ensures ListActivate(fuel, l, s).Some?
  {
    var first := FirstVisible(l, s);
    if first.Some? {
      DirectRowEnds(fuel, l, SelectFirst(s, first.value), first.value);
    }
  }

  lemma SwitchEnds(fuel: nat, l: Lists, s: State)
    requires WellFormed(l) && Sane(l, s) && Grounded(l) && fuel >= 5
    ensures var r := SwitchToView(fuel, l, s, Main); r.Some? && r.value.view == Main
  {
    if s.view == Search && s.autoselect {
      ActivateEnds(fuel, l, Switched(s, Main));
    }
    SwitchToMainKeeps(fuel, l, s);
  }

  lemma ListSetActiveEnds(fuel: nat, l: Lists, s: State, id: Id)
    requires WellFormed(l) && Sane(l, s) && Grounded(l) && id in l.panels && fuel >= 5
    ensures ListSetActive(fuel, l, s, id).Some?
  {
    if l.panels[id].listed == Hidden {
      ActivateEnds(fuel, l, s);
    } else {
      DirectRowEnds(fuel, l, SelectRow(l, s, id), id);
    }
  }

  /** Whatever the visibilities, view, rows and history: with grounded parents opening any panel from any
      state ends, with at most five row activations in progress. */
  lemma OpenEnds(fuel: nat, l: Lists, s: State, id: Id, addToHistory: bool)
    requires WellFormed(l) && Sane(l, s) && Grounded(l) && fuel >= 5
    ensures SetActive(fuel, l, s, id, addToHistory).Some?
  {
    if s.current != Some(id) && Available(l, id) && !s.single {
      var e := Effective(l, id);
      ListSetActiveEnds(fuel, l, Enter(s, e, addToHistory), e);
    }
  }

  lemma RowEnds(fuel: nat, l: Lists, s: State, id: Id)
    requires WellFormed(l) && Sane(l, s) && Grounded(l) && id in l.panels && fuel >= FUEL
    ensures RowActivated(fuel, l, s, id).Some?
  {
    SwitchEnds(fuel - 1, l, s);
    OpenEnds(fuel - 1, l, SwitchToView(fuel - 1, l, s, Main).value, Target(l, id), true);
  }

  // ---- the condition is necessary ----

  /** System's parent is Privacy, which is replaced by System. */
  lemma {:induction false} DivergesOnSystemRow(fuel: nat, l: Lists, s: State)
    requires WellFormed(l) && Sane(l, s) && !s.single && s.view == Main && s.current == Some(SYSTEM)
    requires SYSTEM in l.panels && Available(l, PRIVACY) && l.panels[SYSTEM].listed != Hidden
    requires l.panels[SYSTEM].category == Privacy && l.panels[PRIVACY].category == System
    ensures RowActivated(fuel, l, s, SYSTEM) == None
    decreases fuel
  {
    if fuel > 0 {
      assert |SYSTEM| != |PRIVACY|;
      RowEnters(fuel, l, s, SYSTEM);
      DivergesOnSystemRow(fuel - 1, l, SelectRow(l, Enter(s, SYSTEM, true), SYSTEM));
    }
  }

  /** System is list-hidden and the first visible row belongs to Privacy, which is replaced by System. */
  lemma {:induction false} DivergesOnPrivacyRow(fuel: nat, l: Lists, s: State, row: Id)
    requires WellFormed(l) && Sane(l, s) && !s.single && s.view == Main && s.current == Some(SYSTEM)
    requires SYSTEM in l.panels && Available(l, PRIVACY) && l.panels[SYSTEM].listed == Hidden
    requires l.panels[PRIVACY].category == System
    requires FirstVisible(l, s) == Some(row) && l.panels[row].category == Privacy
    ensures ListActivate(fuel, l, s) == None
    decreases fuel
  {
    if fuel > 0 {
      assert |SYSTEM| != |PRIVACY|;
      var s0 := SelectFirst(s, row);
      RowEnters(fuel, l, s0, row);
      DivergesOnPrivacyRow(fuel - 1, l, Enter(s0, SYSTEM, true), row);
    }
  }

  ghost predicate Once(rows: seq<Id>) { forall i, j :: 0 <= i < j < |rows| ==> rows[i] != rows[j] }

  ghost predicate SameCategories(p: map<Id, Panel>, q: map<Id, Panel>) {
    p.Keys == q.Keys && forall id :: id in p ==> p[id].category == q[id].category
  }

  /** The same panels, listed in the same order; only visibilities differ. */
  ghost predicate SameRows(m: Lists, l: Lists) {
    SameCategories(m.panels, l.panels) && m.rows == l.rows && m.searchRows == l.searchRows
  }

  lemma AcyclicByCategory(l: Lists, m: Lists)
    requires SameCategories(l.panels, m.panels)
    ensures Acyclic(l) <==> Acyclic(m)
  {
  }

  /** The panels that the window hides from its list from the start, although they can be opened. */
  const HIDDEN_PANELS: set<Id> := {"display", "power", "applications", "search", "sharing", "color"}

  /** What a window's lists can look like: each row once, and each panel as visible in the list as in the
      model, except those that the window hides from the start. */
  ghost predicate Reachable(l: Lists) {
    && WellFormed(l) && Once(l.rows) && Once(l.searchRows)
    && forall id :: id in l.panels ==>
         l.panels[id].listed == l.panels[id].store || (id in HIDDEN_PANELS && l.panels[id].listed == Hidden)
  }

  /** A window before its first panel is opened. */
  ghost function NewWindow(l: Lists): State {
    State((set id | id in l.panels && l.panels[id].listed == Visible), true, None, Main, Main, false, None, None, [], false)
  }

  ghost predicate Hangs(l: Lists, s: State, id: Id) {
    WellFormed(l) && Sane(l, s) && forall fuel: nat :: SetActive(fuel, l, s, id, true) == None
  }

  lemma ReachableInStep(l: Lists)
    requires Reachable(l)
    ensures ParentInStep(l)
  {
    assert |PRIVACY| == 7 && PRIVACY[1] == 'r';
  }

  /** The same rows in the same order: System is hidden if systemHidden is set, and then row is the only one
      that is visible and not just found by searching; otherwise all are visible. */
  ghost function Arranged(l: Lists, row: Id, systemHidden: bool): Lists {
    Lists(map id | id in l.panels ::
            var v := if !systemHidden || id == row then Visible else if id == SYSTEM then Hidden else InSearch;
            Panel(l.panels[id].category, v, v),
          l.rows, l.searchRows, {})
  }

  /** With such parents, opening System (or Privacy, when System is hidden) never returns. */
  lemma ArrangedHangs(fuel: nat, l: Lists, row: Id, systemHidden: bool)
    requires WellFormed(l) && row in l.panels && PRIVACY in l.panels
    requires l.panels[row].category == Privacy && l.panels[PRIVACY].category == System
    requires systemHidden <==> l.panels[SYSTEM].category != Privacy
    ensures var m := Arranged(l, row, systemHidden);
      WellFormed(m) && SetActive(fuel, m, NewWindow(m), if systemHidden then PRIVACY else SYSTEM, true) == None
  {
    assert |SYSTEM| != |PRIVACY|;
    var m := Arranged(l, row, systemHidden);
    var s := NewWindow(m);
    var s1 := Enter(s, SYSTEM, true);
    if systemHidden {
      assert s.shown == {row} && row in Ids(m.rows);
      assert FirstVisible(m, s1) == Some(row);
      DivergesOnPrivacyRow(fuel, m, s1, row);
    } else {
      DivergesOnSystemRow(fuel, m, SelectRow(m, s1, SYSTEM));
    }
  }

  /** When the parents are cyclic, there are visibilities with which a window with these rows, in the order
      they have, never gets its first panel open. */
  lemma CyclicHangs(l: Lists) returns (m: Lists, id: Id)
    requires WellFormed(l) && Once(l.rows) && Once(l.searchRows) && !Acyclic(l)
    ensures SameRows(m, l) && Reachable(m) && Hangs(m, NewWindow(m), id)
  {
    var row :| row in l.panels && l.panels[row].category == Privacy && PRIVACY in l.panels
               && l.panels[PRIVACY].category == System;
    var systemHidden := l.panels[SYSTEM].category != Privacy;
    m := Arranged(l, row, systemHidden);
    id := if systemHidden then PRIVACY else SYSTEM;
    ArrangedHangs(0, l, row, systemHidden);
    forall fuel: nat ensures SetActive(fuel, m, NewWindow(m), id, true) == None {
      ArrangedHangs(fuel, l, row, systemHidden);
    }
  }

  /** For every choice of visibilities that a window with these rows can have, with the rows in the order
      they have, every first navigation ends (and then every navigation from any state does, by OpenEnds),
      exactly when the parents are not cyclic. */
  lemma EndsIffAcyclic(l: Lists)
    requires WellFormed(l) && Once(l.rows) && Once(l.searchRows)
    ensures Acyclic(l) <==>
            forall m: Lists, id: Id :: SameRows(m, l) && Reachable(m) ==> !Hangs(m, NewWindow(m), id)
  {
    if Acyclic(l) {
      forall m: Lists, id: Id | SameRows(m, l) && Reachable(m) ensures !Hangs(m, NewWindow(m), id) {
        AcyclicByCategory(l, m);
        ReachableInStep(m);
        OpenEnds(FUEL, m, NewWindow(m), id, true);
      }
    } else {
      var m, id := CyclicHangs(l);
    }
  }
}
