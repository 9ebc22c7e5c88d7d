/** The navigation calls as they change the fields of CcWindow and CcPanelList in place, proved against
    the functions of module Navigation.  A signal emission is a call. */
module NavigationShell {
  import opened Text
  import opened Navigation
  import opened NavigationEnds
  import History = NavigationHistory

  /** What navigation reads after panel id got a new visibility. */
  function Revised(l: Lists, id: Id, visibility: Visibility, found: set<Id>): Lists
    requires id in l.panels
  {
    History.Refresh(l, History.SetVisibility(id, visibility, found))
  }

  class Shell {
    // what navigation only reads
    var panels: map<Id, Panel>
    var rows: seq<Id>
    var searchRows: seq<Id>
    var found: set<Id>
    // CcPanelList
    var shown: set<Id>
    var selectable: bool
    var selected: Option<Id>
    var view: View
    var previousView: View
    var autoselect: bool
    var listCurrent: Option<Id>
    // CcWindow
    var current: Option<Id>
    var history: seq<Id>
    var single: bool

    ghost function L(): Lists reads this { Lists(panels, rows, searchRows, found) }

    ghost function S(): State
      reads this
    {
      State(shown, selectable, selected, view, previousView, autoselect, listCurrent, current, history, single)
    }

    ghost predicate Valid() reads this { WellFormed(L()) && Sane(L(), S()) }

    /** add_current_panel_to_history */
    method AddCurrentPanelToHistory(startId: Id)
      modifies this`history
      ensures history == if old(current).Some? && old(current) != Some(startId)
                         then [old(current).value] + old(history) else old(history)
    {
      if current == None || current == Some(startId) {
        return;
      }
      history := [current.value] + history;
    }

    /** set_active_panel_from_id */
    method SetActivePanelFromId(ghost fuel: nat, startId: Id, addToHistory: bool)
      requires Valid() && SetActive(fuel, L(), S(), startId, addToHistory).Some?
      modifies this
      ensures Valid() && L() == old(L())
      ensures Some(S()) == old(SetActive(fuel, L(), S(), startId, addToHistory))
      decreases fuel, 4
    {
      if current == Some(startId) {
        return;                              // only the panel's parameters are set
      }
      if startId !in panels {
        return;
      }
      var id := startId;
      if panels[startId].category == System {
        id := SYSTEM;
      }
      var activated := panels[startId].store != Hidden;
      if !activated {
        return;
      }
      if !single && addToHistory {
        AddCurrentPanelToHistory(id);
      }
      current := Some(id);
      assert S() == Enter(old(S()), Effective(L(), startId), addToHistory);
      if !single {
        SetActivePanel(fuel, id);
      }
    }

    /** cc_panel_list_set_active_panel */
    method SetActivePanel(ghost fuel: nat, id: Id)
      requires Valid() && id in panels && ListSetActive(fuel, L(), S(), id).Some?
      modifies this
      ensures Valid() && L() == old(L())
      ensures Some(S()) == old(ListSetActive(fuel, L(), S(), id))
      decreases fuel, 3
    {
      if panels[id].listed == Hidden {
        var _ := Activate(fuel);
        return;
      }
      MarkRow(id);
      ActivateRow(fuel, id);
      listCurrent := Some(id);
    }

    /** gtk_list_box_select_row on the main list box */
    method SelectListRow(id: Id)
      modifies `selected
      ensures selected == Chosen(old(S()), id)
    {
      if selectable {
        selected := Some(id);
      }
    }

    /** The rows shown and selected, before the row is activated. */
    method MarkRow(id: Id)
      requires Valid()
      modifies `shown, `selected, `autoselect
      ensures Valid() && S() == old(SelectRow(L(), S(), id))
    {
      if listCurrent.Some? && listCurrent != Some(id) {
        if panels[listCurrent.value].listed == Visible {
          shown := shown + {listCurrent.value};
        } else {
          shown := shown - {listCurrent.value};
        }
      }
      shown := shown + {id};
      SelectListRow(id);
      autoselect := false;
    }

    /** The row at which the do-while loop over a list box stops. */
    method FirstVisibleRow(box: seq<Id>, visible: set<Id>) returns (row: Option<Id>)
      ensures row == FirstIn(box, visible)
      ensures row == None <==> forall i :: 0 <= i < |box| ==> box[i] !in visible
      ensures row.Some? ==> exists i :: 0 <= i < |box| && row == Some(box[i]) && box[i] in visible
                                        && forall j :: 0 <= j < i ==> box[j] !in visible
    {
      FirstInIs(box, visible);
      var i := 0;
      assert box[0..] == box;
      while true
        invariant 0 <= i <= |box| && FirstIn(box, visible) == FirstIn(box[i..], visible)
        decreases |box| - i
      {
        row := if i < |box| then Some(box[i]) else None;
        i := i + 1;
        if row == None || row.value in visible {
          break;
        }
      }
    }

    /** cc_panel_list_activate */
    method Activate(ghost fuel: nat) returns (activated: bool)
      requires Valid() && ListActivate(fuel, L(), S()).Some?
      modifies this
      ensures Valid() && L() == old(L())
      ensures Some(S()) == old(ListActivate(fuel, L(), S()))
      ensures activated <==> old(FirstVisible(L(), S())).Some?
      decreases fuel, 2
    {
      var row;
      if view == Main {
        row := FirstVisibleRow(rows, shown);
      } else {
        row := FirstVisibleRow(searchRows, found);
      }
      assert row == FirstVisible(L(), S());
      if row.Some? {
        if view == Main {
          SelectListRow(row.value);
          ActivateRow(fuel, row.value);
        } else {
          ActivateSearchRow(fuel, row.value);
        }
      }
      activated := row.Some?;
    }

    /** search_row_activated_cb: looks for the row of the main list box with the same id */
    method ActivateSearchRow(ghost fuel: nat, id: Id)
      requires Valid() && id in panels && RowActivated(fuel, L(), SelectFound(S(), id), id).Some?
      modifies this
      ensures Valid() && L() == old(L())
      ensures Some(S()) == old(RowActivated(fuel, L(), SelectFound(S(), id), id))
      decreases fuel, 1
    {
      assert id in Ids(rows);
      var i := 0;
      while i < |rows|
        invariant 0 <= i <= |rows| && id in rows[i..]
        invariant S() == old(S()) && L() == old(L())
      {
        if rows[i] == id {
          SelectListRow(id);
          autoselect := false;
          assert S() == SelectFound(old(S()), id);
          ActivateRow(fuel, id);
          return;
        }
        i := i + 1;
      }
      assert false;
    }

    /** row_activated_cb for a row of the main list box, and the window's show_panel_cb */
    method ActivateRow(ghost fuel: nat, id: Id)
      requires Valid() && id in panels && RowActivated(fuel, L(), S(), id).Some?
      modifies this
      ensures Valid() && L() == old(L())
      ensures Some(S()) == old(RowActivated(fuel, L(), S(), id))
      decreases fuel, 0
    {
      RowUnfolds(fuel, L(), S(), id);
      ViewSwitch(fuel - 1, Main);
      var parent := None;
      if panels[id].category == System {
        parent := Some(SYSTEM);
      } else if panels[id].category == Privacy {
        parent := Some(PRIVACY);
      }
      ShowPanel(fuel - 1, id, parent);
      autoselect := true;
    }

    /** show_panel_cb */
    method ShowPanel(ghost fuel: nat, id: Id, parent: Option<Id>)
      requires Valid() && SetActive(fuel, L(), S(), if parent.Some? then parent.value else id, true).Some?
      modifies this
      ensures Valid() && L() == old(L())
      ensures Some(S()) == old(SetActive(fuel, L(), S(), if parent.Some? then parent.value else id, true))
      decreases fuel, 5
    {
      if parent == None {
        SetActivePanelFromId(fuel, id, true);
      } else {
        SetActivePanelFromId(fuel, parent.value, true);
      }
    }

    /** switch_to_view */
    method ViewSwitch(ghost fuel: nat, target: View)
      requires Valid() && SwitchToView(fuel, L(), S(), target).Some?
      modifies this
      ensures Valid() && L() == old(L())
      ensures Some(S()) == old(SwitchToView(fuel, L(), S(), target))
      decreases fuel, 3
    {
      if view == target {
        return;
      }
      previousView := view;
      view := target;
      assert S() == Switched(old(S()), target);
      if autoselect && target != Search {
        var _ := Activate(fuel);
      }
    }

    // ---- the entry points: no fuel, only grounded parents ----

    /** cc_shell_set_active_panel_from_id */
    method Open(id: Id)
      requires Valid() && Grounded(L())
      modifies this
      ensures Valid() && L() == old(L())
      ensures Some(S()) == old(SetActive(FUEL, L(), S(), id, true))
    {
      OpenEnds(FUEL, L(), S(), id, true);
      SetActivePanelFromId(FUEL, id, true);
    }

    /** switch_to_previous_panel */
    method SwitchToPreviousPanel()
      requires Valid() && Grounded(L())
      modifies this
      ensures Valid() && L() == old(L())
      ensures Some(S()) == old(History.Back(FUEL, L(), S()))
    {
      if |history| == 0 {
        return;
      }
      var previous := history[0];
      history := history[1..];
      assert S() == History.Popped(old(S()));
      OpenEnds(FUEL, L(), S(), previous, false);
      SetActivePanelFromId(FUEL, previous, false);
    }

    /** maybe_load_last_panel, which calls the list directly */
    method MaybeLoadLastPanel(last: Option<Id>)
      requires Valid() && Grounded(L())
      modifies this
      ensures Valid() && L() == old(L())
      ensures Some(S()) == old(History.Navigate(FUEL, L(), S(), History.LoadLast(last)))
    {
      if listCurrent.Some? {
        return;
      }
      if last.Some? && last.value in panels {
        ListSetActiveEnds(FUEL, L(), S(), last.value);
        SetActivePanel(FUEL, last.value);
      } else {
        ActivateEnds(FUEL, L(), S());
        var _ := Activate(FUEL);
      }
    }

    /** update_search */
    method UpdateSearch(text: string)
      requires Valid()
      modifies this
      ensures Valid() && L() == old(L())
      ensures S() == old(History.UpdateSearch(S(), text))
      ensures view == if text != "" then Search else Main
      ensures text == "" && old(view) == Search ==> !autoselect
    {
      if text != [] {
        if view == Main {
          ViewSwitch(0, Search);
        }
      } else if view == Search {
        autoselect := false;
        ViewSwitch(0, previousView);
      }
    }

    /** cc_panel_list_set_selection_mode */
    method SetSelectionMode(mode: bool)
      requires Valid()
      modifies `selectable, `selected
      ensures Valid() && L() == old(L())
      ensures S() == old(History.SelectionMode(S(), mode))
      ensures selectable == mode
      ensures selected == if !mode then None else if listCurrent.Some? then listCurrent else old(selected)
    {
      selectable := mode;
      if !mode {
        selected := None;                    // the list box drops its selection
      }
      if mode && listCurrent.Some? {
        SelectListRow(listCurrent.value);
      }
    }

    /** cc_panel_list_set_panel_visibility, with activate_row_below */
    method SetPanelVisibility(id: Id, visibility: Visibility, nowFound: set<Id>)
      requires Valid() && Grounded(L()) && id in panels
      modifies this
      ensures Valid() && L() == old(Revised(L(), id, visibility, nowFound))
      ensures Some(S()) == old(History.VisibilityChanged(FUEL, Revised(L(), id, visibility, nowFound), S(), id, visibility))
    {
      StoreVisibility(id, visibility, nowFound);
      SelectBelow(id, visibility);
      if visibility == Visible {
        shown := shown + {id};
      } else {
        shown := shown - {id};
      }
    }

    /** The panel's visibility in the model and in the list, and the search rows now visible. */
    method StoreVisibility(id: Id, visibility: Visibility, nowFound: set<Id>)
      requires Valid() && Grounded(L()) && id in panels
      modifies `panels, `found
      ensures Valid() && Grounded(L()) && L() == old(Revised(L(), id, visibility, nowFound))
    {
      ghost var before := L();
      panels := panels[id := Panel(panels[id].category, visibility, visibility)];
      found := nowFound;
      assert L().panels.Keys == before.panels.Keys;
      History.RefreshKeepsGrounded(before, History.SetVisibility(id, visibility, nowFound));
    }

    /** Moves the selection off a row that is about to disappear. */
    method SelectBelow(id: Id, visibility: Visibility)
      requires Valid() && Grounded(L()) && id in panels
      modifies this
      ensures Valid() && L() == old(L())
      ensures Some(S()) == old(History.SelectionMoved(FUEL, L(), S(), id, visibility))
    {
      assert id in Ids(rows);
      if selected == Some(id) && visibility != Visible {
        var next := RowBelow(id);
        if next.Some? {
          SelectListRow(next.value);
          RowEnds(FUEL, L(), S(), next.value);
          ActivateRow(FUEL, next.value);
        }
      }
    }

    method RowBelow(id: Id) returns (next: Option<Id>)
      requires id in rows
      ensures next == History.Neighbour(rows, id)
      ensures next.Some? ==> next.value in rows && (exists i, j ::
        0 <= i < |rows| && 0 <= j < |rows| && rows[i] == id && rows[j] == next.value && (j == i + 1 || j == i - 1))
    {
      var i := History.IndexOf(rows, id);
      next := if i + 1 < |rows| then Some(rows[i + 1]) else None;
      if next == None && i > 0 {
        next := Some(rows[i - 1]);
      }
    }
  }
}
