/** Expanding and collapsing the devices of the color panel.  Expanding a device makes the panel collapse
    the others and select the device's row; each of these emits a signal that comes back to the panel.
    The functions below say what one action amounts to; class ColorList has the re-entrant calls and is
    proved to end and to do just that. */
module ColorExpansion {
  import opened Text

  type Id = string

  /** A row of the list that can be selected. */
  datatype Row = DeviceRow(device: Id) | ProfileRow(device: Id, profile: string)

  datatype State = State(
    devices: seq<Id>,           // the device rows
    expanded: set<Id>,          // those whose widget is expanded
    filter: Option<Id>,         // list_box_filter: whose profile rows are shown
    selected: Option<Row>,
    toolbar: bool,
    current: Option<Id>)        // current_device

  // ---- what the actions amount to ----

  function ShowToolbar(s: State): State {
    if s.selected == None then s.(toolbar := false)
    else s.(toolbar := true, current := Some(s.selected.value.device))
  }

  /** Selecting a row that is selected already has no effect. */
  function SelectRow(s: State, row: Row): State {
    if s.selected == Some(row) then s else ShowToolbar(s.(selected := Some(row)))
  }

  function ExpandOnly(s: State, d: Id): State {
    SelectRow(s.(expanded := {d}, filter := Some(d)), DeviceRow(d))
  }

  function Collapse(s: State, d: Id): State {
    var s1 := s.(expanded := s.expanded - {d}, filter := None);
    if s.selected == Some(DeviceRow(d)) then ShowToolbar(s1.(selected := None)) else s1
  }

  /** cc_color_device_set_expanded, outside the panel's own changes */
  function SetExpanded(s: State, d: Id, value: bool): State {
    if (d in s.expanded) == value then s else if value then ExpandOnly(s, d) else Collapse(s, d)
  }

  /** The user selects a row, or none. */
  function UserSelects(s: State, row: Option<Row>): State {
    if s.selected == row then s
    else
      var s1 := ShowToolbar(s.(selected := row));
      if row.Some? && row.value.DeviceRow? then SetExpanded(s1, row.value.device, true) else s1
  }

  function Without(devices: seq<Id>, d: Id): (r: seq<Id>)
    ensures forall x :: x in r <==> x in devices && x != d
  {
    if devices == [] then []
    else (if devices[0] == d then [] else [devices[0]]) + Without(devices[1..], d)
  }

  function Removed(s: State, d: Id): State {
    var s1 := s.(devices := Without(s.devices, d), expanded := s.expanded - {d});
    if s.selected.Some? && s.selected.value.device == d then ShowToolbar(s1.(selected := None)) else s1
  }

  // ---- runs ----

  /** `alone`: after the change the list has a single row, which is then a device's. */
  datatype Action =
    | Click(d: Id)                          // the expander button
    | Select(row: Option<Row>)
    | SwitchOff(d: Id)                      // the enable switch, which collapses the device
    | Add(d: Id, alone: bool)
    | Remove(d: Id, alone: bool)

  predicate Enabled(s: State, a: Action) {
    match a
    case Click(d) => d in s.devices
    case Select(row) => row.Some? ==> row.value.device in s.devices
    case SwitchOff(d) => d in s.devices
    case Add(d, alone) => d !in s.devices && (alone ==> s.devices == [])
    case Remove(d, alone) => d in s.devices && (alone ==> |Without(s.devices, d)| == 1)
  }

  function Apply(s: State, a: Action): State
    requires Enabled(s, a)
  {
    match a
    case Click(d) => if d in s.expanded then Collapse(s, d) else ExpandOnly(s, d)
    case Select(row) => UserSelects(s, row)
    case SwitchOff(d) => SetExpanded(s, d, false)
    case Add(d, alone) =>
      var s1 := s.(devices := s.devices + [d]);
      if alone then SetExpanded(s1, d, true) else s1
    case Remove(d, alone) =>
      var s1 := Removed(s, d);
      if alone then SetExpanded(s1, s1.devices[0], true) else s1
  }

  const INIT: State := State([], {}, None, None, false, None)

  function Exec(s: State, acts: seq<Action>): Option<State>
    decreases |acts|
  {
    if acts == [] then Some(s)
    else if Enabled(s, acts[0]) then Exec(Apply(s, acts[0]), acts[1..])
    else None
  }

  /** At most one device is expanded, and then its profile rows are the ones shown; the toolbar is there
      exactly when something is selected, and only rows of present devices are. */
  ghost predicate Inv(s: State) {
    && (forall d :: d in s.expanded ==> d in s.devices && s.filter == Some(d))
    && s.toolbar == s.selected.Some?
    && (s.selected.Some? ==> s.selected.value.device in s.devices)
  }

  lemma StepKeepsInv(s: State, a: Action)
    requires Inv(s) && Enabled(s, a)
    ensures Inv(Apply(s, a))
  {
    if a.Remove? && a.alone {
      assert Inv(Removed(s, a.d));
    }
  }

  lemma {:induction false} RunKeepsInv(s: State, acts: seq<Action>)
    requires Inv(s) && Exec(s, acts).Some?
    ensures Inv(Exec(s, acts).value)
    decreases |acts|
  {
    if acts != [] {
      StepKeepsInv(s, acts[0]);
      RunKeepsInv(Apply(s, acts[0]), acts[1..]);
    }
  }

  /** In every run at most one device is expanded, and its profiles are the ones shown. */
  lemma AtMostOneExpanded(acts: seq<Action>, s: State, d: Id, e: Id)
    requires Exec(INIT, acts) == Some(s) && d in s.expanded && e in s.expanded
    ensures d == e && s.filter == Some(d) && d in s.devices
  {
    RunKeepsInv(INIT, acts);
  }

  /** The profile rows shown, if any, are those of the expanded device. */
  predicate Agrees(s: State) {
    s.filter.Some? && s.filter.value in s.devices ==> s.filter.value in s.expanded
  }

  /** The device that the filter still names was removed and comes back, collapsed. */
  predicate ComesBack(s: State, a: Action) { a.Add? && s.filter == Some(a.d) && !a.alone }

  lemma StepAgreesIff(s: State, a: Action)
    requires Inv(s) && Agrees(s) && Enabled(s, a)
    ensures Agrees(Apply(s, a)) <==> !ComesBack(s, a)
  {
  }

  ghost predicate AlwaysAgrees(s: State, acts: seq<Action>)
    decreases |acts|
  {
    Agrees(s) && (acts != [] && Enabled(s, acts[0]) ==> AlwaysAgrees(Apply(s, acts[0]), acts[1..]))
  }

  ghost predicate NeverComesBack(s: State, acts: seq<Action>)
    decreases |acts|
  {
    acts != [] && Enabled(s, acts[0]) ==>
      !ComesBack(s, acts[0]) && NeverComesBack(Apply(s, acts[0]), acts[1..])
  }

  lemma {:induction false} RunAgreesIff(s: State, acts: seq<Action>)
    requires Inv(s) && Agrees(s)
    ensures AlwaysAgrees(s, acts) <==> NeverComesBack(s, acts)
    decreases |acts|
  {
    if acts != [] && Enabled(s, acts[0]) {
      StepKeepsInv(s, acts[0]);
      StepAgreesIff(s, acts[0]);
      if !ComesBack(s, acts[0]) {
        RunAgreesIff(Apply(s, acts[0]), acts[1..]);
      }
    }
  }

  /** Over whole runs, only profile rows of the expanded device are shown, exactly when no device that the
      filter names is removed and added again while collapsed. */
  lemma ShownIffExpanded(acts: seq<Action>)
    ensures AlwaysAgrees(INIT, acts) <==> NeverComesBack(INIT, acts)
  {
    RunAgreesIff(INIT, acts);
  }

  /** It does happen: the only device is expanded when it is added; it is removed, and comes back with a
      profile. */
  lemma ComesBackWitness(d: Id)
    ensures var acts := [Add(d, true), Remove(d, false), Add(d, false)];
      Exec(INIT, acts).Some? && !Agrees(Exec(INIT, acts).value)
  {
    var acts := [Add(d, true), Remove(d, false), Add(d, false)];
    var s1 := Apply(INIT, acts[0]);
    var s2 := Apply(s1, acts[1]);
    var s3 := Apply(s2, acts[2]);
    assert s1.devices == [d] && s1.expanded == {d} && s1.filter == Some(d);
    assert [d][1..] == [] && Without([], d) == [];
    assert s2.devices == [] && s2.expanded == {} && s2.filter == Some(d);
    assert acts[1..][1..] == [acts[2]] && [acts[2]][1..] == [];
    assert Exec(s2, acts[1..][1..]) == Some(s3);
    assert Exec(s1, acts[1..]) == Some(s3);
    assert d in s3.devices && s3.filter == Some(d) && d !in s3.expanded;
  }

  /** The next click on any expander puts it right. */
  lemma ClickRepairs(s: State, d: Id)
    requires Inv(s) && Enabled(s, Click(d))
    ensures Agrees(Apply(s, Click(d)))
  {
  }

  // ---- what each action does, by its outcome ----

  /** A click on a collapsed device expands it alone, shows its profiles and selects it; another click
      collapses it again, shows no profiles and leaves nothing selected. */
  lemma ClickExpandsAndCollapses(s: State, d: Id)
    requires Inv(s) && Enabled(s, Click(d)) && d !in s.expanded
    ensures var r := Apply(s, Click(d));
      && r.devices == s.devices && r.expanded == {d} && r.filter == Some(d)
      && r.selected == Some(DeviceRow(d)) && r.toolbar && (s.selected != Some(DeviceRow(d)) ==> r.current == Some(d))
      && Enabled(r, Click(d))
      && var q := Apply(r, Click(d));
         q.devices == s.devices && q.expanded == {} && q.filter == None && q.selected == None && !q.toolbar
  {
  }

  /** A click on an expanded device whose row is not selected leaves the selection alone. */
  lemma ClickCollapses(s: State, d: Id)
    requires Inv(s) && Enabled(s, Click(d)) && d in s.expanded
    ensures var r := Apply(s, Click(d));
      && r.devices == s.devices && r.expanded == {} && r.filter == None
      && r.selected == if s.selected == Some(DeviceRow(d)) then None else s.selected
  {
  }

  /** Selecting a device expands it; selecting a profile or nothing expands and collapses nothing. */
  lemma SelectOutcome(s: State, row: Option<Row>)
    requires Inv(s) && Enabled(s, Select(row)) && row != s.selected
    ensures var r := Apply(s, Select(row));
      && r.devices == s.devices && r.selected == row && r.toolbar == row.Some?
      && (row.Some? ==> r.current == Some(row.value.device))
      && (row.Some? && row.value.DeviceRow? ==> r.expanded == {row.value.device})
      && (row.Some? && row.value.DeviceRow? && row.value.device !in s.expanded ==> r.filter == Some(row.value.device))
      && (row == None || row.value.ProfileRow? ==> r.expanded == s.expanded && r.filter == s.filter)
  {
  }

  /** Switching a device off collapses it, and nothing else. */
  lemma SwitchOffOutcome(s: State, d: Id)
    requires Inv(s) && Enabled(s, SwitchOff(d))
    ensures var r := Apply(s, SwitchOff(d));
      && r.devices == s.devices && r.expanded == s.expanded - {d}
      && (d !in s.expanded ==> r == s) && (d in s.expanded ==> r.filter == None)
  {
  }

  /** A device that is added alone, or is left alone, is expanded; otherwise one is added collapsed. */
  lemma AddOutcome(s: State, d: Id, alone: bool)
    requires Inv(s) && Enabled(s, Add(d, alone))
    ensures var r := Apply(s, Add(d, alone));
      && r.devices == s.devices + [d]
      && (alone ==> r.expanded == {d} && r.filter == Some(d) && r.selected == Some(DeviceRow(d)))
      && (!alone ==> r.expanded == s.expanded && r.filter == s.filter && r.selected == s.selected)
  {
  }

  lemma RemoveOutcome(s: State, d: Id, alone: bool)
    requires Inv(s) && Enabled(s, Remove(d, alone))
    ensures var r := Apply(s, Remove(d, alone));
      && (forall x :: x in r.devices <==> x in s.devices && x != d)
      && (!alone ==> r.expanded == s.expanded - {d} && r.filter == s.filter)
      && (!alone ==> r.selected == if s.selected.Some? && s.selected.value.device == d then None else s.selected)
      && (alone ==> r.devices != [] && r.expanded == {r.devices[0]})
  {
  }

  // ---- the signals as written ----

  class ColorList {
    var devices: seq<Id>
    var expanded: set<Id>
    var filter: Option<Id>
    var selected: Option<Row>
    var toolbar: bool
    var current: Option<Id>
    var changing: bool           // model_is_changing

    ghost function S(): State reads this { State(devices, expanded, filter, selected, toolbar, current) }

    ghost predicate Valid() reads this { forall d :: d in expanded ==> d in devices }

    constructor ()
      ensures Valid() && S() == INIT && !changing
    {
      devices, expanded, filter, selected, toolbar, current, changing := [], {}, None, None, false, None, false;
    }

    /** cc_color_device_set_expanded */
    method SetDeviceExpanded(d: Id, value: bool)
      requires Valid() && d in devices
      modifies this
      ensures Valid() && changing == old(changing)
      ensures !changing ==> S() == old(SetExpanded(S(), d, value))
      ensures changing ==> S() == old(S()).(expanded := if value then old(expanded) + {d} else old(expanded) - {d})
      decreases if changing then 0 else 1, if (d in expanded) == value then 0 else 4
    {
      if (d in expanded) == value {
        assert changing ==> expanded == if value then expanded + {d} else expanded - {d};
        return;
      }
      expanded := if value then expanded + {d} else expanded - {d};
      ExpandedChanged(d, value);
    }

    /** cc_color_device_clicked_expander_cb */
    method ClickedExpander(d: Id)
      requires Valid() && d in devices && !changing
      modifies this
      ensures Valid() && !changing && S() == old(Apply(S(), Click(d)))
    {
      var value := d !in expanded;
      expanded := if value then expanded + {d} else expanded - {d};
      ExpandedChanged(d, value);
    }

    /** gcm_prefs_device_expanded_changed_cb */
    method ExpandedChanged(d: Id, isExpanded: bool)
      requires Valid() && d in devices && (d in expanded) == isExpanded
      modifies this
      ensures Valid() && changing == old(changing)
      ensures changing ==> S() == old(S())
      ensures !changing ==> S() == old(if isExpanded then ExpandOnly(S(), d) else Collapse(S(), d))
      decreases if changing then 0 else 1, 3
    {
      if changing {
        return;
      }
      if isExpanded {
        filter := Some(d);
        CollapseOthers(d);
        SelectDeviceRow(d);
      } else {
        filter := None;
        assert expanded == expanded - {d};
        if selected == Some(DeviceRow(d)) {
          selected := None;
          RowSelected();
        }
      }
    }

    /** Collapses every other device, with the panel's own reaction switched off. */
    method CollapseOthers(d: Id)
      requires Valid() && d in devices && d in expanded && !changing
      modifies this
      ensures Valid() && !changing && S() == old(S()).(expanded := {d})
      decreases 1, 2
    {
      changing := true;
      var i := 0;
      while i < |devices|
        invariant 0 <= i <= |devices| && changing && Valid() && d in expanded
        invariant S() == old(S()).(expanded := expanded)
        invariant forall k :: 0 <= k < i && devices[k] != d ==> devices[k] !in expanded
      {
        if devices[i] != d {
          SetDeviceExpanded(devices[i], false);
        }
        i := i + 1;
      }
      changing := false;
      assert expanded == {d};
    }

    /** gtk_list_box_select_row: emits row-selected unless the row is selected already. */
    method SelectDeviceRow(d: Id)
      requires Valid() && d in devices && d in expanded && !changing
      modifies this
      ensures Valid() && !changing && S() == old(SelectRow(S(), DeviceRow(d)))
      decreases 1, 2
    {
      if selected != Some(DeviceRow(d)) {
        selected := Some(DeviceRow(d));
        RowSelected();
      }
    }

    /** gcm_prefs_refresh_toolbar_buttons, for the row now selected */
    method RowSelected()
      requires Valid() && !changing && (selected.Some? ==> selected.value.device in devices)
      modifies this
      ensures Valid() && !changing
      ensures S() == old(var s := ShowToolbar(S());
                         if selected.Some? && selected.value.DeviceRow? then SetExpanded(s, selected.value.device, true) else s)
      decreases 1, if selected.Some? && selected.value.DeviceRow? && selected.value.device !in expanded then 5 else 1
    {
      toolbar := selected.Some?;
      if selected == None {
        return;
      }
      current := Some(selected.value.device);
      if selected.value.DeviceRow? {
        SetDeviceExpanded(selected.value.device, true);
      }
    }

    /** The user selects a row or none. */
    method UserSelect(row: Option<Row>)
      requires Valid() && !changing && (row.Some? ==> row.value.device in devices)
      modifies this
      ensures Valid() && !changing && S() == old(UserSelects(S(), row))
    {
      if selected != row {
        selected := row;
        RowSelected();
      }
    }
  }
}
