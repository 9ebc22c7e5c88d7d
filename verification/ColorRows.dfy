/** Keeping a device's profile rows in step with the device's profile list, without touching rows that
    can stay.  Where the list box puts a new row is decided by its sort function (module ColorKeys). */
module ColorRows {
  /** A device's id and object path. */
  datatype Device = Device(id: string, path: string)

  datatype Row = DeviceRow(device: Device) | ProfileRow(device: Device, profile: string, isDefault: bool)

  /** A profile of the device: its object path, and whether it can be read and belongs to this user. */
  datatype Profile = Profile(path: string, usable: bool)

  predicate Lists(profiles: seq<Profile>, path: string) {
    exists k :: 0 <= k < |profiles| && profiles[k].path == path
  }

  /** A profile row of this device (compared by id) whose profile the device no longer lists. */
  predicate Outdated(r: Row, d: Device, profiles: seq<Profile>) {
    r.ProfileRow? && r.device.id == d.id && !Lists(profiles, r.profile)
  }

  function Kept(rows: seq<Row>, d: Device, profiles: seq<Profile>): seq<Row> {
    if rows == [] then []
    else (if Outdated(rows[0], d, profiles) then [] else [rows[0]]) + Kept(rows[1..], d, profiles)
  }

  /** A profile row of this device (compared by object path) for this profile. */
  predicate Shows(r: Row, d: Device, path: string) {
    r.ProfileRow? && r.device.path == d.path && r.profile == path
  }

  predicate HasRow(rows: seq<Row>, d: Device, path: string) {
    exists k :: 0 <= k < |rows| && Shows(rows[k], d, path)
  }

  /** The rows appended for the profiles from the i-th on that have no kept row. */
  function Added(kept: seq<Row>, d: Device, profiles: seq<Profile>, i: nat): seq<Row>
    requires i <= |profiles|
    decreases |profiles| - i
  {
    if i == |profiles| then []
    else
      (if Missing(kept, d, profiles[i]) then [ProfileRow(d, profiles[i].path, i == 0)] else [])
      + Added(kept, d, profiles, i + 1)
  }

  /** The profile has no row and can be used. */
  predicate Missing(kept: seq<Row>, d: Device, p: Profile) { !HasRow(kept, d, p.path) && p.usable }

  /** gcm_prefs_device_changed_cb */
  function Reconciled(rows: seq<Row>, d: Device, profiles: seq<Profile>): seq<Row> {
    var kept := Kept(rows, d, profiles);
    kept + Added(kept, d, profiles, 0)
  }

  // ---- what it achieves ----

  /** Ids and object paths identify the same devices. */
  ghost predicate Coherent(rows: seq<Row>, d: Device) {
    forall k :: 0 <= k < |rows| ==> (rows[k].device.id == d.id <==> rows[k].device.path == d.path)
  }

  ghost predicate DistinctProfiles(profiles: seq<Profile>) {
    forall i, j :: 0 <= i < j < |profiles| ==> profiles[i].path != profiles[j].path
  }

  /** How many rows show this profile of this device. */
  function CountRows(rows: seq<Row>, d: Device, path: string): nat {
    if rows == [] then 0 else (if Shows(rows[0], d, path) then 1 else 0) + CountRows(rows[1..], d, path)
  }

  lemma {:induction false} CountAppend(a: seq<Row>, b: seq<Row>, d: Device, path: string)
    ensures CountRows(a + b, d, path) == CountRows(a, d, path) + CountRows(b, d, path)
  {
    if a == [] {
      assert a + b == b;
    } else {
      assert (a + b)[1..] == a[1..] + b;
      CountAppend(a[1..], b, d, path);
    }
  }

  lemma {:induction false} HasRowIffCounted(rows: seq<Row>, d: Device, path: string)
    ensures HasRow(rows, d, path) <==> CountRows(rows, d, path) > 0
  {
    if rows != [] {
      HasRowIffCounted(rows[1..], d, path);
      if HasRow(rows[1..], d, path) {
        var k :| 0 <= k < |rows[1..]| && Shows(rows[1..][k], d, path);
        assert Shows(rows[k + 1], d, path);
      }
      if k :| 0 <= k < |rows| && Shows(rows[k], d, path) {
        assert k > 0 ==> Shows(rows[1..][k - 1], d, path);
      }
    }
  }

  lemma {:induction false} KeptCount(rows: seq<Row>, d: Device, profiles: seq<Profile>, path: string)
    requires Coherent(rows, d)
    ensures CountRows(Kept(rows, d, profiles), d, path) == if Lists(profiles, path) then CountRows(rows, d, path) else 0
  {
    if rows != [] {
      var head := if Outdated(rows[0], d, profiles) then [] else [rows[0]];
      assert Coherent(rows[1..], d);
      KeptCount(rows[1..], d, profiles, path);
      CountAppend(head, Kept(rows[1..], d, profiles), d, path);
      assert CountRows([rows[0]], d, path) == if Shows(rows[0], d, path) then 1 else 0;
    }
  }

  predicate ListsFrom(profiles: seq<Profile>, i: nat, path: string) {
    exists k :: i <= k < |profiles| && profiles[k].path == path && profiles[k].usable
  }

  lemma {:induction false} AddedCount(kept: seq<Row>, d: Device, profiles: seq<Profile>, i: nat, path: string)
    requires DistinctProfiles(profiles) && i <= |profiles|
    ensures CountRows(Added(kept, d, profiles, i), d, path)
            == if !HasRow(kept, d, path) && ListsFrom(profiles, i, path) then 1 else 0
    decreases |profiles| - i
  {
    if i < |profiles| {
      var p := profiles[i];
      var head := if Missing(kept, d, p) then [ProfileRow(d, p.path, i == 0)] else [];
      AddedCount(kept, d, profiles, i + 1, path);
      CountAppend(head, Added(kept, d, profiles, i + 1), d, path);
      assert |head| == 1 ==> head[1..] == [];
      assert CountRows(head, d, path) == if |head| == 1 && p.path == path then 1 else 0;
      assert ListsFrom(profiles, i, path) <==> (p.path == path && p.usable) || ListsFrom(profiles, i + 1, path);
    }
  }

  /** Afterwards a profile of this device has a row exactly when the device lists it and it had a row
      before or can be used; a profile that had at most one row has at most one. */
  lemma RowsMatchProfiles(rows: seq<Row>, d: Device, profiles: seq<Profile>, path: string)
    requires Coherent(rows, d) && DistinctProfiles(profiles)
    ensures var r := Reconciled(rows, d, profiles);
      && (HasRow(r, d, path) <==> (Lists(profiles, path) && (HasRow(rows, d, path) || ListsFrom(profiles, 0, path))))
      && (CountRows(rows, d, path) <= 1 ==> CountRows(r, d, path) <= 1)
  {
    var kept := Kept(rows, d, profiles);
    KeptCount(rows, d, profiles, path);
    AddedCount(kept, d, profiles, 0, path);
    CountAppend(kept, Added(kept, d, profiles, 0), d, path);
    HasRowIffCounted(rows, d, path);
    HasRowIffCounted(kept, d, path);
    HasRowIffCounted(Reconciled(rows, d, profiles), d, path);
  }

  /** The rows that this does not concern: device rows, and the rows of other devices. */
  function Foreign(rows: seq<Row>, d: Device): seq<Row> {
    if rows == [] then []
    else (if rows[0].ProfileRow? && rows[0].device.id == d.id then [] else [rows[0]]) + Foreign(rows[1..], d)
  }

  lemma {:induction false} ForeignAppend(a: seq<Row>, b: seq<Row>, d: Device)
    ensures Foreign(a + b, d) == Foreign(a, d) + Foreign(b, d)
  {
    if a == [] {
      assert a + b == b;
    } else {
      assert (a + b)[1..] == a[1..] + b;
      ForeignAppend(a[1..], b, d);
    }
  }

  lemma {:induction false} KeptForeign(rows: seq<Row>, d: Device, profiles: seq<Profile>)
    ensures Foreign(Kept(rows, d, profiles), d) == Foreign(rows, d)
  {
    if rows != [] {
      var head := if Outdated(rows[0], d, profiles) then [] else [rows[0]];
      KeptForeign(rows[1..], d, profiles);
      ForeignAppend(head, Kept(rows[1..], d, profiles), d);
    }
  }

  lemma OwnRow(r: Row, d: Device)
    requires r.ProfileRow? && r.device == d
    ensures Foreign([r], d) == []
  {
    assert [r][1..] == [];
  }

  lemma {:induction false} AddedForeign(kept: seq<Row>, d: Device, profiles: seq<Profile>, i: nat)
    requires i <= |profiles|
    ensures Foreign(Added(kept, d, profiles, i), d) == []
    decreases |profiles| - i
  {
    if i < |profiles| {
      AddedForeign(kept, d, profiles, i + 1);
      if Missing(kept, d, profiles[i]) {
        var r := ProfileRow(d, profiles[i].path, i == 0);
        OwnRow(r, d);
        ForeignAppend([r], Added(kept, d, profiles, i + 1), d);
      } else {
        assert Added(kept, d, profiles, i) == Added(kept, d, profiles, i + 1);
      }
    }
  }

  /** Rows of other devices, and all device rows, stay as they are and in their order. */
  lemma OthersUntouched(rows: seq<Row>, d: Device, profiles: seq<Profile>)
    ensures Foreign(Reconciled(rows, d, profiles), d) == Foreign(rows, d)
  {
    var kept := Kept(rows, d, profiles);
    KeptForeign(rows, d, profiles);
    AddedForeign(kept, d, profiles, 0);
    ForeignAppend(kept, Added(kept, d, profiles, 0), d);
  }

  lemma {:induction false} KeptMultiset(rows: seq<Row>, d: Device, profiles: seq<Profile>, r: Row)
    ensures multiset(Kept(rows, d, profiles))[r] == if Outdated(r, d, profiles) then 0 else multiset(rows)[r]
  {
    if rows != [] {
      KeptMultiset(rows[1..], d, profiles, r);
      assert rows == [rows[0]] + rows[1..];
    }
  }

  /** The rows that go are the profile rows of this device whose profile it no longer lists. */
  lemma KeptIs(rows: seq<Row>, d: Device, profiles: seq<Profile>, r: Row)
    ensures multiset(Kept(rows, d, profiles))[r] ==
      if r.ProfileRow? && r.device.id == d.id && forall k :: 0 <= k < |profiles| ==> profiles[k].path != r.profile
      then 0 else multiset(rows)[r]
  {
    KeptMultiset(rows, d, profiles, r);
  }

  /** Rows a stand in b in the same order. */
  predicate InOrder(a: seq<Row>, b: seq<Row>)
    decreases |b|
  {
    a == [] || (b != [] && ((a[0] == b[0] && InOrder(a[1..], b[1..])) || InOrder(a, b[1..])))
  }

  lemma NextInOrder(x: Row, a: seq<Row>, b: seq<Row>)
    requires InOrder(a, b)
    ensures InOrder([x] + a, [x] + b) && InOrder(a, [x] + b)
  {
    assert ([x] + a)[1..] == a && ([x] + b)[1..] == b;
  }

  /** The rows that stay keep their order. */
  lemma {:induction false} KeptInOrder(rows: seq<Row>, d: Device, profiles: seq<Profile>)
    ensures InOrder(Kept(rows, d, profiles), rows)
    decreases |rows|
  {
    if rows != [] {
      KeptInOrder(rows[1..], d, profiles);
      var rest := Kept(rows[1..], d, profiles);
      NextInOrder(rows[0], rest, rows[1..]);
      assert rows == [rows[0]] + rows[1..];
      assert Kept(rows, d, profiles) == if Outdated(rows[0], d, profiles) then rest else [rows[0]] + rest;
    }
  }

  /** A new row is for a profile that can be used, and is marked as the default exactly for the first one. */
  lemma {:induction false} AddedIs(kept: seq<Row>, d: Device, profiles: seq<Profile>, i: nat, k: nat) returns (m: nat)
    requires i <= |profiles| && k < |Added(kept, d, profiles, i)|
    ensures i <= m < |profiles| && profiles[m].usable
    ensures Added(kept, d, profiles, i)[k] == ProfileRow(d, profiles[m].path, m == 0)
    decreases |profiles| - i
  {
    var head := if Missing(kept, d, profiles[i]) then [ProfileRow(d, profiles[i].path, i == 0)] else [];
    if k < |head| {
      m := i;
    } else {
      m := AddedIs(kept, d, profiles, i + 1, k - |head|);
    }
  }

  /** Whatever is not kept is such a new row, behind the kept ones. */
  lemma NewRowsAre(rows: seq<Row>, d: Device, profiles: seq<Profile>, k: nat) returns (m: nat)
    requires |Kept(rows, d, profiles)| <= k < |Reconciled(rows, d, profiles)|
    ensures m < |profiles| && profiles[m].usable
    ensures Reconciled(rows, d, profiles)[k] == ProfileRow(d, profiles[m].path, m == 0)
  {
    m := AddedIs(Kept(rows, d, profiles), d, profiles, 0, k - |Kept(rows, d, profiles)|);
  }

  lemma {:induction false} KeepsAll(rows: seq<Row>, d: Device, profiles: seq<Profile>)
    requires forall k :: 0 <= k < |rows| ==> !Outdated(rows[k], d, profiles)
    ensures Kept(rows, d, profiles) == rows
  {
    if rows != [] {
      KeepsAll(rows[1..], d, profiles);
    }
  }

  lemma {:induction false} AddsNone(kept: seq<Row>, d: Device, profiles: seq<Profile>, i: nat)
    requires i <= |profiles|
    requires forall k :: i <= k < |profiles| && profiles[k].usable ==> HasRow(kept, d, profiles[k].path)
    ensures Added(kept, d, profiles, i) == []
    decreases |profiles| - i
  {
    if i < |profiles| {
      AddsNone(kept, d, profiles, i + 1);
    }
  }

  lemma {:induction false} KeptNotOutdated(rows: seq<Row>, d: Device, profiles: seq<Profile>, k: nat)
    requires k < |Kept(rows, d, profiles)|
    ensures !Outdated(Kept(rows, d, profiles)[k], d, profiles)
  {
    if Outdated(rows[0], d, profiles) {
      assert Kept(rows, d, profiles) == Kept(rows[1..], d, profiles);
      KeptNotOutdated(rows[1..], d, profiles, k);
    } else if k > 0 {
      KeptNotOutdated(rows[1..], d, profiles, k - 1);
    }
  }

  lemma {:induction false} AddedNotOutdated(kept: seq<Row>, d: Device, profiles: seq<Profile>, i: nat, k: nat)
    requires i <= |profiles| && k < |Added(kept, d, profiles, i)|
    ensures !Outdated(Added(kept, d, profiles, i)[k], d, profiles)
    decreases |profiles| - i
  {
    var p := profiles[i];
    var head := if Missing(kept, d, p) then [ProfileRow(d, p.path, i == 0)] else [];
    assert Lists(profiles, p.path);
    if k >= |head| {
      AddedNotOutdated(kept, d, profiles, i + 1, k - |head|);
    }
  }

  /** A second notification with the same profiles changes nothing: the list does not flicker. */
  lemma ReconcileTwice(rows: seq<Row>, d: Device, profiles: seq<Profile>)
    requires Coherent(rows, d) && DistinctProfiles(profiles)
    ensures Reconciled(Reconciled(rows, d, profiles), d, profiles) == Reconciled(rows, d, profiles)
  {
    var kept := Kept(rows, d, profiles);
    var added := Added(kept, d, profiles, 0);
    var r := Reconciled(rows, d, profiles);
    forall k | 0 <= k < |r| ensures !Outdated(r[k], d, profiles) {
      if k < |kept| {
        KeptNotOutdated(rows, d, profiles, k);
      } else {
        AddedNotOutdated(kept, d, profiles, 0, k - |kept|);
      }
    }
    KeepsAll(r, d, profiles);
    forall k | 0 <= k < |profiles| && profiles[k].usable ensures HasRow(r, d, profiles[k].path) {
      assert ListsFrom(profiles, 0, profiles[k].path) && Lists(profiles, profiles[k].path);
      RowsMatchProfiles(rows, d, profiles, profiles[k].path);
    }
    AddsNone(r, d, profiles, 0);
  }

  // ---- the function as written ----

  class ListBox {
    var rows: seq<Row>

    /** gcm_prefs_find_profile_by_object_path */
    static method FindProfile(profiles: seq<Profile>, path: string) returns (found: bool)
      ensures found <==> Lists(profiles, path)
    {
      var i := 0;
      while i < |profiles|
        invariant 0 <= i <= |profiles| && forall k :: 0 <= k < i ==> profiles[k].path != path
      {
        if profiles[i].path == path {
          return true;
        }
        i := i + 1;
      }
      return false;
    }

    /** gcm_prefs_find_widget_by_object_path */
    static method FindWidget(list: seq<Row>, d: Device, path: string) returns (found: bool)
      ensures found <==> HasRow(list, d, path)
    {
      var i := 0;
      while i < |list|
        invariant 0 <= i <= |list| && forall k :: 0 <= k < i ==> !Shows(list[k], d, path)
      {
        var r := list[i];
        i := i + 1;
        if !r.ProfileRow? {
          continue;
        }
        if r.device.path != d.path {
          continue;
        }
        if r.profile == path {
          return true;
        }
      }
      return false;
    }

    /** gcm_prefs_add_device_profile */
    method AddDeviceProfile(d: Device, p: Profile, isDefault: bool)
      modifies this
      ensures rows == old(rows) + if p.usable then [ProfileRow(d, p.path, isDefault)] else []
    {
      if !p.usable {
        return;
      }
      rows := rows + [ProfileRow(d, p.path, isDefault)];
    }

    /** What the first loop decides about one row. */
    static method Stays(child: Row, d: Device, profiles: seq<Profile>) returns (stays: bool)
      ensures stays <==> !Outdated(child, d, profiles)
    {
      if !child.ProfileRow? {
        return true;
      }
      if child.device.id != d.id {
        return true;
      }
      stays := FindProfile(profiles, child.profile);
    }

    /** The first loop: drops the outdated rows. */
    method RemoveOutdated(d: Device, profiles: seq<Profile>)
      modifies this
      ensures rows == Kept(old(rows), d, profiles)
    {
      var all, i := rows, 0;
      rows := [];
      assert all[0..] == all;
      while i < |all|
        invariant 0 <= i <= |all| && Kept(all, d, profiles) == rows + Kept(all[i..], d, profiles)
      {
        ghost var before, rest := rows, all[i..];
        var stays := Stays(all[i], d, profiles);
        if stays {
          rows := rows + [all[i]];
        }
        assert rest[0] == all[i] && rest[1..] == all[i + 1..];
        Regroup(before, if stays then [all[i]] else [], Kept(all[i + 1..], d, profiles));
        i := i + 1;
      }
    }

    /** gcm_prefs_device_changed_cb */
    method DeviceChanged(d: Device, profiles: seq<Profile>)
      modifies this
      ensures rows == Reconciled(old(rows), d, profiles)
    {
      RemoveOutdated(d, profiles);
      AddMissing(d, profiles);
    }

    /** The second loop, which searches the rows that were kept. */
    method AddMissing(d: Device, profiles: seq<Profile>)
      modifies this
      ensures rows == old(rows) + Added(old(rows), d, profiles, 0)
    {
      var list := rows;
      var i := 0;
      while i < |profiles|
        invariant 0 <= i <= |profiles|
        invariant list + Added(list, d, profiles, 0) == rows + Added(list, d, profiles, i)
      {
        ghost var before := rows;
        var found := FindWidget(list, d, profiles[i].path);
        if !found {
          AddDeviceProfile(d, profiles[i], i == 0);
        }
        Regroup(before, if !found && profiles[i].usable then [ProfileRow(d, profiles[i].path, i == 0)] else [],
                Added(list, d, profiles, i + 1));
        i := i + 1;
      }
    }
  }

  lemma Regroup(a: seq<Row>, b: seq<Row>, c: seq<Row>)
    ensures a + (b + c) == (a + b) + c
    ensures b == [] ==> a + b == a
  {
  }
}
