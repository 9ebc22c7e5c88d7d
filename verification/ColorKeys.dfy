/** The order of the color panel's list.  A row is ordered by one string: a device by its base key and
    "XX", a profile by its device's base key, the rank of its data source, its creation time padded to
    twelve digits, and its title.  The list is sorted by descending strcmp of these strings. */
module ColorKeys {
  import opened Text
  import opened DecimalText

  datatype Kind = Display | Scanner | Camera | Webcam | Printer | OtherKind
  datatype Source = NoSource | Calibration | Standard | Test | OtherSource

  /** A device of the colour daemon; the object path tells two devices apart. */
  datatype Device = Device(path: string, kind: Kind, id: string, title: string)

  /** cc_color_device_kind_to_sort */
  function KindToSort(kind: Kind): char {
    match kind
    case Display => '4'
    case Scanner => '3'
    case Camera => '2'
    case Webcam => '1'
    case Printer => '0'
    case OtherKind => '9'
  }

  /** cc_color_device_get_sortable_base */
  function SortableBase(d: Device): string {
    [KindToSort(d.kind), '-'] + d.id + ['-'] + d.title
  }

  /** cc_color_profile_get_profile_sort_data_source */
  function SourceRank(source: Source): char {
    match source
    case NoSource => '9'
    case Calibration => '3'
    case Standard => '2'
    case Test => '1'
    case OtherSource => '0'
  }

  /** The creation time is printed with twelve digits. */
  const WIDTH: nat := 12

  const LIMIT: int := 1_000_000_000_000

  datatype Row =
    | DeviceRow(device: Device)
    | ProfileRow(device: Device, source: Source, created: int, title: string)

  function Suffix(r: Row): string {
    match r
    case DeviceRow(_) => "XX"
    case ProfileRow(_, source, created, title) =>
      ['-', SourceRank(source), '-'] + Signed(created, WIDTH) + ['-'] + title
  }

  /** The sortable string of a row. */
  function Key(r: Row): string { SortableBase(r.device) + Suffix(r) }

  /** cc_color_panel_sort_func */
  function SortFunc(a: Row, b: Row): int { Compare(Key(b), Key(a)) }

  ghost predicate Sorted(rows: seq<Row>) {
    forall i, j :: 0 <= i < j < |rows| ==> SortFunc(rows[i], rows[j]) <= 0
  }

  // ---- within one device ----

  lemma LimitIsPow10()
    ensures Pow10(WIDTH) == LIMIT
  {
    assert Pow10(4) == 10_000;
    assert Pow10(8) == 100_000_000;
  }

  /** Rank of the data source, creation time, title: the tuple the key encodes. */
  function CompareTuples(p: Row, q: Row): int
    requires p.ProfileRow? && q.ProfileRow?
  {
    if p.source != q.source then (if SourceRank(p.source) < SourceRank(q.source) then -1 else 1)
    else if p.created != q.created then Sign(p.created - q.created)
    else Compare(p.title, q.title)
  }

  function Rest(p: Row): string
    requires p.ProfileRow?
  {
    Signed(p.created, WIDTH) + (['-'] + p.title)
  }

  lemma SuffixOfProfile(p: Row)
    requires p.ProfileRow?
    ensures Suffix(p) == ['-', SourceRank(p.source), '-'] + Rest(p)
  {
    var rank := ['-', SourceRank(p.source), '-'];
    assert rank + Signed(p.created, WIDTH) + ['-'] + p.title == rank + Rest(p);
  }

  lemma RankThenText(c: char, d: char, x: string, y: string)
    ensures Compare(['-', c, '-'] + x, ['-', d, '-'] + y) ==
            if c == d then Compare(x, y) else if c < d then -1 else 1
  {
    CompareSameLength(['-', c, '-'], ['-', d, '-'], x, y);
    if c != d {
      assert ['-', c, '-'][1] != ['-', d, '-'][1];
      CompareRankTexts(c, d);
    }
  }

  lemma CompareRankTexts(c: char, d: char)
    requires c != d
    ensures Compare(['-', c, '-'], ['-', d, '-']) == if c < d then -1 else 1
  {
    assert ['-', c, '-'][1..] == [c, '-'] && ['-', d, '-'][1..] == [d, '-'];
  }

  /** strcmp of the profile keys of one device is the lexicographic comparison of the tuples. */
  lemma KeysCompareAsTuples(p: Row, q: Row)
    requires p.ProfileRow? && q.ProfileRow? && SortableBase(p.device) == SortableBase(q.device)
    requires -1 <= p.created < LIMIT && -1 <= q.created < LIMIT
    ensures Compare(Key(p), Key(q)) == CompareTuples(p, q)
  {
    SuffixOfProfile(p);
    SuffixOfProfile(q);
    CompareSamePrefix(SortableBase(p.device), Suffix(p), Suffix(q));
    RankThenText(SourceRank(p.source), SourceRank(q.source), Rest(p), Rest(q));
    LimitIsPow10();
    SignedOrder(p.created, q.created, WIDTH, ['-'] + p.title, ['-'] + q.title);
    CompareSamePrefix(['-'], p.title, q.title);
  }

  /** Within a device and a data source the newest profile comes first, equally old ones by descending
      title. */
  lemma NewestFirst(rows: seq<Row>, i: nat, j: nat)
    requires Sorted(rows) && i < j < |rows| && rows[i].ProfileRow? && rows[j].ProfileRow?
    requires rows[i].device == rows[j].device && rows[i].source == rows[j].source
    requires -1 <= rows[i].created < LIMIT && -1 <= rows[j].created < LIMIT
    ensures rows[i].created >= rows[j].created
    ensures rows[i].created == rows[j].created ==> Compare(rows[j].title, rows[i].title) <= 0
  {
    KeysCompareAsTuples(rows[j], rows[i]);
  }

  /** The interval is exact: around zero, creation times are ordered like their texts just from -1 to
      twelve digits. */
  lemma CreatedOrderIff(lo: int, hi: int)
    requires lo <= 0 <= hi
    ensures OrderedAsText(lo, hi, WIDTH) <==> -1 <= lo && hi < LIMIT
  {
    LimitIsPow10();
    OrderedAsTextIff(lo, hi, WIDTH);
  }

  // ---- several devices ----

  /** Devices of a kind with a higher rank come first, with all their rows. */
  lemma KindsInOrder(rows: seq<Row>, i: nat, j: nat)
    requires Sorted(rows) && i < j < |rows|
    ensures KindToSort(rows[i].device.kind) >= KindToSort(rows[j].device.kind)
  {
    assert Key(rows[i])[0] == KindToSort(rows[i].device.kind);
    assert Key(rows[j])[0] == KindToSort(rows[j].device.kind);
  }

  /** Of two kinds, whose rows come first: the daemon's other kinds before displays, then scanners, cameras,
      webcams and printers. */
  lemma KindsByName(rows: seq<Row>, i: nat, j: nat, m: nat, n: nat)
    requires Sorted(rows) && i < |rows| && j < |rows| && m < n < 6
    requires rows[i].device.kind == [OtherKind, Display, Scanner, Camera, Webcam, Printer][m]
    requires rows[j].device.kind == [OtherKind, Display, Scanner, Camera, Webcam, Printer][n]
    ensures i < j
  {
    if j < i {
      KindsInOrder(rows, j, i);
    }
  }

  /** Of two profiles of a device with different data sources, which comes first: one without a data source,
      then calibration, standard and test profiles, then others. */
  lemma SourcesByName(rows: seq<Row>, i: nat, j: nat, m: nat, n: nat)
    requires Sorted(rows) && i < |rows| && j < |rows| && m < n < 5
    requires rows[i].ProfileRow? && rows[j].ProfileRow? && rows[i].device == rows[j].device
    requires rows[i].source == [NoSource, Calibration, Standard, Test, OtherSource][m]
    requires rows[j].source == [NoSource, Calibration, Standard, Test, OtherSource][n]
    ensures i < j
  {
    var p, q := rows[i], rows[j];
    SuffixOfProfile(p);
    SuffixOfProfile(q);
    CompareSamePrefix(SortableBase(p.device), Suffix(p), Suffix(q));
    RankThenText(SourceRank(p.source), SourceRank(q.source), Rest(p), Rest(q));
    assert Compare(Key(p), Key(q)) == 1;
  }

  /** Each device's row comes before its profiles, and nothing of another device comes between them. */
  ghost predicate Grouped(rows: seq<Row>) {
    && (forall i, j :: 0 <= i < j < |rows| && rows[i].device == rows[j].device && rows[j].DeviceRow?
          ==> rows[i].DeviceRow?)
    && (forall i, j, k :: 0 <= i < j < k < |rows| && rows[i].device == rows[k].device
          ==> rows[j].device == rows[i].device)
  }

  ghost predicate Over(rows: seq<Row>, devices: set<Device>) {
    forall i :: 0 <= i < |rows| ==> rows[i].device in devices
  }

  /** Whatever rows these devices have. */
  ghost predicate AlwaysGrouped(devices: set<Device>) {
    forall rows: seq<Row> :: Sorted(rows) && Over(rows, devices) ==> Grouped(rows)
  }

  /** The lowest suffix any row can have: lowest rank, one second before the epoch, no title. */
  const LOWEST: string := ['-', '0', '-'] + (LowestText(WIDTH) + ['-'])

  /** Base key c continues base key b by a text that falls between b's device row and a profile of b. */
  predicate Clash(b: string, c: string) {
    b < c &&
    var t := c[|b|..];
    Compare(LOWEST, t + "XX") <= 0 && Compare(t + LOWEST, "XX") <= 0
  }

  /** The rows of the two devices cannot be told apart by their base keys. */
  predicate Confused(d: Device, e: Device) {
    SortableBase(d) == SortableBase(e) || Clash(SortableBase(d), SortableBase(e))
  }

  /** No two different devices have one base key, or base keys of which one continues the other by a text
      that falls between the suffixes. */
  ghost predicate ToldApart(devices: set<Device>) {
    forall b, c :: b in devices && c in devices && b != c ==> !Confused(b, c)
  }

  lemma LowestRow(d: Device) returns (r: Row)
    ensures r.device == d && Suffix(r) == LOWEST
  {
    r := ProfileRow(d, OtherSource, -1, "");
    MinusOneIsLowestText(r.created, WIDTH);
    SuffixOfProfile(r);
    assert ['-'] + r.title == ['-'];
  }

  /** Every suffix lies between the lowest one and the device's "XX". */
  lemma SuffixBounds(r: Row)
    ensures Compare(LOWEST, Suffix(r)) <= 0 && Compare(Suffix(r), "XX") <= 0
    ensures r.ProfileRow? ==> Compare(Suffix(r), "XX") == -1
  {
    if r.ProfileRow? {
      SuffixOfProfile(r);
      NothingBelowLowest(r.created, WIDTH, r.title);
      RankThenText('0', SourceRank(r.source), LowestText(WIDTH) + ['-'], Rest(r));
      FirstDecides(Suffix(r), "XX");
    } else {
      FirstDecides(LOWEST, Suffix(r));
    }
  }

  /** a <= b < c <= d */
  lemma Below(a: string, b: string, c: string, d: string)
    requires Compare(a, b) <= 0 && Compare(c, b) > 0 && Compare(c, d) <= 0
    ensures Compare(a, d) == -1 && Compare(d, a) == 1
  {
    CompareFlip(c, b);
    CompareTransitive(a, b, c);
    CompareTransitive(a, c, d);
    CompareFlip(a, d);
    if Compare(a, d) == 0 {
      CompareZero(a, d);
      CompareTransitive(c, a, b);
    }
  }

  /** Texts a and d lie between lo and hi; putting t before d moves it past all of them, one way. */
  lemma OneSide(t: string, lo: string, hi: string, a: string, d: string)
    requires Compare(lo, a) <= 0 && Compare(a, hi) <= 0 && Compare(lo, d) <= 0 && Compare(d, hi) <= 0
    requires Compare(lo, t + hi) > 0 || Compare(t + lo, hi) > 0
    ensures Compare(a, t + d) == if Compare(lo, t + hi) > 0 then 1 else -1
  {
    CompareSamePrefix(t, d, hi);
    CompareSamePrefix(t, lo, d);
    if Compare(lo, t + hi) > 0 {
      Below(t + d, t + hi, lo, a);
    } else {
      Below(a, hi, t + lo, t + d);
    }
  }

  lemma OneSideOfBase(b: string, t: string, lo: string, hi: string, a: string, d: string)
    requires Compare(lo, a) <= 0 && Compare(a, hi) <= 0 && Compare(lo, d) <= 0 && Compare(d, hi) <= 0
    requires Compare(lo, t + hi) > 0 || Compare(t + lo, hi) > 0
    ensures Compare(b + a, (b + t) + d) == if Compare(lo, t + hi) > 0 then 1 else -1
  {
    OneSide(t, lo, hi, a, d);
    CompareSamePrefix(b, a, t + d);
    assert (b + t) + d == b + (t + d);
  }

  /** If c continues b without a clash, all rows of c are on one side of all rows of b. */
  lemma NoClashOneSide(p: Row, q: Row)
    requires var b, c := SortableBase(p.device), SortableBase(q.device); b < c && !Clash(b, c)
    ensures Compare(Key(p), Key(q)) == Side(SortableBase(p.device), SortableBase(q.device))
  {
    var b, c := SortableBase(p.device), SortableBase(q.device);
    var t := c[|b|..];
    assert c == b + t;
    SuffixBounds(p);
    SuffixBounds(q);
    OneSideOfBase(b, t, LOWEST, "XX", Suffix(p), Suffix(q));
  }

  /** Which of two devices without a clash comes first does not depend on the rows compared. */
  function Side(b: string, c: string): int {
    if b < c then (if Compare(LOWEST, c[|b|..] + "XX") > 0 then 1 else -1)
    else if c < b then (if Compare(LOWEST, b[|c|..] + "XX") > 0 then -1 else 1)
    else Compare(b, c)
  }

  lemma SideDecides(p: Row, q: Row)
    requires !Confused(p.device, q.device) && !Confused(q.device, p.device)
    ensures Compare(Key(p), Key(q)) == Side(SortableBase(p.device), SortableBase(q.device)) != 0
  {
    var b, c := SortableBase(p.device), SortableBase(q.device);
    if b < c {
      NoClashOneSide(p, q);
    } else if c < b {
      NoClashOneSide(q, p);
      CompareFlip(Key(p), Key(q));
    } else {
      CompareDecided(b, c, Suffix(p), Suffix(q));
    }
  }

  lemma DeviceFirst(rows: seq<Row>, i: nat, j: nat)
    requires Sorted(rows) && i < j < |rows| && rows[i].device == rows[j].device && rows[j].DeviceRow?
    ensures rows[i].DeviceRow?
  {
    CompareSamePrefix(SortableBase(rows[i].device), Suffix(rows[j]), Suffix(rows[i]));
    CompareFlip(Suffix(rows[j]), Suffix(rows[i]));
    SuffixBounds(rows[i]);
  }

  lemma NothingBetween(rows: seq<Row>, i: nat, j: nat, k: nat)
    requires Sorted(rows) && i < j < k < |rows| && rows[i].device == rows[k].device
    requires ToldApart({rows[i].device, rows[j].device})
    ensures rows[j].device == rows[i].device
  {
    if rows[j].device != rows[i].device {
      SideDecides(rows[j], rows[i]);
      SideDecides(rows[j], rows[k]);
      CompareFlip(Key(rows[j]), Key(rows[k]));
    }
  }

  /** A row of c, which continues b by t, whose text falls between b's lowest profile and b's device row. */
  lemma RowBetween(t: string, c: Device) returns (mid: Row)
    requires t != [] && Compare(LOWEST, t + "XX") <= 0 && Compare(t + LOWEST, "XX") <= 0
    ensures mid.device == c
    ensures Compare(t + Suffix(mid), "XX") <= 0 && Compare(LOWEST, t + Suffix(mid)) <= 0
  {
    var low := LOWEST;
    assert low[0] == '-' && (t + "XX")[0] == (t + low)[0] == t[0];
    if t[0] == '-' {
      mid := DeviceRow(c);
      assert Suffix(mid) == "XX" && (t + "XX")[0] == '-';
    } else {
      mid := LowestRow(c);
    }
  }

  lemma InOrder(b: string, x: string, y: string, z: string)
    requires Compare(y, x) <= 0 && Compare(z, y) <= 0 && Compare(z, x) <= 0
    ensures Compare(b + y, b + x) <= 0 && Compare(b + z, b + y) <= 0 && Compare(b + z, b + x) <= 0
  {
    CompareSamePrefix(b, y, x);
    CompareSamePrefix(b, z, y);
    CompareSamePrefix(b, z, x);
  }

  lemma Intruder(p: Row, q: Row, r: Row)
    requires SortFunc(p, q) <= 0 && SortFunc(q, r) <= 0 && SortFunc(p, r) <= 0
    requires p.device == r.device != q.device
    ensures Sorted([p, q, r]) && Over([p, q, r], {p.device, q.device}) && !Grouped([p, q, r])
  {
    var rows := [p, q, r];
    assert rows[0] == p && rows[1] == q && rows[2] == r;
    assert rows[0].device == rows[2].device != rows[1].device;
  }

  lemma ExtendedText(c: string, b: string, t: string, x: string)
    requires c == b + t
    ensures c + x == b + (t + x)
  {
  }

  lemma PlacedBetween(b: Device, t: string, mid: Row, lowest: Row)
    requires SortableBase(mid.device) == SortableBase(b) + t && lowest.device == b
    requires Compare(SortableBase(b) + (t + Suffix(mid)), SortableBase(b) + "XX") <= 0
    requires Compare(SortableBase(b) + Suffix(lowest), SortableBase(b) + (t + Suffix(mid))) <= 0
    requires Compare(SortableBase(b) + Suffix(lowest), SortableBase(b) + "XX") <= 0
    ensures var p := DeviceRow(b); SortFunc(p, mid) <= 0 && SortFunc(mid, lowest) <= 0 && SortFunc(p, lowest) <= 0
  {
    ExtendedText(SortableBase(mid.device), SortableBase(b), t, Suffix(mid));
  }

  /** A row of c that falls among the rows of b. */
  lemma ClashBreaks(b: Device, c: Device) returns (rows: seq<Row>)
    requires Clash(SortableBase(b), SortableBase(c))
    ensures Sorted(rows) && Over(rows, {b, c}) && !Grouped(rows)
  {
    var t := SortableBase(c)[|SortableBase(b)|..];
    assert SortableBase(c) == SortableBase(b) + t;
    var mid := RowBetween(t, c);
    var lowest := LowestRow(b);
    SuffixBounds(lowest);
    InOrder(SortableBase(b), "XX", t + Suffix(mid), Suffix(lowest));
    PlacedBetween(b, t, mid, lowest);
    rows := [DeviceRow(b), mid, lowest];
    Intruder(DeviceRow(b), mid, lowest);
  }

  /** Of two devices with one base key, one's device row falls between the other's device row and profile. */
  lemma EqualKeysBreak(b: Device, c: Device) returns (rows: seq<Row>)
    requires b != c && SortableBase(b) == SortableBase(c)
    ensures Sorted(rows) && Over(rows, {b, c}) && !Grouped(rows)
  {
    var lowest := LowestRow(b);
    rows := [DeviceRow(b), DeviceRow(c), lowest];
    SuffixBounds(lowest);
    InOrder(SortableBase(b), "XX", "XX", Suffix(lowest));
    Intruder(DeviceRow(b), DeviceRow(c), lowest);
  }

  lemma ConfusedBreaks(b: Device, c: Device) returns (rows: seq<Row>)
    requires b != c && Confused(b, c)
    ensures Sorted(rows) && Over(rows, {b, c}) && !Grouped(rows)
  {
    if SortableBase(b) == SortableBase(c) {
      rows := EqualKeysBreak(b, c);
    } else {
      rows := ClashBreaks(b, c);
    }
  }

  /** For every set of devices: in every sorted list of their rows each device comes first among its own
      rows and they stand together, exactly when the base keys tell the devices apart. */
  lemma GroupedIffToldApart(devices: set<Device>)
    ensures AlwaysGrouped(devices) <==> ToldApart(devices)
  {
    if b, c :| b in devices && c in devices && b != c && Confused(b, c) {
      var rows := ConfusedBreaks(b, c);
      assert Over(rows, devices);
      assert !AlwaysGrouped(devices);
    } else {
      forall rows: seq<Row> | Sorted(rows) && Over(rows, devices) ensures Grouped(rows) {
        ToldApartGrouped(rows, devices);
      }
    }
  }

  lemma ToldApartGrouped(rows: seq<Row>, devices: set<Device>)
    requires Sorted(rows) && Over(rows, devices) && ToldApart(devices)
    ensures Grouped(rows)
  {
    forall i, j | 0 <= i < j < |rows| && rows[i].device == rows[j].device && rows[j].DeviceRow?
      ensures rows[i].DeviceRow?
    {
      DeviceFirst(rows, i, j);
    }
    forall i, j, k | 0 <= i < j < k < |rows| && rows[i].device == rows[k].device
      ensures rows[j].device == rows[i].device
    {
      NothingBetween(rows, i, j, k);
    }
  }

  /** In particular when no device's base key is a prefix of, or the same as, another device's. */
  lemma PrefixFreeGrouped(devices: set<Device>)
    requires forall b, c :: b in devices && c in devices && b != c ==> !(SortableBase(b) <= SortableBase(c))
    ensures AlwaysGrouped(devices)
  {
    GroupedIffToldApart(devices);
  }

  /** Two printers with different ids for which the list is not grouped: one key continues the other. */
  lemma PrefixWitness(b: Device, c: Device)
    requires b.kind == c.kind == Printer && b.id == "a" && b.title == "b" && c.id == "a-b" && c.title == "c"
    ensures SortableBase(b) < SortableBase(c) && !AlwaysGrouped({b, c})
  {
    assert SortableBase(b) == "0-a-b" && SortableBase(c) == "0-a-b-c";
    var t := SortableBase(c)[|SortableBase(b)|..];
    assert t == "-c";
    LowestBelow(t + "XX");
    FirstDecides(t + LOWEST, "XX");
    GroupedIffToldApart({b, c});
    assert Confused(b, c);
  }

  lemma LowestBelow(x: string)
    requires |x| >= 2 && x[0] == '-' && x[1] > '0'
    ensures Compare(LOWEST, x) == -1
  {
    var low := LOWEST;
    assert low[0] == '-' && low[1] == '0';
    FirstDecides(low[1..], x[1..]);
  }

  /** And two with different ids and titles that have one and the same key. */
  lemma EqualKeysWitness(b: Device, c: Device)
    requires b.kind == c.kind == Printer && b.id == "a" && b.title == "b-c" && c.id == "a-b" && c.title == "c"
    ensures SortableBase(b) == SortableBase(c) && !AlwaysGrouped({b, c})
  {
    assert SortableBase(b) == "0-a-b-c" && SortableBase(c) == "0-a-b-c";
    assert |b.id| != |c.id|;
    GroupedIffToldApart({b, c});
    assert Confused(b, c);
  }
}
