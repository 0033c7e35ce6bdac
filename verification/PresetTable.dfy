/** The table of stored stations: a transformer of values, the model object that updates the table
    and what it displays, and what every run keeps.

    The table's primary key is (frequency, region).  An insertion that would violate it fails, and
    the failure is not looked at. */
module PresetTable {
  import opened Options

  datatype Row = Row(frequency: int, band: string, description: string, name: string, genre: string, region: string)

  datatype Info = Info(name: string, genre: string)

  /** The rows in the order of insertion, the region that the model works on, the rows displayed,
      and the list of regions. */
  datatype Model = Model(rows: seq<Row>, region: string, shown: seq<Row>, regions: seq<string>)

  predicate SameKey(a: Row, b: Row) {
    a.frequency == b.frequency && a.region == b.region
  }

  predicate HasKey(rows: seq<Row>, r: Row) {
    exists k :: 0 <= k < |rows| && SameKey(rows[k], r)
  }

  predicate IsStation(r: Row, frequency: int, band: string, region: string) {
    r.frequency == frequency && r.band == band && r.region == region
  }

  function StationInfo(rows: seq<Row>, frequency: int, band: string, region: string): Option<Info> {
    if rows == [] then None
    else if IsStation(rows[0], frequency, band, region) then Some(Info(rows[0].name, rows[0].genre))
    else StationInfo(rows[1..], frequency, band, region)
  }

  function Insert(rows: seq<Row>, r: Row): seq<Row> {
    if HasKey(rows, r) then rows else rows + [r]
  }

  function OfRegion(rows: seq<Row>, region: string): seq<Row> {
    if rows == [] then []
    else OfRegion(rows[..|rows| - 1], region) + (if rows[|rows| - 1].region == region then [rows[|rows| - 1]] else [])
  }

  /** Insertion by frequency. */
  function Place(sorted: seq<Row>, r: Row): seq<Row> {
    if sorted == [] || sorted[|sorted| - 1].frequency <= r.frequency then sorted + [r]
    else Place(sorted[..|sorted| - 1], r) + [sorted[|sorted| - 1]]
  }

  function Sorted(rows: seq<Row>): seq<Row> {
    if rows == [] then [] else Place(Sorted(rows[..|rows| - 1]), rows[|rows| - 1])
  }

  /** The distinct regions of the rows, each where it first occurs. */
  function DistinctRegions(rows: seq<Row>): seq<string> {
    if rows == [] then []
    else
      var prev := DistinctRegions(rows[..|rows| - 1]);
      var region := rows[|rows| - 1].region;
      if region in prev then prev else prev + [region]
  }

  function NonEmpty(regions: seq<string>): seq<string> {
    if regions == [] then []
    else NonEmpty(regions[..|regions| - 1]) + (if regions[|regions| - 1] == "" then [] else [regions[|regions| - 1]])
  }

  function UpdateRegion(m: Model, region: string): Model {
    Model(m.rows, region, Sorted(OfRegion(m.rows, region)), NonEmpty(DistinctRegions(m.rows)))
  }

  function Add(m: Model, r: Row, display: bool): Model {
    var rows := if StationInfo(m.rows, r.frequency, r.band, r.region).Some? then m.rows else Insert(m.rows, r);
    var n := m.(rows := rows, region := r.region);
    if display then UpdateRegion(n, r.region) else n
  }

  function AddAll(m: Model, list: seq<Row>): Model {
    if list == [] then m else Add(AddAll(m, list[..|list| - 1]), list[|list| - 1], false)
  }

  /** The stations of a file; None is a file that cannot be opened. */
  function Import(m: Model, file: Option<seq<Row>>): Model {
    match file
    case None => m
    case Some(list) => var n := AddAll(m, list); UpdateRegion(n, n.region)
  }

  function Without(rows: seq<Row>, region: string): seq<Row> {
    if rows == [] then []
    else Without(rows[..|rows| - 1], region) + (if rows[|rows| - 1].region == region then [] else [rows[|rows| - 1]])
  }

  function Clear(m: Model, region: string): Model {
    UpdateRegion(m.(rows := Without(m.rows, region)), if region == m.region then "" else m.region)
  }

  // ---------------------------------------------------------------- runs

  datatype Op =
    | AddOp(row: Row, display: bool) | ImportOp(file: Option<seq<Row>>)
    | ClearOp(region: string) | ShowOp(region: string)

  function Apply(m: Model, op: Op): Model {
    match op
    case AddOp(row, display) => Add(m, row, display)
    case ImportOp(file) => Import(m, file)
    case ClearOp(region) => Clear(m, region)
    case ShowOp(region) => UpdateRegion(m, region)
  }

  /** A run on an empty table. */
  function Run(region: string, ops: seq<Op>): Model {
    if ops == [] then UpdateRegion(Model([], region, [], []), region)
    else Apply(Run(region, ops[..|ops| - 1]), ops[|ops| - 1])
  }

  /** The primary key. */
  ghost predicate KeysUnique(rows: seq<Row>) {
    forall i, j :: 0 <= i < j < |rows| ==> !SameKey(rows[i], rows[j])
  }

  ghost predicate Distinct<T>(s: seq<T>) {
    forall i, j :: 0 <= i < j < |s| ==> s[i] != s[j]
  }

  ghost predicate Ascending(rows: seq<Row>) {
    forall i, j :: 0 <= i < j < |rows| ==> rows[i].frequency < rows[j].frequency
  }

  /** What is displayed is what the table holds. */
  ghost predicate UpToDate(m: Model) {
    && Ascending(m.shown)
    && (forall r :: r in m.shown <==> r in m.rows && r.region == m.region)
    && Distinct(m.regions)
    && (forall g :: g in m.regions <==> g != "" && exists r :: r in m.rows && r.region == g)
  }

  lemma WithoutSource(rows: seq<Row>, region: string, i: nat) returns (k: nat)
    requires i < |Without(rows, region)|
    ensures k < |rows| && rows[k] == Without(rows, region)[i] && rows[k].region != region
  {
    var prev := rows[..|rows| - 1];
    if i < |Without(prev, region)| { k := WithoutSource(prev, region, i); } else { k := |rows| - 1; }
  }

  lemma WithoutMembers(rows: seq<Row>, region: string)
    ensures forall r :: r in Without(rows, region) <==> r in rows && r.region != region
  {
    if rows != [] {
      var prev := rows[..|rows| - 1];
      assert rows == prev + [rows[|rows| - 1]];
      WithoutMembers(prev, region);
    }
  }

  lemma WithoutUnique(rows: seq<Row>, region: string)
    requires KeysUnique(rows)
    ensures KeysUnique(Without(rows, region))
  {
    if rows != [] {
      var prev, last := rows[..|rows| - 1], rows[|rows| - 1];
      WithoutUnique(prev, region);
      if last.region != region {
        forall i | 0 <= i < |Without(prev, region)| ensures !SameKey(Without(prev, region)[i], last) {
          var k := WithoutSource(prev, region, i);
        }
      }
    }
  }

  lemma AddUnique(m: Model, r: Row, display: bool)
    requires KeysUnique(m.rows)
    ensures KeysUnique(Add(m, r, display).rows)
  {
  }

  lemma AddAllUnique(m: Model, list: seq<Row>)
    requires KeysUnique(m.rows)
    ensures KeysUnique(AddAll(m, list).rows)
  {
    if list != [] {
      AddAllUnique(m, list[..|list| - 1]);
      AddUnique(AddAll(m, list[..|list| - 1]), list[|list| - 1], false);
    }
  }

  /** Over every run no two rows share frequency and region, and so no two share frequency, band
      and region. */
  lemma {:induction false} RunUnique(region: string, ops: seq<Op>)
    ensures KeysUnique(Run(region, ops).rows)
  {
    if ops != [] {
      var m := Run(region, ops[..|ops| - 1]);
      RunUnique(region, ops[..|ops| - 1]);
      match ops[|ops| - 1]
      case AddOp(row, display) => AddUnique(m, row, display);
      case ImportOp(file) => if file.Some? { AddAllUnique(m, file.value); }
      case ClearOp(g) => WithoutUnique(m.rows, g);
      case ShowOp(g) =>
    }
  }

  // ---------------------------------------------------------------- what is displayed

  lemma OfRegionMembers(rows: seq<Row>, region: string)
    ensures forall r :: r in OfRegion(rows, region) <==> r in rows && r.region == region
  {
    if rows != [] {
      assert rows == rows[..|rows| - 1] + [rows[|rows| - 1]];
      OfRegionMembers(rows[..|rows| - 1], region);
    }
  }

  lemma OfRegionUnique(rows: seq<Row>, region: string)
    requires KeysUnique(rows)
    ensures KeysUnique(OfRegion(rows, region))
  {
    if rows != [] {
      var prev, last := rows[..|rows| - 1], rows[|rows| - 1];
      OfRegionUnique(prev, region);
      OfRegionMembers(prev, region);
      forall i | 0 <= i < |OfRegion(prev, region)| ensures !SameKey(OfRegion(prev, region)[i], last) {
        assert OfRegion(prev, region)[i] in prev;
      }
    }
  }

  lemma PlaceMembers(sorted: seq<Row>, r: Row)
    ensures forall x :: x in Place(sorted, r) <==> x in sorted || x == r
  {
    if sorted != [] && sorted[|sorted| - 1].frequency > r.frequency {
      assert sorted == sorted[..|sorted| - 1] + [sorted[|sorted| - 1]];
      PlaceMembers(sorted[..|sorted| - 1], r);
    }
  }

  lemma PlaceAscending(sorted: seq<Row>, r: Row)
    requires Ascending(sorted) && forall x :: x in sorted ==> x.frequency != r.frequency
    ensures Ascending(Place(sorted, r))
  {
    if sorted != [] && sorted[|sorted| - 1].frequency > r.frequency {
      var prev, last := sorted[..|sorted| - 1], sorted[|sorted| - 1];
      assert forall x :: x in prev ==> x in sorted;
      PlaceAscending(prev, r);
      PlaceMembers(prev, r);
      forall i | 0 <= i < |Place(prev, r)| ensures Place(prev, r)[i].frequency < last.frequency {
        var x := Place(prev, r)[i];
        assert x in prev || x == r;
      }
    } else if sorted != [] {
      assert sorted[|sorted| - 1] in sorted;
    }
  }

  lemma SortedMembers(rows: seq<Row>)
    ensures forall r :: r in Sorted(rows) <==> r in rows
  {
    if rows != [] {
      var prev, last := rows[..|rows| - 1], rows[|rows| - 1];
      assert rows == prev + [last];
      SortedMembers(prev);
      PlaceMembers(Sorted(prev), last);
    }
  }

  /** Within one region the primary key makes the order strict. */
  lemma SortedAscending(rows: seq<Row>, region: string)
    requires KeysUnique(rows) && forall r :: r in rows ==> r.region == region
    ensures Ascending(Sorted(rows))
  {
    if rows != [] {
      var prev, last := rows[..|rows| - 1], rows[|rows| - 1];
      assert forall r :: r in prev ==> r in rows;
      SortedAscending(prev, region);
      SortedMembers(prev);
      forall x | x in Sorted(prev) ensures x.frequency != last.frequency {
        var k :| 0 <= k < |prev| && prev[k] == x;
        assert rows[k] == x && last in rows && !SameKey(rows[k], rows[|rows| - 1]);
      }
      PlaceAscending(Sorted(prev), last);
    }
  }

  lemma DistinctRegionsMembers(rows: seq<Row>)
    ensures Distinct(DistinctRegions(rows))
    ensures forall g :: g in DistinctRegions(rows) <==> exists r :: r in rows && r.region == g
  {
    if rows != [] {
      var prev, last := rows[..|rows| - 1], rows[|rows| - 1];
      assert rows == prev + [last];
      DistinctRegionsMembers(prev);
      forall g ensures g in DistinctRegions(rows) <==> exists r :: r in rows && r.region == g {
        assert last in rows;
        if r :| r in rows && r.region == g { assert r in prev || r == last; }
        if r :| r in prev && r.region == g { assert r in rows; }
      }
    }
  }

  lemma NonEmptyMembers(regions: seq<string>)
    requires Distinct(regions)
    ensures Distinct(NonEmpty(regions))
    ensures forall g :: g in NonEmpty(regions) <==> g in regions && g != ""
  {
    if regions != [] {
      var prev, last := regions[..|regions| - 1], regions[|regions| - 1];
      assert regions == prev + [last];
      NonEmptyMembers(prev);
      forall i | 0 <= i < |NonEmpty(prev)| ensures NonEmpty(prev)[i] != last {
        assert NonEmpty(prev)[i] in prev;
      }
    }
  }

  /** Whatever was displayed before: after a refresh the display shows the table. */
  lemma Refreshed(m: Model, region: string)
    requires KeysUnique(m.rows)
    ensures UpToDate(UpdateRegion(m, region))
  {
    OfRegionMembers(m.rows, region);
    OfRegionUnique(m.rows, region);
    SortedMembers(OfRegion(m.rows, region));
    SortedAscending(OfRegion(m.rows, region), region);
    DistinctRegionsMembers(m.rows);
    NonEmptyMembers(DistinctRegions(m.rows));
  }

  predicate Refreshes(op: Op) {
    match op
    case AddOp(_, display) => display
    case ImportOp(file) => file.Some?
    case _ => true
  }

  /** After any run that ends with a refreshing operation the rows displayed are those of the
      current region, in strictly ascending order, and the region list is the distinct regions. */
  lemma RunUpToDate(region: string, ops: seq<Op>)
    requires ops == [] || Refreshes(ops[|ops| - 1])
    ensures UpToDate(Run(region, ops))
  {
    RunUnique(region, ops);
    var r := Run(region, ops);
    Refreshed(r, r.region);
    assert r == UpdateRegion(r, r.region);
  }

  // ---------------------------------------------------------------- which region is displayed

  /** After an addition the model works on the region of the station.  If the display is updated it
      shows that region, the station with it if its key was new; otherwise it stays as it was. */
  lemma AddShows(m: Model, r: Row, display: bool)
    requires KeysUnique(m.rows)
    ensures var n := Add(m, r, display);
            && n.region == r.region
            && (display ==> UpToDate(n) && (!HasKey(m.rows, r) ==> r in n.shown))
            && (!display ==> n.shown == m.shown && n.regions == m.regions)
  {
    AddUnique(m, r, display);
    AddRows(m, r, display);
    var n := Add(m, r, display);
    if display {
      Refreshed(n, r.region);
      assert n == UpdateRegion(n, r.region);
      if !HasKey(m.rows, r) { assert n.rows[|m.rows|] == r; }
    }
  }

  /** The region chosen last: the one of the last station added or imported, or the one asked for;
      after the current region was cleared it is that of the personal stations. */
  function LastRegion(start: string, ops: seq<Op>): string {
    if ops == [] then start
    else
      var prev := LastRegion(start, ops[..|ops| - 1]);
      match ops[|ops| - 1]
      case AddOp(row, _) => row.region
      case ImportOp(None) => prev
      case ImportOp(Some(list)) => if list == [] then prev else list[|list| - 1].region
      case ClearOp(region) => if region == prev then "" else prev
      case ShowOp(region) => region
  }

  /** Over every run. */
  lemma {:induction false} RunRegion(start: string, ops: seq<Op>)
    ensures Run(start, ops).region == LastRegion(start, ops)
  {
    if ops != [] {
      var m := Run(start, ops[..|ops| - 1]);
      RunRegion(start, ops[..|ops| - 1]);
      match ops[|ops| - 1]
      case AddOp(row, display) => RunUnique(start, ops[..|ops| - 1]); AddShows(m, row, display);
      case ImportOp(file) => if file.Some? { AddAllRows(m, file.value); }
      case ClearOp(_) =>
      case ShowOp(_) =>
    }
  }

  /** An operation that refreshes nothing leaves the display as it was. */
  lemma RunStaysShown(start: string, ops: seq<Op>)
    requires ops != [] && !Refreshes(ops[|ops| - 1])
    ensures var m, n := Run(start, ops[..|ops| - 1]), Run(start, ops);
            n.shown == m.shown && n.regions == m.regions
  {
    var m := Run(start, ops[..|ops| - 1]);
    RunUnique(start, ops[..|ops| - 1]);
    if ops[|ops| - 1].AddOp? { AddShows(m, ops[|ops| - 1].row, false); }
  }

  // ---------------------------------------------------------------- what is stored

  /** What is known of a station: the name and the genre of the first row for it. */
  lemma StationInfoFirst(rows: seq<Row>, frequency: int, band: string, region: string, k: nat)
    requires k < |rows| && IsStation(rows[k], frequency, band, region)
    requires forall j :: 0 <= j < k ==> !IsStation(rows[j], frequency, band, region)
    ensures StationInfo(rows, frequency, band, region) == Some(Info(rows[k].name, rows[k].genre))
  {
    if k > 0 {
      assert forall j :: 0 <= j < k - 1 ==> rows[1..][j] == rows[j + 1];
      StationInfoFirst(rows[1..], frequency, band, region, k - 1);
    }
  }

  lemma StationInfoIff(rows: seq<Row>, frequency: int, band: string, region: string)
    ensures StationInfo(rows, frequency, band, region).Some? <==>
            exists k :: 0 <= k < |rows| && IsStation(rows[k], frequency, band, region)
  {
    if rows != [] {
      var rest := rows[1..];
      StationInfoIff(rest, frequency, band, region);
      if k :| 0 <= k < |rows| && IsStation(rows[k], frequency, band, region) {
        if k > 0 { assert rest[k - 1] == rows[k]; }
      }
      if k :| 0 <= k < |rest| && IsStation(rest[k], frequency, band, region) {
        assert rows[k + 1] == rest[k];
      }
    }
  }

  /** Adding inserts the row if and only if its key is new; what is stored is never changed. */
  lemma AddRows(m: Model, r: Row, display: bool)
    ensures Add(m, r, display).rows == Insert(m.rows, r)
  {
    StationInfoIff(m.rows, r.frequency, r.band, r.region);
    if k :| 0 <= k < |m.rows| && IsStation(m.rows[k], r.frequency, r.band, r.region) {
      assert SameKey(m.rows[k], r);
    }
  }

  /** A station whose key is new is known by its own name and genre afterwards. */
  lemma AddedInfo(m: Model, r: Row, display: bool)
    requires !HasKey(m.rows, r)
    ensures StationInfo(Add(m, r, display).rows, r.frequency, r.band, r.region) == Some(Info(r.name, r.genre))
  {
    AddRows(m, r, display);
    var rows := m.rows + [r];
    forall j | 0 <= j < |m.rows| ensures !IsStation(rows[j], r.frequency, r.band, r.region) {
      assert !SameKey(m.rows[j], r);
    }
    StationInfoFirst(rows, r.frequency, r.band, r.region, |m.rows|);
  }

  /** A station that was added is found afterwards, if and only if no other band has a station on
      its frequency in its region. */
  lemma AddedIff(m: Model, r: Row, display: bool)
    requires KeysUnique(m.rows)
    ensures StationInfo(Add(m, r, display).rows, r.frequency, r.band, r.region).Some? <==>
            !exists k :: 0 <= k < |m.rows| && SameKey(m.rows[k], r) && m.rows[k].band != r.band
  {
    AddRows(m, r, display);
    var rows := Add(m, r, display).rows;
    StationInfoIff(rows, r.frequency, r.band, r.region);
    if HasKey(m.rows, r) {
      var k :| 0 <= k < |m.rows| && SameKey(m.rows[k], r);
    } else {
      assert rows[|m.rows|] == r;
    }
  }

  /** Two bands with a station each on one frequency: the second station is lost. */
  lemma OtherBandLost(region: string, frequency: int)
    ensures var am := Row(frequency, "AM", "", "", "", region);
            var sw := am.(band := "Short Wave");
            var m := Add(Run(region, [AddOp(am, true)]), sw, true);
            am in m.rows && StationInfo(m.rows, frequency, sw.band, region).None?
  {
    var am := Row(frequency, "AM", "", "", "", region);
    var sw := am.(band := "Short Wave");
    var ops := [AddOp(am, true)];
    var start := Run(region, []);
    assert ops[..0] == [] && Run(region, ops) == Add(start, am, true);
    AddRows(start, am, true);
    var m := Run(region, ops);
    assert m.rows == [am] && SameKey(m.rows[0], sw) && m.rows[0].band != sw.band;
    AddRows(m, sw, true);
    AddedIff(m, sw, true);
  }

  /** The rows whose key neither the table nor an earlier row of the list has. */
  function FirstOfKeys(rows: seq<Row>, list: seq<Row>): seq<Row> {
    if list == [] then []
    else
      var prev, last := list[..|list| - 1], list[|list| - 1];
      FirstOfKeys(rows, prev) + (if HasKey(rows, last) || HasKey(prev, last) then [] else [last])
  }

  lemma FirstOfKeysHas(rows: seq<Row>, list: seq<Row>, r: Row)
    ensures HasKey(rows + FirstOfKeys(rows, list), r) <==> HasKey(rows, r) || HasKey(list, r)
  {
    if list == [] {
      assert rows + [] == rows;
    } else {
      var prev, last := list[..|list| - 1], list[|list| - 1];
      FirstOfKeysHas(rows, prev, r);
      HasKeyAppend(prev, last, r);
      assert prev + [last] == list;
      var first := FirstOfKeys(rows, prev);
      if HasKey(rows, last) || HasKey(prev, last) {
        assert FirstOfKeys(rows, list) == first;
        if SameKey(last, r) {
          KeyAgrees(rows, last, r);
          KeyAgrees(prev, last, r);
        }
      } else {
        HasKeyAppend(rows + first, last, r);
        assert rows + FirstOfKeys(rows, list) == rows + first + [last];
      }
    }
  }

  lemma KeyAgrees(rows: seq<Row>, a: Row, b: Row)
    requires SameKey(a, b)
    ensures HasKey(rows, a) <==> HasKey(rows, b)
  {
    if k :| 0 <= k < |rows| && SameKey(rows[k], a) { assert SameKey(rows[k], b); }
    if k :| 0 <= k < |rows| && SameKey(rows[k], b) { assert SameKey(rows[k], a); }
  }

  lemma HasKeyAppend(rows: seq<Row>, last: Row, r: Row)
    ensures HasKey(rows + [last], r) <==> HasKey(rows, r) || SameKey(last, r)
  {
    if k :| 0 <= k < |rows| && SameKey(rows[k], r) { assert (rows + [last])[k] == rows[k]; }
    assert (rows + [last])[|rows|] == last;
  }

  /** Importing appends, in order, the first station of each key that is new. */
  lemma {:induction false} AddAllRows(m: Model, list: seq<Row>)
    ensures AddAll(m, list).rows == m.rows + FirstOfKeys(m.rows, list)
    ensures AddAll(m, list).region == if list == [] then m.region else list[|list| - 1].region
  {
    if list != [] {
      var prev, last := list[..|list| - 1], list[|list| - 1];
      AddAllRows(m, prev);
      AddRows(AddAll(m, prev), last, false);
      FirstOfKeysHas(m.rows, prev, last);
    }
  }

  lemma NothingNew(rows: seq<Row>, list: seq<Row>)
    requires forall k :: 0 <= k < |list| ==> HasKey(rows, list[k])
    ensures FirstOfKeys(rows, list) == []
  {
    if list != [] { NothingNew(rows, list[..|list| - 1]); }
  }

  /** Importing the same file again adds nothing, also if others were imported in between. */
  lemma ReimportAddsNothing(m: Model, list: seq<Row>, more: seq<Row>)
    ensures var n := Import(Import(m, Some(list)), Some(more));
            Import(n, Some(list)).rows == n.rows
  {
    AddAllRows(m, list);
    var a := Import(m, Some(list));
    AddAllRows(a, more);
    var n := Import(a, Some(more));
    forall k | 0 <= k < |list| ensures HasKey(n.rows, list[k]) {
      FirstOfKeysHas(m.rows, list, list[k]);
      FirstOfKeysHas(a.rows, more, list[k]);
      assert SameKey(list[k], list[k]);
    }
    NothingNew(n.rows, list);
    AddAllRows(n, list);
  }

  /** Clearing a region removes its rows, all of them and no others.  The display leaves the region for
      the personal stations, or stays with another one. */
  lemma ClearRemoves(m: Model, region: string)
    ensures forall r :: r in Clear(m, region).rows <==> r in m.rows && r.region != region
    ensures m.region == region ==> Clear(m, region).region == ""
    ensures m.region != region ==> Clear(m, region).region == m.region
  {
    WithoutMembers(m.rows, region);
  }

  // ---------------------------------------------------------------- the model object

  class RadioPresetsModel {
    var rows: seq<Row>
    var currentRegion: string
    var shown: seq<Row>
    var regionList: seq<string>

    function View(): Model
      reads this
    {
      Model(rows, currentRegion, shown, regionList)
    }

    constructor (region: string)
      ensures View() == Run(region, [])
    {
      rows, currentRegion, shown, regionList := [], region, [], [];
      new;
      Update(region);
    }

    method AddToPresets(r: Row, updateDisplay: bool)
      modifies this
      ensures View() == Add(old(View()), r, updateDisplay)
    {
      currentRegion := r.region;
      var info := StationInfo(rows, r.frequency, r.band, currentRegion);
      if info.Some? {
        if updateDisplay { Update(r.region); }
        return;
      }
      rows := Insert(rows, r);
      if updateDisplay { Update(r.region); }
    }

    method ImportStationsFrom(file: Option<seq<Row>>)
      modifies this
      ensures View() == Import(old(View()), file)
    {
      if file.Some? {
        var presets := file.value;
        for k := 0 to |presets|
          invariant View() == AddAll(old(View()), presets[..k])
        {
          assert presets[..k + 1][..k] == presets[..k];
          AddToPresets(presets[k], false);
        }
        assert presets[..|presets|] == presets;
        Update(currentRegion);
      }
    }

    method ClearRegion(region: string)
      modifies this
      ensures View() == Clear(old(View()), region)
    {
      rows := Without(rows, region);
      if region == currentRegion { Update(""); } else { Update(currentRegion); }
    }

    method Update(region: string)
      modifies this
      ensures View() == UpdateRegion(old(View()), region)
    {
      currentRegion := region;
      shown := Sorted(OfRegion(rows, region));
      var query := DistinctRegions(rows);
      regionList := [];
      for k := 0 to |query|
        invariant regionList == NonEmpty(query[..k]) && rows == old(rows) && currentRegion == region
        invariant shown == Sorted(OfRegion(rows, region))
      {
        assert query[..k + 1][..k] == query[..k];
        if query[k] != "" { regionList := regionList + [query[k]]; }
      }
      assert query[..|query|] == query;
    }
  }
}
