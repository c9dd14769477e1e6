// The seatmap builder's state, `{ cabins, cabinMaps }`, and the handlers that
// replace it: loading a saved seatmap, the cabin list edits, and the per-cabin
// grid edits, together with the two seat counts read from it.

module Seatmaps {
  import opened Wrappers
  import opened Text
  import opened Dicts
  import opened Grid
  import opened SeatCounts
  import Labels
  import Layout

  /** A seatmap as saved on an aircraft record; a part that is absent is None. */
  datatype Stored = Stored(cabins: Option<seq<Cabin>>, cabinMaps: Option<Dict<string, CabinMap>>)

  /** The key ensureSeatmap files a cabin's map under: its id, or the
      fallback id for a cabin without one. */
  function KeyOf(c: Cabin, fallbackId: string): string
  {
    if c.id != "" then c.id else fallbackId
  }

  /** The key of each cabin, in cabin order. */
  function CabinKeys(cabins: seq<Cabin>, fallbackId: string): (ks: seq<string>)
    ensures |ks| == |cabins|
  {
    seq(|cabins|, i requires 0 <= i < |cabins| => KeyOf(cabins[i], fallbackId))
  }

  /** A freshly built map for each cabin, in cabin order. */
  function CabinBuilds(cabins: seq<Cabin>): (ms: seq<CabinMap>)
    ensures |ms| == |cabins|
  {
    seq(|cabins|, i requires 0 <= i < |cabins| => BuildCabinMap(cabins[i]))
  }

  /** One freshly built map per cabin, filed in cabin order; a later cabin
      under the same key replaces the earlier one's map where it stands. */
  function BuildMaps(cabins: seq<Cabin>, fallbackId: string): (d: Dict<string, CabinMap>)
    ensures Dicts.Valid(d)
    ensures forall k :: k in d.values <==> k in CabinKeys(cabins, fallbackId)
  {
    FromPairs(CabinKeys(cabins, fallbackId), CabinBuilds(cabins))
  }

  /** Every map filed is the freshly built map of a cabin with that key, so it
      is in lockstep with its labels. */
  lemma BuildMapsFresh(cabins: seq<Cabin>, fallbackId: string, k: string)
    requires k in CabinKeys(cabins, fallbackId)
    ensures k in BuildMaps(cabins, fallbackId).values
    ensures exists i :: 0 <= i < |cabins| && KeyOf(cabins[i], fallbackId) == k &&
                        BuildMaps(cabins, fallbackId).values[k] == BuildCabinMap(cabins[i])
    ensures WellFormed(BuildMaps(cabins, fallbackId).values[k])
  {
    FromPairsValues(CabinKeys(cabins, fallbackId), CabinBuilds(cabins), k);
  }

  /** With distinct keys, the maps are filed in cabin order, each under its
      own cabin's key and built from that cabin. */
  lemma BuildMapsDistinct(cabins: seq<Cabin>, fallbackId: string)
    requires NoDup(CabinKeys(cabins, fallbackId))
    ensures var d := BuildMaps(cabins, fallbackId);
      && d.keys == CabinKeys(cabins, fallbackId)
      && forall i :: 0 <= i < |cabins| ==>
           d.keys[i] == KeyOf(cabins[i], fallbackId) && d.values[d.keys[i]] == BuildCabinMap(cabins[i])
  {
    var ks, vs := CabinKeys(cabins, fallbackId), CabinBuilds(cabins);
    FromPairsDistinct(ks, vs);
    var d := BuildMaps(cabins, fallbackId);
    forall i | 0 <= i < |cabins|
      ensures d.keys[i] == KeyOf(cabins[i], fallbackId) && d.values[d.keys[i]] == BuildCabinMap(cabins[i])
    {
      assert ks[i] == KeyOf(cabins[i], fallbackId) && vs[i] == BuildCabinMap(cabins[i]);
    }
  }

  /** The forEach that files a freshly built map under each cabin's key. */
  method FillMaps(cabins: seq<Cabin>, fallbackId: string) returns (maps: Dict<string, CabinMap>)
    ensures maps == BuildMaps(cabins, fallbackId)
  {
    ghost var ks, vs := CabinKeys(cabins, fallbackId), CabinBuilds(cabins);
    maps := Empty();
    for i := 0 to |cabins|
      invariant maps == FromPairs(ks[..i], vs[..i])
    {
      var key, built := KeyOf(cabins[i], fallbackId), BuildCabinMap(cabins[i]);
      assert key == ks[i] && built == vs[i];
      FromPairsSnoc(ks, vs, i);
      maps := Put(maps, key, built);
    }
    assert ks[..|cabins|] == ks && vs[..|cabins|] == vs;
  }

  /** The cabins ensureSeatmap yields: the saved ones, or none. */
  function StoredCabins(stored: Option<Stored>): seq<Cabin>
  {
    if stored.Some? && stored.value.cabins.Some? then stored.value.cabins.value else []
  }

  function StoredMaps(stored: Option<Stored>): Dict<string, CabinMap>
  {
    if stored.Some? && stored.value.cabinMaps.Some? then stored.value.cabinMaps.value else Empty()
  }

  /** The cabin maps ensureSeatmap yields: the saved ones, unless there are none
      while there are cabins, in which case one is built per cabin. */
  function EnsuredMaps(stored: Option<Stored>, fallbackId: string): Dict<string, CabinMap>
  {
    var cabins, maps := StoredCabins(stored), StoredMaps(stored);
    if maps.keys == [] && cabins != [] then BuildMaps(cabins, fallbackId) else maps
  }

  /** ensureSeatmap */
  method EnsureSeatmap(stored: Option<Stored>, fallbackId: string) returns (cabins: seq<Cabin>, maps: Dict<string, CabinMap>)
    requires Dicts.Valid(StoredMaps(stored))
    ensures cabins == StoredCabins(stored) && maps == EnsuredMaps(stored, fallbackId)
    ensures Dicts.Valid(maps)
    ensures cabins != [] ==> maps.keys != []
  {
    cabins := StoredCabins(stored);
    maps := StoredMaps(stored);
    if maps.keys == [] && |cabins| > 0 {
      maps := FillMaps(cabins, fallbackId);
      assert CabinKeys(cabins, fallbackId)[0] in maps.values;
    }
  }

  /** The field an input of the cabin form writes. */
  datatype CabinField =
    | Name(name: string) | Deck(deck: int) | StartRow(startRow: string) | EndRow(endRow: string)
    | StartCol(startCol: string) | EndCol(endCol: string) | LayoutField(layout: string)

  function WithField(c: Cabin, f: CabinField): (c': Cabin)
    ensures c'.id == c.id
  {
    match f
    case Name(v) => c.(name := v)
    case Deck(v) => c.(deck := v)
    case StartRow(v) => c.(startRow := v)
    case EndRow(v) => c.(endRow := v)
    case StartCol(v) => c.(startCol := v)
    case EndCol(v) => c.(endCol := v)
    case LayoutField(v) => c.(layout := v)
  }

  /** `cabins.filter(c => c.id !== id)` */
  function CabinsWithout(cabins: seq<Cabin>, id: string): (r: seq<Cabin>)
    ensures forall c :: c in r <==> c in cabins && c.id != id
    ensures |r| <= |cabins|
  {
    if cabins == [] then []
    else
      var rest := CabinsWithout(cabins[..|cabins| - 1], id);
      var last := cabins[|cabins| - 1];
      assert cabins == cabins[..|cabins| - 1] + [last];
      if last.id == id then rest else rest + [last]
  }

  /** The cabin addCabin creates under id `id`. */
  function NewCabin(id: string): Cabin
  {
    Cabin(id, "Economy", 1, "1", "10", "A", "F", "3-3")
  }

  /** The counting pass over one map's rows. */
  method CountGrid(counts: Dict<string, nat>, ghost before: seq<string>, grid: seq<seq<Cell>>, cabinName: string)
    returns (out: Dict<string, nat>)
    requires counts == Tally(before)
    ensures out == Tally(before + GridBuckets(grid, cabinName))
  {
    out := counts;
    assert before + GridBuckets(grid[..0], cabinName) == before;
    for r := 0 to |grid|
      invariant out == Tally(before + GridBuckets(grid[..r], cabinName))
    {
      GridStep(before, grid, r, cabinName);
      out := CountRow(out, before + GridBuckets(grid[..r], cabinName), grid[r], cabinName);
    }
    assert grid[..|grid|] == grid;
  }

  /** The counting pass over one row: each seat adds one to its class. */
  method CountRow(counts: Dict<string, nat>, ghost before: seq<string>, row: seq<Cell>, cabinName: string)
    returns (out: Dict<string, nat>)
    requires counts == Tally(before)
    ensures out == Tally(before + RowBuckets(row, cabinName))
  {
    out := counts;
    assert before + RowBuckets(row[..0], cabinName) == before;
    for c := 0 to |row|
      invariant out == Tally(before + RowBuckets(row[..c], cabinName))
    {
      RowStep(before, row, c, cabinName);
      var cell := row[c];
      if cell.kind == Seat {
        out := Counted(out, Bucket(cell, cabinName));
      }
    }
    assert row[..|row|] == row;
  }

  lemma NewCabinRows()
    ensures var rows := Labels.LabelRange("1", "10"); |rows| == 10 && rows[0] == "1" && rows[9] == "10"
  {
    assert ParseNat("1") == 1 by {
      assert "1"[..0] == [];
    }
    assert ParseNat("10") == 10 by {
      assert "10"[..1] == "1";
      assert "1"[..0] == [];
    }
    Labels.LabelRangeNumeric("1", "10");
    assert Labels.LabelRange("1", "10")[9] == NatToString(10);
  }

  lemma NewCabinCols()
    ensures Labels.LabelRange("A", "F") == ["A", "B", "C", "D", "E", "F"]
  {
    assert !IsDecimal("A");
    assert Labels.StartCode("A") == 65 && Labels.StartCode("F") == 70;
    var r := Labels.LabelRange("A", "F");
    assert |r| == 6;
    forall i | 0 <= i < 6 ensures r[i] == [(65 + i) as char] {
      assert r[i] == [CharOfUnit(65 + i)];
    }
  }

  /** Six columns under layout "3-3": three seats, the aisle, two seats. */
  lemma NewCabinPattern(layout: string, n: nat)
    requires layout == "3-3" && n == 6
    ensures var r := Layout.Resolve(layout, n);
      |r| == 6 && forall j :: 0 <= j < 6 ==> (r[j] == Layout.Aisle <==> j == 3)
  {
    assert layout == ['3', '-', '3'];
    Layout.ResolveTwoGroups('3', '3', n);
    Layout.TwoGroupsAisle(3, 3);
  }

  /** A six-column map generated from the pattern seat, seat, seat, aisle,
      seat, seat is blocked exactly in column 3, so it has five seats a row. */
  lemma AisleAtThree(m: CabinMap, p: seq<Layout.Role>)
    requires WellFormed(m) && |m.cols| == 6
    requires |p| == 6 && forall j :: 0 <= j < 6 ==> (p[j] == Layout.Aisle <==> j == 3)
    requires forall i, j :: 0 <= i < |m.grid| && 0 <= j < |m.grid[i]| ==> (m.grid[i][j].kind == Blocked <==> p[j] == Layout.Aisle)
    ensures forall i, j :: 0 <= i < |m.grid| && 0 <= j < |m.grid[i]| ==> (m.grid[i][j].kind == Blocked <==> j == 3)
    ensures GridSeats(m.grid) == 5 * |m.grid|
  {
    forall i, j | 0 <= i < |m.grid| && 0 <= j < |m.grid[i]|
      ensures m.grid[i][j].kind == Blocked <==> j == 3
    {
      assert |m.grid[i]| == 6;
      assert m.grid[i][j].kind == Blocked <==> p[j] == Layout.Aisle;
    }
    forall i | 0 <= i < |m.grid| ensures RowSeats(m.grid[i]) == 5 {
      assert |m.grid[i]| == 6;
      RowSeatsOneBlocked(m.grid[i], 3, 6);
      assert m.grid[i][..6] == m.grid[i];
    }
    GridSeatsUniform(m.grid, 5);
  }

  /** Six columns under layout "3-3": the aisle is column index 3. */
  lemma SixColumnsThreeThree(c: Cabin)
    requires c.layout == "3-3" && |Labels.LabelRange(c.startCol, c.endCol)| == 6
    ensures var m := BuildCabinMap(c);
      forall i, j :: 0 <= i < |m.grid| && 0 <= j < |m.grid[i]| ==> (m.grid[i][j].kind == Blocked <==> j == 3)
  {
    var m := BuildCabinMap(c);
    NewCabinPattern(EffectiveLayout(c.layout), |m.cols|);
    AisleAtThree(m, Layout.Resolve(EffectiveLayout(c.layout), |m.cols|));
  }

  /** The cabin addCabin creates has ten rows "1".."10", six columns "A".."F",
      an aisle at column index 3 in every row, and so 50 seats. */
  lemma NewCabinMap(id: string)
    ensures var m := BuildCabinMap(NewCabin(id));
      && |m.rows| == 10 && m.rows[0] == "1" && m.rows[9] == "10"
      && m.cols == ["A", "B", "C", "D", "E", "F"]
      && (forall i, j :: 0 <= i < |m.grid| && 0 <= j < |m.grid[i]| ==> (m.grid[i][j].kind == Blocked <==> j == 3))
      && GridSeats(m.grid) == 50
  {
    var m := BuildCabinMap(NewCabin(id));
    NewCabinRows();
    NewCabinCols();
    NewCabinPattern("3-3", 6);
    AisleAtThree(m, Layout.Resolve("3-3", 6));
  }

  class SeatmapEditor {
    var cabins: seq<Cabin>
    var cabinMaps: Dict<string, CabinMap>

    /** The key order lists each cabin map exactly once. */
    ghost predicate Valid()
      reads this
    {
      Dicts.Valid(cabinMaps)
    }

    /** Every cabin map is in lockstep with its labels. */
    ghost predicate AllWellFormed()
      reads this
    {
      forall k :: k in cabinMaps.values ==> WellFormed(cabinMaps.values[k])
    }

    /** The initial state, `ensureSeatmap({})`. */
    constructor ()
      ensures Valid() && AllWellFormed()
      ensures cabins == [] && cabinMaps == Empty()
    {
      cabins := [];
      cabinMaps := Empty();
    }

    /** Selecting an aircraft: the state becomes `ensureSeatmap(aircraft)`. */
    method Load(stored: Option<Stored>, fallbackId: string)
      requires Dicts.Valid(StoredMaps(stored))
      modifies this
      ensures Valid()
      ensures cabins == StoredCabins(stored) && cabinMaps == EnsuredMaps(stored, fallbackId)
    {
      cabins, cabinMaps := EnsureSeatmap(stored, fallbackId);
    }

    /** totalSeats */
    function TotalSeats(): nat
      reads this
      requires Valid()
    {
      SeatsIn(MapsInOrder(cabinMaps))
    }

    /** cabinSeatCount: one count per class, in the order classes first occur,
      adding up to the seat total. */
    method CabinSeatCount() returns (counts: Dict<string, nat>)
      requires Valid()
      ensures counts == Tally(SeatBuckets(MapsInOrder(cabinMaps), cabins))
      ensures Total(counts) == TotalSeats()
    {
      var maps := MapsInOrder(cabinMaps);
      counts := Empty();
      for idx := 0 to |maps|
        invariant counts == Tally(SeatBuckets(maps[..idx], cabins))
      {
        SeatBucketsSnoc(maps, cabins, idx);
        counts := CountGrid(counts, SeatBuckets(maps[..idx], cabins), maps[idx].grid, FallbackName(cabins, idx));
      }
      assert maps[..|maps|] == maps;
      CountsMatchTotal(maps, cabins);
    }

    /** applyToolToCell with the palette's active tool and zone name. */
    method ApplyToolToCell(cabinId: string, rowIdx: nat, colIdx: int, activeTool: string, zoneName: string)
      requires Valid()
      requires cabinId in cabinMaps.values ==> rowIdx < |cabinMaps.values[cabinId].grid|
      modifies this
      ensures Valid() && cabins == old(cabins)
      ensures cabinId !in old(cabinMaps.values) ==> cabinMaps == old(cabinMaps)
      ensures cabinId in old(cabinMaps.values) ==>
        cabinMaps == Put(old(cabinMaps), cabinId, ApplyTool(old(cabinMaps.values[cabinId]), rowIdx, colIdx, ToolOf(activeTool), zoneName))
      ensures old(AllWellFormed()) ==> AllWellFormed()
    {
      if cabinId in cabinMaps.values {
        var m := cabinMaps.values[cabinId];
        cabinMaps := Put(cabinMaps, cabinId, ApplyTool(m, rowIdx, colIdx, ToolOf(activeTool), zoneName));
      }
    }

    /** removeRow */
    method RemoveRow(cabinId: string)
      requires Valid()
      modifies this
      ensures Valid() && cabins == old(cabins)
      ensures cabinId !in old(cabinMaps.values) ==> cabinMaps == old(cabinMaps)
      ensures cabinId in old(cabinMaps.values) ==>
        cabinMaps == Put(old(cabinMaps), cabinId, DropLastRow(old(cabinMaps.values[cabinId])))
      ensures old(AllWellFormed()) ==> AllWellFormed()
    {
      if cabinId in cabinMaps.values {
        cabinMaps := Put(cabinMaps, cabinId, DropLastRow(cabinMaps.values[cabinId]));
      }
    }

    /** removeCol */
    method RemoveCol(cabinId: string)
      requires Valid()
      modifies this
      ensures Valid() && cabins == old(cabins)
      ensures cabinId !in old(cabinMaps.values) ==> cabinMaps == old(cabinMaps)
      ensures cabinId in old(cabinMaps.values) ==>
        cabinMaps == Put(old(cabinMaps), cabinId, DropLastCol(old(cabinMaps.values[cabinId])))
      ensures old(AllWellFormed()) ==> AllWellFormed()
    {
      if cabinId in cabinMaps.values {
        cabinMaps := Put(cabinMaps, cabinId, DropLastCol(cabinMaps.values[cabinId]));
      }
    }

    /** updateCabinField: every cabin with that id takes the new field value;
      the cabin maps are not touched. */
    method UpdateCabinField(id: string, field: CabinField)
      requires Valid()
      modifies this
      ensures Valid() && cabinMaps == old(cabinMaps)
      ensures |cabins| == |old(cabins)|
      ensures forall i :: 0 <= i < |cabins| ==>
        cabins[i] == if old(cabins[i]).id == id then WithField(old(cabins[i]), field) else old(cabins[i])
    {
      cabins := seq(|cabins|, i requires 0 <= i < |cabins| reads this =>
        if cabins[i].id == id then WithField(cabins[i], field) else cabins[i]);
    }

    /** regenerateGridFromCabins: nothing without cabins; otherwise the maps
      become exactly one fresh map per cabin id, so running it again changes
      nothing. */
    method RegenerateGridFromCabins()
      requires Valid()
      modifies this
      ensures cabins != [] ==> AllWellFormed()
      ensures cabins == old(cabins)
      ensures cabins == [] ==> cabinMaps == old(cabinMaps)
      ensures cabins != [] ==> cabinMaps == BuildMaps(cabins, "")
      ensures Valid()
    {
      if |cabins| == 0 {
        return;
      }
      cabinMaps := FillMaps(cabins, "");
      forall k | k in cabinMaps.values ensures WellFormed(cabinMaps.values[k]) {
        BuildMapsFresh(cabins, "", k);
      }
    }

    /** addCabin: an Economy cabin over rows 1-10 and columns A-F with layout
      "3-3" is appended, and its freshly built map filed under its id. */
    method AddCabin(newId: string)
      requires Valid()
      modifies this
      ensures Valid()
      ensures cabins == old(cabins) + [NewCabin(newId)]
      ensures cabinMaps == Put(old(cabinMaps), newId, BuildCabinMap(NewCabin(newId)))
      ensures old(AllWellFormed()) ==> AllWellFormed()
    {
      var cabin := NewCabin(newId);
      cabins := cabins + [cabin];
      cabinMaps := Put(cabinMaps, cabin.id, BuildCabinMap(cabin));
    }

    /** deleteCabin: the cabin records with that id and the map under it go. */
    method DeleteCabin(id: string)
      requires Valid()
      modifies this
      ensures Valid()
      ensures cabins == CabinsWithout(old(cabins), id)
      ensures cabinMaps == Remove(old(cabinMaps), id)
      ensures id !in cabinMaps.values && forall c :: c in cabins ==> c.id != id
      ensures old(AllWellFormed()) ==> AllWellFormed()
    {
      cabins := CabinsWithout(cabins, id);
      cabinMaps := Remove(cabinMaps, id);
    }

    /** updateRowLabel */
    method UpdateRowLabel(cabinId: string, idx: nat, value: string)
      requires Valid()
      requires cabinId in cabinMaps.values ==> idx < |cabinMaps.values[cabinId].rows|
      modifies this
      ensures Valid() && cabins == old(cabins)
      ensures cabinId !in old(cabinMaps.values) ==> cabinMaps == old(cabinMaps)
      ensures cabinId in old(cabinMaps.values) ==>
        cabinMaps == Put(old(cabinMaps), cabinId, RelabelRow(old(cabinMaps.values[cabinId]), idx, value))
      ensures old(AllWellFormed()) ==> AllWellFormed()
    {
      if cabinId in cabinMaps.values {
        cabinMaps := Put(cabinMaps, cabinId, RelabelRow(cabinMaps.values[cabinId], idx, value));
      }
    }

    /** updateColLabel */
    method UpdateColLabel(cabinId: string, idx: nat, value: string)
      requires Valid()
      requires cabinId in cabinMaps.values ==> idx < |cabinMaps.values[cabinId].cols|
      modifies this
      ensures Valid() && cabins == old(cabins)
      ensures cabinId !in old(cabinMaps.values) ==> cabinMaps == old(cabinMaps)
      ensures cabinId in old(cabinMaps.values) ==>
        cabinMaps == Put(old(cabinMaps), cabinId, RelabelCol(old(cabinMaps.values[cabinId]), idx, value))
      ensures old(AllWellFormed()) ==> AllWellFormed()
    {
      if cabinId in cabinMaps.values {
        cabinMaps := Put(cabinMaps, cabinId, RelabelCol(cabinMaps.values[cabinId], idx, value));
      }
    }

    /** assignRowZone */
    method AssignRowZone(cabinId: string, rowIdx: int, zone: string)
      requires Valid()
      modifies this
      ensures Valid() && cabins == old(cabins)
      ensures cabinId !in old(cabinMaps.values) ==> cabinMaps == old(cabinMaps)
      ensures cabinId in old(cabinMaps.values) ==>
        cabinMaps == Put(old(cabinMaps), cabinId, Grid.AssignRowZone(old(cabinMaps.values[cabinId]), rowIdx, zone))
      ensures old(AllWellFormed()) ==> AllWellFormed()
    {
      if cabinId in cabinMaps.values {
        cabinMaps := Put(cabinMaps, cabinId, Grid.AssignRowZone(cabinMaps.values[cabinId], rowIdx, zone));
      }
    }

    /** applyZoneBlock with the block form's start and end and the zone name. */
    method ApplyZoneBlock(cabinId: string, blockStart: string, blockEnd: string, zoneName: string)
      requires Valid()
      modifies this
      ensures Valid() && cabins == old(cabins)
      ensures cabinId !in old(cabinMaps.values) ==> cabinMaps == old(cabinMaps)
      ensures cabinId in old(cabinMaps.values) ==>
        cabinMaps == Put(old(cabinMaps), cabinId, Grid.ApplyZoneBlock(old(cabinMaps.values[cabinId]), blockStart, blockEnd, zoneName))
      ensures old(AllWellFormed()) ==> AllWellFormed()
    {
      if cabinId in cabinMaps.values {
        var m := cabinMaps.values[cabinId];
        cabinMaps := Put(cabinMaps, cabinId, Grid.ApplyZoneBlock(m, blockStart, blockEnd, zoneName));
      }
    }

    /** toggleColumnAisle */
    method ToggleColumnAisle(cabinId: string, colIdx: int)
      requires Valid()
      modifies this
      ensures Valid() && cabins == old(cabins)
      ensures cabinId !in old(cabinMaps.values) ==> cabinMaps == old(cabinMaps)
      ensures cabinId in old(cabinMaps.values) ==>
        cabinMaps == Put(old(cabinMaps), cabinId, ToggleColumn(old(cabinMaps.values[cabinId]), colIdx))
      ensures old(AllWellFormed()) ==> AllWellFormed()
    {
      if cabinId in cabinMaps.values {
        cabinMaps := Put(cabinMaps, cabinId, ToggleColumn(cabinMaps.values[cabinId], colIdx));
      }
    }
  }
}
