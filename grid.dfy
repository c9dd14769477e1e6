// The seatmap builder's cabin grid: how one cabin's rows and columns of cells
// are generated from its extents and layout, and the pure edits the builder's
// handlers apply to one cabin map.

module Grid {
  import opened Wrappers
  import opened Text
  import opened Dicts
  import Labels
  import Layout

  datatype CellType = Seat | Blocked

  /** The feature markers a seat can carry. */
  datatype Tag = Exit | Vip | Cip | Wchr | Bassinet | Washroom | Galley

  /** One grid cell: its row and column labels, seat or blocked, the cabin
      name recorded when it was generated, its feature tags and its zone. */
  datatype Cell = Cell(row: string, col: string, kind: CellType, cabin: string, tags: seq<Tag>, zone: string)

  /** `{ rows, cols, grid }`: the labels and the row-major cells of one cabin. */
  datatype CabinMap = CabinMap(rows: seq<string>, cols: seq<string>, grid: seq<seq<Cell>>)

  /** A cabin record as the cabin form edits it; an empty id or layout stands
      for a missing one. */
  datatype Cabin = Cabin(id: string, name: string, deck: int, startRow: string, endRow: string,
                         startCol: string, endCol: string, layout: string)

  /** The palette tools that can be applied to one cell. */
  datatype Tool = SeatTool | BlockTool | FeatureTool(tag: Tag) | ZoneTool

  function TagName(t: Tag): string
  {
    match t
    case Exit => "exit"
    case Vip => "vip"
    case Cip => "cip"
    case Wchr => "wchr"
    case Bassinet => "bassinet"
    case Washroom => "washroom"
    case Galley => "galley"
  }

  function ToolName(t: Tool): string
  {
    match t
    case SeatTool => "seat"
    case BlockTool => "blocked"
    case FeatureTool(tag) => TagName(tag)
    case ZoneTool => "zone"
  }

  /** The palette key of the active tool; any other key selects no tool. */
  function ToolOf(name: string): (t: Option<Tool>)
    ensures t.Some? ==> ToolName(t.value) == name
  {
    if name == "seat" then Some(SeatTool)
    else if name == "blocked" then Some(BlockTool)
    else if name == "exit" then Some(FeatureTool(Exit))
    else if name == "vip" then Some(FeatureTool(Vip))
    else if name == "cip" then Some(FeatureTool(Cip))
    else if name == "wchr" then Some(FeatureTool(Wchr))
    else if name == "bassinet" then Some(FeatureTool(Bassinet))
    else if name == "washroom" then Some(FeatureTool(Washroom))
    else if name == "galley" then Some(FeatureTool(Galley))
    else if name == "zone" then Some(ZoneTool)
    else None
  }

  /** Every tool is reachable from its palette key. */
  lemma ToolNameRoundTrip(t: Tool)
    ensures ToolOf(ToolName(t)) == Some(t)
  {
    if t.FeatureTool? {
      match t.tag
      case Exit => case Vip => case Cip => case Wchr =>
      case Bassinet => case Washroom => case Galley =>
    }
  }

  // ---------------------------------------------------------------- invariant

  predicate GoodCell(c: Cell, row: string, col: string)
  {
    c.row == row && c.col == col && (c.kind == Blocked ==> c.tags == []) && NoDup(c.tags)
  }

  /** The grid is in lockstep with its labels: one grid row per row label, one
      cell per column label in every row, every cell carrying the labels of its
      position; a blocked cell has no tags and no cell repeats a tag. */
  predicate WellFormed(m: CabinMap)
  {
    && |m.grid| == |m.rows|
    && (forall i :: 0 <= i < |m.grid| ==> |m.grid[i]| == |m.cols|)
    && (forall i, j :: 0 <= i < |m.grid| && 0 <= j < |m.grid[i]| ==> GoodCell(m.grid[i][j], m.rows[i], m.cols[j]))
  }

  /** Same number of rows, and the same number of cells in each row. */
  predicate SameShape(a: seq<seq<Cell>>, b: seq<seq<Cell>>)
  {
    |a| == |b| && forall i :: 0 <= i < |a| ==> |a[i]| == |b[i]|
  }

  // --------------------------------------------------------------- generation

  /** `cabin.layout || '3-3'` */
  function EffectiveLayout(layout: string): string
  {
    if layout == "" then "3-3" else layout
  }

  /** buildCabinMap: the labels of both extents, and one fresh cell per
      position, blocked exactly under an aisle of the layout. */
  function BuildCabinMap(cabin: Cabin): (m: CabinMap)
    ensures m.rows == Labels.LabelRange(cabin.startRow, cabin.endRow)
    ensures m.cols == Labels.LabelRange(cabin.startCol, cabin.endCol)
    ensures WellFormed(m)
    ensures forall i, j :: 0 <= i < |m.grid| && 0 <= j < |m.grid[i]| ==>
      var c := m.grid[i][j];
      && (c.kind == Blocked <==> Layout.Resolve(EffectiveLayout(cabin.layout), |m.cols|)[j] == Layout.Aisle)
      && c.cabin == cabin.name && c.tags == [] && c.zone == ""
  {
    var cols := Labels.LabelRange(cabin.startCol, cabin.endCol);
    FreshGrid(Labels.LabelRange(cabin.startRow, cabin.endRow), cols, Layout.Resolve(EffectiveLayout(cabin.layout), |cols|), cabin.name)
  }

  /** The grid of buildCabinMap for given labels and column pattern: one
      untagged, unzoned cell of cabin `name` per position, blocked exactly
      under an aisle. */
  function FreshGrid(rows: seq<string>, cols: seq<string>, pattern: seq<Layout.Role>, name: string): (m: CabinMap)
    requires |pattern| == |cols|
    ensures m.rows == rows && m.cols == cols && WellFormed(m)
    ensures forall i, j :: 0 <= i < |m.grid| && 0 <= j < |m.grid[i]| ==>
      var c := m.grid[i][j];
      && (c.kind == Blocked <==> pattern[j] == Layout.Aisle)
      && c.cabin == name && c.tags == [] && c.zone == ""
  {
    CabinMap(rows, cols,
      seq(|rows|, i requires 0 <= i < |rows| =>
        seq(|cols|, j requires 0 <= j < |cols| =>
          Cell(rows[i], cols[j], if pattern[j] == Layout.Aisle then Blocked else Seat, name, [], ""))))
  }

  /** A missing layout builds exactly what the default "3-3" builds. */
  lemma BuildDefaultLayout(cabin: Cabin)
    requires cabin.layout == ""
    ensures BuildCabinMap(cabin) == BuildCabinMap(cabin.(layout := "3-3"))
  {
  }

  /** Under a layout with groups, a generated cell is blocked exactly when its
      column directly follows a group other than the last; the blocked padding
      of a layout narrower than the cabin still yields seats. */
  lemma BuildBlockedColumns(cabin: Cabin, i: nat, j: nat)
    requires var m := BuildCabinMap(cabin); i < |m.grid| && j < |m.grid[i]|
    requires Layout.Groups(EffectiveLayout(cabin.layout)) != []
    ensures var m, gs := BuildCabinMap(cabin), Layout.Groups(EffectiveLayout(cabin.layout));
      m.grid[i][j].kind == Blocked <==> exists k :: 0 <= k < |gs| - 1 && j == Layout.AislePos(gs, k)
  {
    var m := BuildCabinMap(cabin);
    Layout.ResolveRoles(EffectiveLayout(cabin.layout), |m.cols|);
  }

  // ------------------------------------------------------------ cell tools

  /** The cell a palette tool makes of `x`: 'seat' makes it a seat; 'blocked'
      blocks it and drops its tags; a feature makes it a seat and adds the tag
      unless present; 'zone' makes it a seat in zone `zoneName`. */
  function ToolCell(x: Cell, tool: Tool, zoneName: string): (y: Cell)
    ensures y.row == x.row && y.col == x.col && y.cabin == x.cabin
    ensures y.kind == Blocked <==> tool == BlockTool
    ensures tool == BlockTool ==> y.tags == [] && y.zone == x.zone
    ensures tool == SeatTool ==> y.tags == x.tags && y.zone == x.zone
    ensures tool == ZoneTool ==> y.tags == x.tags && y.zone == zoneName
    ensures tool.FeatureTool? ==>
      && y.zone == x.zone
      && (tool.tag in x.tags ==> y.tags == x.tags)
      && (tool.tag !in x.tags ==> y.tags == x.tags + [tool.tag])
    ensures NoDup(x.tags) ==> NoDup(y.tags)
  {
    match tool
    case SeatTool => x.(kind := Seat)
    case BlockTool => x.(kind := Blocked, tags := [])
    case FeatureTool(tag) =>
      x.(kind := Seat, tags := if tag in x.tags then x.tags else x.tags + [tag])
    case ZoneTool => x.(kind := Seat, zone := zoneName)
  }

  /** Applying the same tool twice is applying it once; in particular a
      feature applied twice leaves a single copy of its tag. */
  lemma ToolIdempotent(x: Cell, tool: Tool, zoneName: string)
    ensures ToolCell(ToolCell(x, tool, zoneName), tool, zoneName) == ToolCell(x, tool, zoneName)
  {
  }

  /** applyToolToCell: only cell (r, c) changes, and it becomes what the tool
      makes of it; a column outside the row or an unknown tool change nothing. */
  function ApplyTool(m: CabinMap, r: nat, c: int, tool: Option<Tool>, zoneName: string): (m': CabinMap)
    requires r < |m.grid|
    ensures m'.rows == m.rows && m'.cols == m.cols && SameShape(m.grid, m'.grid)
    ensures forall i, j :: 0 <= i < |m.grid| && 0 <= j < |m.grid[i]| && (i != r || j != c) ==>
      m'.grid[i][j] == m.grid[i][j]
    ensures 0 <= c < |m.grid[r]| && tool.Some? ==> m'.grid[r][c] == ToolCell(m.grid[r][c], tool.value, zoneName)
    ensures tool.None? || c < 0 || c >= |m.grid[r]| ==> m' == m
    ensures WellFormed(m) ==> WellFormed(m')
  {
    if tool.None? || c < 0 || c >= |m.grid[r]| then m
    else m.(grid := m.grid[r := m.grid[r][c := ToolCell(m.grid[r][c], tool.value, zoneName)]])
  }

  // ------------------------------------------------------- rows and columns

  /** removeRow: the last row label and the last grid row go; nothing happens
      when there is no row label. */
  function DropLastRow(m: CabinMap): (m': CabinMap)
    ensures m.rows == [] ==> m' == m
    ensures m.rows != [] ==>
      && m'.rows == m.rows[..|m.rows| - 1] && m'.cols == m.cols
      && |m'.grid| == (if m.grid == [] then 0 else |m.grid| - 1)
      && forall i :: 0 <= i < |m'.grid| ==> m'.grid[i] == m.grid[i]
    ensures WellFormed(m) ==> WellFormed(m')
  {
    if m.rows == [] then m
    else m.(rows := m.rows[..|m.rows| - 1], grid := if m.grid == [] then [] else m.grid[..|m.grid| - 1])
  }

  /** removeCol: the last column label and the last cell of every row go;
      nothing happens when there is no column label. */
  function DropLastCol(m: CabinMap): (m': CabinMap)
    ensures m.cols == [] ==> m' == m
    ensures m.cols != [] ==>
      && m'.cols == m.cols[..|m.cols| - 1] && m'.rows == m.rows && |m'.grid| == |m.grid|
      && forall i :: 0 <= i < |m.grid| ==>
           |m'.grid[i]| == (if m.grid[i] == [] then 0 else |m.grid[i]| - 1)
           && forall j :: 0 <= j < |m'.grid[i]| ==> m'.grid[i][j] == m.grid[i][j]
    ensures WellFormed(m) ==> WellFormed(m')
  {
    if m.cols == [] then m
    else
      m.(cols := m.cols[..|m.cols| - 1],
         grid := seq(|m.grid|, i requires 0 <= i < |m.grid| =>
                   if m.grid[i] == [] then [] else m.grid[i][..|m.grid[i]| - 1]))
  }

  /** updateRowLabel: row label `idx` becomes `value`, and so does the row
      field of every cell in that grid row; nothing else changes. */
  function RelabelRow(m: CabinMap, idx: nat, value: string): (m': CabinMap)
    requires idx < |m.rows|
    ensures m'.rows == m.rows[idx := value] && m'.cols == m.cols && SameShape(m.grid, m'.grid)
    ensures forall i, j :: 0 <= i < |m.grid| && 0 <= j < |m.grid[i]| ==>
      m'.grid[i][j] == if i == idx then m.grid[i][j].(row := value) else m.grid[i][j]
    ensures WellFormed(m) ==> WellFormed(m')
  {
    m.(rows := m.rows[idx := value],
       grid := seq(|m.grid|, i requires 0 <= i < |m.grid| =>
                 if i == idx then seq(|m.grid[i]|, j requires 0 <= j < |m.grid[i]| => m.grid[i][j].(row := value))
                 else m.grid[i]))
  }

  /** updateColLabel: column label `idx` becomes `value`, and so does the col
      field of the cell at that index in every row; nothing else changes. */
  function RelabelCol(m: CabinMap, idx: nat, value: string): (m': CabinMap)
    requires idx < |m.cols|
    ensures m'.cols == m.cols[idx := value] && m'.rows == m.rows && SameShape(m.grid, m'.grid)
    ensures forall i, j :: 0 <= i < |m.grid| && 0 <= j < |m.grid[i]| ==>
      m'.grid[i][j] == if j == idx then m.grid[i][j].(col := value) else m.grid[i][j]
    ensures WellFormed(m) ==> WellFormed(m')
  {
    var m' := m.(cols := m.cols[idx := value],
       grid := seq(|m.grid|, i requires 0 <= i < |m.grid| =>
                 seq(|m.grid[i]|, j requires 0 <= j < |m.grid[i]| =>
                   if j == idx then m.grid[i][j].(col := value) else m.grid[i][j])));
    assert WellFormed(m) ==> WellFormed(m') by {
      if WellFormed(m) {
        forall i, j | 0 <= i < |m'.grid| && 0 <= j < |m'.grid[i]|
          ensures GoodCell(m'.grid[i][j], m'.rows[i], m'.cols[j])
        {
          assert GoodCell(m.grid[i][j], m.rows[i], m.cols[j]);
        }
      }
    }
    m'
  }

  // ------------------------------------------------------------------ zones

  /** Zone `zone` on every cell of the rows lo..hi, seat or blocked alike. */
  function ZoneRows(m: CabinMap, lo: int, hi: int, zone: string): (m': CabinMap)
    ensures m'.rows == m.rows && m'.cols == m.cols && SameShape(m.grid, m'.grid)
    ensures forall i, j :: 0 <= i < |m.grid| && 0 <= j < |m.grid[i]| ==>
      m'.grid[i][j] == if lo <= i <= hi then m.grid[i][j].(zone := zone) else m.grid[i][j]
    ensures WellFormed(m) ==> WellFormed(m')
  {
    m.(grid := seq(|m.grid|, i requires 0 <= i < |m.grid| =>
                 if lo <= i <= hi then seq(|m.grid[i]|, j requires 0 <= j < |m.grid[i]| => m.grid[i][j].(zone := zone))
                 else m.grid[i]))
  }

  /** assignRowZone: every cell of row `r` gets the zone; a row index outside
      the grid changes nothing. */
  function AssignRowZone(m: CabinMap, r: int, zone: string): (m': CabinMap)
    ensures m'.rows == m.rows && m'.cols == m.cols && SameShape(m.grid, m'.grid)
    ensures forall i, j :: 0 <= i < |m.grid| && 0 <= j < |m.grid[i]| ==>
      && m'.grid[i][j].zone == (if i == r then zone else m.grid[i][j].zone)
      && m'.grid[i][j] == m.grid[i][j].(zone := m'.grid[i][j].zone)
    ensures (r < 0 || r >= |m.grid|) ==> m' == m
    ensures WellFormed(m) ==> WellFormed(m')
  {
    var m' := ZoneRows(m, r, r, zone);
    assert (r < 0 || r >= |m.grid|) ==> m'.grid == m.grid;
    m'
  }

  /** `rows.findIndex(r => r === label)`: the first position holding the label, or -1. */
  function FindIndex(s: seq<string>, x: string): (k: int)
    ensures -1 <= k < |s|
    ensures k >= 0 ==> s[k] == x && forall j :: 0 <= j < k ==> s[j] != x
    ensures k == -1 <==> x !in s
  {
    if s == [] then -1
    else if s[0] == x then 0
    else
      var k := FindIndex(s[1..], x);
      if k == -1 then -1 else k + 1
  }

  /** The row index a zone-block bound resolves to: the first row carrying the
      given label, or, when the bound is empty, the first row label for the
      start and the last one for the end; -1 when nothing matches. */
  function BoundIndex(rows: seq<string>, bound: string, isStart: bool): (k: int)
    ensures -1 <= k < |rows|
    ensures bound != "" ==> k == FindIndex(rows, bound)
  {
    if bound != "" then FindIndex(rows, bound)
    else if rows == [] then -1
    else FindIndex(rows, if isStart then rows[0] else rows[|rows| - 1])
  }

  /** applyZoneBlock: with a non-empty zone name and both bounds found, the
      rows between the two bounds, in whichever order they came, get the zone;
      otherwise nothing changes. */
  function ApplyZoneBlock(m: CabinMap, blockStart: string, blockEnd: string, zone: string): (m': CabinMap)
    ensures var s, e := BoundIndex(m.rows, blockStart, true), BoundIndex(m.rows, blockEnd, false);
      if zone == "" || s == -1 || e == -1 then m' == m
      else m' == ZoneRows(m, if s <= e then s else e, if s <= e then e else s, zone)
  {
    var s, e := BoundIndex(m.rows, blockStart, true), BoundIndex(m.rows, blockEnd, false);
    if zone == "" || s == -1 || e == -1 then m
    else
      var (lo, hi) := if s <= e then (s, e) else (e, s);
      ZoneRows(m, lo, hi, zone)
  }

  /** With both bounds given, their order does not matter. */
  lemma ZoneBlockSymmetric(m: CabinMap, a: string, b: string, zone: string)
    requires a != "" && b != ""
    ensures ApplyZoneBlock(m, a, b, zone) == ApplyZoneBlock(m, b, a, zone)
  {
  }

  /** A zone block over labelled rows zones exactly the cells of the rows from
      the first occurrence of one bound to the first occurrence of the other. */
  lemma ZoneBlockRegion(m: CabinMap, a: string, b: string, zone: string)
    requires zone != "" && a != "" && b != "" && a in m.rows && b in m.rows
    ensures var m', s, e := ApplyZoneBlock(m, a, b, zone), FindIndex(m.rows, a), FindIndex(m.rows, b);
      forall i, j :: 0 <= i < |m.grid| && 0 <= j < |m.grid[i]| ==>
        m'.grid[i][j].zone == if (s <= i <= e || e <= i <= s) then zone else m.grid[i][j].zone
  {
    var s, e := FindIndex(m.rows, a), FindIndex(m.rows, b);
    assert BoundIndex(m.rows, a, true) == s && BoundIndex(m.rows, b, false) == e;
    var m' := ApplyZoneBlock(m, a, b, zone);
    assert m' == ZoneRows(m, if s <= e then s else e, if s <= e then e else s, zone);
  }

  // ------------------------------------------------------------ aisle toggle

  /** Every row has a cell at column c and it is blocked. */
  predicate ColumnBlocked(m: CabinMap, c: nat)
  {
    forall i :: 0 <= i < |m.grid| ==> c < |m.grid[i]| && m.grid[i][c].kind == Blocked
  }

  /** toggleColumnAisle: when every cell of the column is blocked they all
      become seats keeping tags and zone; otherwise they all become blocked,
      lose their tags and keep their zone. Other columns do not change, and an
      empty grid or a column outside the labels changes nothing. */
  function ToggleColumn(m: CabinMap, c: int): (m': CabinMap)
    ensures m.grid == [] || c < 0 || c >= |m.cols| ==> m' == m
    ensures m'.rows == m.rows && m'.cols == m.cols && SameShape(m.grid, m'.grid)
    ensures m.grid != [] && 0 <= c < |m.cols| ==>
      forall i, j :: 0 <= i < |m.grid| && 0 <= j < |m.grid[i]| ==>
        m'.grid[i][j] == if j != c then m.grid[i][j]
                         else if ColumnBlocked(m, c) then m.grid[i][j].(kind := Seat)
                         else m.grid[i][j].(kind := Blocked, tags := [])
    ensures WellFormed(m) ==> WellFormed(m')
  {
    if m.grid == [] || c < 0 || c >= |m.cols| then m
    else
      var allBlocked := ColumnBlocked(m, c);
      m.(grid := seq(|m.grid|, i requires 0 <= i < |m.grid| =>
                   seq(|m.grid[i]|, j requires 0 <= j < |m.grid[i]| =>
                     if j != c then m.grid[i][j]
                     else if allBlocked then m.grid[i][j].(kind := Seat)
                     else m.grid[i][j].(kind := Blocked, tags := []))))
  }

  /** In a well-formed map, toggling twice a column that is not wholly blocked
      leaves it all seats without tags, every other cell as it was. */
  lemma ToggleTwice(m: CabinMap, c: nat)
    requires WellFormed(m) && m.grid != [] && c < |m.cols| && !ColumnBlocked(m, c)
    ensures var m2 := ToggleColumn(ToggleColumn(m, c), c);
      && m2.rows == m.rows && m2.cols == m.cols && SameShape(m.grid, m2.grid)
      && forall i, j :: 0 <= i < |m.grid| && 0 <= j < |m.grid[i]| ==>
           m2.grid[i][j] == if j != c then m.grid[i][j] else m.grid[i][j].(kind := Seat, tags := [])
  {
    var m1 := ToggleColumn(m, c);
    assert ColumnBlocked(m1, c);
  }

  /** In a well-formed map, toggling a wholly blocked column twice restores the map. */
  lemma ToggleTwiceBlocked(m: CabinMap, c: nat)
    requires WellFormed(m) && m.grid != [] && c < |m.cols| && ColumnBlocked(m, c)
    ensures ToggleColumn(ToggleColumn(m, c), c) == m
  {
    var m1 := ToggleColumn(m, c);
    var m2 := ToggleColumn(m1, c);
    assert !ColumnBlocked(m1, c) by {
      assert m1.grid[0][c].kind == Seat;
    }
    forall i | 0 <= i < |m.grid| ensures m2.grid[i] == m.grid[i] {
      assert GoodCell(m.grid[i][c], m.rows[i], m.cols[c]) && m.grid[i][c].kind == Blocked;
      assert m1.grid[i][c] == m.grid[i][c].(kind := Seat);
      assert forall j :: 0 <= j < |m.grid[i]| ==> m2.grid[i][j] == m.grid[i][j];
    }
  }

  /** Toggling twice a column of tagless seats restores the map. */
  lemma ToggleTwiceRestores(m: CabinMap, c: nat)
    requires WellFormed(m) && m.grid != [] && c < |m.cols|
    requires forall i :: 0 <= i < |m.grid| ==> m.grid[i][c].kind == Seat && m.grid[i][c].tags == []
    ensures ToggleColumn(ToggleColumn(m, c), c) == m
  {
    var m2 := ToggleColumn(ToggleColumn(m, c), c);
    assert m.grid[0][c].kind == Seat;
    ToggleTwice(m, c);
    forall i | 0 <= i < |m.grid| ensures m2.grid[i] == m.grid[i] {
      assert m.grid[i][c].kind == Seat && m.grid[i][c].tags == [];
      assert forall j :: 0 <= j < |m.grid[i]| ==> m2.grid[i][j] == m.grid[i][j];
    }
  }

  // ------------------------------------------------------------------ counts

  function RowSeats(row: seq<Cell>): (n: nat)
    ensures n <= |row|
  {
    if row == [] then 0 else RowSeats(row[..|row| - 1]) + (if row[|row| - 1].kind == Seat then 1 else 0)
  }

  /** `grid.flat().filter(c => c.type === 'seat').length` */
  function GridSeats(grid: seq<seq<Cell>>): nat
  {
    if grid == [] then 0 else GridSeats(grid[..|grid| - 1]) + RowSeats(grid[|grid| - 1])
  }

  /** A row whose only blocked cell is at column b has one seat fewer than cells. */
  lemma {:induction false} RowSeatsOneBlocked(row: seq<Cell>, b: nat, k: nat)
    requires b < |row| && k <= |row|
    requires forall j :: 0 <= j < |row| ==> (row[j].kind == Blocked <==> j == b)
    ensures RowSeats(row[..k]) == if b < k then k - 1 else k
  {
    if k > 0 {
      RowSeatsOneBlocked(row, b, k - 1);
      assert row[..k][..k - 1] == row[..k - 1];
    }
  }

  /** Rows of n seats each make n seats per row in all. */
  lemma {:induction false} GridSeatsUniform(grid: seq<seq<Cell>>, n: nat)
    requires forall i :: 0 <= i < |grid| ==> RowSeats(grid[i]) == n
    ensures GridSeats(grid) == |grid| * n
  {
    if grid != [] {
      var init := grid[..|grid| - 1];
      assert forall i :: 0 <= i < |init| ==> init[i] == grid[i];
      GridSeatsUniform(init, n);
      assert GridSeats(grid) == GridSeats(init) + RowSeats(grid[|grid| - 1]);
      MulSucc(|init|, n);
    }
  }

  lemma MulSucc(k: nat, n: nat)
    ensures (k + 1) * n == k * n + n
  {
  }
}
